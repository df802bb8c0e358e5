/** The game of src/models/Game.ts: turn order, the `playing`/`won`/`draw`
    status machine, and win detection by the full-grid scan after every move.
    The class becomes a state record; `makeMove` and `reset` become functions
    returning the next state. The getters are the record's fields, and
    `getBoardState` is `Boards.GetState` of its board. */
module Games {
  import opened Wrappers
  import opened Types
  import opened WinScan
  import opened Boards

  datatype Game = Game(config: GameConfig, board: Board, currPlayer: Player,
                       winner: Option<Player>, status: GameStatus)

  /** The board was built from the configuration: its size never changes. */
  predicate Shaped(g: Game) {
    Valid(g.board) && g.board.rows == g.config.rows && g.board.cols == g.config.cols
  }

  /** The constructor: player one to move, no winner, playing, empty board. */
  function NewGame(config: GameConfig): (g: Game)
    ensures Shaped(g) && g.config == config
    ensures g.currPlayer == One && g.winner == None && g.status == Playing
    ensures forall r, c :: InGrid(g.board.cells, r, c) ==> g.board.cells[r][c] == Empty
  {
    Game(config, NewBoard(config.rows, config.cols), One, None, Playing)
  }

  /** `checkWinner`: the scan with its step loop bounded by `connectN`. Only a
      run length of at least two can produce a winner; `CheckWinnerSound`,
      `CheckWinnerComplete` and `CheckWinnerFirst` say which. */
  function CheckWinner(g: Game): (winner: Option<Player>)
    requires Shaped(g)
    ensures winner.Some? ==> g.config.connectN >= 2
  {
    ValidIsRectangular(g.board);
    Scan(g.board.cells, g.config.connectN, g.config.connectN)
  }

  /** `isGameOver`: a winner is recorded or the top row is full. */
  function IsGameOver(g: Game): (over: bool)
    requires Shaped(g) && g.config.rows >= 1
    ensures over <==> g.winner.Some? || forall c :: 0 <= c < g.config.cols ==> g.board.cells[0][c] != Empty
  {
    g.winner != None || IsFull(g.board)
  }

  /** `makeMove`: the success flag and the next state. A finished game and a
      full or out-of-range column are refused without any change; a winning or
      filling move ends the game without passing the turn. */
  function MakeMove(g: Game, col: int): (res: (bool, Game))
    requires Shaped(g) && g.config.rows >= 1
    ensures Shaped(res.1) && res.1.config == g.config
    ensures res.0 <==> !IsGameOver(g) && Boards.NextAvailableRow(g.board, col) != -1
    ensures !res.0 ==> res.1 == g
    ensures res.0 ==> res.1.board == DropPiece(g.board, col, g.currPlayer).1
    ensures res.0 ==> res.1.winner == CheckWinner(res.1)
    ensures res.0 && res.1.winner != None ==>
              res.1.status == Won && res.1.currPlayer == g.currPlayer
    ensures res.0 && res.1.winner == None && IsFull(res.1.board) ==>
              res.1.status == Draw && res.1.currPlayer == g.currPlayer
    ensures res.0 && res.1.winner == None && !IsFull(res.1.board) ==>
              res.1.status == g.status && res.1.currPlayer == Other(g.currPlayer)
  {
    if IsGameOver(g) then (false, g)
    else
      var (row, board) := DropPiece(g.board, col, g.currPlayer);
      if row == -1 then (false, g)
      else
        var moved := g.(board := board);
        var winner := CheckWinner(moved);
        if winner != None then (true, moved.(winner := winner, status := Won))
        else if IsFull(board) then (true, moved.(winner := winner, status := Draw))
        else (true, moved.(winner := winner, currPlayer := Other(g.currPlayer)))
  }

  /** `reset`: the initial state again, with the same configuration. */
  function Reset(g: Game): (g': Game)
    requires Shaped(g)
    ensures g' == NewGame(g.config)
  {
    ResetIsNew(g.board);
    Game(g.config, Boards.Reset(g.board), One, None, Playing)
  }

  /** `getNextAvailableRow`: the board's answer for the same column. */
  function NextAvailableRow(g: Game, col: int): (row: int)
    requires Shaped(g)
    ensures row == Boards.NextAvailableRow(g.board, col)
    ensures row == -1 <==> IsColumnFull(g.board, col)
    ensures row != -1 ==> g.board.cells[row][col] == Empty
  {
    Boards.NextAvailableRow(g.board, col)
  }

  // ---------------------------------------------------------------------------
  // The invariant kept by `makeMove` and `reset`

  /** The status tells the truth about the winner and the board. */
  predicate StatusAgrees(g: Game)
    requires Shaped(g) && g.config.rows >= 1
  {
    && (g.status == Won <==> g.winner != None)
    && (g.status == Draw <==> g.winner == None && IsFull(g.board))
    && (g.status == Playing <==> g.winner == None && !IsFull(g.board))
  }

  /** The invariant of every reachable game: pieces obey gravity, the recorded
      winner is what the scan finds, and the status agrees with both. */
  predicate Inv(g: Game) {
    && Shaped(g) && g.config.rows >= 1
    && Gravity(g.board)
    && g.winner == CheckWinner(g)
    && StatusAgrees(g)
  }

  /** A new game satisfies the invariant. With no columns it would not: the
      empty top row already counts as full while the status reads playing. */
  lemma NewGameInv(config: GameConfig)
    requires config.rows >= 1 && config.cols >= 1
    ensures Inv(NewGame(config))
  {
    var g := NewGame(config);
    ValidIsRectangular(g.board);
    EmptyGridNoWinner(g.board.cells, config.connectN, config.connectN);
    assert g.board.cells[0][0] == Empty;
  }

  /** Under the invariant the game is over exactly when the status is terminal. */
  lemma GameOverIffTerminal(g: Game)
    requires Inv(g)
    ensures IsGameOver(g) <==> g.status != Playing
  {
  }

  /** A player who completes a run on their move is the winner: the board had
      no run before, so every run now passes through the new piece. */
  lemma {:induction false} WinnerIsMover(g: Game, col: int)
    requires Inv(g)
    ensures MakeMove(g, col).0 && MakeMove(g, col).1.winner != None ==>
              MakeMove(g, col).1.winner == Some(g.currPlayer)
  {
    var (ok, g') := MakeMove(g, col);
    if ok && g'.winner != None && g'.winner != Some(g.currPlayer) {
      var n := g.config.connectN;
      var q := g'.winner.value;
      var row := Boards.NextAvailableRow(g.board, col);
      var before, after := g.board.cells, g'.board.cells;
      ValidIsRectangular(g.board);
      ValidIsRectangular(g'.board);
      ScanSound(after, n, n);
      var r, c, k :| 0 <= k < |Directions| && Run(after, n, r, c, Directions[k])
                     && after[r][c] == Piece(q);
      var d := Directions[k];
      forall j | 0 <= j < n
        ensures Matches(before, r, c, d, Piece(q), j)
      {
        assert Matches(after, r, c, d, Piece(q), j);
      }
      assert Matches(before, r, c, d, Piece(q), 0);
      assert Run(before, n, r, c, d);
      ScanComplete(before, n, n, r, c, k);
      assert false;
    }
  }

  /** Every move, accepted or refused, keeps the invariant. */
  lemma MakeMoveKeepsInv(g: Game, col: int)
    requires Inv(g)
    ensures Inv(MakeMove(g, col).1)
  {
    DropKeepsGravity(g.board, col, g.currPlayer);
  }

  /** Reset re-establishes the invariant from any history. */
  lemma ResetInv(g: Game)
    requires Shaped(g) && g.config.rows >= 1 && g.config.cols >= 1
    ensures Inv(Reset(g))
  {
    NewGameInv(g.config);
  }

  /** A refused move can be repeated: it is refused again with nothing changed. */
  lemma RefusalIsStable(g: Game, col: int)
    requires Shaped(g) && g.config.rows >= 1
    requires !MakeMove(g, col).0
    ensures MakeMove(MakeMove(g, col).1, col) == (false, g)
  {
  }

  // ---------------------------------------------------------------------------
  // What `checkWinner` reports

  /** `checkWinner` reports only a real run of `connectN` of the winner's pieces,
      and never for `connectN` below two. */
  lemma CheckWinnerSound(g: Game)
    requires Shaped(g)
    ensures CheckWinner(g).Some? ==>
              g.config.connectN >= 2 &&
              exists r, c, k :: 0 <= k < |Directions| && Run(g.board.cells, g.config.connectN, r, c, Directions[k])
                                && g.board.cells[r][c] == Piece(CheckWinner(g).value)
  {
    ValidIsRectangular(g.board);
    ScanSound(g.board.cells, g.config.connectN, g.config.connectN);
  }

  /** For `connectN >= 2`, `checkWinner` finds a winner whenever some run of
      `connectN` exists along one of the four directions. */
  lemma CheckWinnerComplete(g: Game, r: int, c: int, k: int)
    requires Shaped(g) && g.config.connectN >= 2 && 0 <= k < |Directions|
    requires Rectangular(g.board.cells) && Run(g.board.cells, g.config.connectN, r, c, Directions[k])
    ensures CheckWinner(g).Some?
  {
    ScanComplete(g.board.cells, g.config.connectN, g.config.connectN, r, c, k);
  }

  /** The reported winner owns the first cell, in row-major order, from which
      a run of `connectN` starts. */
  lemma CheckWinnerFirst(g: Game, p: Player)
    requires Shaped(g)
    ensures Rectangular(g.board.cells)
    ensures CheckWinner(g) == Some(p) <==>
              FirstHitOwner(g.board.cells, g.config.connectN, g.config.connectN, p)
  {
    ValidIsRectangular(g.board);
    ScanSomeIff(g.board.cells, g.config.connectN, g.config.connectN, p);
  }

  /** With `connectN <= 1` no winner is ever reported: the only place the scan
      returns is inside its step loop, which then never runs. */
  lemma CheckWinnerNoneBelowTwo(g: Game)
    requires Shaped(g) && g.config.connectN <= 1
    ensures CheckWinner(g) == None
  {
    ValidIsRectangular(g.board);
    ScanNoneBelowTwo(g.board.cells, g.config.connectN, g.config.connectN);
  }
}
