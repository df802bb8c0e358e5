/** board-scenarios.js: the second copy of the win scan, `main(board, N)`, whose
    step loop is bounded by the literal 4, and the hand-written 6 x 7 boards
    kept beside it, each with the outcome its comment claims. */
module Scenarios {
  import opened Wrappers
  import opened Types
  import opened WinScan
  import Boards
  import Games

  /** `main(board, N)`: the scan with the step loop bounded by 4, not by `N`.
      Falling off the end (`undefined`) is `None`. */
  function Main(board: BoardState, n: int): (winner: Option<Player>)
    requires Rectangular(board)
    ensures winner.Some? ==> 2 <= n <= 4
  {
    Scan(board, n, 4)
  }

  /** For `N <= 4` the fixed bound is harmless: `main` agrees with the game's
      `checkWinner` on the same board. */
  lemma MainAgreesUpToFour(board: BoardState, n: int)
    requires Rectangular(board) && n <= 4
    ensures Main(board, n) == Scan(board, n, n)
  {
    ScanBoundIrrelevant(board, n, 4, n);
  }

  /** The same agreement stated against a game whose board is `board`. */
  lemma MainAgreesWithGame(g: Games.Game)
    requires Games.Shaped(g) && g.config.connectN <= 4
    ensures Rectangular(g.board.cells)
    ensures Main(g.board.cells, g.config.connectN) == Games.CheckWinner(g)
  {
    MainAgreesUpToFour(g.board.cells, g.config.connectN);
  }

  /** For `N > 4` the loop stops before `count` can reach `N`: `main` never
      reports a winner, whatever the board. */
  lemma MainNoneAboveFour(board: BoardState, n: int)
    requires Rectangular(board) && n > 4
    ensures Main(board, n) == None
  {
    ScanNoneAboveBound(board, n, 4);
  }

  // ---------------------------------------------------------------------------
  // The fixtures, written with the source's cell codes (0 empty, 1 and 2 players)

  /** One board row of seven coded cells. */
  function Row(a: int, b: int, c: int, d: int, e: int, f: int, g: int): (row: seq<CellValue>)
    requires 0 <= a <= 2 && 0 <= b <= 2 && 0 <= c <= 2 && 0 <= d <= 2
    requires 0 <= e <= 2 && 0 <= f <= 2 && 0 <= g <= 2
    ensures |row| == 7
    ensures Code(row[0]) == a && Code(row[1]) == b && Code(row[2]) == c && Code(row[3]) == d
    ensures Code(row[4]) == e && Code(row[5]) == f && Code(row[6]) == g
  {
    [FromCode(a), FromCode(b), FromCode(c), FromCode(d), FromCode(e), FromCode(f), FromCode(g)]
  }

  const HorizontalWinBottom: BoardState := [
    Row(0, 0, 0, 0, 0, 0, 0),
    Row(0, 0, 0, 0, 0, 0, 0),
    Row(0, 0, 0, 0, 0, 0, 0),
    Row(0, 0, 0, 0, 0, 0, 0),
    Row(0, 0, 0, 0, 0, 0, 0),
    Row(0, 1, 1, 1, 1, 0, 0)]

  const HorizontalWinMiddle: BoardState := [
    Row(0, 0, 0, 0, 0, 0, 0),
    Row(0, 0, 0, 0, 0, 0, 0),
    Row(0, 0, 0, 0, 0, 0, 0),
    Row(0, 2, 2, 2, 2, 0, 0),
    Row(0, 1, 1, 2, 1, 0, 0),
    Row(0, 2, 1, 1, 2, 0, 0)]

  const VerticalWinLeft: BoardState := [
    Row(0, 0, 0, 0, 0, 0, 0),
    Row(0, 0, 0, 0, 0, 0, 0),
    Row(1, 0, 0, 0, 0, 0, 0),
    Row(1, 0, 0, 0, 0, 0, 0),
    Row(1, 2, 0, 0, 0, 0, 0),
    Row(1, 2, 0, 0, 0, 0, 0)]

  const VerticalWinCenter: BoardState := [
    Row(0, 0, 0, 0, 0, 0, 0),
    Row(0, 0, 0, 0, 0, 0, 0),
    Row(0, 0, 0, 2, 0, 0, 0),
    Row(0, 0, 0, 2, 0, 0, 0),
    Row(0, 1, 0, 2, 0, 0, 0),
    Row(0, 1, 1, 2, 0, 0, 0)]

  const DiagonalWinUpRight: BoardState := [
    Row(0, 0, 0, 0, 0, 0, 0),
    Row(0, 0, 0, 0, 0, 0, 0),
    Row(0, 0, 0, 1, 0, 0, 0),
    Row(0, 0, 1, 2, 0, 0, 0),
    Row(0, 1, 2, 2, 0, 0, 0),
    Row(1, 2, 2, 1, 0, 0, 0)]

  const DiagonalWinDownRight: BoardState := [
    Row(0, 0, 0, 0, 0, 0, 0),
    Row(0, 0, 0, 0, 0, 0, 0),
    Row(0, 0, 2, 0, 0, 0, 0),
    Row(0, 0, 1, 2, 0, 0, 0),
    Row(0, 0, 1, 1, 2, 0, 0),
    Row(0, 0, 1, 1, 1, 2, 0)]

  const AlmostWinHorizontal: BoardState := [
    Row(0, 0, 0, 0, 0, 0, 0),
    Row(0, 0, 0, 0, 0, 0, 0),
    Row(0, 0, 0, 0, 0, 0, 0),
    Row(0, 0, 0, 0, 0, 0, 0),
    Row(0, 0, 0, 0, 0, 0, 0),
    Row(0, 1, 1, 1, 0, 0, 0)]

  const AlmostWinVertical: BoardState := [
    Row(0, 0, 0, 0, 0, 0, 0),
    Row(0, 0, 0, 0, 0, 0, 0),
    Row(0, 0, 0, 0, 0, 0, 0),
    Row(0, 2, 0, 0, 0, 0, 0),
    Row(0, 2, 0, 0, 0, 0, 0),
    Row(0, 2, 0, 0, 0, 0, 0)]

  const FullDraw: BoardState := [
    Row(1, 2, 1, 2, 1, 2, 1),
    Row(2, 1, 2, 1, 2, 1, 2),
    Row(1, 2, 1, 2, 1, 2, 1),
    Row(2, 1, 2, 1, 2, 1, 2),
    Row(1, 2, 1, 2, 1, 2, 1),
    Row(2, 1, 2, 1, 2, 1, 2)]

  const EmptyBoard: BoardState := [
    Row(0, 0, 0, 0, 0, 0, 0),
    Row(0, 0, 0, 0, 0, 0, 0),
    Row(0, 0, 0, 0, 0, 0, 0),
    Row(0, 0, 0, 0, 0, 0, 0),
    Row(0, 0, 0, 0, 0, 0, 0),
    Row(0, 0, 0, 0, 0, 0, 0)]

  const EdgeCaseDiagonalTopRight: BoardState := [
    Row(0, 0, 0, 1, 0, 0, 0),
    Row(0, 0, 1, 2, 0, 0, 0),
    Row(0, 1, 2, 2, 0, 0, 0),
    Row(1, 2, 2, 1, 0, 0, 0),
    Row(2, 1, 1, 2, 0, 0, 0),
    Row(1, 2, 1, 2, 0, 0, 0)]

  const EdgeCaseDiagonalBottomLeft: BoardState := [
    Row(0, 0, 0, 0, 0, 0, 0),
    Row(0, 0, 0, 0, 0, 0, 0),
    Row(2, 0, 0, 0, 0, 0, 0),
    Row(1, 2, 0, 0, 0, 0, 0),
    Row(1, 1, 2, 0, 0, 0, 0),
    Row(1, 1, 1, 2, 0, 0, 0)]

  // ---------------------------------------------------------------------------
  // The outcome of `main(board, 4)` on each fixture. In each lemma the first
  // clause evaluates the scan's loops on the concrete board.

  lemma HorizontalWinBottomWinner()
    ensures Rectangular(HorizontalWinBottom)
    ensures ScanFrom(HorizontalWinBottom, 4, 4, 0, 0) == Some(One)
    ensures Main(HorizontalWinBottom, 4) == Some(One)
  {
  }

  lemma HorizontalWinMiddleWinner()
    ensures Rectangular(HorizontalWinMiddle)
    ensures ScanFrom(HorizontalWinMiddle, 4, 4, 0, 0) == Some(Two)
    ensures Main(HorizontalWinMiddle, 4) == Some(Two)
  {
  }

  lemma VerticalWinLeftWinner()
    ensures Rectangular(VerticalWinLeft)
    ensures ScanFrom(VerticalWinLeft, 4, 4, 0, 0) == Some(One)
    ensures Main(VerticalWinLeft, 4) == Some(One)
  {
  }

  lemma VerticalWinCenterWinner()
    ensures Rectangular(VerticalWinCenter)
    ensures ScanFrom(VerticalWinCenter, 4, 4, 0, 0) == Some(Two)
    ensures Main(VerticalWinCenter, 4) == Some(Two)
  {
  }

  lemma DiagonalWinUpRightWinner()
    ensures Rectangular(DiagonalWinUpRight)
    ensures ScanFrom(DiagonalWinUpRight, 4, 4, 0, 0) == Some(One)
    ensures Main(DiagonalWinUpRight, 4) == Some(One)
  {
  }

  lemma DiagonalWinDownRightWinner()
    ensures Rectangular(DiagonalWinDownRight)
    ensures ScanFrom(DiagonalWinDownRight, 4, 4, 0, 0) == Some(Two)
    ensures Main(DiagonalWinDownRight, 4) == Some(Two)
  {
  }

  lemma AlmostWinHorizontalNoWinner()
    ensures Rectangular(AlmostWinHorizontal)
    ensures ScanFrom(AlmostWinHorizontal, 4, 4, 0, 0) == None
    ensures Main(AlmostWinHorizontal, 4) == None
  {
  }

  lemma AlmostWinVerticalNoWinner()
    ensures Rectangular(AlmostWinVertical)
    ensures ScanFrom(AlmostWinVertical, 4, 4, 0, 0) == None
    ensures Main(AlmostWinVertical, 4) == None
  {
  }

  lemma EmptyBoardNoWinner()
    ensures Rectangular(EmptyBoard)
    ensures ScanFrom(EmptyBoard, 4, 4, 0, 0) == None
    ensures Main(EmptyBoard, 4) == None
  {
  }

  /** The top-right edge case: player one, found from `(0, 3)` along `(1, -1)`,
      the first occupied cell of the board. */
  lemma EdgeCaseDiagonalTopRightWinner()
    ensures Rectangular(EdgeCaseDiagonalTopRight)
    ensures ScanFrom(EdgeCaseDiagonalTopRight, 4, 4, 0, 0) == Some(One)
    ensures Main(EdgeCaseDiagonalTopRight, 4) == Some(One)
    ensures Run(EdgeCaseDiagonalTopRight, 4, 0, 3, Directions[3])
    ensures forall c :: 0 <= c < 3 ==> EdgeCaseDiagonalTopRight[0][c] == Empty
  {
  }

  /** The bottom-left edge case: player two, found from `(2, 0)` along `(1, 1)`,
      the first occupied cell of the board. */
  lemma EdgeCaseDiagonalBottomLeftWinner()
    ensures Rectangular(EdgeCaseDiagonalBottomLeft)
    ensures ScanFrom(EdgeCaseDiagonalBottomLeft, 4, 4, 0, 0) == Some(Two)
    ensures Main(EdgeCaseDiagonalBottomLeft, 4) == Some(Two)
    ensures Run(EdgeCaseDiagonalBottomLeft, 4, 2, 0, Directions[2])
    ensures forall r, c :: 0 <= r < 2 && 0 <= c < 7 ==> EdgeCaseDiagonalBottomLeft[r][c] == Empty
  {
  }

  /** The board labelled as a full draw is full (its top row has no empty
      cell), yet the scan reports player one: in the checkerboard every
      down-right diagonal holds a single colour, starting with `(0, 0)`. */
  lemma FullDrawWinner()
    ensures Rectangular(FullDraw)
    ensures forall c :: 0 <= c < 7 ==> FullDraw[0][c] != Empty
    ensures ScanFrom(FullDraw, 4, 4, 0, 0) == Some(One)
    ensures Main(FullDraw, 4) == Some(One)
    ensures Run(FullDraw, 4, 0, 0, Directions[2])
  {
  }

  /** On the `fullDraw` board of a default game `checkWinner` reports player
      one, although the board is full. `FullDrawUnreachable` shows that play
      never produces this board. */
  lemma FullDrawGameIsWon(g: Games.Game)
    requires Games.Shaped(g) && g.config == DefaultConfig && g.board.cells == FullDraw
    ensures Boards.IsFull(g.board)
    ensures Games.CheckWinner(g) == Some(One)
  {
    FullDrawWinner();
    MainAgreesWithGame(g);
  }

  /** No move of a game played under its invariant produces the `fullDraw`
      board when runs of two to four win: the run of four from `(1, 1)` along
      `(1, 1)` avoids the top row, and gravity puts the last piece there, so
      the run was already complete and the game over before that move. */
  lemma FullDrawUnreachable(g: Games.Game, col: int)
    requires Games.Inv(g) && 2 <= g.config.connectN <= 4
    ensures Games.MakeMove(g, col).0 ==> Games.MakeMove(g, col).1.board.cells != FullDraw
  {
    var (ok, g') := Games.MakeMove(g, col);
    if ok && g'.board.cells == FullDraw {
      var before := g.board.cells;
      var row := Boards.NextAvailableRow(g.board, col);
      FullDrawWinner();
      if row > 0 {
        // Gravity: the full top row leaves no empty cell below it in `col`.
        assert false;
      }
      var n := g.config.connectN;
      var d := Directions[2];
      Boards.ValidIsRectangular(g.board);
      forall j | 0 <= j < n
        ensures Matches(before, 1, 1, d, Piece(One), j)
      {
        assert (1 + j, 1 + j) != (row, col);
        assert FullDraw[1 + j][1 + j] == Piece(One);
      }
      assert Matches(before, 1, 1, d, Piece(One), 0);
      assert Run(before, n, 1, 1, d);
      Games.CheckWinnerComplete(g, 1, 1, 2);
      assert false;
    }
  }
}
