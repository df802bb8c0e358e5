/** The board of src/models/Board.ts: a `rows` x `cols` grid with bounds-checked
    access, gravity placement, fullness queries and copy operations. The class's
    mutating methods become functions returning the new board. */
module Boards {
  import opened Wrappers
  import opened Types

  /** The two errors the class throws: a bad position, and a state of the
      wrong shape. `MissingFirstRow` stands for the TypeError raised when
      `loadState` reads `state[0].length` of an empty state. */
  datatype BoardError = InvalidPosition(row: int, col: int) | InvalidDimensions | MissingFirstRow

  datatype Board = Board(rows: nat, cols: nat, cells: BoardState)

  /** The class invariant: `rows` rows of `cols` cells each. */
  predicate Valid(b: Board) {
    |b.cells| == b.rows && forall r :: 0 <= r < |b.cells| ==> |b.cells[r]| == b.cols
  }

  /** `row[col] === EMPTY_CELL` on row `r`: false where `row[col]` is undefined. */
  predicate EmptyAt(cells: BoardState, r: int, col: int)
    requires 0 <= r < |cells|
  {
    0 <= col < |cells[r]| && cells[r][col] == Empty
  }

  lemma ValidIsRectangular(b: Board)
    requires Valid(b)
    ensures Rectangular(b.cells) && Width(b.cells) == (if b.rows == 0 then 0 else b.cols)
  {
  }

  /** `createEmptyBoard`: `rows` rows of `cols` empty cells. */
  function EmptyGrid(rows: nat, cols: nat): (g: BoardState)
    ensures |g| == rows && forall r :: 0 <= r < rows ==> |g[r]| == cols
    ensures forall r, c :: 0 <= r < rows && 0 <= c < cols ==> g[r][c] == Empty
  {
    seq(rows, _ => seq(cols, _ => Empty))
  }

  /** The constructor: a board of the given size with every cell empty. */
  function NewBoard(rows: nat, cols: nat): (b: Board)
    ensures Valid(b) && b.rows == rows && b.cols == cols
    ensures forall r, c :: InGrid(b.cells, r, c) ==> b.cells[r][c] == Empty
  {
    Board(rows, cols, EmptyGrid(rows, cols))
  }

  /** `state.map(row => [...row])`: a row-by-row copy, equal as a value. */
  function CopyRows(g: BoardState): (copy: BoardState)
    ensures copy == g
  {
    var copy := seq(|g|, r requires 0 <= r < |g| => g[r][..]);
    assert forall r :: 0 <= r < |g| ==> copy[r] == g[r];
    copy
  }

  /** `getState`: a copy of the grid. */
  function GetState(b: Board): (s: BoardState)
    requires Valid(b)
    ensures |s| == b.rows && forall r :: 0 <= r < b.rows ==> |s[r]| == b.cols
    ensures forall r, c :: InGrid(b.cells, r, c) ==> s[r][c] == b.cells[r][c]
  {
    CopyRows(b.cells)
  }

  /** `isValidPosition`. */
  function IsValidPosition(b: Board, row: int, col: int): (ok: bool)
    requires Valid(b)
    ensures ok <==> InGrid(b.cells, row, col)
  {
    !(row >= b.rows || col >= b.cols || row < 0 || col < 0)
  }

  /** `getCell`: the cell's value, or an error outside the board. */
  function GetCell(b: Board, row: int, col: int): (res: Result<CellValue, BoardError>)
    requires Valid(b)
    ensures res.Ok? <==> InGrid(b.cells, row, col)
    ensures res.Ok? ==> res.value == b.cells[row][col]
    ensures res.Err? ==> res.error == InvalidPosition(row, col)
  {
    if !IsValidPosition(b, row, col) then Err(InvalidPosition(row, col))
    else Ok(b.cells[row][col])
  }

  /** `setCell`: writes one cell, or fails outside the board. */
  function SetCell(b: Board, row: int, col: int, v: CellValue): (res: Result<Board, BoardError>)
    requires Valid(b)
    ensures res.Ok? <==> InGrid(b.cells, row, col)
    ensures res.Err? ==> res.error == InvalidPosition(row, col)
    ensures res.Ok? ==> Valid(res.value) && res.value.rows == b.rows && res.value.cols == b.cols
    ensures res.Ok? ==> res.value.cells[row][col] == v
    ensures res.Ok? ==> forall r, c :: InGrid(b.cells, r, c) && (r, c) != (row, col) ==>
                          res.value.cells[r][c] == b.cells[r][c]
  {
    if !IsValidPosition(b, row, col) then Err(InvalidPosition(row, col))
    else Ok(b.(cells := b.cells[row := b.cells[row][col := v]]))
  }

  /** Reading back a written cell gives the written value; every other cell
      reads as before. */
  lemma GetAfterSet(b: Board, row: int, col: int, v: CellValue, r: int, c: int)
    requires Valid(b) && InGrid(b.cells, row, col)
    ensures GetCell(SetCell(b, row, col, v).value, r, c)
            == if (r, c) == (row, col) then Ok(v) else GetCell(b, r, c)
  {
  }

  /** `state.some(row => row[col] === EMPTY_CELL)` over the first `k` rows. */
  function SomeRowEmptyAt(cells: BoardState, col: int, k: nat): (found: bool)
    requires k <= |cells|
    ensures found <==> exists r :: 0 <= r < k && EmptyAt(cells, r, col)
  {
    if k == 0 then false
    else SomeRowEmptyAt(cells, col, k - 1) || EmptyAt(cells, k - 1, col)
  }

  /** `isColumnFull`: no row has an empty cell at `col`. A column outside the
      board counts as full, since `row[col]` is then never `=== 0`. */
  function IsColumnFull(b: Board, col: int): (full: bool)
    requires Valid(b)
    ensures full <==> forall r :: 0 <= r < b.rows ==> !EmptyAt(b.cells, r, col)
    ensures !(0 <= col < b.cols) ==> full
  {
    !SomeRowEmptyAt(b.cells, col, |b.cells|)
  }

  /** `findLastIndex(row => row[col] === EMPTY_CELL)` over the first `k` rows. */
  function LastEmptyRow(cells: BoardState, col: int, k: nat): (r: int)
    requires k <= |cells|
    ensures -1 <= r < k
    ensures r == -1 <==> forall i :: 0 <= i < k ==> !EmptyAt(cells, i, col)
    ensures r != -1 ==> EmptyAt(cells, r, col) && forall i :: r < i < k ==> !EmptyAt(cells, i, col)
  {
    if k == 0 then -1
    else if EmptyAt(cells, k - 1, col) then k - 1
    else LastEmptyRow(cells, col, k - 1)
  }

  /** `getNextAvailableRow`: the lowest empty row of `col` (the largest index),
      or -1 when the column has none or lies outside the board. */
  function NextAvailableRow(b: Board, col: int): (row: int)
    requires Valid(b)
    ensures -1 <= row < b.rows
    ensures row == -1 <==> IsColumnFull(b, col)
    ensures row != -1 ==> 0 <= col < b.cols && b.cells[row][col] == Empty
    ensures row != -1 ==> forall r :: row < r < b.rows ==> b.cells[r][col] != Empty
  {
    var row := LastEmptyRow(b.cells, col, |b.cells|);
    if row == -1 then row
    else NoEmptyBelow(b, col, row); row
  }

  /** Below the last empty cell of an in-range column every cell is occupied. */
  lemma NoEmptyBelow(b: Board, col: int, row: int)
    requires Valid(b) && 0 <= row < b.rows && EmptyAt(b.cells, row, col)
    requires forall i :: row < i < b.rows ==> !EmptyAt(b.cells, i, col)
    ensures forall r :: row < r < b.rows ==> b.cells[r][col] != Empty
  {
    forall r | row < r < b.rows
      ensures b.cells[r][col] != Empty
    {
      assert !EmptyAt(b.cells, r, col);
    }
  }

  /** `dropPiece`: the row the piece lands in, or -1 with the board unchanged. */
  function DropPiece(b: Board, col: int, player: Player): (res: (int, Board))
    requires Valid(b)
    ensures res.0 == NextAvailableRow(b, col)
    ensures res.0 == -1 ==> res.1 == b
    ensures res.0 != -1 ==>
              && Valid(res.1) && res.1.rows == b.rows && res.1.cols == b.cols
              && b.cells[res.0][col] == Empty
              && res.1.cells[res.0][col] == Piece(player)
              && forall r, c :: InGrid(b.cells, r, c) && (r, c) != (res.0, col) ==>
                                res.1.cells[r][c] == b.cells[r][c]
  {
    var row := NextAvailableRow(b, col);
    if row == -1 then (row, b)
    else (row, SetCell(b, row, col, Piece(player)).value)
  }

  /** `some(cell => cell === EMPTY_CELL)` on one row. */
  function HasEmpty(row: seq<CellValue>): (found: bool)
    ensures found <==> exists c :: 0 <= c < |row| && row[c] == Empty
  {
    if |row| == 0 then false
    else row[0] == Empty || HasEmpty(row[1..])
  }

  /** `isFull`: the top row holds no empty cell. It reads `state[0]`, so a
      board without rows is outside its domain. */
  function IsFull(b: Board): (full: bool)
    requires Valid(b) && b.rows >= 1
    ensures full <==> forall c :: 0 <= c < b.cols ==> b.cells[0][c] != Empty
  {
    !HasEmpty(b.cells[0])
  }

  /** `reset`: every cell empty, dimensions kept. */
  function Reset(b: Board): (b': Board)
    requires Valid(b)
    ensures Valid(b') && b'.rows == b.rows && b'.cols == b.cols
    ensures forall r, c :: InGrid(b'.cells, r, c) ==> b'.cells[r][c] == Empty
  {
    b.(cells := EmptyGrid(b.rows, b.cols))
  }

  /** A reset board is a fresh board of the same size. */
  lemma ResetIsNew(b: Board)
    requires Valid(b)
    ensures Reset(b) == NewBoard(b.rows, b.cols)
  {
  }

  /** `clone`: a new board of the same size holding a copy of the grid. */
  function Clone(b: Board): (copy: Board)
    requires Valid(b)
    ensures Valid(copy) && copy.rows == b.rows && copy.cols == b.cols
    ensures forall r, c :: InGrid(b.cells, r, c) ==> copy.cells[r][c] == b.cells[r][c]
  {
    Board(b.rows, b.cols, GetState(b))
  }

  /** `loadState`: checks the number of rows and the width of the first row
      only, then copies the state in. */
  function LoadState(b: Board, state: BoardState): (res: Result<Board, BoardError>)
    requires Valid(b) && Rectangular(state)
    ensures res.Ok? <==> |state| == b.rows >= 1 && |state[0]| == b.cols
    ensures res.Err? ==> res.error == if |state| == b.rows == 0 then MissingFirstRow else InvalidDimensions
    ensures res.Ok? ==> Valid(res.value) && res.value.rows == b.rows && res.value.cols == b.cols
    ensures res.Ok? ==> res.value.cells == state
  {
    if |state| != b.rows then Err(InvalidDimensions)
    else if |state| == 0 then Err(MissingFirstRow)
    else if |state[0]| != b.cols then Err(InvalidDimensions)
    else Ok(b.(cells := CopyRows(state)))
  }

  /** Loading a board's own state back reproduces the board; so does cloning. */
  lemma LoadStateOfGetState(b: Board)
    requires Valid(b) && b.rows >= 1
    ensures LoadState(b, GetState(b)) == Ok(b)
    ensures Clone(b) == b
  {
    assert GetState(b) == b.cells;
  }

  // ---------------------------------------------------------------------------
  // Gravity

  /** Each column's pieces sit on top of each other from the bottom up: below a
      piece there is never an empty cell. */
  predicate Gravity(b: Board)
    requires Valid(b)
  {
    forall r, r', c :: 0 <= r < r' < b.rows && 0 <= c < b.cols && b.cells[r][c] != Empty ==>
                       b.cells[r'][c] != Empty
  }

  /** Column `col` holds exactly `k` pieces, in its bottom `k` rows. */
  predicate Stack(b: Board, col: int, k: int)
    requires Valid(b) && 0 <= col < b.cols
  {
    0 <= k <= b.rows &&
    forall r :: 0 <= r < b.rows ==> (b.cells[r][col] != Empty <==> r >= b.rows - k)
  }

  /** Under gravity every column is a stack, as high as the rows below its
      next available row. */
  lemma GravityStack(b: Board, col: int)
    requires Valid(b) && Gravity(b) && 0 <= col < b.cols
    ensures Stack(b, col, b.rows - 1 - NextAvailableRow(b, col))
  {
    var row := NextAvailableRow(b, col);
    forall r | 0 <= r < b.rows
      ensures b.cells[r][col] != Empty <==> r > row
    {
      if r <= row && row != -1 {
        assert b.cells[row][col] == Empty;
      }
      if r > row {
        assert !EmptyAt(b.cells, r, col);
      }
    }
  }

  /** Dropping onto a stack of `k`: below the top it lands at row
      `rows - 1 - k` and the stack grows by one; on a full column it returns -1
      and leaves the board as it was. */
  lemma DropOnStack(b: Board, col: int, k: int, player: Player)
    requires Valid(b) && 0 <= col < b.cols && Stack(b, col, k)
    ensures k < b.rows ==> (DropPiece(b, col, player).0 == b.rows - 1 - k
                            && Stack(DropPiece(b, col, player).1, col, k + 1))
    ensures k == b.rows ==> DropPiece(b, col, player) == (-1, b)
  {
    var row := NextAvailableRow(b, col);
    if k < b.rows {
      assert EmptyAt(b.cells, b.rows - 1 - k, col);
      assert row == b.rows - 1 - k;
    } else {
      assert forall r :: 0 <= r < b.rows ==> !EmptyAt(b.cells, r, col);
    }
  }

  /** Gravity survives every drop. */
  lemma DropKeepsGravity(b: Board, col: int, player: Player)
    requires Valid(b) && Gravity(b)
    ensures Gravity(DropPiece(b, col, player).1)
  {
    var (row, b') := DropPiece(b, col, player);
    if row != -1 {
      forall r, r', c | 0 <= r < r' < b'.rows && 0 <= c < b'.cols && b'.cells[r][c] != Empty
        ensures b'.cells[r'][c] != Empty
      {
        if c == col && r != row {
          assert b.cells[r][c] != Empty;
        }
      }
    }
  }

  /** Under gravity the board is full exactly when every column is full. */
  lemma FullIffColumnsFull(b: Board)
    requires Valid(b) && b.rows >= 1 && Gravity(b)
    ensures IsFull(b) <==> forall c :: 0 <= c < b.cols ==> IsColumnFull(b, c)
  {
    if IsFull(b) {
      forall c | 0 <= c < b.cols
        ensures IsColumnFull(b, c)
      {
        assert b.cells[0][c] != Empty;
      }
    } else {
      var c :| 0 <= c < b.cols && b.cells[0][c] == Empty;
      assert EmptyAt(b.cells, 0, c);
      assert !IsColumnFull(b, c);
    }
  }
}
