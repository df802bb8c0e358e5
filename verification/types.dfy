/** Option and Result wrappers: `Option` stands for the source's `T | null`
    (or `undefined`), `Result` for an operation that may throw. */
module Wrappers {

  datatype Option<+T> = None | Some(value: T)

  datatype Result<+T, +E> = Ok(value: T) | Err(error: E)
}

/** The value types of the game: cell contents, players, status and configuration,
    with the default configuration constants. */
module Types {

  /** A player; the source encodes them as the numbers 1 and 2. */
  datatype Player = One | Two

  /** A cell holds nothing (0) or one player's piece (1 or 2). */
  datatype CellValue = Empty | Piece(owner: Player)

  /** The three states of a game. */
  datatype GameStatus = Playing | Won | Draw

  /** A grid of cells as the source stores it, row 0 at the top. */
  type BoardState = seq<seq<CellValue>>

  /** Every row is as wide as the first one. */
  predicate Rectangular(g: BoardState) {
    forall r :: 0 <= r < |g| ==> |g[r]| == |g[0]|
  }

  /** The width read as `board[0].length`, taken as 0 when there is no row. */
  function Width(g: BoardState): nat {
    if |g| == 0 then 0 else |g[0]|
  }

  /** `(r, c)` is a cell of the grid: `board[r][c]` is defined. */
  predicate InGrid(g: BoardState, r: int, c: int) {
    0 <= r < |g| && 0 <= c < Width(g)
  }

  /** Board dimensions and the run length needed to win. */
  datatype GameConfig = GameConfig(rows: nat, cols: nat, connectN: int)

  const DefaultConfig: GameConfig := GameConfig(6, 7, 4)

  /** The numeric code the source stores in a cell. */
  function Code(c: CellValue): (k: int)
    ensures 0 <= k <= 2
    ensures k == 0 <==> c == Empty
  {
    match c
    case Empty => 0
    case Piece(One) => 1
    case Piece(Two) => 2
  }

  /** The cell a numeric code stands for; inverse of `Code`. */
  function FromCode(k: int): (c: CellValue)
    requires 0 <= k <= 2
    ensures Code(c) == k
  {
    if k == 0 then Empty else if k == 1 then Piece(One) else Piece(Two)
  }

  lemma CodeRoundTrip(c: CellValue)
    ensures FromCode(Code(c)) == c
  {
  }

  /** The player who moves after `p`: `p == 1 ? 2 : 1`. */
  function Other(p: Player): (q: Player)
    ensures q != p
  {
    if p == One then Two else One
  }
}
