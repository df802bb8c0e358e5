# Connect-N game engine in Dafny

This project models the game engine of a Connect-N game (Connect Four by default: 6 rows, 7 columns, 4 in a row). It has three parts:

- **Board** (`src/models/Board.ts`) is a `rows` x `cols` grid of cells holding 0, 1 or 2, with row 0 at the top. It provides bounds-checked cell access, gravity placement (`getNextAvailableRow`, `dropPiece`), the fullness queries, `reset`, and the copies `getState`, `clone` and `loadState`.
- **Game** (`src/models/Game.ts`) handles turn order and the `playing` / `won` / `draw` status. `makeMove` drops the current player's piece. It then runs `checkWinner`, a full-grid scan: cells in row-major order, four direction vectors, stepping only in the positive direction.
- **`main(board, N)`** (`board-scenarios.js`) is a second copy of the same scan, with its step loop bounded by the literal 4. The same file holds hand-written 6 x 7 boards labelled with their expected outcomes.

Everything is modelled as immutable values and pure functions:

- A board is `Boards.Board(rows, cols, cells)`. Each mutating method of the class becomes a function that returns the new board.
- A game is the record `Games.Game(config, board, currPlayer, winner, status)`. `makeMove` becomes `Games.MakeMove`, which returns the success flag and the next state.
- The getters of `Game` are the record's fields.
- The errors the source throws are `Result` values of type `Boards.BoardError`:
  - `InvalidPosition(row, col)` for `getCell` and `setCell` off the board;
  - `InvalidDimensions` for a `loadState` of the wrong shape;
  - `MissingFirstRow` for the TypeError `loadState` raises when it reads `state[0].length` of an empty state.
- The one other TypeError, `isFull` reading `state[0]` of a board with no rows, is excluded by a precondition instead. The members that call it carry the same precondition (see "## Left out").
- `CellValue`, `Player` and `GameStatus` are datatypes. The numeric codes 0/1/2 are recovered by `Types.Code`.

The two scans (`checkWinner` and `main`) are one function, `WinScan.Scan(g, n, bound)`. `bound` is the bound of the innermost `while`: `connectN` for `checkWinner`, 4 for `main`. The scan is proved sound and complete against a declarative predicate `WinScan.Run`: the `n` cells from `(r, c)` along a direction are all in the grid and hold the same piece. The proof also shows that the scan returns the owner of the first such cell in row-major order. Every cell the scan reads is proved to lie inside the grid, since the functions' index expressions must be well-formed.

Two behaviours of the code as written are proved rather than corrected:

- `checkWinner` can only return from inside its step loop. With `connectN <= 1` that loop never runs, so no winner is ever reported (`Games.CheckWinnerNoneBelowTwo`). Such a game can only end in a draw.
- The `fullDraw` board (board-scenarios.js:92-99) carries the comment "Full board with no winner". Its checkerboard pattern makes every down-right diagonal a single colour, so the scan reports player 1 from `(0, 0)` (`Scenarios.FullDrawWinner`). On this board, `checkWinner` of a default game reports player 1 although the board is full (`Scenarios.FullDrawGameIsWon`). Play cannot reach the board, though. The run of four from `(1, 1)` avoids the top row, and gravity puts the last piece in the top row. So that run is already complete before the last move, the game is over, and the move is refused (`Scenarios.FullDrawUnreachable`).

Two boundary behaviours of the code:

- For an out-of-range column, `getNextAvailableRow` returns -1 and `isColumnFull` returns true, because `row[col]` is then `undefined`, which is never `=== 0`.
- `loadState` checks only the number of rows and the width of the first row.

## Model

| member | source | states |
|---|---|---|
| Types.FromCode | src/types/index.ts:6 | the cell for a code 0, 1 or 2 encodes back to that code |
| Types.Other | src/models/Game.ts:71 | the player to move next is never the one who just moved |
| Boards.NewBoard | src/models/Board.ts:19-29 | a new board has exactly `rows` rows of `cols` cells, every one empty |
| Boards.CopyRows | src/models/Board.ts:32 | `state.map(row => [...row])` yields a grid equal to the original as a value |
| Boards.GetState | src/models/Board.ts:31-33 | the snapshot has the board's dimensions and holds the same value in every cell |
| Boards.EmptyGrid | src/models/Board.ts:25-29 | exactly `rows` rows of exactly `cols` cells, every one empty |
| Boards.IsValidPosition | src/models/Board.ts:48-51 | true exactly when `0 <= row < rows` and `0 <= col < cols` |
| Boards.GetCell | src/models/Board.ts:36-40 | returns the cell on the board and fails with `InvalidPosition(row, col)` exactly off the board |
| Boards.SetCell | src/models/Board.ts:42-46 | fails exactly off the board; otherwise writes the one cell, keeps the dimensions and leaves every other cell unchanged |
| Boards.GetAfterSet | src/models/Board.ts:36-46 | after a write, reading the written cell gives the new value and every other read is unchanged |
| Boards.SomeRowEmptyAt | src/models/Board.ts:55 | `state.some(row => row[col] === 0)` over the first `k` rows: true exactly when one of them has an empty cell at `col` |
| Boards.IsColumnFull | src/models/Board.ts:54-56 | true exactly when no row has an empty cell at `col`; always true for a column off the board |
| Boards.LastEmptyRow | src/models/Board.ts:59-61 | `findLastIndex`: the largest index among the first `k` rows whose cell at `col` is empty, or -1 when there is none |
| Boards.NextAvailableRow | src/models/Board.ts:59-61 | -1 exactly when the column is full or off the board; otherwise an empty cell of `col` with no empty cell below it |
| Boards.DropPiece | src/models/Board.ts:63-70 | returns the next available row; on -1 the board is unchanged, otherwise only that empty cell changes, to the player's piece |
| Boards.HasEmpty | src/models/Board.ts:75 | `row.some(cell => cell === 0)`: true exactly when some cell of the row is empty |
| Boards.IsFull | src/models/Board.ts:74-76 | true exactly when the top row has no empty cell |
| Boards.FullIffColumnsFull | src/models/Board.ts:54-76 | under gravity, the board is full exactly when every column is full |
| Boards.Reset | src/models/Board.ts:79-81 | every cell becomes empty and the dimensions are kept |
| Boards.ResetIsNew | src/models/Board.ts:19-29 | a reset board equals a freshly constructed board of the same size |
| Boards.Clone | src/models/Board.ts:92-96 | the clone has the same dimensions and the same value in every cell |
| Boards.LoadState | src/models/Board.ts:98-102 | fails unless the state has `rows` rows and a first row `cols` wide; an empty state with `rows == 0` fails reading its first row; on success the grid equals the state |
| Boards.LoadStateOfGetState | src/models/Board.ts:92-102 | for a board with at least one row, loading its own snapshot gives back that board (on zero rows `loadState` fails reading `state[0]`), and cloning gives back the board |
| Boards.GravityStack | src/models/Board.ts:59-61 | under gravity each column's pieces fill exactly the rows below its next available row |
| Boards.DropOnStack | src/models/Board.ts:59-70 | on a column of `k` pieces, a drop lands at row `rows-1-k` and the column then holds `k+1` pieces; a full column returns -1 with nothing changed |
| Boards.DropKeepsGravity | src/models/Board.ts:63-70 | if no column has an empty cell under a piece, that still holds after any drop |
| Games.NewGame | src/models/Game.ts:19-27 | a new game has the given configuration, player 1 to move, no winner, status playing, and an empty board of the configured size |
| Games.MakeMove | src/models/Game.ts:53-79 | succeeds exactly when the game is not over and the column has a free cell, and a refused move changes nothing. A success drops the mover's piece and records the scan's winner. A win sets `won`, and a full board without a winner sets `draw`; in both cases the turn stays. Otherwise the turn passes to the other player and the status is unchanged |
| Games.Reset | src/models/Game.ts:82-87 | the result equals a new game with the same configuration |
| Games.NextAvailableRow | src/models/Game.ts:127-129 | the board's next available row for the same column |
| Games.NewGameInv | src/models/Game.ts:19-27 | a new game with at least one row and one column satisfies the invariant: gravity holds, the recorded winner is the scan's result, and the status agrees with winner and fullness |
| Games.IsGameOver | src/models/Game.ts:47-49 | over exactly when a winner is recorded or no cell of the top row is empty; `Games.GameOverIffTerminal` ties it to the status |
| Games.GameOverIffTerminal | src/models/Game.ts:47-49 | under the invariant the game is over exactly when the status is `won` or `draw` |
| Games.MakeMoveKeepsInv | src/models/Game.ts:53-79 | every move, accepted or refused, keeps the invariant (won iff a winner; draw iff no winner and full; playing iff no winner and not full) |
| Games.ResetInv | src/models/Game.ts:82-87 | reset re-establishes the invariant from any state of a game with at least one row and one column |
| Games.WinnerIsMover | src/models/Game.ts:56-68 | under the invariant a move that produces a winner makes the player who moved the winner |
| Games.RefusalIsStable | src/models/Game.ts:56-59 | a refused move, repeated, is refused again and the state stays the same |
| Games.CheckWinner | src/models/Game.ts:90-124 | a winner is reported only for `connectN >= 2`; `Games.CheckWinnerSound`, `Games.CheckWinnerComplete` and `Games.CheckWinnerFirst` characterise it against the run predicate |
| Games.CheckWinnerSound | src/models/Game.ts:90-124 | a reported winner owns a real run of `connectN` pieces along one of the four directions, and `connectN >= 2` |
| Games.CheckWinnerComplete | src/models/Game.ts:90-124 | for `connectN >= 2` any run of `connectN` along the four directions makes the scan report a winner |
| Games.CheckWinnerFirst | src/models/Game.ts:99-124 | the scan reports `p` exactly when `p` owns the first cell in row-major order from which a run starts |
| Games.CheckWinnerNoneBelowTwo | src/models/Game.ts:106-118 | with `connectN <= 1` no winner is ever reported |
| WinScan.Walk | src/models/Game.ts:104-118 | a successful step loop still needed `n - count` steps that fit below `bound`, and the current step is in the grid on the origin's piece; `WinScan.WalkSpec` gives the exact condition |
| WinScan.ScanDirections | src/models/Game.ts:103-119 | the direction loop can succeed only for `2 <= n <= bound`; `WinScan.WalkFromCell` says what each direction detects |
| WinScan.ScanCell | src/models/Game.ts:101-120 | a player is returned only for `2 <= n <= bound` and only as the owner of the cell's own piece; `WinScan.ScanCellSpec` gives the exact condition |
| WinScan.ScanFrom | src/models/Game.ts:99-122 | a player is found only for `2 <= n <= bound` and only while rows remain; `WinScan.ScanFromSpec` characterises the result |
| WinScan.Scan | src/models/Game.ts:99-123 | a player is returned only for `2 <= n <= bound`; `WinScan.ScanNoneIff` and `WinScan.ScanSomeIff` characterise the result |
| WinScan.WalkSpec | src/models/Game.ts:104-118 | the step loop started at step `i` with `count == i` succeeds exactly when `i < n <= bound` and steps `i` to `n-1` stay in the grid on the origin's piece |
| WinScan.WalkFromCell | src/models/Game.ts:103-118 | from an occupied cell, one direction's loop succeeds exactly when a run of `n` starts there with `2 <= n <= bound` |
| WinScan.ScanCellSpec | src/models/Game.ts:101-120 | the per-cell body returns a player exactly when some direction detects a run, and that player owns the cell |
| WinScan.ScanFromSpec | src/models/Game.ts:99-124 | resumed at `(r0, c0)`, the scan finds nothing exactly when no later cell starts a run; otherwise it returns the owner of the first later cell that does |
| WinScan.ScanNoneIff | src/models/Game.ts:90-124 | the scan returns none exactly when no cell starts a detectable run |
| WinScan.ScanSomeIff | src/models/Game.ts:90-124 | the scan returns `p` exactly when `p` owns the first cell that starts a detectable run |
| WinScan.ScanSound | src/models/Game.ts:90-124 | a returned player owns a run of `n` along one of the four directions, with `2 <= n <= bound` |
| WinScan.ScanComplete | src/models/Game.ts:90-124 | with `2 <= n <= bound`, any run of `n` along the four directions makes the scan return a player |
| WinScan.ScanNoneBelowTwo | src/models/Game.ts:106-118 | for `n <= 1` the scan returns none whatever the grid |
| WinScan.ScanNoneAboveBound | board-scenarios.js:154-165 | a run length above the loop bound is never reported |
| WinScan.ScanBoundIrrelevant | board-scenarios.js:154-165 | any two loop bounds at or above `n` give the same result |
| WinScan.EmptyGridNoWinner | src/models/Board.ts:25-29 | a grid with no pieces has no winner |
| Scenarios.Main | board-scenarios.js:140-171 | a player is returned only for `2 <= N <= 4`, the literal bound of the step loop; the lemmas below relate it to `checkWinner` |
| Scenarios.MainAgreesUpToFour | board-scenarios.js:140-171 | for `N <= 4`, `main(board, N)` equals the scan bounded by `N` |
| Scenarios.MainAgreesWithGame | board-scenarios.js:140-171 | for `connectN <= 4`, `main` on a game's board returns the game's `checkWinner` |
| Scenarios.MainNoneAboveFour | board-scenarios.js:154 | for `N > 4`, `main` returns nothing on every board |
| Scenarios.HorizontalWinBottomWinner | board-scenarios.js:7-14 | `main(board, 4)` returns player 1 |
| Scenarios.HorizontalWinMiddleWinner | board-scenarios.js:16-23 | `main(board, 4)` returns player 2 |
| Scenarios.VerticalWinLeftWinner | board-scenarios.js:26-33 | `main(board, 4)` returns player 1 |
| Scenarios.VerticalWinCenterWinner | board-scenarios.js:35-42 | `main(board, 4)` returns player 2 |
| Scenarios.DiagonalWinUpRightWinner | board-scenarios.js:45-52 | `main(board, 4)` returns player 1 |
| Scenarios.DiagonalWinDownRightWinner | board-scenarios.js:55-62 | `main(board, 4)` returns player 2 |
| Scenarios.AlmostWinHorizontalNoWinner | board-scenarios.js:65-72 | `main(board, 4)` returns nothing |
| Scenarios.AlmostWinVerticalNoWinner | board-scenarios.js:74-81 | `main(board, 4)` returns nothing |
| Scenarios.EmptyBoardNoWinner | board-scenarios.js:101-108 | `main(board, 4)` returns nothing |
| Scenarios.EdgeCaseDiagonalTopRightWinner | board-scenarios.js:110-117 | `main(board, 4)` returns player 1, from `(0, 3)` along `(1, -1)`, the first occupied cell |
| Scenarios.EdgeCaseDiagonalBottomLeftWinner | board-scenarios.js:119-126 | `main(board, 4)` returns player 2, from `(2, 0)` along `(1, 1)`, the first occupied cell |
| Scenarios.FullDrawWinner | board-scenarios.js:92-99 | the top row is full, yet `main(board, 4)` returns player 1 via the run from `(0, 0)` along `(1, 1)`, contrary to the comment at line 98 |
| Scenarios.FullDrawGameIsWon | board-scenarios.js:92-99 | a default game on this board has a full board and `checkWinner` returns player 1 |
| Scenarios.FullDrawUnreachable | src/models/Game.ts:53-79 | in a game kept under its invariant with `2 <= connectN <= 4`, no accepted move produces this board: its run of four from `(1, 1)` already ends the game one move earlier |

## Left out

- UI, animation, audio, routing and styling (`App.tsx`, `app/index.tsx`, `app/_layout.tsx`, `src/hooks/useSound.ts`) are not part of this model. `src/hooks/useGame.ts` only wraps `Game` in React state and adds no logic.
- `printBoard` and the `console.log` calls in `makeMove` are console output and are not modelled.
- The `multipleThreats` fixture is not used: its comment states no definite outcome.
- Unused declarations are left out: `Position`, `WinningLine`, `Direction` and `GameState` in the types file, and `PLAYER_COLORS`, `ANIMATION` and `DIRECTION_VECTORS` in the constants file. `checkWinner` uses its own inline list of directions, which is `WinScan.Directions`.
- Boards.IsFull: a board with no rows is outside its domain (`requires rows >= 1`). The source reads `state[0]` there and throws a TypeError.
- Games.IsGameOver: requires a configuration with at least one row, because it calls `isFull`, which throws a TypeError on a board with no rows.
- Games.MakeMove: requires at least one row, because it calls `isGameOver` and `isFull`, which throw a TypeError on a board with no rows.
- Boards.NewBoard: negative dimensions are excluded by the `nat` type. On them `Array(n)` throws a RangeError.
- Types.GameConfig: `rows` and `cols` are `nat`, so a configuration with a negative size, which makes the `Board` constructor throw a RangeError, cannot be written.
- Boards.NewBoard: the default arguments `rows = 6, cols = 7` are not modelled. Callers pass both sizes, `Types.DefaultConfig` holds the default values.
- Games.NewGame: the default argument `config = DEFAULT_GAME_CONFIG` is not modelled. Callers pass `Types.DefaultConfig` explicitly.
- Scenarios.Main: the default argument `N = 4` is not modelled. Callers pass `N`, and the fixtures are stated for `N = 4`.
- Boards.LoadState: requires the supplied state to be rectangular. The source accepts a ragged state whose first row has the right width. The board it leaves behind then has rows of other widths, which the board's invariant does not describe.
- WinScan.Scan: requires a rectangular grid. `main` on a ragged board would read `undefined` cells and is not modelled.
- Games.NewGameInv: requires at least one column. A game with zero columns is already "full" while its status reads `playing`, so the invariant does not hold for it.
- Numbers are integers: non-integer or NaN coordinates, column indices and `connectN` values, which JavaScript would accept, are not modelled.
- Object identity and aliasing are not modelled. `getState`, `clone` and `loadState` copy in the source; in the model every value is immutable, so a copy is simply an equal value.
