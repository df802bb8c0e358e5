/** The full-grid win scan of `Game.checkWinner` (src/models/Game.ts) and of
    `main` in board-scenarios.js. The two are the same nested loops and differ
    only in the bound of the innermost `while`: `checkWinner` steps while
    `i < connectN`, `main` while `i < 4`. The scan is modelled once, with that
    bound as a parameter, and characterised against a declarative notion of a
    run of `n` equal pieces. */
module WinScan {
  import opened Wrappers
  import opened Types

  /** A step vector `[dr, dc]`. */
  datatype Direction = Direction(dr: int, dc: int)

  /** Horizontal, vertical, down-right and down-left, in the scan's order. */
  const Directions: seq<Direction> :=
    [Direction(0, 1), Direction(1, 0), Direction(1, 1), Direction(1, -1)]

  /** The cell `j` steps from `(r, c)` along `d` is inside the grid and holds `cell`. */
  predicate Matches(g: BoardState, r: int, c: int, d: Direction, cell: CellValue, j: int)
    requires Rectangular(g)
  {
    var nr := r + j * d.dr;
    var nc := c + j * d.dc;
    InGrid(g, nr, nc) && g[nr][nc] == cell
  }

  /** Declarative run: `(r, c)` holds a piece and the `n` cells starting there
      along `d` are all inside the grid and hold that same piece. */
  predicate Run(g: BoardState, n: int, r: int, c: int, d: Direction)
    requires Rectangular(g)
  {
    && InGrid(g, r, c)
    && g[r][c] != Empty
    && forall j :: 0 <= j < n ==> Matches(g, r, c, d, g[r][c], j)
  }

  /** What the scan can detect from `(r, c)` along `d` when its step loop is
      bounded by `bound`: a run of `n`, provided `2 <= n <= bound`. */
  predicate Hit(g: BoardState, n: int, bound: int, r: int, c: int, d: Direction)
    requires Rectangular(g)
  {
    2 <= n <= bound && Run(g, n, r, c, d)
  }

  /** Some direction of the scan detects a run from `(r, c)`. */
  predicate CellHit(g: BoardState, n: int, bound: int, r: int, c: int)
    requires Rectangular(g)
  {
    || Hit(g, n, bound, r, c, Directions[0])
    || Hit(g, n, bound, r, c, Directions[1])
    || Hit(g, n, bound, r, c, Directions[2])
    || Hit(g, n, bound, r, c, Directions[3])
  }

  /** Row-major order of cells. */
  predicate Before(r1: int, c1: int, r2: int, c2: int) {
    r1 < r2 || (r1 == r2 && c1 < c2)
  }

  /** No cell of the grid starts a detectable run. */
  ghost predicate NoHit(g: BoardState, n: int, bound: int)
    requires Rectangular(g)
  {
    forall r, c :: InGrid(g, r, c) ==> !CellHit(g, n, bound, r, c)
  }

  /** `p` owns the first cell, in row-major order, that starts a detectable run. */
  ghost predicate FirstHitOwner(g: BoardState, n: int, bound: int, p: Player)
    requires Rectangular(g)
  {
    exists r, c ::
      && InGrid(g, r, c)
      && CellHit(g, n, bound, r, c)
      && g[r][c] == Piece(p)
      && forall r', c' :: InGrid(g, r', c') && Before(r', c', r, c) ==> !CellHit(g, n, bound, r', c')
  }

  /** The innermost `while` loop: `i` is the step, `count` the run length so
      far. It succeeds exactly when `count` reaches `n` inside the loop, so only
      when the `n - count` steps still needed fit below `bound`, and then the
      current step lies in the grid on `cell`. */
  function Walk(g: BoardState, r: int, c: int, d: Direction, cell: CellValue,
                n: int, bound: int, i: int, count: int): (ok: bool)
    requires Rectangular(g)
    ensures ok ==> count < n && i + (n - count) <= bound
    ensures ok ==> Matches(g, r, c, d, cell, i)
    decreases bound - i
  {
    if i >= bound then false
    else
      var nr := r + i * d.dr;
      var nc := c + i * d.dc;
      if nr < 0 || nr >= |g| || nc < 0 || nc >= Width(g) then false
      else if g[nr][nc] != cell then false
      else if count + 1 == n then true
      else Walk(g, r, c, d, cell, n, bound, i + 1, count + 1)
  }

  /** The direction loop over `Directions[k..]`. A success needs
      `2 <= n <= bound`; `WalkFromCell` says what each direction detects. */
  function ScanDirections(g: BoardState, n: int, bound: int, r: int, c: int, k: nat): (ok: bool)
    requires Rectangular(g) && InGrid(g, r, c) && k <= |Directions|
    ensures ok ==> 2 <= n <= bound
    decreases |Directions| - k
  {
    if k == |Directions| then false
    else Walk(g, r, c, Directions[k], g[r][c], n, bound, 1, 1)
         || ScanDirections(g, n, bound, r, c, k + 1)
  }

  /** The body of the cell loop: empty cells are skipped, otherwise the
      cell's player is returned as soon as one direction succeeds. */
  function ScanCell(g: BoardState, n: int, bound: int, r: int, c: int): (res: Option<Player>)
    requires Rectangular(g) && InGrid(g, r, c)
    ensures res.Some? ==> 2 <= n <= bound && g[r][c] == Piece(res.value)
  {
    if g[r][c] == Empty then None
    else if ScanDirections(g, n, bound, r, c, 0) then Some(g[r][c].owner)
    else None
  }

  /** The two outer loops, resumed at `(r, c)` in row-major order; past the
      last row nothing is found. `ScanFromSpec` characterises the result. */
  function ScanFrom(g: BoardState, n: int, bound: int, r: nat, c: nat): (res: Option<Player>)
    requires Rectangular(g) && c <= Width(g)
    ensures res.Some? ==> 2 <= n <= bound
    ensures res.Some? ==> r < |g|
    decreases |g| - r, Width(g) - c
  {
    if r >= |g| then None
    else if c == Width(g) then ScanFrom(g, n, bound, r + 1, 0)
    else
      match ScanCell(g, n, bound, r, c)
      case Some(p) => Some(p)
      case None => ScanFrom(g, n, bound, r, c + 1)
  }

  /** The whole scan: the first player found, or `None` when the loops end.
      Only `2 <= n <= bound` can produce a player; `ScanSomeIff` and
      `ScanNoneIff` characterise the result fully. */
  function Scan(g: BoardState, n: int, bound: int): (res: Option<Player>)
    requires Rectangular(g)
    ensures res.Some? ==> 2 <= n <= bound
  {
    ScanFrom(g, n, bound, 0, 0)
  }

  // ---------------------------------------------------------------------------
  // Correctness of the scan against the declarative run predicate

  /** The step loop started at step `i` with `count == i` succeeds exactly when
      `i < n <= bound` and steps `i .. n-1` all stay in the grid on `cell`. */
  lemma {:induction false} WalkSpec(g: BoardState, r: int, c: int, d: Direction, cell: CellValue,
                                    n: int, bound: int, i: int)
    requires Rectangular(g)
    ensures Walk(g, r, c, d, cell, n, bound, i, i)
            <==> (i < n <= bound && forall j :: i <= j < n ==> Matches(g, r, c, d, cell, j))
    decreases bound - i
  {
    if i >= bound {
    } else if !Matches(g, r, c, d, cell, i) {
    } else if i + 1 == n {
    } else {
      WalkSpec(g, r, c, d, cell, n, bound, i + 1);
    }
  }

  /** One direction of the scan from a non-empty cell detects exactly a `Hit`. */
  lemma WalkFromCell(g: BoardState, n: int, bound: int, r: int, c: int, d: Direction)
    requires Rectangular(g) && InGrid(g, r, c) && g[r][c] != Empty
    ensures Walk(g, r, c, d, g[r][c], n, bound, 1, 1) <==> Hit(g, n, bound, r, c, d)
  {
    WalkSpec(g, r, c, d, g[r][c], n, bound, 1);
    assert Matches(g, r, c, d, g[r][c], 0);
  }

  /** The cell loop body returns the cell's player exactly when the cell starts
      a detectable run. */
  lemma ScanCellSpec(g: BoardState, n: int, bound: int, r: int, c: int)
    requires Rectangular(g) && InGrid(g, r, c)
    ensures ScanCell(g, n, bound, r, c).Some? <==> CellHit(g, n, bound, r, c)
    ensures ScanCell(g, n, bound, r, c).Some? ==> g[r][c] == Piece(ScanCell(g, n, bound, r, c).value)
  {
    if g[r][c] != Empty {
      WalkFromCell(g, n, bound, r, c, Directions[0]);
      WalkFromCell(g, n, bound, r, c, Directions[1]);
      WalkFromCell(g, n, bound, r, c, Directions[2]);
      WalkFromCell(g, n, bound, r, c, Directions[3]);
      assert ScanDirections(g, n, bound, r, c, 0) <==>
        || Walk(g, r, c, Directions[0], g[r][c], n, bound, 1, 1)
        || Walk(g, r, c, Directions[1], g[r][c], n, bound, 1, 1)
        || Walk(g, r, c, Directions[2], g[r][c], n, bound, 1, 1)
        || Walk(g, r, c, Directions[3], g[r][c], n, bound, 1, 1);
    }
  }

  /** Resumed at `(r0, c0)`, the scan finds nothing exactly when no cell from
      there on starts a detectable run; otherwise it returns the owner of the
      first such cell. */
  lemma {:induction false} ScanFromSpec(g: BoardState, n: int, bound: int, r0: nat, c0: nat)
    requires Rectangular(g) && c0 <= Width(g)
    ensures ScanFrom(g, n, bound, r0, c0).None? <==>
            forall r, c :: InGrid(g, r, c) && !Before(r, c, r0, c0) ==> !CellHit(g, n, bound, r, c)
    ensures ScanFrom(g, n, bound, r0, c0).Some? ==>
            exists r, c ::
              && InGrid(g, r, c) && !Before(r, c, r0, c0)
              && CellHit(g, n, bound, r, c)
              && g[r][c] == Piece(ScanFrom(g, n, bound, r0, c0).value)
              && forall r', c' :: InGrid(g, r', c') && !Before(r', c', r0, c0) && Before(r', c', r, c)
                                  ==> !CellHit(g, n, bound, r', c')
    decreases |g| - r0, Width(g) - c0
  {
    if r0 >= |g| {
    } else if c0 == Width(g) {
      ScanFromSpec(g, n, bound, r0 + 1, 0);
    } else {
      ScanCellSpec(g, n, bound, r0, c0);
      var res := ScanFrom(g, n, bound, r0, c0);
      if ScanCell(g, n, bound, r0, c0).Some? {
        assert res.Some?;
        assert g[r0][c0] == Piece(res.value);
      } else {
        ScanFromSpec(g, n, bound, r0, c0 + 1);
        assert forall r, c :: InGrid(g, r, c) && !Before(r, c, r0, c0) ==>
          (r == r0 && c == c0) || !Before(r, c, r0, c0 + 1);
        if res.Some? {
          var r, c :| && InGrid(g, r, c) && !Before(r, c, r0, c0 + 1)
                      && CellHit(g, n, bound, r, c)
                      && g[r][c] == Piece(res.value)
                      && forall r', c' :: InGrid(g, r', c') && !Before(r', c', r0, c0 + 1) && Before(r', c', r, c)
                                          ==> !CellHit(g, n, bound, r', c');
          assert !Before(r, c, r0, c0);
        }
      }
    }
  }

  /** The scan finds nothing exactly when no cell starts a detectable run. */
  lemma ScanNoneIff(g: BoardState, n: int, bound: int)
    requires Rectangular(g)
    ensures Scan(g, n, bound).None? <==> NoHit(g, n, bound)
  {
    ScanFromSpec(g, n, bound, 0, 0);
  }

  /** Scan order is the tie-break: the scan returns `p` exactly when `p` owns
      the first cell, row-major, that starts a detectable run. */
  lemma ScanSomeIff(g: BoardState, n: int, bound: int, p: Player)
    requires Rectangular(g)
    ensures Scan(g, n, bound) == Some(p) <==> FirstHitOwner(g, n, bound, p)
  {
    ScanFromSpec(g, n, bound, 0, 0);
    if FirstHitOwner(g, n, bound, p) {
      var r, c :| && InGrid(g, r, c) && CellHit(g, n, bound, r, c) && g[r][c] == Piece(p)
                  && forall r', c' :: InGrid(g, r', c') && Before(r', c', r, c) ==> !CellHit(g, n, bound, r', c');
      assert !Before(r, c, 0, 0);
      var q := Scan(g, n, bound).value;
      var r2, c2 :| && InGrid(g, r2, c2) && !Before(r2, c2, 0, 0)
                    && CellHit(g, n, bound, r2, c2) && g[r2][c2] == Piece(q)
                    && forall r', c' :: InGrid(g, r', c') && !Before(r', c', 0, 0) && Before(r', c', r2, c2)
                                        ==> !CellHit(g, n, bound, r', c');
      assert !Before(r, c, r2, c2) && !Before(r2, c2, r, c);
    }
  }

  /** The scan only ever returns the owner of a real run of `n`. */
  lemma ScanSound(g: BoardState, n: int, bound: int)
    requires Rectangular(g)
    ensures Scan(g, n, bound).Some? ==>
            2 <= n <= bound &&
            exists r, c, k :: 0 <= k < |Directions| && Run(g, n, r, c, Directions[k])
                              && g[r][c] == Piece(Scan(g, n, bound).value)
  {
    if Scan(g, n, bound).Some? {
      ScanSomeIff(g, n, bound, Scan(g, n, bound).value);
      var r, c :| InGrid(g, r, c) && CellHit(g, n, bound, r, c) && g[r][c] == Piece(Scan(g, n, bound).value);
      if Hit(g, n, bound, r, c, Directions[0]) {
        assert Run(g, n, r, c, Directions[0]);
      } else if Hit(g, n, bound, r, c, Directions[1]) {
        assert Run(g, n, r, c, Directions[1]);
      } else if Hit(g, n, bound, r, c, Directions[2]) {
        assert Run(g, n, r, c, Directions[2]);
      } else {
        assert Run(g, n, r, c, Directions[3]);
      }
    }
  }

  /** The scan misses no run of `n` along the four directions when `2 <= n <= bound`. */
  lemma ScanComplete(g: BoardState, n: int, bound: int, r: int, c: int, k: int)
    requires Rectangular(g) && 2 <= n <= bound && 0 <= k < |Directions|
    requires Run(g, n, r, c, Directions[k])
    ensures Scan(g, n, bound).Some?
  {
    assert CellHit(g, n, bound, r, c);
    ScanNoneIff(g, n, bound);
  }

  /** Below two, the step loop can never bring `count` up to `n`, so the scan
      reports nothing even where a single piece would be a run of one. */
  lemma ScanNoneBelowTwo(g: BoardState, n: int, bound: int)
    requires Rectangular(g) && n <= 1
    ensures Scan(g, n, bound) == None
  {
    ScanNoneIff(g, n, bound);
  }

  /** A run longer than the loop bound is never reported. */
  lemma ScanNoneAboveBound(g: BoardState, n: int, bound: int)
    requires Rectangular(g) && n > bound
    ensures Scan(g, n, bound) == None
  {
    ScanNoneIff(g, n, bound);
  }

  /** Raising the loop bound beyond `n` changes nothing. */
  lemma {:induction false} ScanBoundIrrelevant(g: BoardState, n: int, b1: int, b2: int)
    requires Rectangular(g) && n <= b1 && n <= b2
    ensures Scan(g, n, b1) == Scan(g, n, b2)
  {
    assert forall r, c :: InGrid(g, r, c) ==> (CellHit(g, n, b1, r, c) <==> CellHit(g, n, b2, r, c));
    ScanNoneIff(g, n, b1);
    ScanNoneIff(g, n, b2);
    if Scan(g, n, b1).Some? {
      var p := Scan(g, n, b1).value;
      ScanSomeIff(g, n, b1, p);
      ScanSomeIff(g, n, b2, p);
      var r, c :| && InGrid(g, r, c) && CellHit(g, n, b1, r, c) && g[r][c] == Piece(p)
                  && forall r', c' :: InGrid(g, r', c') && Before(r', c', r, c) ==> !CellHit(g, n, b1, r', c');
      assert FirstHitOwner(g, n, b2, p);
    }
  }

  /** A grid with no pieces has no winner. */
  lemma EmptyGridNoWinner(g: BoardState, n: int, bound: int)
    requires Rectangular(g)
    requires forall r, c :: InGrid(g, r, c) ==> g[r][c] == Empty
    ensures Scan(g, n, bound) == None
  {
    ScanNoneIff(g, n, bound);
  }
}
