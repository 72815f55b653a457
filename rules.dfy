/**
 * The pure part of the Game of Life engine: tile states, the row-major
 * layout of the board, the live-tile count, the neighbour count over the
 * eight offsets (no wrap-around) and the B3/S23 rule, together with the
 * synchronous next generation that one tick must produce.
 */
module Rules {

  datatype TileState = Dead | Alive

  /** The state a toggle writes: the other one of the two. */
  function Flip(s: TileState): (r: TileState)
    ensures r != s
  {
    match s
    case Dead => Alive
    case Alive => Dead
  }

  /** 1 for a live tile, 0 for a dead one. */
  function AliveBit(s: TileState): nat
  {
    if s == Alive then 1 else 0
  }

  /** The number of live tiles in a sequence of tiles. */
  function CountAlive(s: seq<TileState>): (n: nat)
    ensures n <= |s|
  {
    if s == [] then 0 else CountAlive(s[..|s| - 1]) + AliveBit(s[|s| - 1])
  }

  /** The live count is the multiplicity of Alive in the tiles. */
  lemma {:induction false} CountAliveIsMultiplicity(s: seq<TileState>)
    ensures CountAlive(s) == multiset(s)[Alive]
  {
    if s != [] {
      var init, last := s[..|s| - 1], s[|s| - 1];
      assert s == init + [last];
      CountAliveIsMultiplicity(init);
      assert multiset(s) == multiset(init) + multiset{last};
    }
  }

  /** Overwriting one tile changes the live count by -1, 0 or +1. */
  lemma {:induction false} CountAliveUpdate(s: seq<TileState>, i: nat, v: TileState)
    requires i < |s|
    ensures CountAlive(s[i := v]) + AliveBit(s[i]) == CountAlive(s) + AliveBit(v)
  {
    var t := s[i := v];
    var n := |s| - 1;
    if i == n {
      assert t[..n] == s[..n];
    } else {
      assert t[..n] == s[..n][i := v];
      CountAliveUpdate(s[..n], i, v);
    }
  }

  /** A board of R rows and C columns stored row-major. */
  predicate IsGrid(g: seq<TileState>, R: nat, C: nat)
  {
    0 < R && 0 < C && |g| == R * C
  }

  /** The position of (row, col) in the row-major tile array. */
  function Index(C: nat, row: nat, col: nat): nat
  {
    row * C + col
  }

  /** In-bounds coordinates land inside the array, and the index determines them. */
  lemma IndexInBounds(R: nat, C: nat, row: nat, col: nat)
    requires row < R && col < C
    ensures Index(C, row, col) < R * C
    ensures Index(C, row, col) / C == row && Index(C, row, col) % C == col
  {
    MulStep(row, R, C);
    DivUnique(Index(C, row, col), C, row, col);
  }

  /** Euclidean division is unique. */
  lemma DivUnique(k: nat, C: nat, q: nat, m: nat)
    requires m < C && k == q * C + m
    ensures k / C == q && k % C == m
  {
    var q', m' := k / C, k % C;
    assert k == q' * C + m';
    if q' < q {
      MulStep(q', q, C);
    } else if q < q' {
      MulStep(q, q', C);
    }
  }

  /** Multiplication by C is strictly monotone in steps of at least C. */
  lemma {:induction false} MulStep(a: nat, b: nat, C: nat)
    requires a < b
    ensures a * C + C <= b * C
  {
    if a + 1 < b {
      MulStep(a, b - 1, C);
    }
    assert b * C == (b - 1) * C + C;
  }

  /** The next row starts C tiles after the current one. */
  lemma MulSucc(row: nat, C: nat)
    ensures (row + 1) * C == row * C + C
  {
  }

  /** The flat index where a row starts, counted one row of C tiles at a time. */
  function RowStart(row: nat, C: nat): nat
  {
    if row == 0 then 0 else RowStart(row - 1, C) + C
  }

  /** Counting rows of C tiles gives the row-major index of the row's first tile. */
  lemma {:induction false} RowStartIsIndex(row: nat, C: nat)
    ensures RowStart(row, C) == row * C
  {
    if row > 0 {
      RowStartIsIndex(row - 1, C);
      MulSucc(row - 1, C);
    }
  }

  /** Later rows start later. */
  lemma {:induction false} RowStartMonotone(row: nat, R: nat, C: nat)
    requires row <= R
    ensures RowStart(row, C) <= RowStart(R, C)
  {
    if row < R {
      RowStartMonotone(row, R - 1, C);
    }
  }

  /** Every flat index inside the board comes from an in-bounds coordinate. */
  lemma SplitIndex(R: nat, C: nat, k: nat)
    requires 0 < C && k < R * C
    ensures k / C < R && k % C < C && Index(C, k / C, k % C) == k
  {
    var q := k / C;
    assert k == q * C + k % C;
    if R <= q {
      if R < q {
        MulStep(R, q, C);
      }
    }
  }

  /** True when (r, c) names a tile of an R x C board. */
  predicate OnBoard(R: nat, C: nat, r: int, c: int)
  {
    0 <= r < R && 0 <= c < C
  }

  /** The tile at an in-bounds coordinate. */
  function Tile(g: seq<TileState>, R: nat, C: nat, row: nat, col: nat): TileState
    requires IsGrid(g, R, C) && row < R && col < C
  {
    IndexInBounds(R, C, row, col);
    g[Index(C, row, col)]
  }

  /** The eight neighbour offsets (row, column), in the order the engine visits them. */
  const Offsets: seq<(int, int)> :=
    [(-1, -1), (-1, 0), (-1, 1), (0, -1), (0, 1), (1, -1), (1, 0), (1, 1)]

  /** 1 when offset i of (row, col) is on the board, else 0. */
  function OnBoardBit(R: nat, C: nat, row: nat, col: nat, i: nat): nat
    requires i < |Offsets|
  {
    if OnBoard(R, C, row + Offsets[i].0, col + Offsets[i].1) then 1 else 0
  }

  /** 1 when offset i of (row, col) is on the board and alive, else 0. */
  function NeighborBit(g: seq<TileState>, R: nat, C: nat, row: nat, col: nat, i: nat): (b: nat)
    requires IsGrid(g, R, C) && row < R && col < C && i < |Offsets|
    ensures b <= OnBoardBit(R, C, row, col, i)
  {
    var r, c := row + Offsets[i].0, col + Offsets[i].1;
    if OnBoard(R, C, r, c) then AliveBit(Tile(g, R, C, r, c)) else 0
  }

  /** How many of the first i offsets of (row, col) lie on the board. */
  function OnBoardFrom(R: nat, C: nat, row: nat, col: nat, i: nat): (n: nat)
    requires i <= |Offsets|
    ensures n <= i
  {
    if i == 0 then 0 else OnBoardFrom(R, C, row, col, i - 1) + OnBoardBit(R, C, row, col, i - 1)
  }

  /** How many of the first i offsets of (row, col) lie on the board and are alive. */
  function NeighborsFrom(g: seq<TileState>, R: nat, C: nat, row: nat, col: nat, i: nat): (n: nat)
    requires IsGrid(g, R, C) && row < R && col < C && i <= |Offsets|
    ensures n <= OnBoardFrom(R, C, row, col, i)
  {
    if i == 0 then 0 else NeighborsFrom(g, R, C, row, col, i - 1) + NeighborBit(g, R, C, row, col, i - 1)
  }

  /** The live-neighbour count of a tile: at most 8, and never more than its on-board neighbours. */
  function NeighborCount(g: seq<TileState>, R: nat, C: nat, row: nat, col: nat): (n: nat)
    requires IsGrid(g, R, C) && row < R && col < C
    ensures n <= OnBoardFrom(R, C, row, col, |Offsets|) <= 8
  {
    NeighborsFrom(g, R, C, row, col, |Offsets|)
  }

  /** On a board where every tile is alive, the count is exactly the number of on-board neighbours. */
  lemma {:induction false} AllAliveCountsOnBoard(g: seq<TileState>, R: nat, C: nat, row: nat, col: nat, i: nat)
    requires IsGrid(g, R, C) && row < R && col < C && i <= |Offsets|
    requires forall k :: 0 <= k < |g| ==> g[k] == Alive
    ensures NeighborsFrom(g, R, C, row, col, i) == OnBoardFrom(R, C, row, col, i)
  {
    if i > 0 {
      AllAliveCountsOnBoard(g, R, C, row, col, i - 1);
      var r, c := row + Offsets[i - 1].0, col + Offsets[i - 1].1;
      if OnBoard(R, C, r, c) {
        IndexInBounds(R, C, r, c);
      }
    }
  }

  /** On a board where every tile is dead, every count is 0. */
  lemma {:induction false} AllDeadCountsZero(g: seq<TileState>, R: nat, C: nat, row: nat, col: nat, i: nat)
    requires IsGrid(g, R, C) && row < R && col < C && i <= |Offsets|
    requires forall k :: 0 <= k < |g| ==> g[k] == Dead
    ensures NeighborsFrom(g, R, C, row, col, i) == 0
  {
    if i > 0 {
      AllDeadCountsZero(g, R, C, row, col, i - 1);
      var r, c := row + Offsets[i - 1].0, col + Offsets[i - 1].1;
      if OnBoard(R, C, r, c) {
        IndexInBounds(R, C, r, c);
      }
    }
  }

  /**
   * There is no wrap-around: each of the four corner tiles has exactly three
   * neighbours on the board (a torus would give it eight).
   */
  lemma CornerNeighbors(R: nat, C: nat)
    requires 2 <= R && 2 <= C
    ensures OnBoardFrom(R, C, 0, 0, |Offsets|) == 3
    ensures OnBoardFrom(R, C, 0, C - 1, |Offsets|) == 3
    ensures OnBoardFrom(R, C, R - 1, 0, |Offsets|) == 3
    ensures OnBoardFrom(R, C, R - 1, C - 1, |Offsets|) == 3
  {
    assert OnBoardFrom(R, C, 0, 0, 1) == 0;
    assert OnBoardFrom(R, C, 0, 0, 2) == 0;
    assert OnBoardFrom(R, C, 0, 0, 3) == 0;
    assert OnBoardFrom(R, C, 0, 0, 4) == 0;
    assert OnBoardFrom(R, C, 0, 0, 5) == 1;
    assert OnBoardFrom(R, C, 0, 0, 6) == 1;
    assert OnBoardFrom(R, C, 0, 0, 7) == 2;
    assert OnBoardFrom(R, C, 0, 0, 8) == 3;
    assert OnBoardFrom(R, C, 0, C - 1, 1) == 0;
    assert OnBoardFrom(R, C, 0, C - 1, 2) == 0;
    assert OnBoardFrom(R, C, 0, C - 1, 3) == 0;
    assert OnBoardFrom(R, C, 0, C - 1, 4) == 1;
    assert OnBoardFrom(R, C, 0, C - 1, 5) == 1;
    assert OnBoardFrom(R, C, 0, C - 1, 6) == 2;
    assert OnBoardFrom(R, C, 0, C - 1, 7) == 3;
    assert OnBoardFrom(R, C, 0, C - 1, 8) == 3;
    assert OnBoardFrom(R, C, R - 1, 0, 1) == 0;
    assert OnBoardFrom(R, C, R - 1, 0, 2) == 1;
    assert OnBoardFrom(R, C, R - 1, 0, 3) == 2;
    assert OnBoardFrom(R, C, R - 1, 0, 4) == 2;
    assert OnBoardFrom(R, C, R - 1, 0, 5) == 3;
    assert OnBoardFrom(R, C, R - 1, 0, 6) == 3;
    assert OnBoardFrom(R, C, R - 1, 0, 7) == 3;
    assert OnBoardFrom(R, C, R - 1, 0, 8) == 3;
    assert OnBoardFrom(R, C, R - 1, C - 1, 1) == 1;
    assert OnBoardFrom(R, C, R - 1, C - 1, 2) == 2;
    assert OnBoardFrom(R, C, R - 1, C - 1, 3) == 2;
    assert OnBoardFrom(R, C, R - 1, C - 1, 4) == 3;
    assert OnBoardFrom(R, C, R - 1, C - 1, 5) == 3;
    assert OnBoardFrom(R, C, R - 1, C - 1, 6) == 3;
    assert OnBoardFrom(R, C, R - 1, C - 1, 7) == 3;
    assert OnBoardFrom(R, C, R - 1, C - 1, 8) == 3;
  }

  /** A tile on the top edge away from the corners has exactly five neighbours on the board. */
  lemma TopEdgeNeighbors(R: nat, C: nat, col: nat)
    requires 2 <= R && 0 < col < C - 1
    ensures OnBoardFrom(R, C, 0, col, |Offsets|) == 5
  {
    assert OnBoardFrom(R, C, 0, col, 1) == 0;
    assert OnBoardFrom(R, C, 0, col, 2) == 0;
    assert OnBoardFrom(R, C, 0, col, 3) == 0;
    assert OnBoardFrom(R, C, 0, col, 4) == 1;
    assert OnBoardFrom(R, C, 0, col, 5) == 2;
    assert OnBoardFrom(R, C, 0, col, 6) == 3;
    assert OnBoardFrom(R, C, 0, col, 7) == 4;
    assert OnBoardFrom(R, C, 0, col, 8) == 5;
  }

  /** The B3/S23 rule: a tile is alive next exactly when it has 3 live neighbours, or 2 and is alive now. */
  function NextState(s: TileState, n: nat): (r: TileState)
    ensures r == Alive <==> n == 3 || (s == Alive && n == 2)
  {
    match s
    case Alive => if n < 2 || 3 < n then Dead else Alive
    case Dead => if n == 3 then Alive else Dead
  }

  /** The next state of the tile at flat index k, read from the unmodified board g. */
  function CellNext(g: seq<TileState>, R: nat, C: nat, k: nat): TileState
    requires IsGrid(g, R, C) && k < |g|
  {
    SplitIndex(R, C, k);
    NextState(g[k], NeighborCount(g, R, C, k / C, k % C))
  }

  /** The synchronous next generation: every tile updated from the same pre-tick board. */
  function NextGen(g: seq<TileState>, R: nat, C: nat): (h: seq<TileState>)
    requires IsGrid(g, R, C)
    ensures IsGrid(h, R, C)
    ensures forall k {:trigger CellNext(g, R, C, k)} :: 0 <= k < |g| ==> h[k] == CellNext(g, R, C, k)
  {
    seq(|g|, k requires 0 <= k < |g| => CellNext(g, R, C, k))
  }

  /** A board that the tick leaves unchanged: the condition on which the simulation stops. */
  predicate IsFixedPoint(g: seq<TileState>, R: nat, C: nat)
    requires IsGrid(g, R, C)
  {
    NextGen(g, R, C) == g
  }

  /** A board is a fixed point exactly when the rule keeps every tile in its current state. */
  lemma FixedPointIffNoFlip(g: seq<TileState>, R: nat, C: nat)
    requires IsGrid(g, R, C)
    ensures IsFixedPoint(g, R, C) <==> forall k :: 0 <= k < |g| ==> CellNext(g, R, C, k) == g[k]
  {
    if forall k :: 0 <= k < |g| ==> CellNext(g, R, C, k) == g[k] {
      assert NextGen(g, R, C) == g;
    }
  }

  /** The board after n ticks. */
  function Generation(g: seq<TileState>, R: nat, C: nat, n: nat): (h: seq<TileState>)
    requires IsGrid(g, R, C)
    ensures IsGrid(h, R, C)
  {
    if n == 0 then g else NextGen(Generation(g, R, C, n - 1), R, C)
  }

  /** Once a fixed point is reached, every later generation is that same board. */
  lemma {:induction false} FixedPointIsFinal(g: seq<TileState>, R: nat, C: nat, n: nat, m: nat)
    requires IsGrid(g, R, C) && n <= m
    requires IsFixedPoint(Generation(g, R, C, n), R, C)
    ensures Generation(g, R, C, m) == Generation(g, R, C, n)
  {
    if n < m {
      FixedPointIsFinal(g, R, C, n, m - 1);
    }
  }

  /** The n-th tick is the first one that changes nothing. */
  ghost predicate HaltsAfter(g: seq<TileState>, R: nat, C: nat, n: nat)
    requires IsGrid(g, R, C)
  {
    0 < n && IsFixedPoint(Generation(g, R, C, n - 1), R, C) &&
    forall j :: 0 <= j < n - 1 ==> !IsFixedPoint(Generation(g, R, C, j), R, C)
  }
}
