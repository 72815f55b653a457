/**
 * Known Game of Life patterns, checked against the synchronous next
 * generation: a block is a still life, a blinker oscillates with period
 * two, and a lone live corner tile is counted only by its on-board
 * neighbours.
 */
module Patterns {
  import opened Rules

  /** g is an R x C board whose live tiles are exactly those where live holds. */
  predicate Depicts(g: seq<TileState>, R: nat, C: nat, live: (int, int) -> bool)
  {
    IsGrid(g, R, C) &&
    forall row: nat, col: nat :: row < R && col < C ==> (Tile(g, R, C, row, col) == Alive <==> live(row, col))
  }

  /** The R x C board whose live tiles are exactly those where live holds. */
  function Pattern(R: nat, C: nat, live: (int, int) -> bool): (g: seq<TileState>)
    requires 0 < R && 0 < C
    ensures Depicts(g, R, C, live)
  {
    var g := seq(R * C, k requires 0 <= k => if live(k / C, k % C) then Alive else Dead);
    forall row: nat, col: nat | row < R && col < C
      ensures Tile(g, R, C, row, col) == Alive <==> live(row, col)
    {
      IndexInBounds(R, C, row, col);
    }
    g
  }

  /** 1 when (r, c) is on the board and live there, else 0. */
  function LiveBit(R: nat, C: nat, live: (int, int) -> bool, r: int, c: int): nat
  {
    if OnBoard(R, C, r, c) && live(r, c) then 1 else 0
  }

  /** One offset of a depicted board contributes exactly when it lands on a live, on-board tile. */
  lemma PatternBit(g: seq<TileState>, R: nat, C: nat, live: (int, int) -> bool, row: nat, col: nat, i: nat)
    requires Depicts(g, R, C, live) && row < R && col < C && i < |Offsets|
    ensures NeighborBit(g, R, C, row, col, i) ==
      LiveBit(R, C, live, row + Offsets[i].0, col + Offsets[i].1)
  {
    var r, c := row + Offsets[i].0, col + Offsets[i].1;
    if OnBoard(R, C, r, c) {
      IndexInBounds(R, C, r, c);
    }
  }

  /** How many of the first i offsets of (row, col) land on live, on-board tiles of a pattern. */
  function LiveFrom(R: nat, C: nat, live: (int, int) -> bool, row: int, col: int, i: nat): nat
    requires i <= |Offsets|
  {
    if i == 0 then 0
    else LiveFrom(R, C, live, row, col, i - 1) + LiveBit(R, C, live, row + Offsets[i - 1].0, col + Offsets[i - 1].1)
  }

  /** The number of live tiles among the eight on-board neighbours of (row, col) in a pattern. */
  function LiveAround(R: nat, C: nat, live: (int, int) -> bool, row: int, col: int): nat
  {
    LiveBit(R, C, live, row - 1, col - 1) + LiveBit(R, C, live, row - 1, col) +
    LiveBit(R, C, live, row - 1, col + 1) + LiveBit(R, C, live, row, col - 1) +
    LiveBit(R, C, live, row, col + 1) + LiveBit(R, C, live, row + 1, col - 1) +
    LiveBit(R, C, live, row + 1, col) + LiveBit(R, C, live, row + 1, col + 1)
  }

  /** Counting the neighbours on a depicted board agrees with counting them on the predicate. */
  lemma {:induction false} PatternNeighborsFrom(g: seq<TileState>, R: nat, C: nat, live: (int, int) -> bool,
                                                row: nat, col: nat, i: nat)
    requires Depicts(g, R, C, live) && row < R && col < C && i <= |Offsets|
    ensures NeighborsFrom(g, R, C, row, col, i) == LiveFrom(R, C, live, row, col, i)
  {
    if i > 0 {
      PatternNeighborsFrom(g, R, C, live, row, col, i - 1);
      PatternBit(g, R, C, live, row, col, i - 1);
    }
  }

  /** All eight offsets, in the engine's order, are the eight surrounding tiles. */
  lemma LiveFromAll(R: nat, C: nat, live: (int, int) -> bool, row: int, col: int)
    ensures LiveFrom(R, C, live, row, col, |Offsets|) == LiveAround(R, C, live, row, col)
  {
    assert Offsets == [(-1, -1), (-1, 0), (-1, 1), (0, -1), (0, 1), (1, -1), (1, 0), (1, 1)];
    assert LiveFrom(R, C, live, row, col, 1) == LiveBit(R, C, live, row - 1, col - 1);
    assert LiveFrom(R, C, live, row, col, 2) == LiveFrom(R, C, live, row, col, 1) + LiveBit(R, C, live, row - 1, col);
    assert LiveFrom(R, C, live, row, col, 3) == LiveFrom(R, C, live, row, col, 2) + LiveBit(R, C, live, row - 1, col + 1);
    assert LiveFrom(R, C, live, row, col, 4) == LiveFrom(R, C, live, row, col, 3) + LiveBit(R, C, live, row, col - 1);
    assert LiveFrom(R, C, live, row, col, 5) == LiveFrom(R, C, live, row, col, 4) + LiveBit(R, C, live, row, col + 1);
    assert LiveFrom(R, C, live, row, col, 6) == LiveFrom(R, C, live, row, col, 5) + LiveBit(R, C, live, row + 1, col - 1);
    assert LiveFrom(R, C, live, row, col, 7) == LiveFrom(R, C, live, row, col, 6) + LiveBit(R, C, live, row + 1, col);
  }

  /** The neighbour count on a depicted board, written out over the eight surrounding tiles. */
  lemma PatternNeighbors(g: seq<TileState>, R: nat, C: nat, live: (int, int) -> bool, row: nat, col: nat)
    requires Depicts(g, R, C, live) && row < R && col < C
    ensures NeighborCount(g, R, C, row, col) == LiveAround(R, C, live, row, col)
  {
    PatternNeighborsFrom(g, R, C, live, row, col, |Offsets|);
    LiveFromAll(R, C, live, row, col);
  }

  /** Every tile of q is the B3/S23 rule applied to the tile of p and its live-neighbour count in p. */
  predicate RuleTakes(R: nat, C: nat, p: (int, int) -> bool, q: (int, int) -> bool)
  {
    forall row: nat, col: nat :: row < R && col < C ==>
      (q(row, col) <==> LiveAround(R, C, p, row, col) == 3 || (p(row, col) && LiveAround(R, C, p, row, col) == 2))
  }

  /** Under RuleTakes, the tick's next state of one tile of a board depicting p is that tile of q. */
  lemma PatternStepAt(g: seq<TileState>, h: seq<TileState>, R: nat, C: nat,
                      p: (int, int) -> bool, q: (int, int) -> bool, k: nat)
    requires Depicts(g, R, C, p) && Depicts(h, R, C, q) && RuleTakes(R, C, p, q) && k < |g|
    ensures CellNext(g, R, C, k) == h[k]
  {
    SplitIndex(R, C, k);
    var row, col := k / C, k % C;
    PatternNeighbors(g, R, C, p, row, col);
    assert Tile(g, R, C, row, col) == g[k] && Tile(h, R, C, row, col) == h[k];
  }

  /**
   * One tick takes pattern p to pattern q when every tile of q is the B3/S23
   * rule applied to the tile of p and its count of live neighbours in p.
   */
  lemma PatternStep(R: nat, C: nat, p: (int, int) -> bool, q: (int, int) -> bool)
    requires 0 < R && 0 < C && RuleTakes(R, C, p, q)
    ensures NextGen(Pattern(R, C, p), R, C) == Pattern(R, C, q)
  {
    var g, h := Pattern(R, C, p), Pattern(R, C, q);
    forall k | 0 <= k < |g|
      ensures NextGen(g, R, C)[k] == h[k]
    {
      PatternStepAt(g, h, R, C, p, q, k);
    }
  }

  /** A 2 x 2 block in the middle of a 4 x 4 board. */
  predicate InBlock(r: int, c: int) { 1 <= r <= 2 && 1 <= c <= 2 }

  /** A horizontal blinker through the centre of a 5 x 5 board. */
  predicate InBlinkerH(r: int, c: int) { r == 2 && 1 <= c <= 3 }

  /** The same blinker, vertical. */
  predicate InBlinkerV(r: int, c: int) { c == 2 && 1 <= r <= 3 }

  /** The block is a fixed point, so a tick on it changes nothing. */
  lemma BlockIsStill()
    ensures IsFixedPoint(Pattern(4, 4, InBlock), 4, 4)
  {
    PatternStep(4, 4, InBlock, InBlock);
  }

  /** A horizontal blinker turns vertical. */
  lemma BlinkerTurnsVertical()
    ensures NextGen(Pattern(5, 5, InBlinkerH), 5, 5) == Pattern(5, 5, InBlinkerV)
  {
    PatternStep(5, 5, InBlinkerH, InBlinkerV);
  }

  /** A vertical blinker turns horizontal. */
  lemma BlinkerTurnsHorizontal()
    ensures NextGen(Pattern(5, 5, InBlinkerV), 5, 5) == Pattern(5, 5, InBlinkerH)
  {
    PatternStep(5, 5, InBlinkerV, InBlinkerH);
  }

  /** The two phases of the blinker are different boards. */
  lemma BlinkerPhasesDiffer()
    ensures Pattern(5, 5, InBlinkerH) != Pattern(5, 5, InBlinkerV)
  {
    var h, v := Pattern(5, 5, InBlinkerH), Pattern(5, 5, InBlinkerV);
    assert Tile(h, 5, 5, 2, 1) != Tile(v, 5, 5, 2, 1);
  }

  /** A board that returns to itself after two ticks alternates between its two phases. */
  lemma {:induction false} PeriodTwo(g: seq<TileState>, h: seq<TileState>, R: nat, C: nat, n: nat)
    requires IsGrid(g, R, C) && IsGrid(h, R, C)
    requires NextGen(g, R, C) == h && NextGen(h, R, C) == g
    ensures Generation(g, R, C, n) == if n % 2 == 0 then g else h
  {
    if n > 0 {
      PeriodTwo(g, h, R, C, n - 1);
    }
  }

  /**
   * After n ticks the blinker is horizontal for even n and vertical for odd n;
   * it never reaches a fixed point, so the simulation loop never halts on it.
   */
  lemma BlinkerOscillates(n: nat)
    ensures Generation(Pattern(5, 5, InBlinkerH), 5, 5, n) ==
      if n % 2 == 0 then Pattern(5, 5, InBlinkerH) else Pattern(5, 5, InBlinkerV)
    ensures !IsFixedPoint(Generation(Pattern(5, 5, InBlinkerH), 5, 5, n), 5, 5)
  {
    var h, v := Pattern(5, 5, InBlinkerH), Pattern(5, 5, InBlinkerV);
    BlinkerTurnsVertical();
    BlinkerTurnsHorizontal();
    BlinkerPhasesDiffer();
    PeriodTwo(h, v, 5, 5, n);
  }

  /** Only the corner (0, 0). */
  predicate AtCorner(r: int, c: int) { r == 0 && c == 0 }

  /**
   * With only the corner (0, 0) alive, the tiles of its 3 x 3 neighbourhood
   * other than itself count one live neighbour and every other tile counts none.
   */
  lemma LoneCornerNeighbors(g: seq<TileState>, R: nat, C: nat, row: nat, col: nat)
    requires IsGrid(g, R, C) && 2 <= R && 2 <= C && row < R && col < C
    requires g[0] == Alive && forall k :: 0 < k < |g| ==> g[k] == Dead
    ensures NeighborCount(g, R, C, row, col) == if row <= 1 && col <= 1 && (row, col) != (0, 0) then 1 else 0
  {
    forall r: nat, c: nat | r < R && c < C
      ensures Tile(g, R, C, r, c) == Alive <==> AtCorner(r, c)
    {
      IndexInBounds(R, C, r, c);
      if r > 0 {
        MulStep(0, r, C);
      }
    }
    PatternNeighbors(g, R, C, AtCorner, row, col);
  }
}
