/**
 * Pending tile changes: the records the scan phase of a tick produces, the
 * LIFO stack that holds them, and what applying them does to the board.
 * The stack is a sequence whose last element is the top.
 */
module Changes {
  import opened Rules

  datatype Point = Point(row: nat, col: nat)

  /** A transition decided during the scan phase, applied in the apply phase. */
  datatype TileChange = TileChange(point: Point, newState: TileState)

  /** The flat index a change writes. */
  function Target(C: nat, c: TileChange): nat
  {
    Index(C, c.point.row, c.point.col)
  }

  /** Every change names a tile of the R x C board. */
  predicate ChangesOnBoard(cs: seq<TileChange>, R: nat, C: nat)
  {
    forall j :: 0 <= j < |cs| ==> cs[j].point.row < R && cs[j].point.col < C
  }

  /** No two changes write the same tile. */
  predicate DistinctTargets(cs: seq<TileChange>, C: nat)
  {
    forall i, j :: 0 <= i < j < |cs| ==> Target(C, cs[i]) != Target(C, cs[j])
  }

  /** The stack of pending changes; the top is the last element of items. */
  class TileChangeStack {
    var items: seq<TileChange>

    constructor ()
      ensures items == []
    {
      items := [];
    }

    /** True exactly when no change is pending. */
    predicate IsEmpty()
      reads this
      ensures IsEmpty() <==> items == []
    {
      |items| == 0
    }

    /** Puts a change on top of the stack. */
    method Push(change: TileChange)
      modifies this
      ensures items == old(items) + [change]
      ensures !IsEmpty()
    {
      items := items + [change];
    }

    /** Removes the top change and returns it; the previous top becomes the top again. */
    method Pop() returns (change: TileChange)
      requires !IsEmpty()
      modifies this
      ensures change == old(items)[|old(items)| - 1]
      ensures items + [change] == old(items)
    {
      change := items[|items| - 1];
      items := items[..|items| - 1];
    }
  }

  /** Writes one change into the tiles. */
  function Write(g: seq<TileState>, R: nat, C: nat, c: TileChange): (h: seq<TileState>)
    requires IsGrid(g, R, C) && c.point.row < R && c.point.col < C
    ensures IsGrid(h, R, C)
    ensures Target(C, c) < |g| && h == g[Target(C, c) := c.newState]
  {
    IndexInBounds(R, C, c.point.row, c.point.col);
    g[Target(C, c) := c.newState]
  }

  /** The tiles after popping every change of the stack cs and writing it, top first. */
  function ApplyPops(g: seq<TileState>, R: nat, C: nat, cs: seq<TileChange>): (h: seq<TileState>)
    requires IsGrid(g, R, C) && ChangesOnBoard(cs, R, C)
    ensures IsGrid(h, R, C)
    decreases |cs|
  {
    if cs == [] then g
    else ApplyPops(Write(g, R, C, cs[|cs| - 1]), R, C, cs[..|cs| - 1])
  }

  /**
   * When no two changes write the same tile, each tile ends up holding the
   * state its change names, or its old state when no change names it.
   */
  lemma {:induction false} ApplyPopsAt(g: seq<TileState>, R: nat, C: nat, cs: seq<TileChange>, k: nat)
    requires IsGrid(g, R, C) && ChangesOnBoard(cs, R, C) && DistinctTargets(cs, C) && k < |g|
    ensures (forall j :: 0 <= j < |cs| ==> Target(C, cs[j]) != k) ==> ApplyPops(g, R, C, cs)[k] == g[k]
    ensures forall j :: 0 <= j < |cs| && Target(C, cs[j]) == k ==> ApplyPops(g, R, C, cs)[k] == cs[j].newState
    decreases |cs|
  {
    if cs != [] {
      var n := |cs| - 1;
      var init, top := cs[..n], cs[n];
      var h := Write(g, R, C, top);
      ApplyPopsAt(h, R, C, init, k);
      assert forall j :: 0 <= j < n ==> init[j] == cs[j];
      if Target(C, top) == k {
        assert forall j :: 0 <= j < n ==> Target(C, init[j]) != k;
      }
    }
  }

  /** The order in which distinct-target changes are applied does not matter. */
  lemma ApplyOrderIrrelevant(g: seq<TileState>, R: nat, C: nat, cs: seq<TileChange>, ds: seq<TileChange>)
    requires IsGrid(g, R, C) && ChangesOnBoard(cs, R, C) && ChangesOnBoard(ds, R, C)
    requires DistinctTargets(cs, C) && DistinctTargets(ds, C)
    requires multiset(cs) == multiset(ds)
    ensures ApplyPops(g, R, C, cs) == ApplyPops(g, R, C, ds)
  {
    var a, b := ApplyPops(g, R, C, cs), ApplyPops(g, R, C, ds);
    forall k | 0 <= k < |g|
      ensures a[k] == b[k]
    {
      ApplyPopsAt(g, R, C, cs, k);
      ApplyPopsAt(g, R, C, ds, k);
      if j :| 0 <= j < |cs| && Target(C, cs[j]) == k {
        var j' := SameElement(cs, ds, j);
        assert b[k] == ds[j'].newState;
      } else {
        forall j' | 0 <= j' < |ds|
          ensures Target(C, ds[j']) != k
        {
          var j := SameElement(ds, cs, j');
        }
      }
    }
  }

  /** An element of one of two sequences with the same multiset is found in the other. */
  lemma SameElement<T>(xs: seq<T>, ys: seq<T>, i: nat) returns (j: nat)
    requires multiset(xs) == multiset(ys) && i < |xs|
    ensures j < |ys| && ys[j] == xs[i]
  {
    assert xs[i] in multiset(ys);
    j :| 0 <= j < |ys| && ys[j] == xs[i];
  }

  /** The coordinate of flat index k, found one row of C tiles at a time. */
  function PointAt(R: nat, C: nat, k: nat): (p: Point)
    requires 0 < C && k < R * C
    ensures p.row < R && p.col < C && Index(C, p.row, p.col) == k
  {
    if k < C then Point(0, k)
    else
      assert k - C < (R - 1) * C by { MulSucc(R - 1, C); }
      var p := PointAt(R - 1, C, k - C);
      MulSucc(p.row, C);
      Point(p.row + 1, p.col)
  }

  /** PointAt inverts the row-major layout: it recovers the coordinates of an in-bounds index. */
  lemma PointAtIndex(R: nat, C: nat, row: nat, col: nat)
    requires row < R && col < C
    ensures Index(C, row, col) < R * C && PointAt(R, C, Index(C, row, col)) == Point(row, col)
  {
    IndexInBounds(R, C, row, col);
    var p := PointAt(R, C, Index(C, row, col));
    DivUnique(Index(C, row, col), C, p.row, p.col);
  }

  /**
   * The change the scan records for the tile at flat index k when next is the
   * board the tick must produce: one exactly when the tile flips.
   */
  function CellChange(g: seq<TileState>, next: seq<TileState>, R: nat, C: nat, k: nat): (cs: seq<TileChange>)
    requires IsGrid(g, R, C) && |next| == |g| && k < |g|
    ensures |cs| <= 1
    ensures |cs| == 1 <==> next[k] != g[k]
    ensures |cs| == 1 ==> Target(C, cs[0]) == k && cs[0].newState == next[k]
    ensures |cs| == 1 ==> cs[0].point.row < R && cs[0].point.col < C
  {
    if next[k] != g[k] then [TileChange(PointAt(R, C, k), next[k])] else []
  }

  /** The pending stack after the scan phase has visited the first k tiles in row-major order. */
  function ScanChanges(g: seq<TileState>, next: seq<TileState>, R: nat, C: nat, k: nat): seq<TileChange>
    requires IsGrid(g, R, C) && |next| == |g| && k <= |g|
  {
    if k == 0 then [] else ScanChanges(g, next, R, C, k - 1) + CellChange(g, next, R, C, k - 1)
  }

  /** Every change the scan records names a tile of the board. */
  lemma {:induction false} ScanChangesOnBoard(g: seq<TileState>, next: seq<TileState>, R: nat, C: nat, k: nat)
    requires IsGrid(g, R, C) && |next| == |g| && k <= |g|
    ensures ChangesOnBoard(ScanChanges(g, next, R, C, k), R, C)
  {
    if k > 0 {
      ScanChangesOnBoard(g, next, R, C, k - 1);
      var prev, cell := ScanChanges(g, next, R, C, k - 1), CellChange(g, next, R, C, k - 1);
      assert ScanChanges(g, next, R, C, k) == prev + cell;
    }
  }

  /**
   * Every recorded change flips a tile already visited to its state in next,
   * and the targets strictly increase, so no tile is recorded twice in a tick.
   */
  lemma {:induction false} ScanChangesSound(g: seq<TileState>, next: seq<TileState>, R: nat, C: nat, k: nat)
    requires IsGrid(g, R, C) && |next| == |g| && k <= |g|
    ensures forall j :: 0 <= j < |ScanChanges(g, next, R, C, k)| ==>
      var c := ScanChanges(g, next, R, C, k)[j];
      Target(C, c) < k && c.newState == next[Target(C, c)] && c.newState != g[Target(C, c)]
    ensures forall i, j :: 0 <= i < j < |ScanChanges(g, next, R, C, k)| ==>
      Target(C, ScanChanges(g, next, R, C, k)[i]) < Target(C, ScanChanges(g, next, R, C, k)[j])
  {
    if k > 0 {
      ScanChangesSound(g, next, R, C, k - 1);
      var prev, cell := ScanChanges(g, next, R, C, k - 1), CellChange(g, next, R, C, k - 1);
      assert ScanChanges(g, next, R, C, k) == prev + cell;
    }
  }

  /** Each tile among the first k whose state in next differs from its current one is recorded. */
  lemma {:induction false} ScanChangesComplete(g: seq<TileState>, next: seq<TileState>, R: nat, C: nat, k: nat, m: nat)
    requires IsGrid(g, R, C) && |next| == |g| && m < k <= |g|
    requires next[m] != g[m]
    ensures exists j :: 0 <= j < |ScanChanges(g, next, R, C, k)| && Target(C, ScanChanges(g, next, R, C, k)[j]) == m
  {
    var prev, cell := ScanChanges(g, next, R, C, k - 1), CellChange(g, next, R, C, k - 1);
    assert ScanChanges(g, next, R, C, k) == prev + cell;
    if m == k - 1 {
      assert ScanChanges(g, next, R, C, k)[|prev|] == cell[0];
    } else {
      ScanChangesComplete(g, next, R, C, k - 1, m);
      var j :| 0 <= j < |prev| && Target(C, prev[j]) == m;
      assert ScanChanges(g, next, R, C, k)[j] == prev[j];
    }
  }

  /** The recorded changes name pairwise distinct tiles. */
  lemma ScanChangesDistinct(g: seq<TileState>, next: seq<TileState>, R: nat, C: nat, k: nat)
    requires IsGrid(g, R, C) && |next| == |g| && k <= |g|
    ensures DistinctTargets(ScanChanges(g, next, R, C, k), C)
  {
    ScanChangesSound(g, next, R, C, k);
  }

  /** A full scan records nothing exactly when the board already is next. */
  lemma ScanEmptyIffUnchanged(g: seq<TileState>, next: seq<TileState>, R: nat, C: nat)
    requires IsGrid(g, R, C) && |next| == |g|
    ensures ScanChanges(g, next, R, C, |g|) == [] <==> next == g
  {
    var cs := ScanChanges(g, next, R, C, |g|);
    if cs == [] {
      forall m | 0 <= m < |g|
        ensures next[m] == g[m]
      {
        if next[m] != g[m] {
          ScanChangesComplete(g, next, R, C, |g|, m);
        }
      }
    } else {
      ScanChangesSound(g, next, R, C, |g|);
      var c := cs[0];
      assert next[Target(C, c)] != g[Target(C, c)];
    }
  }

  /**
   * After the apply phase the board is exactly next: a tile the scan recorded
   * takes its recorded state, and a tile it skipped already agreed with next.
   */
  lemma ApplyScanIsNext(g: seq<TileState>, next: seq<TileState>, R: nat, C: nat)
    requires IsGrid(g, R, C) && |next| == |g|
    ensures ChangesOnBoard(ScanChanges(g, next, R, C, |g|), R, C)
    ensures ApplyPops(g, R, C, ScanChanges(g, next, R, C, |g|)) == next
  {
    var cs := ScanChanges(g, next, R, C, |g|);
    ScanChangesOnBoard(g, next, R, C, |g|);
    var a := ApplyPops(g, R, C, cs);
    ScanChangesSound(g, next, R, C, |g|);
    ScanChangesDistinct(g, next, R, C, |g|);
    forall m | 0 <= m < |g|
      ensures a[m] == next[m]
    {
      ApplyPopsAt(g, R, C, cs, m);
      if next[m] != g[m] {
        ScanChangesComplete(g, next, R, C, |g|, m);
      }
    }
  }
}
