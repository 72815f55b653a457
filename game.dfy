/**
 * The engine's mutable state: the board with its incrementally kept live
 * count, and the game state that owns the board, the setup cursor, the
 * tick counter and the stack of pending changes. The tick is proved to
 * produce the synchronous next generation of Rules.NextGen.
 */
module Game {
  import opened Rules
  import opened Changes
  import opened Setup

  /** A row-major array of tiles with a running count of the live ones. */
  class Board {
    const nrows: nat
    const ncols: nat
    const tiles: array<TileState>
    var nalive: nat

    /** The dimensions are positive and nalive counts the live tiles. */
    ghost predicate Valid()
      reads this, tiles
    {
      IsGrid(tiles[..], nrows, ncols) && nalive == CountAlive(tiles[..])
    }

    /** A board of all-dead tiles. */
    constructor (nrows: nat, ncols: nat)
      requires 0 < nrows && 0 < ncols
      ensures Valid() && fresh(tiles)
      ensures this.nrows == nrows && this.ncols == ncols && nalive == 0
      ensures forall k :: 0 <= k < tiles.Length ==> tiles[k] == Dead
    {
      this.nrows, this.ncols := nrows, ncols;
      tiles := new TileState[nrows * ncols](_ => Dead);
      nalive := 0;
      new;
      CountAliveIsMultiplicity(tiles[..]);
      assert Alive !in tiles[..];
    }

    /** The tile at an in-bounds coordinate; a live tile implies a positive live count. */
    function GetTileState(row: nat, col: nat): (s: TileState)
      reads this, tiles
      requires Valid() && row < nrows && col < ncols
      ensures s == Tile(tiles[..], nrows, ncols, row, col)
      ensures s == Alive ==> 0 < nalive
    {
      IndexInBounds(nrows, ncols, row, col);
      CountAliveUpdate(tiles[..], Index(ncols, row, col), Dead);
      tiles[row * ncols + col]
    }

    /** Writes one tile and adjusts the live count by +1, -1 or 0. */
    method SetTileState(val: TileState, row: nat, col: nat)
      requires Valid() && row < nrows && col < ncols
      modifies this, tiles
      ensures Valid()
      ensures Index(ncols, row, col) < tiles.Length
      ensures tiles[..] == old(tiles[..])[Index(ncols, row, col) := val]
      ensures old(tiles[Index(ncols, row, col)]) == Dead && val == Alive ==> nalive == old(nalive) + 1
      ensures old(tiles[Index(ncols, row, col)]) == Alive && val == Dead ==> nalive == old(nalive) - 1
      ensures old(tiles[Index(ncols, row, col)]) == val ==> nalive == old(nalive)
    {
      IndexInBounds(nrows, ncols, row, col);
      var i := row * ncols + col;
      var prev := tiles[i];
      CountAliveUpdate(tiles[..], i, val);
      tiles[i] := val;
      if prev == Alive && val == Dead {
        nalive := nalive - 1;
      } else if prev == Dead && val == Alive {
        nalive := nalive + 1;
      }
    }

    /** The number of live tiles among the eight neighbours that lie on the board. */
    method CountAliveNeighbors(row: nat, col: nat) returns (n: nat)
      requires Valid() && row < nrows && col < ncols
      ensures n == NeighborCount(tiles[..], nrows, ncols, row, col)
    {
      n := 0;
      for i := 0 to |Offsets|
        invariant n == NeighborsFrom(tiles[..], nrows, ncols, row, col, i)
      {
        var r := row + Offsets[i].0;
        var c := col + Offsets[i].1;
        if r < 0 || r > nrows - 1 || c < 0 || c > ncols - 1 {
          continue;
        }
        var neighborState := GetTileState(r, c);
        if neighborState == Alive {
          n := n + 1;
        }
      }
    }
  }

  /** The simulation state: board, cursor, tick counter and pending changes. */
  class GameState {
    const board: Board
    const pendingChanges: TileChangeStack
    var cur: Point
    var tick: nat

    /** The board is valid and the cursor is on it. */
    ghost predicate Valid()
      reads this, board, board.tiles
    {
      board.Valid() && cur.row < board.nrows && cur.col < board.ncols
    }

    /** Between ticks: valid, and no change is pending. */
    ghost predicate Idle()
      reads this, board, board.tiles, pendingChanges
    {
      Valid() && pendingChanges.items == []
    }

    /** The start of the program: an all-dead board, the cursor in the corner, tick 0. */
    constructor (nrows: nat, ncols: nat)
      requires 0 < nrows && 0 < ncols
      ensures Idle() && fresh(board) && fresh(board.tiles) && fresh(pendingChanges)
      ensures board.nrows == nrows && board.ncols == ncols && board.nalive == 0
      ensures forall k :: 0 <= k < board.tiles.Length ==> board.tiles[k] == Dead
      ensures cur == Point(0, 0) && tick == 0
    {
      board := new Board(nrows, ncols);
      pendingChanges := new TileChangeStack();
      cur := Point(0, 0);
      tick := 0;
    }

    /** Flips the tile under the cursor. */
    method ToggleTileState()
      requires Valid()
      modifies board, board.tiles
      ensures Valid()
      ensures board.tiles[..] == ToggleAt(old(board.tiles[..]), board.nrows, board.ncols, cur)
      ensures board.nalive == old(board.nalive) + 1 || board.nalive + 1 == old(board.nalive)
    {
      var current := board.GetTileState(cur.row, cur.col);
      match current
      case Dead =>
        board.SetTileState(Alive, cur.row, cur.col);
      case Alive =>
        board.SetTileState(Dead, cur.row, cur.col);
    }

    /**
     * The setup phase over a run of key presses: arrow keys move the cursor
     * unless it is at that edge, space toggles, Enter confirms and 'q' cancels.
     */
    method SetUpBoard(keys: seq<Key>) returns (outcome: SetupOutcome)
      requires Valid()
      modifies this, board, board.tiles
      ensures Valid() && tick == old(tick)
      ensures SetupState(outcome, cur, board.tiles[..])
           == SetupRun(old(cur), old(board.tiles[..]), board.nrows, board.ncols, keys)
    {
      var i := 0;
      while i < |keys|
        invariant i <= |keys| && Valid() && tick == old(tick)
        invariant SetupRun(cur, board.tiles[..], board.nrows, board.ncols, keys[i..])
               == SetupRun(old(cur), old(board.tiles[..]), board.nrows, board.ncols, keys)
      {
        assert keys[i..][1..] == keys[i + 1..];
        if !Ends(keys[i]) {
          SetupRunStep(cur, board.tiles[..], board.nrows, board.ncols, keys[i..]);
        }
        match keys[i] {
          case KeyRight =>
            if cur.col != board.ncols - 1 {
              cur := cur.(col := cur.col + 1);
            }
          case KeyLeft =>
            if cur.col != 0 {
              cur := cur.(col := cur.col - 1);
            }
          case KeyDown =>
            if cur.row != board.nrows - 1 {
              cur := cur.(row := cur.row + 1);
            }
          case KeyUp =>
            if cur.row != 0 {
              cur := cur.(row := cur.row - 1);
            }
          case Space =>
            ToggleTileState();
          case Enter =>
            return Confirmed;
          case Quit =>
            return Cancelled;
          case Other =>
        }
        i := i + 1;
      }
      return AwaitingInput;
    }

    /** Pushes a change for (row, col) exactly when the B3/S23 rule flips it. */
    method HandleTile(row: nat, col: nat)
      requires Valid() && row < board.nrows && col < board.ncols
      modifies pendingChanges
      ensures Index(board.ncols, row, col) < board.tiles.Length
      ensures pendingChanges.items
           == old(pendingChanges.items) + CellChange(board.tiles[..], NextGen(board.tiles[..], board.nrows, board.ncols),
                                                  board.nrows, board.ncols, Index(board.ncols, row, col))
    {
      ghost var R, C := board.nrows, board.ncols;
      ghost var g := board.tiles[..];
      ghost var k := Index(C, row, col);
      IndexInBounds(R, C, row, col);
      PointAtIndex(R, C, row, col);
      ghost var next := NextGen(g, R, C);
      var currentState := board.GetTileState(row, col);
      var numAliveNeighbors := board.CountAliveNeighbors(row, col);
      assert next[k] == NextState(currentState, numAliveNeighbors) by {
        assert next[k] == CellNext(g, R, C, k);
      }
      var change := TileChange(Point(row, col), currentState);
      if currentState == Alive && numAliveNeighbors < 2 {
        pendingChanges.Push(change.(newState := Dead));
      } else if currentState == Alive && (numAliveNeighbors == 2 || numAliveNeighbors == 3) {
      } else if currentState == Alive && numAliveNeighbors > 3 {
        pendingChanges.Push(change.(newState := Dead));
      } else if currentState == Dead && numAliveNeighbors == 3 {
        pendingChanges.Push(change.(newState := Alive));
      }
    }

    /** Pops every pending change and writes it to the board. */
    method DoChanges()
      requires Valid() && ChangesOnBoard(pendingChanges.items, board.nrows, board.ncols)
      modifies board, board.tiles, pendingChanges
      ensures Idle()
      ensures board.tiles[..] == ApplyPops(old(board.tiles[..]), board.nrows, board.ncols, old(pendingChanges.items))
    {
      while !pendingChanges.IsEmpty()
        invariant Valid() && ChangesOnBoard(pendingChanges.items, board.nrows, board.ncols)
        invariant ApplyPops(board.tiles[..], board.nrows, board.ncols, pendingChanges.items)
               == ApplyPops(old(board.tiles[..]), board.nrows, board.ncols, old(pendingChanges.items))
        decreases |pendingChanges.items|
      {
        ghost var before := board.tiles[..];
        ghost var stack := pendingChanges.items;
        var change := pendingChanges.Pop();
        board.SetTileState(change.newState, change.point.row, change.point.col);
        assert stack[..|stack| - 1] == pendingChanges.items;
        assert board.tiles[..] == Write(before, board.nrows, board.ncols, change);
        assert ApplyPops(before, board.nrows, board.ncols, stack)
            == ApplyPops(board.tiles[..], board.nrows, board.ncols, pendingChanges.items);
      }
    }

    /**
     * The inner loop of the scan phase: visits the tiles of one row from left
     * to right and records their changes, reading only the unmodified board.
     */
    method ScanRow(row: nat, ghost g: seq<TileState>, ghost next: seq<TileState>)
      requires Valid() && row < board.nrows && g == board.tiles[..]
      requires next == NextGen(g, board.nrows, board.ncols)
      requires RowStart(row + 1, board.ncols) <= |g|
      requires pendingChanges.items == ScanChanges(g, next, board.nrows, board.ncols, RowStart(row, board.ncols))
      modifies pendingChanges
      ensures pendingChanges.items == ScanChanges(g, next, board.nrows, board.ncols, RowStart(row + 1, board.ncols))
    {
      var R, C := board.nrows, board.ncols;
      ghost var k := RowStart(row, C);
      RowStartIsIndex(row, C);
      for col := 0 to C
        invariant k == RowStart(row, C) + col
        invariant pendingChanges.items == ScanChanges(g, next, R, C, k)
      {
        ghost var before := pendingChanges.items;
        HandleTile(row, col);
        assert pendingChanges.items == before + CellChange(g, next, R, C, k);
        k := k + 1;
      }
    }

    /**
     * The scan phase of a tick: visits every tile in row-major order and
     * records its change, reading only the unmodified board.
     */
    method ScanTiles()
      requires Idle()
      modifies pendingChanges
      ensures Valid()
      ensures pendingChanges.items
           == ScanChanges(board.tiles[..], NextGen(board.tiles[..], board.nrows, board.ncols),
                          board.nrows, board.ncols, |board.tiles[..]|)
    {
      ghost var g := board.tiles[..];
      var R, C := board.nrows, board.ncols;
      ghost var next := NextGen(g, R, C);
      RowStartIsIndex(R, C);
      for row := 0 to R
        invariant RowStart(row, C) <= |g|
        invariant pendingChanges.items == ScanChanges(g, next, R, C, RowStart(row, C))
        modifies pendingChanges
      {
        RowStartMonotone(row + 1, R, C);
        ScanRow(row, g, next);
      }
    }

    /**
     * One tick: scan every tile against the unmodified board, then apply the
     * pending changes. Returns whether any tile changed.
     */
    method DoTick() returns (anyChanged: bool)
      requires Idle()
      modifies this, board, board.tiles, pendingChanges
      ensures Idle() && cur == old(cur) && tick == old(tick) + 1
      ensures board.tiles[..] == NextGen(old(board.tiles[..]), board.nrows, board.ncols)
      ensures anyChanged <==> !IsFixedPoint(old(board.tiles[..]), board.nrows, board.ncols)
    {
      tick := tick + 1;
      ghost var g := board.tiles[..];
      ghost var next := NextGen(g, board.nrows, board.ncols);
      ScanTiles();
      anyChanged := !pendingChanges.IsEmpty();
      ScanEmptyIffUnchanged(g, next, board.nrows, board.ncols);
      ScanChangesOnBoard(g, next, board.nrows, board.ncols, |g|);
      if anyChanged {
        DoChanges();
        ApplyScanIsNext(g, next, board.nrows, board.ncols);
      }
    }

    /**
     * The simulation loop: tick until a tick changes nothing, at most maxTicks
     * times. halted reports that a tick changed nothing.
     */
    method SimulationLoop(maxTicks: nat) returns (halted: bool)
      requires Idle()
      modifies this, board, board.tiles, pendingChanges
      ensures Idle() && cur == old(cur)
      ensures old(tick) <= tick <= old(tick) + maxTicks
      ensures board.tiles[..] == Generation(old(board.tiles[..]), board.nrows, board.ncols, tick - old(tick))
      ensures halted ==> HaltsAfter(old(board.tiles[..]), board.nrows, board.ncols, tick - old(tick))
      ensures !halted ==> tick == old(tick) + maxTicks
      ensures !halted ==> forall j :: 0 <= j < maxTicks ==>
        !IsFixedPoint(Generation(old(board.tiles[..]), board.nrows, board.ncols, j), board.nrows, board.ncols)
    {
      ghost var g := board.tiles[..];
      var R, C := board.nrows, board.ncols;
      halted := false;
      var n := 0;
      while !halted && n < maxTicks
        invariant Idle() && cur == old(cur)
        invariant n <= maxTicks && tick == old(tick) + n
        invariant board.tiles[..] == Generation(g, R, C, n)
        invariant halted ==> HaltsAfter(g, R, C, n)
        invariant !halted ==> forall j :: 0 <= j < n ==> !IsFixedPoint(Generation(g, R, C, j), R, C)
        decreases maxTicks - n, if halted then 0 else 1
      {
        var changed := DoTick();
        assert board.tiles[..] == Generation(g, R, C, n + 1);
        assert changed <==> !IsFixedPoint(Generation(g, R, C, n), R, C);
        n := n + 1;
        halted := !changed;
      }
    }
  }
}
