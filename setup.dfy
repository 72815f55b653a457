/**
 * The interactive setup before the simulation: arrow keys move a cursor
 * that is clamped to the board, the space bar toggles the tile under it,
 * Enter confirms and 'q' cancels. This module gives the meaning of a run
 * of key presses as a function; Game.GameState.SetUpBoard is proved to
 * follow it.
 */
module Setup {
  import opened Rules
  import opened Changes

  /** The keys setUpBoard reacts to; Other stands for every key it ignores. */
  datatype Key = KeyRight | KeyLeft | KeyDown | KeyUp | Space | Enter | Quit | Other

  /** How the setup phase ended: Enter, 'q', or the key presses ran out first. */
  datatype SetupOutcome = Confirmed | Cancelled | AwaitingInput

  /** The cursor and the tiles once the setup phase stops. */
  datatype SetupState = SetupState(outcome: SetupOutcome, cur: Point, tiles: seq<TileState>)

  /** The row direction of an arrow key (down is +1). */
  function RowStep(k: Key): int
  {
    match k
    case KeyDown => 1
    case KeyUp => -1
    case _ => 0
  }

  /** The column direction of an arrow key (right is +1). */
  function ColStep(k: Key): int
  {
    match k
    case KeyRight => 1
    case KeyLeft => -1
    case _ => 0
  }

  /** The arrow key would take the cursor off the board. */
  predicate AtEdge(cur: Point, k: Key, R: nat, C: nat)
  {
    (k == KeyRight && cur.col + 1 == C) || (k == KeyLeft && cur.col == 0) ||
    (k == KeyDown && cur.row + 1 == R) || (k == KeyUp && cur.row == 0)
  }

  /**
   * The cursor after a key: one step in the key's direction, except at the
   * edge of the board (and for non-arrow keys), where it stays put.
   */
  function MoveCursor(cur: Point, k: Key, R: nat, C: nat): (r: Point)
    requires cur.row < R && cur.col < C
    ensures r.row < R && r.col < C
    ensures r == cur <==> AtEdge(cur, k, R, C) || (RowStep(k) == 0 && ColStep(k) == 0)
    ensures r == cur || (r.row == cur.row + RowStep(k) && r.col == cur.col + ColStep(k))
  {
    match k
    case KeyRight => if cur.col == C - 1 then cur else cur.(col := cur.col + 1)
    case KeyLeft => if cur.col == 0 then cur else cur.(col := cur.col - 1)
    case KeyDown => if cur.row == R - 1 then cur else cur.(row := cur.row + 1)
    case KeyUp => if cur.row == 0 then cur else cur.(row := cur.row - 1)
    case _ => cur
  }

  /** The tiles after toggling the one under the cursor. */
  function ToggleAt(g: seq<TileState>, R: nat, C: nat, cur: Point): (h: seq<TileState>)
    requires IsGrid(g, R, C) && cur.row < R && cur.col < C
    ensures IsGrid(h, R, C)
    ensures forall k :: 0 <= k < |g| ==> (h[k] != g[k] <==> k == Index(C, cur.row, cur.col))
  {
    Write(g, R, C, TileChange(cur, Flip(Tile(g, R, C, cur.row, cur.col))))
  }

  /** A key that ends the setup phase. */
  predicate Ends(k: Key)
  {
    k == Enter || k == Quit
  }

  /** The effect of a run of key presses, stopping at the first Enter or 'q'. */
  function SetupRun(cur: Point, g: seq<TileState>, R: nat, C: nat, keys: seq<Key>): (s: SetupState)
    requires IsGrid(g, R, C) && cur.row < R && cur.col < C
    ensures IsGrid(s.tiles, R, C) && s.cur.row < R && s.cur.col < C
    ensures s.outcome == AwaitingInput <==> forall i :: 0 <= i < |keys| ==> !Ends(keys[i])
    ensures (forall i :: 0 <= i < |keys| ==> keys[i] != Space) ==> s.tiles == g
    decreases |keys|
  {
    if keys == [] then SetupState(AwaitingInput, cur, g)
    else
      match keys[0]
      case Enter => SetupState(Confirmed, cur, g)
      case Quit => SetupState(Cancelled, cur, g)
      case Space => SetupRun(cur, ToggleAt(g, R, C, cur), R, C, keys[1..])
      case _ => SetupRun(MoveCursor(cur, keys[0], R, C), g, R, C, keys[1..])
  }

  /** A key that does not end the setup moves the cursor or toggles a tile, and the run goes on. */
  lemma SetupRunStep(cur: Point, g: seq<TileState>, R: nat, C: nat, keys: seq<Key>)
    requires IsGrid(g, R, C) && cur.row < R && cur.col < C
    requires keys != [] && !Ends(keys[0])
    ensures keys[0] == Space ==>
      SetupRun(cur, g, R, C, keys) == SetupRun(cur, ToggleAt(g, R, C, cur), R, C, keys[1..])
    ensures keys[0] != Space ==>
      SetupRun(cur, g, R, C, keys) == SetupRun(MoveCursor(cur, keys[0], R, C), g, R, C, keys[1..])
  {
  }

  /** Setup confirms exactly when an Enter comes before any 'q'. */
  lemma {:induction false} SetupConfirmedIff(cur: Point, g: seq<TileState>, R: nat, C: nat, keys: seq<Key>)
    requires IsGrid(g, R, C) && cur.row < R && cur.col < C
    ensures SetupRun(cur, g, R, C, keys).outcome == Confirmed <==>
      exists i :: 0 <= i < |keys| && keys[i] == Enter && forall j :: 0 <= j < i ==> !Ends(keys[j])
    decreases |keys|
  {
    if keys != [] && !Ends(keys[0]) {
      var s := SetupRun(cur, g, R, C, keys);
      if keys[0] == Space {
        SetupConfirmedIff(cur, ToggleAt(g, R, C, cur), R, C, keys[1..]);
      } else {
        SetupConfirmedIff(MoveCursor(cur, keys[0], R, C), g, R, C, keys[1..]);
      }
      if s.outcome == Confirmed {
        var i :| 0 <= i < |keys[1..]| && keys[1..][i] == Enter && forall j :: 0 <= j < i ==> !Ends(keys[1..][j]);
        assert keys[i + 1] == Enter;
        assert forall j :: 0 <= j < i + 1 ==> !Ends(keys[j]) by {
          forall j | 0 <= j < i + 1 ensures !Ends(keys[j]) {
            if j > 0 { assert keys[j] == keys[1..][j - 1]; }
          }
        }
      } else {
        forall i | 0 <= i < |keys| && keys[i] == Enter
          ensures exists j :: 0 <= j < i && Ends(keys[j])
        {
          assert keys[1..][i - 1] == Enter;
          var j :| 0 <= j < i - 1 && Ends(keys[1..][j]);
          assert keys[j + 1] == keys[1..][j];
        }
      }
    }
  }
}
