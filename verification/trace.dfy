/**
 * Path reconstruction: starting at the end cell, follow the recorded
 * predecessors back to the start cell, producing the cells walked through
 * (end first, start last). Two error outcomes exist: the end cell itself has
 * no predecessor, or a predecessor is missing part-way along the walk.
 */
module PathTrace {
  import opened GridModel

  datatype Walk =
    | Walked(cells: seq<Coord>)
    | NoPredecessorAtEnd   // the "No path found." dialog of the reconstruction
    | BrokenChain          // the "Error in path reconstruction." dialog

  /**
   * Every recorded predecessor is a grid cell ranked strictly below the cell
   * that records it. The rank only serves to show that following
   * predecessors cannot cycle.
   */
  ghost predicate Ranked(prev: array2<Option<Coord>>, rank: Coord -> nat)
    reads prev
  {
    GridShaped(prev) &&
    forall i, j :: 0 <= i < ROWS && 0 <= j < COLS && prev[i, j].Some? ==>
      InBounds(prev[i, j].value) && rank(prev[i, j].value) < rank(Coord(i, j))
  }

  /** The predecessor chain from `c` down to `start`, or None if it hits a missing predecessor. */
  ghost function Chain(prev: array2<Option<Coord>>, start: Coord, c: Coord, rank: Coord -> nat): Option<seq<Coord>>
    reads prev
    requires Ranked(prev, rank) && InBounds(c)
    decreases rank(c)
  {
    if c == start then Some([c])
    else match prev[c.row, c.col]
      case None => None
      case Some(p) =>
        match Chain(prev, start, p, rank)
        case None => None
        case Some(w) => Some([c] + w)
  }

  /** Consecutive cells of a walk are linked by a recorded predecessor. */
  ghost predicate Linked(prev: array2<Option<Coord>>, w: seq<Coord>)
    reads prev
  {
    (forall i :: 0 <= i < |w| ==> InBounds(w[i])) &&
    GridShaped(prev) &&
    forall i :: 0 <= i < |w| - 1 ==> prev[w[i].row, w[i].col] == Some(w[i + 1])
  }

  /**
   * A complete chain from `c` begins at `c`, ends at `start`, meets `start`
   * only there, follows predecessor links, and visits no cell twice.
   */
  lemma {:induction false} ChainShape(prev: array2<Option<Coord>>, start: Coord, c: Coord, rank: Coord -> nat)
    requires Ranked(prev, rank) && InBounds(c)
    requires Chain(prev, start, c, rank).Some?
    ensures var w := Chain(prev, start, c, rank).value;
      |w| > 0 && w[0] == c && w[|w| - 1] == start &&
      (forall i :: 0 <= i < |w| - 1 ==> w[i] != start) &&
      Linked(prev, w) &&
      (forall i, j :: 0 <= i < j < |w| ==> rank(w[i]) > rank(w[j])) &&
      (forall i, j :: 0 <= i < j < |w| ==> w[i] != w[j])
    decreases rank(c)
  {
    if c != start {
      var p := prev[c.row, c.col].value;
      ChainShape(prev, start, p, rank);
      var w := Chain(prev, start, c, rank).value;
      var tail := Chain(prev, start, p, rank).value;
      assert w == [c] + tail;
      assert forall j :: 0 < j < |w| ==> rank(w[j]) <= rank(p) < rank(c);
    }
  }

  /**
   * The reconstruction. It reports NoPredecessorAtEnd when the end cell
   * differs from the start and has no predecessor, and otherwise follows the
   * chain, reporting BrokenChain if a predecessor is missing on the way.
   */
  method AnimatePath(prev: array2<Option<Coord>>, start: Coord, end: Coord, ghost rank: Coord -> nat)
    returns (w: Walk)
    requires Ranked(prev, rank) && InBounds(end)
    ensures w.NoPredecessorAtEnd? <==> end != start && prev[end.row, end.col].None?
    ensures w.Walked? <==> Chain(prev, start, end, rank).Some?
    ensures w.Walked? ==> w.cells == Chain(prev, start, end, rank).value
    ensures w.Walked? ==> |w.cells| > 0 && w.cells[0] == end && w.cells[|w.cells| - 1] == start
    ensures w.Walked? ==> Linked(prev, w.cells)
    ensures w.Walked? ==> forall i, j :: 0 <= i < j < |w.cells| ==> w.cells[i] != w.cells[j]
  {
    if prev[end.row, end.col].None? && end != start {
      return NoPredecessorAtEnd;
    }
    var cells := FollowPredecessors(prev, start, end, rank);
    if cells.None? {
      return BrokenChain;
    }
    ChainShape(prev, start, end, rank);
    w := Walked(cells.value);
  }

  /** The loop of the reconstruction: walks the predecessors from `end`, collecting the cells passed. */
  method FollowPredecessors(prev: array2<Option<Coord>>, start: Coord, end: Coord, ghost rank: Coord -> nat)
    returns (cells: Option<seq<Coord>>)
    requires Ranked(prev, rank) && InBounds(end)
    ensures cells == Chain(prev, start, end, rank)
  {
    var current := end;
    var walked: seq<Coord> := [];
    while current != start
      invariant InBounds(current)
      invariant Chain(prev, start, end, rank).Some? <==> Chain(prev, start, current, rank).Some?
      invariant Chain(prev, start, current, rank).Some? ==>
                  Chain(prev, start, end, rank).value == walked + Chain(prev, start, current, rank).value
      decreases rank(current)
    {
      walked := walked + [current];
      var p := prev[current.row, current.col];
      if p.None? {
        return None;
      }
      if Chain(prev, start, p.value, rank).Some? {
        assert Chain(prev, start, current, rank).value == [current] + Chain(prev, start, p.value, rank).value;
      }
      current := p.value;
    }
    return Some(walked + [start]);
  }
}
