/**
 * The "Start BFS" button: checks that both endpoints are placed, seeds a
 * search on the board's walls, runs one search tick per timer event until the
 * search stops, and on success reconstructs the path from the end cell back
 * to the start cell. The dialogs of the program become outcome values.
 */
module Visualizer {
  import opened GridModel
  import opened CellEditing
  import opened PathTrace
  import opened BreadthFirst

  datatype Outcome =
    | MissingEndpoints   // "Please set start and end points."
    | Exhausted          // the queue ran empty: "No path found."
    | Traced(walk: Walk) // the end cell was polled and the reconstruction ran

  /**
   * Runs a whole search on the current board. `ticks` counts the timer events
   * the search took. The board itself is left unchanged.
   */
  method StartBFS(board: Board) returns (outcome: Outcome, ticks: nat)
    requires board.Valid()
    ensures outcome.MissingEndpoints? <==> board.startCell.None? || board.endCell.None?
    ensures ticks <= ROWS * COLS + 1
    ensures outcome.Exhausted? ==>
      board.startCell.Some? && board.endCell.Some? &&
      forall p :: OpenPath(WallSet(board.walls), p) && p[0] == board.startCell.value ==>
        p[|p| - 1] != board.endCell.value
    ensures outcome.Traced? ==> outcome.walk.Walked?
    ensures outcome.Traced? ==>
      var w := outcome.walk.cells;
      board.startCell.Some? && board.endCell.Some? && |w| > 0 &&
      w[0] == board.endCell.value && w[|w| - 1] == board.startCell.value &&
      OpenPath(WallSet(board.walls), w) &&
      (forall i, j :: 0 <= i < j < |w| ==> w[i] != w[j]) &&
      forall q :: OpenPath(WallSet(board.walls), q) && q[0] == board.startCell.value && q[|q| - 1] == board.endCell.value
        ==> |w| <= |q|
    ensures WallSet(board.walls) == {} ==> !outcome.Exhausted?
    ensures WallSet(board.walls) == {} && outcome.Traced? ==>
      |outcome.walk.cells| - 1 == Manhattan(board.startCell.value, board.endCell.value)
  {
    if board.startCell.None? || board.endCell.None? {
      return MissingEndpoints, 0;
    }
    var start, end := board.startCell.value, board.endCell.value;
    assert start !in WallSet(board.walls);
    var s := new Search(board.walls, start, end);
    var t := Continue;
    ticks := 0;
    while t.Continue?
      invariant s.walls == board.walls && s.blocked == WallSet(board.walls)
      invariant s.start == start && s.end == end
      invariant s.Valid()
      invariant !t.Found? ==> s.Running()
      invariant t.NotFound? ==> s.queue == []
      invariant t.Found? ==> 0 < s.head <= |s.order| && s.order[s.head - 1] == end
      invariant ticks == s.head + (if t.NotFound? then 1 else 0)
      invariant ticks <= ROWS * COLS + 1
      decreases ROWS * COLS + 1 - ticks
    {
      s.EnqueuedAtMostOnce();
      t := s.Step();
      ticks := ticks + 1;
    }
    if t.NotFound? {
      forall p | OpenPath(s.blocked, p) && p[0] == start
        ensures p[|p| - 1] != end
      {
        s.EndUnreachable(p);
      }
      WallFreeConnected(s.blocked, start, end);
      return Exhausted, ticks;
    }
    assert s.order[s.head - 1] == end;
    var w := TraceFound(s);
    outcome := Traced(w);
  }

  /**
   * The reconstruction after the search polled the end cell: it always
   * yields a walk, and that walk is a shortest open walk between the
   * endpoints, of exactly the Manhattan distance on a grid without walls.
   */
  method TraceFound(s: Search) returns (w: Walk)
    requires s.Tracked() && s.Cells() && s.Closed() && 0 < s.head && s.order[s.head - 1] == s.end
    ensures w.Walked? && |w.cells| > 0
    ensures w.cells[0] == s.end && w.cells[|w.cells| - 1] == s.start
    ensures OpenPath(s.blocked, w.cells)
    ensures forall i, j :: 0 <= i < j < |w.cells| ==> w.cells[i] != w.cells[j]
    ensures forall q :: OpenPath(s.blocked, q) && q[0] == s.start && q[|q| - 1] == s.end ==> |w.cells| <= |q|
    ensures s.blocked == {} ==> |w.cells| - 1 == Manhattan(s.start, s.end)
  {
    s.FoundShortest();
    w := AnimatePath(s.prev, s.start, s.end, s.Rank());
    if s.blocked == {} {
      WallFreeShortest(s.start, s.end, w.cells);
    }
  }
}
