/**
 * The breadth-first search, one timer tick at a time. The search owns a FIFO
 * queue of cells, a visited flag per cell and a predecessor per cell. Each
 * tick polls one cell: the end cell stops the search, any other cell has its
 * open, unvisited neighbours marked visited, given it as predecessor and
 * appended to the queue, in the order down, up, right, left. An empty queue
 * means there is no path.
 */
module BreadthFirst {
  import opened GridModel
  import opened PathTrace

  datatype Tick = Continue | Found | NotFound

  /**
   * Replays the neighbour loop of one tick over the list `ns` of candidate
   * cells: each candidate that is an open grid cell not yet in `seen` is
   * appended, in the order of `ns`.
   */
  ghost function Grow(blocked: set<Coord>, seen: seq<Coord>, ns: seq<Coord>): (r: seq<Coord>)
    ensures |seen| <= |r| && r[..|seen|] == seen
    decreases |ns|
  {
    if ns == [] then seen
    else
      var n := ns[0];
      Grow(blocked, if Open(blocked, n) && n !in seen then seen + [n] else seen, ns[1..])
  }

  /**
   * What one expansion adds: only admissible candidates, each an open cell
   * not seen before and not appended twice.
   */
  lemma {:induction false} GrowFresh(blocked: set<Coord>, seen: seq<Coord>, ns: seq<Coord>)
    ensures var r := Grow(blocked, seen, ns);
      forall k :: |seen| <= k < |r| ==> r[k] in ns && Open(blocked, r[k]) && r[k] !in r[..k]
    decreases |ns|
  {
    if ns != [] {
      var n := ns[0];
      var seen' := if Open(blocked, n) && n !in seen then seen + [n] else seen;
      GrowFresh(blocked, seen', ns[1..]);
      var r := Grow(blocked, seen, ns);
      assert r == Grow(blocked, seen', ns[1..]);
      assert forall m :: m in ns[1..] ==> m in ns;
      forall k | |seen| <= k < |seen'|
        ensures r[k] in ns && Open(blocked, r[k]) && r[k] !in r[..k]
      {
        assert r[..|seen'|] == seen';
        assert r[k] == seen'[k] == n;
        assert r[..k] == seen;
      }
    }
  }

  /** Every open candidate ends up in the result: it was either seen already or is appended. */
  lemma {:induction false} GrowCovers(blocked: set<Coord>, seen: seq<Coord>, ns: seq<Coord>)
    ensures var r := Grow(blocked, seen, ns);
      forall n :: n in ns && Open(blocked, n) ==> n in r
    decreases |ns|
  {
    if ns != [] {
      var n := ns[0];
      var seen' := if Open(blocked, n) && n !in seen then seen + [n] else seen;
      GrowCovers(blocked, seen', ns[1..]);
      var r := Grow(blocked, seen, ns);
      assert r == Grow(blocked, seen', ns[1..]);
      assert forall m :: m in ns ==> m == n || m in ns[1..];
      if Open(blocked, n) {
        assert r[..|seen'|] == seen';
        assert n in seen';
      }
    }
  }

  /**
   * `order` starts at the start cell, holds open cells only, and `pos` maps
   * exactly its entries to their positions (so no cell occurs twice).
   */
  ghost predicate History(blocked: set<Coord>, start: Coord, order: seq<Coord>, pos: map<Coord, nat>)
  {
    |order| > 0 && order[0] == start &&
    (forall k :: 0 <= k < |order| ==> order[k] in pos && pos[order[k]] == k && Open(blocked, order[k])) &&
    (forall c :: c in pos ==> pos[c] < |order| && order[pos[c]] == c)
  }

  lemma HistoryAppend(blocked: set<Coord>, start: Coord, order: seq<Coord>, pos: map<Coord, nat>, n: Coord)
    requires History(blocked, start, order, pos) && Open(blocked, n) && n !in pos
    ensures History(blocked, start, order + [n], pos[n := |order|])
  {
    var order', pos' := order + [n], pos[n := |order|];
    forall k | 0 <= k < |order'|
      ensures order'[k] in pos' && pos'[order'[k]] == k && Open(blocked, order'[k])
    {
      if k < |order| {
        assert order'[k] == order[k] && order[k] in pos && order[k] != n;
      }
    }
    forall c | c in pos'
      ensures pos'[c] < |order'| && order'[pos'[c]] == c
    {
      if c != n {
        assert c in pos && pos'[c] == pos[c] && order'[pos'[c]] == order[pos[c]];
      }
    }
  }

  /**
   * The predecessor relation: exactly the enqueued cells other than the start
   * have a predecessor, and it is a cell enqueued earlier, one step away.
   */
  ghost predicate Parents(start: Coord, pos: map<Coord, nat>, parent: map<Coord, Coord>) {
    (forall c {:trigger c in parent} :: c in parent <==> c in pos && c != start) &&
    (forall c :: c in parent ==> parent[c] in pos && pos[parent[c]] < pos[c] && Adjacent(parent[c], c))
  }

  lemma ParentsAppend(start: Coord, pos: map<Coord, nat>, parent: map<Coord, Coord>, n: Coord, at: nat, p: Coord)
    requires Parents(start, pos, parent)
    requires n !in pos && n != start && p in pos && pos[p] < at && Adjacent(p, n)
    ensures Parents(start, pos[n := at], parent[n := p])
  {
  }

  /**
   * The breadth-first level of `c`: the number of predecessor links from `c`
   * back to a cell without a predecessor. It is defined for every cell (0
   * off the recorded cells) so that it can be used without preconditions.
   */
  ghost function Level(pos: map<Coord, nat>, parent: map<Coord, Coord>, c: Coord): nat
    decreases if c in pos then pos[c] else 0
  {
    if c in pos && c in parent && parent[c] in pos && pos[parent[c]] < pos[c] then
      Level(pos, parent, parent[c]) + 1
    else
      0
  }

  /** With well-formed predecessors, the start is at level 0 and every other recorded cell one below its predecessor. */
  lemma LevelStep(start: Coord, pos: map<Coord, nat>, parent: map<Coord, Coord>, c: Coord)
    requires Parents(start, pos, parent) && c in pos
    ensures c == start ==> Level(pos, parent, c) == 0
    ensures c != start ==> Level(pos, parent, c) == Level(pos, parent, parent[c]) + 1
  {
  }

  /**
   * The bookkeeping of a search: distinct in-bounds endpoints with an open
   * start, the enqueue history with its predecessors, and the
   * queue as the unpolled suffix of the history.
   */
  ghost predicate Trail(blocked: set<Coord>, start: Coord, end: Coord, order: seq<Coord>,
                        pos: map<Coord, nat>, parent: map<Coord, Coord>, head: nat, queue: seq<Coord>) {
    InBounds(start) && InBounds(end) && start != end && Open(blocked, start) &&
    History(blocked, start, order, pos) && Parents(start, pos, parent) &&
    head <= |order| && queue == order[head..]
  }

  /** Enqueueing an open, unseen neighbour `n` of the enqueued cell `current` keeps the bookkeeping. */
  lemma TrailAppend(blocked: set<Coord>, start: Coord, end: Coord, order: seq<Coord>,
                    pos: map<Coord, nat>, parent: map<Coord, Coord>,
                    head: nat, queue: seq<Coord>, n: Coord, current: Coord)
    requires Trail(blocked, start, end, order, pos, parent, head, queue)
    requires Open(blocked, n) && n !in pos && current in pos && Adjacent(current, n)
    ensures Trail(blocked, start, end, order + [n], pos[n := |order|], parent[n := current], head, queue + [n])
  {
    HistoryAppend(blocked, start, order, pos, n);
    ParentsAppend(start, pos, parent, n, |order|, current);
    assert (order + [n])[head..] == order[head..] + [n];
  }

  /** Polling the head of a non-empty queue keeps the bookkeeping. */
  lemma TrailPoll(blocked: set<Coord>, start: Coord, end: Coord, order: seq<Coord>,
                  pos: map<Coord, nat>, parent: map<Coord, Coord>, head: nat, queue: seq<Coord>)
    requires Trail(blocked, start, end, order, pos, parent, head, queue) && queue != []
    ensures head < |order| && order[head] == queue[0]
    ensures Trail(blocked, start, end, order, pos, parent, head + 1, queue[1..])
  {
    assert order[head + 1..] == queue[1..];
  }

  /**
   * How the enqueue positions, predecessors and depths change while one cell,
   * `current`, is expanded: nothing recorded before changes, and every newly
   * recorded predecessor is `current`.
   */
  ghost predicate Grown(pos0: map<Coord, nat>, parent0: map<Coord, Coord>,
                        pos: map<Coord, nat>, parent: map<Coord, Coord>, current: Coord)
  {
    (forall c :: c in pos0 ==> c in pos && pos[c] == pos0[c]) &&
    (forall c :: c in parent0 ==> c in parent && parent[c] == parent0[c]) &&
    (forall c :: c in parent && c !in parent0 ==> parent[c] == current)
  }

  lemma GrownNothing(pos: map<Coord, nat>, parent: map<Coord, Coord>, current: Coord)
    ensures Grown(pos, parent, pos, parent, current)
  {
  }

  lemma GrownAppend(pos0: map<Coord, nat>, parent0: map<Coord, Coord>, pos: map<Coord, nat>, parent: map<Coord, Coord>,
                    current: Coord, n: Coord, at: nat)
    requires Grown(pos0, parent0, pos, parent, current) && n !in pos && n !in parent
    ensures Grown(pos0, parent0, pos[n := at], parent[n := current], current)
  {
  }

  /** Growing the records while expanding a cell leaves the level of every earlier recorded cell unchanged. */
  lemma {:induction false} LevelGrown(start: Coord, pos0: map<Coord, nat>, parent0: map<Coord, Coord>,
                                      pos: map<Coord, nat>, parent: map<Coord, Coord>, current: Coord, c: Coord)
    requires Parents(start, pos0, parent0) && Parents(start, pos, parent)
    requires Grown(pos0, parent0, pos, parent, current) && c in pos0
    ensures Level(pos, parent, c) == Level(pos0, parent0, c)
    decreases pos0[c]
  {
    LevelStep(start, pos0, parent0, c);
    LevelStep(start, pos, parent, c);
    if c != start {
      LevelGrown(start, pos0, parent0, pos, parent, current, parent0[c]);
    }
  }

  /** The visited flag and predecessor entry of cell `c` mirror the enqueue positions and the predecessor map. */
  ghost predicate CellOk(seen: bool, pred: Option<Coord>, c: Coord, pos: map<Coord, nat>, parent: map<Coord, Coord>) {
    (seen <==> c in pos) &&
    pred == if c in parent then Some(parent[c]) else None
  }

  lemma CellOkAppend(seen: bool, pred: Option<Coord>, c: Coord, pos: map<Coord, nat>, parent: map<Coord, Coord>,
                     n: Coord, at: nat, p: Coord)
    requires CellOk(seen, pred, c, pos, parent) && c != n
    ensures CellOk(seen, pred, c, pos[n := at], parent[n := p])
  {
  }

  ghost predicate Mirrors(visited: array2<bool>, prev: array2<Option<Coord>>,
                         pos: map<Coord, nat>, parent: map<Coord, Coord>)
    reads visited, prev
  {
    GridShaped(visited) && GridShaped(prev) &&
    forall i, j :: 0 <= i < ROWS && 0 <= j < COLS ==>
      CellOk(visited[i, j], prev[i, j], Coord(i, j), pos, parent)
  }

  /** Sets the visited flag and the predecessor of the newly enqueued cell `n`. */
  method Mark(visited: array2<bool>, prev: array2<Option<Coord>>, n: Coord, current: Coord,
              ghost pos: map<Coord, nat>, ghost parent: map<Coord, Coord>, ghost at: nat)
    requires Mirrors(visited, prev, pos, parent) && InBounds(n)
    modifies visited, prev
    ensures Mirrors(visited, prev, pos[n := at], parent[n := current])
  {
    visited[n.row, n.col] := true;
    prev[n.row, n.col] := Some(current);
    forall i, j | 0 <= i < ROWS && 0 <= j < COLS && (i != n.row || j != n.col)
      ensures CellOk(visited[i, j], prev[i, j], Coord(i, j), pos[n := at], parent[n := current])
    {
      CellOkAppend(old(visited[i, j]), old(prev[i, j]), Coord(i, j), pos, parent, n, at, current);
    }
  }

  /** Every open neighbour of `c` has been enqueued. */
  ghost predicate Expanded(blocked: set<Coord>, pos: map<Coord, nat>, c: Coord)
  {
    forall n :: Adjacent(c, n) && Open(blocked, n) ==> n in pos
  }

  /** Every open neighbour of `c` has been enqueued at most one level below `c`. */
  ghost predicate Spread(blocked: set<Coord>, pos: map<Coord, nat>, parent: map<Coord, Coord>, c: Coord)
  {
    forall n :: Adjacent(c, n) && Open(blocked, n) ==> n in pos && Level(pos, parent, n) <= Level(pos, parent, c) + 1
  }

  /**
   * The breadth-first layering after `head` polls: levels never decrease
   * along the enqueue order, every predecessor has already been polled, and
   * every polled cell other than `end` has spread to all its open neighbours.
   */
  ghost predicate Layered(blocked: set<Coord>, end: Coord, order: seq<Coord>, pos: map<Coord, nat>,
                          parent: map<Coord, Coord>, head: nat) {
    head <= |order| &&
    (forall k :: 0 < k < |order| ==> Level(pos, parent, order[k - 1]) <= Level(pos, parent, order[k])) &&
    (forall c :: c in parent ==> parent[c] in pos && pos[parent[c]] < head) &&
    (forall k :: 0 <= k < head && order[k] != end ==> Spread(blocked, pos, parent, order[k]))
  }

  /** `end` is not among the first `head` cells of `order`. */
  ghost predicate EndUnpolled(end: Coord, order: seq<Coord>, head: nat) {
    head <= |order| && forall k :: 0 <= k < head ==> order[k] != end
  }

  /** Levels that never decrease between neighbouring entries never decrease between any two entries. */
  lemma {:induction false} MonotoneLevels(order: seq<Coord>, pos: map<Coord, nat>, parent: map<Coord, Coord>)
    requires forall k :: 0 < k < |order| ==> Level(pos, parent, order[k - 1]) <= Level(pos, parent, order[k])
    ensures forall k, l :: 0 <= k <= l < |order| ==> Level(pos, parent, order[k]) <= Level(pos, parent, order[l])
  {
    if |order| > 0 {
      var init := order[..|order| - 1];
      assert forall k :: 0 <= k < |init| ==> init[k] == order[k];
      MonotoneLevels(init, pos, parent);
      var last := |order| - 1;
      forall k | 0 <= k <= last
        ensures Level(pos, parent, order[k]) <= Level(pos, parent, order[last])
      {
        if k < last {
          assert Level(pos, parent, init[k]) <= Level(pos, parent, init[last - 1]);
        }
      }
    }
  }

  /** Polling the end cell keeps the layering. */
  lemma EndPolled(blocked: set<Coord>, end: Coord, order: seq<Coord>, pos: map<Coord, nat>,
                  parent: map<Coord, Coord>, head0: nat)
    requires Layered(blocked, end, order, pos, parent, head0) && head0 < |order| && order[head0] == end
    ensures Layered(blocked, end, order, pos, parent, head0 + 1)
  {
  }

  /**
   * Before the cell at position `head0` is expanded, every cell polled so far
   * lies no deeper than it, and every enqueued cell lies at most one level
   * below it.
   */
  lemma WithinOneLevel(blocked: set<Coord>, start: Coord, end: Coord, order: seq<Coord>, pos: map<Coord, nat>,
                       parent: map<Coord, Coord>, head0: nat)
    requires History(blocked, start, order, pos) && Parents(start, pos, parent)
    requires Layered(blocked, end, order, pos, parent, head0) && head0 < |order|
    ensures forall k :: 0 <= k <= head0 ==> Level(pos, parent, order[k]) <= Level(pos, parent, order[head0])
    ensures forall c :: c in pos ==> Level(pos, parent, c) <= Level(pos, parent, order[head0]) + 1
  {
    MonotoneLevels(order, pos, parent);
    forall c | c in pos
      ensures Level(pos, parent, c) <= Level(pos, parent, order[head0]) + 1
    {
      LevelStep(start, pos, parent, c);
      if c != start {
        var p := parent[c];
        assert order[pos[p]] == p;
      }
    }
  }

  /** The cells enqueued while expanding `current` all lie one level below it. */
  lemma NextLevel(blocked: set<Coord>, start: Coord, order0: seq<Coord>, pos0: map<Coord, nat>,
                  parent0: map<Coord, Coord>, order: seq<Coord>, pos: map<Coord, nat>, parent: map<Coord, Coord>,
                  current: Coord)
    requires History(blocked, start, order0, pos0) && Parents(start, pos0, parent0)
    requires History(blocked, start, order, pos) && Parents(start, pos, parent)
    requires |order0| <= |order| && order[..|order0|] == order0
    requires Grown(pos0, parent0, pos, parent, current) && current in pos0
    ensures forall k :: |order0| <= k < |order| ==> Level(pos, parent, order[k]) == Level(pos0, parent0, current) + 1
    ensures forall c :: c in pos && c !in pos0 ==> Level(pos, parent, c) == Level(pos0, parent0, current) + 1
  {
    LevelGrown(start, pos0, parent0, pos, parent, current, current);
    forall k | |order0| <= k < |order|
      ensures Level(pos, parent, order[k]) == Level(pos0, parent0, current) + 1
    {
      var c := order[k];
      assert pos[c] == k;
      assert c !in pos0;
      assert c != start by {
        assert order[0] == order[..|order0|][0];
      }
      assert c in parent && c !in parent0;
      LevelStep(start, pos, parent, c);
    }
    forall c | c in pos && c !in pos0
      ensures Level(pos, parent, c) == Level(pos0, parent0, current) + 1
    {
      assert order[pos[c]] == c;
    }
  }

  /** Growing the records while expanding a cell keeps the levels of all earlier recorded cells. */
  lemma LevelsGrown(start: Coord, pos0: map<Coord, nat>, parent0: map<Coord, Coord>,
                    pos: map<Coord, nat>, parent: map<Coord, Coord>, current: Coord)
    requires Parents(start, pos0, parent0) && Parents(start, pos, parent)
    requires Grown(pos0, parent0, pos, parent, current)
    ensures forall c :: c in pos0 ==> c in pos && Level(pos, parent, c) == Level(pos0, parent0, c)
  {
    forall c | c in pos0
      ensures c in pos && Level(pos, parent, c) == Level(pos0, parent0, c)
    {
      LevelGrown(start, pos0, parent0, pos, parent, current, c);
    }
  }

  /**
   * Appending cells of level `lvl + 1` to an order whose levels never
   * decrease and stay at most `lvl + 1` keeps the levels non-decreasing.
   */
  lemma MonotoneExtended(order0: seq<Coord>, pos0: map<Coord, nat>, parent0: map<Coord, Coord>,
                         order: seq<Coord>, pos: map<Coord, nat>, parent: map<Coord, Coord>, lvl: nat)
    requires |order0| <= |order| && order[..|order0|] == order0
    requires forall k :: 0 < k < |order0| ==> Level(pos0, parent0, order0[k - 1]) <= Level(pos0, parent0, order0[k])
    requires forall k :: 0 <= k < |order0| ==>
      Level(pos, parent, order0[k]) == Level(pos0, parent0, order0[k]) <= lvl + 1
    requires forall k :: |order0| <= k < |order| ==> Level(pos, parent, order[k]) == lvl + 1
    ensures forall k :: 0 < k < |order| ==> Level(pos, parent, order[k - 1]) <= Level(pos, parent, order[k])
  {
    forall k | 0 < k < |order|
      ensures Level(pos, parent, order[k - 1]) <= Level(pos, parent, order[k])
    {
      if k - 1 < |order0| {
        assert order[k - 1] == order[..|order0|][k - 1];
      }
      if k < |order0| {
        assert order[k] == order[..|order0|][k];
      }
    }
  }

  /** A cell that had spread keeps having spread while the records grow and keep their levels. */
  lemma SpreadKept(blocked: set<Coord>, pos0: map<Coord, nat>, parent0: map<Coord, Coord>,
                   pos: map<Coord, nat>, parent: map<Coord, Coord>, y: Coord)
    requires Spread(blocked, pos0, parent0, y) && y in pos0
    requires forall c :: c in pos0 ==> c in pos && Level(pos, parent, c) == Level(pos0, parent0, c)
    ensures Spread(blocked, pos, parent, y)
  {
  }

  /** The expanded cell has spread: each open neighbour was either already recorded or is recorded one level below it. */
  lemma SpreadCurrent(blocked: set<Coord>, pos0: map<Coord, nat>, parent0: map<Coord, Coord>,
                      pos: map<Coord, nat>, parent: map<Coord, Coord>, current: Coord)
    requires Expanded(blocked, pos, current) && current in pos0
    requires forall c :: c in pos0 ==> Level(pos0, parent0, c) <= Level(pos0, parent0, current) + 1
    requires forall c :: c in pos0 ==> c in pos && Level(pos, parent, c) == Level(pos0, parent0, c)
    requires forall c :: c in pos && c !in pos0 ==> Level(pos, parent, c) == Level(pos0, parent0, current) + 1
    ensures Spread(blocked, pos, parent, current)
  {
  }

  /**
   * Polling and expanding the cell at position `head0` keeps the layering
   * with one more cell polled, and (if none of the earlier polled cells was
   * the end) the end has still not been polled.
   */
  lemma LayerClosed(blocked: set<Coord>, start: Coord, end: Coord,
                    order0: seq<Coord>, pos0: map<Coord, nat>, parent0: map<Coord, Coord>,
                    order: seq<Coord>, pos: map<Coord, nat>, parent: map<Coord, Coord>,
                    head0: nat, current: Coord)
    requires History(blocked, start, order0, pos0) && Parents(start, pos0, parent0)
    requires History(blocked, start, order, pos) && Parents(start, pos, parent)
    requires head0 < |order0| && order0[head0] == current && current != end
    requires |order0| <= |order| && order[..|order0|] == order0
    requires Grown(pos0, parent0, pos, parent, current)
    requires Layered(blocked, end, order0, pos0, parent0, head0) && EndUnpolled(end, order0, head0)
    requires Expanded(blocked, pos, current)
    ensures Layered(blocked, end, order, pos, parent, head0 + 1) && EndUnpolled(end, order, head0 + 1)
  {
    WithinOneLevel(blocked, start, end, order0, pos0, parent0, head0);
    NextLevel(blocked, start, order0, pos0, parent0, order, pos, parent, current);
    LevelsGrown(start, pos0, parent0, pos, parent, current);
    MonotoneExtended(order0, pos0, parent0, order, pos, parent, Level(pos0, parent0, current));
    SpreadCurrent(blocked, pos0, parent0, pos, parent, current);
    ParentsPolled(pos0, parent0, pos, parent, current, head0);
    SpreadPolled(blocked, end, order0, pos0, parent0, order, pos, parent, head0);
    EndStillUnpolled(end, order0, order, head0);
  }

  /** Polling a cell other than `end` from an extended order leaves `end` unpolled. */
  lemma EndStillUnpolled(end: Coord, order0: seq<Coord>, order: seq<Coord>, head0: nat)
    requires head0 < |order0| <= |order| && order[..|order0|] == order0
    requires EndUnpolled(end, order0, head0) && order0[head0] != end
    ensures EndUnpolled(end, order, head0 + 1)
  {
    forall k | 0 <= k < head0 + 1
      ensures order[k] != end
    {
      assert order[k] == order[..|order0|][k];
    }
  }

  /** After the cell at position `head0` is expanded, every predecessor is among the first `head0 + 1` cells. */
  lemma ParentsPolled(pos0: map<Coord, nat>, parent0: map<Coord, Coord>,
                      pos: map<Coord, nat>, parent: map<Coord, Coord>, current: Coord, head0: nat)
    requires forall c :: c in parent0 ==> parent0[c] in pos0 && pos0[parent0[c]] < head0
    requires Grown(pos0, parent0, pos, parent, current) && current in pos0 && pos0[current] == head0
    ensures forall c :: c in parent ==> parent[c] in pos && pos[parent[c]] < head0 + 1
  {
  }

  /**
   * Cells polled before `head0` keep having spread, and the cell at `head0`
   * has spread, so all of the first `head0 + 1` cells other than `end` have.
   */
  lemma SpreadPolled(blocked: set<Coord>, end: Coord,
                     order0: seq<Coord>, pos0: map<Coord, nat>, parent0: map<Coord, Coord>,
                     order: seq<Coord>, pos: map<Coord, nat>, parent: map<Coord, Coord>, head0: nat)
    requires head0 < |order0| <= |order| && order[..|order0|] == order0
    requires forall k :: 0 <= k < |order0| ==> order0[k] in pos0
    requires forall k :: 0 <= k < head0 && order0[k] != end ==> Spread(blocked, pos0, parent0, order0[k])
    requires forall c :: c in pos0 ==> c in pos && Level(pos, parent, c) == Level(pos0, parent0, c)
    requires Spread(blocked, pos, parent, order0[head0])
    ensures forall k :: 0 <= k < head0 + 1 && order[k] != end ==> Spread(blocked, pos, parent, order[k])
  {
    forall k | 0 <= k < head0 + 1 && order[k] != end
      ensures Spread(blocked, pos, parent, order[k])
    {
      assert order[k] == order[..|order0|][k] == order0[k];
      if k < head0 {
        SpreadKept(blocked, pos0, parent0, pos, parent, order0[k]);
      }
    }
  }

  /**
   * Growing the enqueue positions and predecessors during the expansion of
   * `current` shows up in the arrays as: visited flags are only ever set, and
   * exactly the newly visited cells get `current` as predecessor.
   */
  twostate lemma MirrorsGrown(visited: array2<bool>, prev: array2<Option<Coord>>, start: Coord,
                              pos0: map<Coord, nat>, parent0: map<Coord, Coord>,
                              pos: map<Coord, nat>, parent: map<Coord, Coord>, current: Coord)
    requires old(Mirrors(visited, prev, pos0, parent0)) && Mirrors(visited, prev, pos, parent)
    requires Parents(start, pos0, parent0) && Parents(start, pos, parent) && start in pos0
    requires Grown(pos0, parent0, pos, parent, current)
    ensures forall i, j :: 0 <= i < ROWS && 0 <= j < COLS ==> old(visited[i, j]) ==> visited[i, j]
    ensures forall i, j :: 0 <= i < ROWS && 0 <= j < COLS ==>
      prev[i, j] == if visited[i, j] && !old(visited[i, j]) then Some(current) else old(prev[i, j])
  {
    forall i, j | 0 <= i < ROWS && 0 <= j < COLS
      ensures old(visited[i, j]) ==> visited[i, j]
      ensures prev[i, j] == if visited[i, j] && !old(visited[i, j]) then Some(current) else old(prev[i, j])
    {
      assert old(CellOk(visited[i, j], prev[i, j], Coord(i, j), pos0, parent0));
      assert CellOk(visited[i, j], prev[i, j], Coord(i, j), pos, parent);
    }
  }

  /** The cells met when following predecessors from the enqueued cell `c` back to the start. */
  ghost function Lineage(start: Coord, pos: map<Coord, nat>, parent: map<Coord, Coord>, c: Coord): (w: seq<Coord>)
    requires Parents(start, pos, parent) && c in pos
    ensures |w| > 0 && w[0] == c
    decreases pos[c]
  {
    if c == start then [c] else [c] + Lineage(start, pos, parent, parent[c])
  }

  /** A lineage is an open walk through enqueued cells that ends at the start. */
  lemma {:induction false} LineageOpen(blocked: set<Coord>, start: Coord, order: seq<Coord>,
                                       pos: map<Coord, nat>, parent: map<Coord, Coord>, c: Coord)
    requires History(blocked, start, order, pos) && Parents(start, pos, parent) && c in pos
    ensures var w := Lineage(start, pos, parent, c);
      OpenPath(blocked, w) && w[|w| - 1] == start && forall i :: 0 <= i < |w| ==> w[i] in pos
    decreases pos[c]
  {
    assert Open(blocked, order[pos[c]]);
    if c != start {
      var p := parent[c];
      LineageOpen(blocked, start, order, pos, parent, p);
      var tail := Lineage(start, pos, parent, p);
      var w := [c] + tail;
      forall i | 0 <= i < |w|
        ensures Open(blocked, w[i]) && w[i] in pos
      {
        if i > 0 { assert w[i] == tail[i - 1]; }
      }
      forall i | 0 <= i < |w| - 1
        ensures Adjacent(w[i], w[i + 1])
      {
        if i > 0 { assert w[i] == tail[i - 1] && w[i + 1] == tail[i]; }
      }
    }
  }

  /** A lineage has one cell per level: its length is the level of its first cell plus one. */
  lemma {:induction false} LineageLength(start: Coord, pos: map<Coord, nat>, parent: map<Coord, Coord>, c: Coord)
    requires Parents(start, pos, parent) && c in pos
    ensures |Lineage(start, pos, parent, c)| == Level(pos, parent, c) + 1
    decreases pos[c]
  {
    LevelStep(start, pos, parent, c);
    if c != start {
      LineageLength(start, pos, parent, parent[c]);
    }
  }

  /**
   * Once the end cell has been polled (it is the last polled cell), every
   * open walk from the start to the end has at least as many steps as the
   * level of the end: breadth-first levels are shortest distances.
   */
  lemma ShortestToEnd(blocked: set<Coord>, start: Coord, end: Coord, order: seq<Coord>, pos: map<Coord, nat>,
                      parent: map<Coord, Coord>, head: nat, p: seq<Coord>)
    requires History(blocked, start, order, pos) && Parents(start, pos, parent)
    requires Layered(blocked, end, order, pos, parent, head) && 0 < head && order[head - 1] == end
    requires OpenPath(blocked, p) && p[0] == start && p[|p| - 1] == end
    ensures Level(pos, parent, end) <= |p| - 1
  {
    MonotoneLevels(order, pos, parent);
    LevelStep(start, pos, parent, start);
    var i, done := 0, false;
    while i < |p| - 1 && !done
      invariant 0 <= i <= |p| - 1
      invariant done ==> Level(pos, parent, end) <= i
      invariant !done ==> p[i] in pos && Level(pos, parent, p[i]) <= i
      decreases |p| - i, !done
    {
      var y := p[i];
      if y == end {
        done := true;
      } else if pos[y] < head {
        assert order[pos[y]] == y;
        assert Spread(blocked, pos, parent, y);
        i := i + 1;
      } else {
        assert Level(pos, parent, order[head - 1]) <= Level(pos, parent, order[pos[y]]);
        done := true;
      }
    }
  }

  /**
   * Regrouping a concatenation. Stating it as a lemma with its own small proof
   * keeps the sequence reasoning out of the larger proof of the neighbour loop.
   */
  lemma AppendAssoc<T>(a: seq<T>, b: seq<T>, c: seq<T>)
    ensures a + b + c == a + (b + c)
  {
  }

  /**
   * Once the end cell has been polled, its lineage is an open walk from the
   * end back to the start that no open walk from the start to the end undercuts.
   */
  lemma LineageShortest(blocked: set<Coord>, start: Coord, end: Coord, order: seq<Coord>, pos: map<Coord, nat>,
                        parent: map<Coord, Coord>, head: nat)
    requires History(blocked, start, order, pos) && Parents(start, pos, parent)
    requires Layered(blocked, end, order, pos, parent, head) && 0 < head && order[head - 1] == end
    ensures end in pos
    ensures var w := Lineage(start, pos, parent, end);
      OpenPath(blocked, w) && w[|w| - 1] == start &&
      forall q :: OpenPath(blocked, q) && q[0] == start && q[|q| - 1] == end ==> |w| <= |q|
  {
    LineageOpen(blocked, start, order, pos, parent, end);
    LineageLength(start, pos, parent, end);
    forall q | OpenPath(blocked, q) && q[0] == start && q[|q| - 1] == end
      ensures Level(pos, parent, end) <= |q| - 1
    {
      ShortestToEnd(blocked, start, end, order, pos, parent, head, q);
    }
  }

  class Search {
    const walls: array2<bool>
    /** The wall cells, fixed for the whole search. */
    ghost const blocked: set<Coord>
    const visited: array2<bool>
    const prev: array2<Option<Coord>>
    const start: Coord
    const end: Coord
    var queue: seq<Coord>

    /** Every cell ever enqueued, in enqueue order; the queue is its unpolled suffix. */
    ghost var order: seq<Coord>
    /** How many cells have been polled. */
    ghost var head: nat
    /** The position of each enqueued cell in `order`. */
    ghost var pos: map<Coord, nat>
    /** The recorded predecessors, as a map. */
    ghost var parent: map<Coord, Coord>

    /** The wall array holds exactly the wall cells. */
    ghost predicate Walls()
      reads walls
    {
      GridShaped(walls) && blocked == WallSet(walls)
    }

    /** The endpoints, the enqueue history, the predecessors and the queue agree with each other. */
    ghost predicate Tracked()
      reads this
    {
      Trail(blocked, start, end, order, pos, parent, head, queue)
    }

    /** The `visited` and `prev` arrays mirror the enqueue positions and the predecessor map. */
    ghost predicate Cells()
      reads this`pos, this`parent, visited, prev
    {
      Mirrors(visited, prev, pos, parent)
    }

    /** Every polled cell other than the end has had its neighbours examined, layer by layer. */
    ghost predicate Closed()
      reads this`order, this`pos, this`parent, this`head
    {
      Layered(blocked, end, order, pos, parent, head)
    }

    ghost predicate Valid()
      reads this, walls, visited, prev
    {
      Walls() && Tracked() && Cells() && visited != walls && Closed()
    }

    /** The end cell has not been polled yet, so the timer is still running. */
    ghost predicate Running()
      reads this`order, this`head
    {
      EndUnpolled(end, order, head)
    }

    /** Seeds the search: only the start cell is visited and it is the only queued cell. */
    constructor (walls: array2<bool>, start: Coord, end: Coord)
      requires GridShaped(walls) && InBounds(start) && InBounds(end) && start != end
      requires !walls[start.row, start.col]
      ensures Valid() && Running()
      ensures this.walls == walls && blocked == WallSet(walls) && this.start == start && this.end == end
      ensures fresh(visited) && fresh(prev)
      ensures queue == [start] && order == [start] && head == 0
      ensures forall i, j :: 0 <= i < ROWS && 0 <= j < COLS ==> (visited[i, j] <==> Coord(i, j) == start)
      ensures forall i, j :: 0 <= i < ROWS && 0 <= j < COLS ==> prev[i, j].None?
    {
      this.walls, this.start, this.end := walls, start, end;
      blocked := WallSet(walls);
      visited := new bool[ROWS, COLS]((i, j) => false);
      prev := new Option<Coord>[ROWS, COLS]((i, j) => None);
      queue := [start];
      order, head, pos, parent := [start], 0, map[start := 0], map[];
      new;
      visited[start.row, start.col] := true;
    }

    /** The neighbour test: an open grid cell that has not been visited yet. */
    function IsValidMove(x: int, y: int): (ok: bool)
      reads this, walls, visited, prev
      requires Walls() && Cells()
      ensures ok <==> Open(blocked, Coord(x, y)) && Coord(x, y) !in pos
    {
      x >= 0 && y >= 0 && x < ROWS && y < COLS && !visited[x, y] && !walls[x, y]
    }

    /** One timer tick. */
    method Step() returns (t: Tick)
      requires Walls() && Tracked() && Cells() && visited != walls && Closed() && Running()
      modifies this, visited, prev
      ensures Walls() && Tracked() && Cells() && visited != walls && Closed()
      ensures t.NotFound? <==> old(queue) == []
      ensures t.Found? <==> old(queue) != [] && old(queue)[0] == end
      ensures t.NotFound? ==> unchanged(this, visited, prev)
      ensures !t.NotFound? ==> head == old(head) + 1 && order[old(head)] == old(queue)[0]
      ensures t.Found? ==> queue == old(queue)[1..] && order == old(order) && unchanged(visited, prev)
      ensures t.Continue? ==> Running()
      ensures t.Continue? ==> order == Grow(blocked, old(order), Neighbours(old(queue)[0]))
      ensures t.Continue? ==> queue == old(queue)[1..] + order[|old(order)|..]
      ensures !t.NotFound? ==> Grown(old(pos), old(parent), pos, parent, old(queue)[0])
    {
      if queue == [] {
        return NotFound;
      }
      var current := Poll();
      if current == end {
        return Found;
      }
      Advance(current);
      return Continue;
    }

    /** Takes the head of the queue; polling the end cell leaves the search layered as it is. */
    method Poll() returns (current: Coord)
      requires Tracked() && Closed() && Running() && queue != []
      modifies this
      ensures Tracked()
      ensures current == old(queue)[0] && queue == old(queue)[1..]
      ensures head == old(head) + 1 && order[old(head)] == current
      ensures order == old(order) && pos == old(pos) && parent == old(parent)
      ensures Grown(old(pos), old(parent), pos, parent, current)
      ensures current == end ==> Closed()
      ensures current != end ==> Layered(blocked, end, order, pos, parent, head - 1) && EndUnpolled(end, order, head - 1)
    {
      current := queue[0];
      TrailPoll(blocked, start, end, order, pos, parent, head, queue);
      GrownNothing(pos, parent, current);
      if current == end {
        EndPolled(blocked, end, order, pos, parent, head);
      }
      queue, head := queue[1..], head + 1;
    }

    /** The rest of a tick that polled a cell other than the end: expands it, completing its layer. */
    method Advance(current: Coord)
      requires Walls() && Tracked() && Cells() && visited != walls
      requires 0 < head && order[head - 1] == current && current != end
      requires Layered(blocked, end, order, pos, parent, head - 1) && EndUnpolled(end, order, head - 1)
      modifies this, visited, prev
      ensures Walls() && Tracked() && Cells() && visited != walls && Closed() && Running()
      ensures head == old(head)
      ensures order == Grow(blocked, old(order), Neighbours(current))
      ensures queue == old(queue) + order[|old(order)|..]
      ensures Grown(old(pos), old(parent), pos, parent, current)
    {
      Expand(current);
      LayerClosed(blocked, start, end, old(order), old(pos), old(parent), order, pos, parent, head - 1, current);
    }

    /** The neighbour loop of a tick: examines the four moves from the polled cell `current`. */
    method Expand(current: Coord)
      requires Walls() && Tracked() && Cells() && visited != walls
      requires current in pos
      modifies this, visited, prev
      ensures Walls() && Tracked() && Cells() && head == old(head)
      ensures order == Grow(blocked, old(order), Neighbours(current))
      ensures queue == old(queue) + order[|old(order)|..]
      ensures Expanded(blocked, pos, current)
      ensures Grown(old(pos), old(parent), pos, parent, current)
    {
      ghost var ns := Neighbours(current);
      ghost var added: seq<Coord> := [];
      for d := 0 to |DIRECTIONS|
        invariant Walls() && Tracked() && Cells() && head == old(head)
        invariant Grow(blocked, order, ns[d..]) == Grow(blocked, old(order), ns)
        invariant order == old(order) + added && queue == old(queue) + added
        invariant forall k :: 0 <= k < d && Open(blocked, ns[k]) ==> ns[k] in pos
        invariant Grown(old(pos), old(parent), pos, parent, current)
      {
        var newX := current.row + DIRECTIONS[d].0;
        var newY := current.col + DIRECTIONS[d].1;
        ghost var cand, seen := Coord(newX, newY), order;
        assert cand == Move(current, DIRECTIONS[d]) == ns[d];
        assert ns[d..][0] == cand && ns[d..][1..] == ns[d + 1..];
        assert cand in seen <==> cand in pos;
        assert Grow(blocked, seen, ns[d..]) ==
               Grow(blocked, if Open(blocked, cand) && cand !in seen then seen + [cand] else seen, ns[d + 1..]);
        if IsValidMove(newX, newY) {
          var n := Coord(newX, newY);
          ghost var order1, pos1, parent1 := order, pos, parent;
          Enqueue(n, current);
          GrownAppend(old(pos), old(parent), pos1, parent1, current, n, |order1|);
          AppendAssoc(old(order), added, [n]);
          AppendAssoc(old(queue), added, [n]);
          added := added + [n];
        }
      }
      assert ns[4..] == [];
      assert order[|old(order)|..] == added;
    }

    /** Marks `n` visited with predecessor `current` and appends it to the queue. */
    method Enqueue(n: Coord, current: Coord)
      requires Walls() && Tracked() && Cells() && visited != walls
      requires Open(blocked, n) && n !in pos
      requires current in pos && Adjacent(current, n)
      modifies this, visited, prev
      ensures Walls() && Tracked() && Cells()
      ensures queue == old(queue) + [n] && order == old(order) + [n] && head == old(head)
      ensures pos == old(pos)[n := |old(order)|] && parent == old(parent)[n := current]
    {
      ghost var at := |order|;
      TrailAppend(blocked, start, end, order, pos, parent, head, queue, n, current);
      queue, order, pos, parent := queue + [n], order + [n], pos[n := at], parent[n := current];
      Mark(visited, prev, n, current, old(pos), old(parent), at);
    }

    /** Every queued cell is a visited grid cell. */
    lemma QueuedAreVisited()
      requires Tracked() && Cells()
      ensures forall k :: 0 <= k < |queue| ==> InBounds(queue[k]) && visited[queue[k].row, queue[k].col]
    {
      forall k | 0 <= k < |queue|
        ensures InBounds(queue[k]) && visited[queue[k].row, queue[k].col]
      {
        var c := queue[k];
        assert c == order[head + k];
        assert Open(blocked, c);
        assert CellOk(visited[c.row, c.col], prev[c.row, c.col], c, pos, parent);
      }
    }

    /**
     * Recorded predecessors: the start cell has none, and every recorded
     * predecessor is a visited cell one orthogonal step away.
     */
    lemma PrevLinks()
      requires Tracked() && Cells()
      ensures prev[start.row, start.col].None?
      ensures forall i, j :: 0 <= i < ROWS && 0 <= j < COLS && prev[i, j].Some? ==>
        var p := prev[i, j].value;
        visited[i, j] && InBounds(p) && visited[p.row, p.col] && Adjacent(p, Coord(i, j))
    {
      assert CellOk(visited[start.row, start.col], prev[start.row, start.col], start, pos, parent);
      forall i, j | 0 <= i < ROWS && 0 <= j < COLS && prev[i, j].Some?
        ensures var p := prev[i, j].value;
          visited[i, j] && InBounds(p) && visited[p.row, p.col] && Adjacent(p, Coord(i, j))
      {
        assert CellOk(visited[i, j], prev[i, j], Coord(i, j), pos, parent);
        var p := parent[Coord(i, j)];
        assert Open(blocked, order[pos[p]]);
        assert CellOk(visited[p.row, p.col], prev[p.row, p.col], p, pos, parent);
      }
    }

    /** Enqueued cells are pairwise distinct, so at most ROWS * COLS cells are ever enqueued. */
    lemma EnqueuedAtMostOnce()
      requires Tracked()
      ensures forall k, l :: 0 <= k < l < |order| ==> order[k] != order[l]
      ensures |order| <= ROWS * COLS
    {
      DistinctCellsFit(order);
    }

    /** The rank used to show predecessor chains terminate: the enqueue position. */
    ghost function Rank(): (rank: Coord -> nat)
      reads this
      ensures forall c :: c in pos ==> rank(c) == pos[c]
    {
      var p := pos;
      c => if c in p then p[c] else 0
    }

    /** The recorded predecessors point strictly backwards in enqueue order. */
    lemma PrevRanked()
      requires Tracked() && Cells()
      ensures Ranked(prev, Rank())
    {
      var rank := Rank();
      forall i, j | 0 <= i < ROWS && 0 <= j < COLS && prev[i, j].Some?
        ensures InBounds(prev[i, j].value) && rank(prev[i, j].value) < rank(Coord(i, j))
      {
        assert CellOk(visited[i, j], prev[i, j], Coord(i, j), pos, parent);
        var p := parent[Coord(i, j)];
        assert Open(blocked, order[pos[p]]);
      }
    }

    /**
     * From every visited cell the recorded predecessors lead back to the start
     * without a missing link: following them is the lineage of the cell.
     */
    lemma {:induction false} ChainComplete(c: Coord)
      requires Tracked() && Cells() && Ranked(prev, Rank()) && c in pos
      ensures InBounds(c) && Chain(prev, start, c, Rank()) == Some(Lineage(start, pos, parent, c))
      decreases pos[c]
    {
      assert Open(blocked, order[pos[c]]);
      if c != start {
        assert CellOk(visited[c.row, c.col], prev[c.row, c.col], c, pos, parent);
        ChainComplete(parent[c]);
      }
    }

    /**
     * Once the end cell has been polled, the recorded predecessors lead from
     * it back to the start along an open walk, and no open walk from the start
     * to the end is shorter: the search finds a shortest path.
     */
    lemma FoundShortest()
      requires Tracked() && Cells() && Closed() && 0 < head && order[head - 1] == end
      ensures Ranked(prev, Rank()) && InBounds(end) && Chain(prev, start, end, Rank()).Some?
      ensures var w := Chain(prev, start, end, Rank()).value;
        OpenPath(blocked, w) &&
        forall q :: OpenPath(blocked, q) && q[0] == start && q[|q| - 1] == end ==> |w| <= |q|
    {
      PrevRanked();
      ChainComplete(end);
      LineageShortest(blocked, start, end, order, pos, parent, head);
    }

    /** When nothing is left to poll and the end was never polled, every open walk from the start stays inside the visited cells. */
    lemma {:induction false} ExhaustedIsClosed(p: seq<Coord>)
      requires Tracked() && Closed() && Running() && queue == []
      requires OpenPath(blocked, p) && p[0] == start
      ensures forall i :: 0 <= i < |p| ==> p[i] in pos
    {
      var i := 0;
      while i < |p|
        invariant 0 <= i <= |p|
        invariant forall k :: 0 <= k < i ==> p[k] in pos
      {
        if i > 0 {
          var q := p[i - 1];
          assert Spread(blocked, pos, parent, order[pos[q]]);
        }
        i := i + 1;
      }
    }

    /** An exhausted search has proved the end cell unreachable from the start. */
    lemma EndUnreachable(p: seq<Coord>)
      requires Valid() && Running() && queue == []
      requires OpenPath(blocked, p) && p[0] == start
      ensures p[|p| - 1] != end
    {
      ExhaustedIsClosed(p);
      var c := p[|p| - 1];
      assert order[pos[c]] == c;
    }
  }
}
