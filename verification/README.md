# Pathfinding Visualizer, modelled in Dafny

`PathfindingVisualizer` is a Swing program. It shows a 20 × 20 grid of
cells. The user edits the grid by clicking:

- the first click places the start cell;
- the next click on a different cell places the end cell;
- every later click on any other cell toggles a wall there.

"Clear Grid" empties the board. "Start BFS" runs a breadth-first search from
the start cell, one queue poll per timer tick. Each tick marks the open,
unvisited neighbours of the polled cell as visited and records it as their
predecessor, trying them in the order down, up, right, left. When the end cell
is polled, the program walks the predecessors back from the end to the start
and colours that path.

The model has five modules:

- `GridModel` (`grid.dfy`): the grid, the four moves in their order, and open walks.
- `CellEditing` (`board.dfy`): the click rules as a function on an abstract
  layout. A `Board` class keeps a wall array and the two endpoints and
  implements those rules, together with "Clear Grid" and the row-major cell
  lookup.
- `BreadthFirst` (`search.dfy`): a `Search` class. It holds the queue, the
  `visited` and `prev` arrays, and ghost bookkeeping: the enqueue order, the
  poll count, and the positions and predecessors as maps. `Step` is one timer
  tick. The class lemmas prove:
  - what breadth-first search promises: the reconstructed path is a shortest
    open walk, and an exhausted queue means the end is unreachable;
  - the structural facts behind it: queued cells are visited, and each cell
    is enqueued at most once.
- `PathTrace` (`trace.dfy`): the reconstruction loop over an arbitrary
  predecessor array, with both of its error outcomes.
- `Visualizer` (`visualizer.dfy`): the "Start BFS" handler. It runs ticks
  until the search stops and then reconstructs the path.

Each dialog of the program becomes an outcome value.

Three choices shape the model of the search and its result:

- The search runs one queue poll per timer tick (`Step`).
- The path is reconstructed from the end back to the start, so `Walked`
  lists the end first.
- A failed reconstruction is an outcome (`BrokenChain`). A real search is
  proved never to produce it.

## Model

| member | source | states |
|---|---|---|
| GridModel.Neighbours | PathfindingVisualizer.java:125-128 | The four candidates are the moves down, up, right and left, in that order. A cell is among them exactly when it is one orthogonal step away. |
| GridModel.StepsAtLeastManhattan | PathfindingVisualizer.java:125-128 | Any walk made of these moves takes at least the Manhattan distance between its ends. |
| GridModel.StraightWalkOpen | PathfindingVisualizer.java:125-128 | Between two grid cells, moving first along the rows and then along the columns gives an on-grid walk of exactly the Manhattan distance. |
| GridModel.WallFreeConnected | PathfindingVisualizer.java:141-143 | If no open walk joins two grid cells, the grid has a wall. |
| GridModel.WallFreeShortest | PathfindingVisualizer.java:141-143 | On a grid without walls, a shortest open walk between two cells takes exactly their Manhattan distance. |
| CellEditing.Click | PathfindingVisualizer.java:60-77 | After any click the start is placed, and once placed neither endpoint moves. A click can change the wall state of the clicked cell only. |
| CellEditing.ClickConsistent | PathfindingVisualizer.java:60-77 | A click keeps the layout consistent. The start and end are never walls, are distinct, and the end exists only after the start. No wall exists before both are placed. |
| CellEditing.FirstClickSetsStart | PathfindingVisualizer.java:61-64 | With no start placed, a click places the start on the clicked cell and changes nothing else. |
| CellEditing.SecondClickSetsEnd | PathfindingVisualizer.java:65-68 | With only the start placed, a click on another cell places the end there. A click on the start changes nothing. |
| CellEditing.EndpointsFixed | PathfindingVisualizer.java:65-76 | Once both endpoints are placed, they never move and clicking either one does nothing. Any other click flips the wall state of that one cell and of no other. |
| CellEditing.ToggleTwice | PathfindingVisualizer.java:69-76 | With both endpoints placed, clicking the same cell twice restores the layout. |
| CellEditing.Board.constructor | PathfindingVisualizer.java:18-53 | A new board has no endpoints (lines 18-19) and no walls, because `createGUI` starts every cell empty (lines 43-53). |
| CellEditing.Board.HandleCellClick | PathfindingVisualizer.java:60-77 | The board's new state is the click function applied to its old state, and the board stays consistent. |
| CellEditing.Board.ClearGrid | PathfindingVisualizer.java:79-88 | Every cell is empty and both endpoints are unset. |
| CellEditing.FindCell | PathfindingVisualizer.java:185-194 | Returns the first position in row-major order holding the target, or None exactly when no position holds it. |
| BreadthFirst.Grow | PathfindingVisualizer.java:125-135 | Replaying the neighbour loop only appends to the enqueue history and never drops or reorders earlier entries. |
| BreadthFirst.GrowFresh | PathfindingVisualizer.java:125-135 | Each cell one expansion adds is one of the candidates, is open, and was not enqueued before. |
| BreadthFirst.GrowCovers | PathfindingVisualizer.java:125-135 | After an expansion, every open candidate has been enqueued, either before or now. |
| BreadthFirst.Search.constructor | PathfindingVisualizer.java:98-103 | The queue holds only the start. Only the start is visited and no cell has a predecessor. |
| BreadthFirst.Search.IsValidMove | PathfindingVisualizer.java:141-143 | True exactly when the cell is on the grid, not a wall and not yet visited. |
| BreadthFirst.Search.Step | PathfindingVisualizer.java:108-136 | Defined in the bullets after this table. |
| BreadthFirst.Search.Poll | PathfindingVisualizer.java:115-117 | Removes exactly the head of the queue and counts one more poll. Polling the end keeps the breadth-first layering. |
| BreadthFirst.Search.Advance | PathfindingVisualizer.java:125-135 | Expanding a polled cell other than the end appends exactly the replay of its neighbour loop to the queue. All search invariants, the layering included, still hold afterwards. |
| BreadthFirst.Search.Expand | PathfindingVisualizer.java:125-135 | The loop over the four directions matches the `Grow` replay. Afterwards every open neighbour of the polled cell is enqueued, and only the new cells get it as predecessor. |
| BreadthFirst.Search.Enqueue | PathfindingVisualizer.java:129-133 | Appends the cell to the queue, marks it visited, records the polled cell as its predecessor, and changes nothing else. |
| BreadthFirst.Mark | PathfindingVisualizer.java:131-132 | After the visited flag and the predecessor are written, the arrays still mirror the enqueue records. |
| BreadthFirst.MirrorsGrown | PathfindingVisualizer.java:129-133 | During an expansion, visited flags are only ever set, never cleared. Exactly the newly visited cells get the polled cell as predecessor, and every other predecessor entry is unchanged. |
| BreadthFirst.NextLevel | PathfindingVisualizer.java:125-135 | The cells enqueued while expanding a cell are all exactly one level below it. |
| BreadthFirst.WithinOneLevel | PathfindingVisualizer.java:115-135 | Before a poll, no earlier polled cell lies deeper than the cell now polled. No enqueued cell lies more than one level below it. |
| BreadthFirst.LayerClosed | PathfindingVisualizer.java:108-136 | A tick that expands a cell other than the end keeps the queue in breadth-first layers. The end has still not been polled. |
| BreadthFirst.LineageOpen | PathfindingVisualizer.java:129-132 | Following recorded predecessors from an enqueued cell gives an open walk that ends at the start. |
| BreadthFirst.LineageLength | PathfindingVisualizer.java:129-132 | That walk has exactly one cell per level, plus the start. |
| BreadthFirst.ShortestToEnd | PathfindingVisualizer.java:119-123 | When the end is polled, every open walk from the start to the end has at least as many steps as the end's level. |
| BreadthFirst.LineageShortest | PathfindingVisualizer.java:119-121 | Once the end is polled, following predecessors back from it gives an open walk to the start. No open walk from the start to the end is shorter. |
| BreadthFirst.Search.QueuedAreVisited | PathfindingVisualizer.java:129-131 | Every queued cell is a visited grid cell. |
| BreadthFirst.Search.PrevLinks | PathfindingVisualizer.java:129-132 | The start never gets a predecessor. Every recorded predecessor is a visited cell one step from a visited cell. |
| BreadthFirst.Search.EnqueuedAtMostOnce | PathfindingVisualizer.java:129-131 | No cell is enqueued twice, so at most ROWS × COLS cells are ever enqueued. |
| BreadthFirst.Search.PrevRanked | PathfindingVisualizer.java:132 | Each predecessor was enqueued strictly earlier than the cell that records it, so following predecessors cannot cycle. |
| BreadthFirst.Search.ChainComplete | PathfindingVisualizer.java:132 | From every visited cell, following `prev` reaches the start without a missing link. |
| BreadthFirst.Search.FoundShortest | PathfindingVisualizer.java:119-121 | Once the end has been polled, following its predecessors back gives an open walk. No open walk from the start to the end is shorter. |
| BreadthFirst.Search.ExhaustedIsClosed | PathfindingVisualizer.java:109-113 | When the queue is empty and the end was never polled, every open walk from the start stays inside the visited cells. |
| BreadthFirst.Search.EndUnreachable | PathfindingVisualizer.java:109-113 | When the queue runs empty, no open walk leads from the start to the end. |
| PathTrace.ChainShape | PathfindingVisualizer.java:159-178 | A complete predecessor chain starts at the end and finishes at the start. It meets the start only at its last cell, follows `prev` links, and repeats no cell. |
| PathTrace.FollowPredecessors | PathfindingVisualizer.java:159-178 | The reconstruction loop returns exactly the predecessor chain, or None when a predecessor is missing on the way. |
| PathTrace.AnimatePath | PathfindingVisualizer.java:145-183 | Defined in the bullets after this table. |
| Visualizer.TraceFound | PathfindingVisualizer.java:119-121 | Once the end is polled, the reconstruction always gives a walk. The walk is open, runs from the end to the start and repeats no cell. No open walk between the endpoints is shorter. On a grid without walls it takes exactly the Manhattan distance. |
| Visualizer.StartBFS | PathfindingVisualizer.java:90-139 | Defined in the bullets after this table. |

`BreadthFirst.Search.Step` (one tick):

- It returns NotFound exactly when the queue is empty, and then nothing changes.
- It returns Found exactly when the head of the queue is the end. It polls that cell and leaves the arrays unchanged.
- Otherwise it polls the head and enqueues exactly the cells of the `Grow` replay.
- Every search invariant is kept, and recorded entries never change.

`PathTrace.AnimatePath` (the path reconstruction):

- "No path found." is reported exactly when the end differs from the start and has no predecessor.
- Otherwise "Error in path reconstruction." is reported exactly when the chain is incomplete.
- A successful walk goes from the end to the start, follows `prev` links, and repeats no cell.

`Visualizer.StartBFS` (the "Start BFS" button):

- It reports missing endpoints exactly when one of them is unset.
- It takes at most ROWS × COLS + 1 ticks.
- "No path found" means that no open walk joins the start and the end.
- Otherwise the walk is complete, runs from the end to the start, repeats no cell, and is an open walk. No open walk from the start to the end is shorter.
- On a grid without walls it never reports "No path found", and the walk takes exactly the Manhattan distance between the endpoints.

## Left out

- Drawing is not modelled: fonts, emoji labels, the colours of visited and
  path cells, and the purple gradient during reconstruction. These have no
  effect on the search.
- Walls are a boolean per cell rather than a background colour. A cell
  counts as a wall exactly when its colour is the wall colour, so visited
  and path colours count as open. Toggling from either one gives a wall, as
  in the program.
- Cells are identified by their coordinates, not by button objects. The
  handlers therefore take coordinates, and the button-to-coordinate lookup
  is modelled as a standalone generic row-major search (`FindCell`).
- Message dialogs, the Swing event loop, the 10 ms timer period and
  `main`/`createGUI` are not modelled. Dialogs become outcome values, and the
  timer becomes a loop of `Step` calls until the search stops.
- Clicks and "Clear Grid" during a running search are not modelled. Neither
  is a second "Start BFS" pressed while a search is still running. The board
  is fixed for the whole search.
- PathTrace.AnimatePath: takes an extra ghost ranking of the predecessor
  array, which serves only to prove that the loop terminates. The program
  relies on the search building an acyclic predecessor array, and
  `Search.PrevRanked` proves that the search provides one.
- BreadthFirst.Search.Step: states array-level monotonicity through the
  enqueue records. Its contract says the records only grow and that the
  arrays mirror them. `MirrorsGrown` states the same directly on the arrays,
  but `Step` does not call it.
