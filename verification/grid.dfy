/**
 * The fixed grid the visualizer works on: its dimensions, coordinates, the
 * four orthogonal moves in the order the search examines them, and what it
 * means for a sequence of cells to be a walk through open (non-wall) cells.
 */
module GridModel {

  /** Number of rows and columns of the grid. */
  const ROWS: int := 20
  const COLS: int := 20

  datatype Option<T> = None | Some(value: T)

  /** A cell position; `row` is the first array index, `col` the second. */
  datatype Coord = Coord(row: int, col: int)

  /** The row and column offsets of the four moves, in examination order: down, up, right, left. */
  const DIRECTIONS: seq<(int, int)> := [(1, 0), (-1, 0), (0, 1), (0, -1)]

  predicate InBounds(c: Coord) {
    0 <= c.row < ROWS && 0 <= c.col < COLS
  }

  /** A 2D array laid out like the grid. */
  predicate GridShaped<T>(a: array2<T>) {
    a.Length0 == ROWS && a.Length1 == COLS
  }

  /** `a` and `b` are one orthogonal step apart. */
  predicate Adjacent(a: Coord, b: Coord) {
    (a.row == b.row && (a.col == b.col + 1 || b.col == a.col + 1)) ||
    (a.col == b.col && (a.row == b.row + 1 || b.row == a.row + 1))
  }

  function Move(c: Coord, d: (int, int)): Coord {
    Coord(c.row + d.0, c.col + d.1)
  }

  /** The four candidate neighbours of `c`, in examination order; some may lie off the grid. */
  function Neighbours(c: Coord): (ns: seq<Coord>)
    ensures |ns| == |DIRECTIONS| == 4
    ensures forall k :: 0 <= k < 4 ==> ns[k] == Move(c, DIRECTIONS[k])
    ensures forall n :: n in ns <==> Adjacent(c, n)
  {
    [Move(c, DIRECTIONS[0]), Move(c, DIRECTIONS[1]), Move(c, DIRECTIONS[2]), Move(c, DIRECTIONS[3])]
  }

  /** The cells whose wall flag is set. */
  ghost function WallSet(walls: array2<bool>): set<Coord>
    reads walls
    requires GridShaped(walls)
  {
    set i, j | 0 <= i < ROWS && 0 <= j < COLS && walls[i, j] :: Coord(i, j)
  }

  /** `c` is a grid cell that is not a wall. */
  predicate Open(blocked: set<Coord>, c: Coord) {
    InBounds(c) && c !in blocked
  }

  /** `p` is a non-empty walk through open cells, each one orthogonal step from the next. */
  ghost predicate OpenPath(blocked: set<Coord>, p: seq<Coord>) {
    |p| > 0 &&
    (forall i :: 0 <= i < |p| ==> Open(blocked, p[i])) &&
    (forall i :: 0 <= i < |p| - 1 ==> Adjacent(p[i], p[i + 1]))
  }

  function Abs(x: int): nat {
    if x < 0 then -x else x
  }

  /** The number of orthogonal steps between two cells on an empty grid. */
  function Manhattan(a: Coord, b: Coord): nat {
    Abs(a.row - b.row) + Abs(a.col - b.col)
  }

  /** A walk of orthogonal steps takes at least the Manhattan distance between its ends. */
  lemma {:induction false} StepsAtLeastManhattan(p: seq<Coord>)
    requires |p| > 0 && forall i :: 0 <= i < |p| - 1 ==> Adjacent(p[i], p[i + 1])
    ensures Manhattan(p[0], p[|p| - 1]) <= |p| - 1
  {
    if |p| > 1 {
      var tail := p[1..];
      StepsAtLeastManhattan(tail);
      assert Adjacent(p[0], p[1]);
    }
  }

  /** One step from `a` towards `b`: along the row index while it differs, then along the column index. */
  function Toward(a: Coord, b: Coord): (n: Coord)
    requires a != b
    ensures Adjacent(a, n) && Manhattan(n, b) + 1 == Manhattan(a, b)
    ensures InBounds(a) && InBounds(b) ==> InBounds(n)
  {
    if a.row < b.row then Coord(a.row + 1, a.col)
    else if a.row > b.row then Coord(a.row - 1, a.col)
    else if a.col < b.col then Coord(a.row, a.col + 1)
    else Coord(a.row, a.col - 1)
  }

  /** The walk from `a` to `b` that first moves along the rows, then along the columns. */
  function StraightWalk(a: Coord, b: Coord): (w: seq<Coord>)
    ensures |w| > 0 && w[0] == a
    decreases Manhattan(a, b)
  {
    if a == b then [a] else [a] + StraightWalk(Toward(a, b), b)
  }

  /** Between grid cells the straight walk stays on the grid, ends at `b` and takes exactly the Manhattan distance. */
  lemma {:induction false} StraightWalkOpen(a: Coord, b: Coord)
    requires InBounds(a) && InBounds(b)
    ensures var w := StraightWalk(a, b);
      OpenPath({}, w) && w[|w| - 1] == b && |w| - 1 == Manhattan(a, b)
    decreases Manhattan(a, b)
  {
    if a != b {
      var n := Toward(a, b);
      StraightWalkOpen(n, b);
      var tail := StraightWalk(n, b);
      var w := StraightWalk(a, b);
      assert w == [a] + tail;
      forall i | 0 <= i < |w| - 1
        ensures Adjacent(w[i], w[i + 1])
      {
        if i > 0 { assert w[i] == tail[i - 1] && w[i + 1] == tail[i]; }
      }
      forall i | 0 <= i < |w|
        ensures Open({}, w[i])
      {
        if i > 0 { assert w[i] == tail[i - 1]; }
      }
    }
  }

  /**
   * On a grid without walls, an open walk from `b` back to `a` that no open
   * walk from `a` to `b` undercuts has exactly the Manhattan distance in steps.
   */
  lemma WallFreeShortest(a: Coord, b: Coord, w: seq<Coord>)
    requires InBounds(a) && InBounds(b)
    requires OpenPath({}, w) && w[0] == b && w[|w| - 1] == a
    requires forall q :: OpenPath({}, q) && q[0] == a && q[|q| - 1] == b ==> |w| <= |q|
    ensures |w| - 1 == Manhattan(a, b)
  {
    StepsAtLeastManhattan(w);
    StraightWalkOpen(a, b);
  }

  /** On a grid without walls every cell can be reached from every other. */
  lemma WallFreeConnected(blocked: set<Coord>, a: Coord, b: Coord)
    requires InBounds(a) && InBounds(b)
    requires forall p :: OpenPath(blocked, p) && p[0] == a ==> p[|p| - 1] != b
    ensures blocked != {}
  {
    StraightWalkOpen(a, b);
    var p := StraightWalk(a, b);
    assert blocked == {} ==> OpenPath(blocked, p);
  }

  /** Row-major linear index of an in-bounds cell. */
  function Index(c: Coord): int {
    c.row * COLS + c.col
  }

  lemma IndexOfAt(c: Coord, n: int)
    requires InBounds(c) && Index(c) == n
    ensures c == Coord(n / COLS, n % COLS)
  {
  }

  /** A set of grid cells whose indices are all below `n` has at most `n` members. */
  lemma {:induction false} CellsBelowBound(cells: set<Coord>, n: nat)
    requires forall c :: c in cells ==> InBounds(c) && Index(c) < n
    ensures |cells| <= n
    decreases n
  {
    if n == 0 {
      assert cells == {};
    } else {
      var last := Coord((n - 1) / COLS, (n - 1) % COLS);
      var rest := cells - {last};
      forall c | c in rest
        ensures InBounds(c) && Index(c) < n - 1
      {
        if Index(c) == n - 1 {
          IndexOfAt(c, n - 1);
        }
      }
      CellsBelowBound(rest, n - 1);
      assert cells <= rest + {last};
    }
  }

  lemma {:induction false} DistinctCardinality<T>(s: seq<T>)
    requires forall i, j :: 0 <= i < j < |s| ==> s[i] != s[j]
    ensures |set x | x in s| == |s|
  {
    if s != [] {
      DistinctCardinality(s[1..]);
      assert (set x | x in s) == {s[0]} + (set x | x in s[1..]);
    }
  }

  /** A sequence of pairwise distinct grid cells has at most ROWS * COLS entries. */
  lemma DistinctCellsFit(cells: seq<Coord>)
    requires forall i :: 0 <= i < |cells| ==> InBounds(cells[i])
    requires forall i, j :: 0 <= i < j < |cells| ==> cells[i] != cells[j]
    ensures |cells| <= ROWS * COLS
  {
    DistinctCardinality(cells);
    CellsBelowBound((set x | x in cells), ROWS * COLS);
  }
}
