/**
 * Editing the grid with mouse clicks: the first click places the start cell,
 * the next click on another cell places the end cell, and every later click on
 * any other cell toggles a wall there. "Clear Grid" removes all walls and both
 * endpoints. The wall state is a boolean per cell rather than a cell colour.
 */
module CellEditing {
  import opened GridModel

  /** The abstract state of the editor: the wall cells and the two endpoints. */
  datatype Layout = Layout(walls: set<Coord>, start: Option<Coord>, end: Option<Coord>)

  const Empty := Layout({}, None, None)

  /**
   * The consistency the click rules maintain: endpoints are grid cells, the end
   * is only placed after the start and differs from it, neither is ever a wall,
   * and no wall exists before both endpoints are placed.
   */
  ghost predicate Consistent(s: Layout) {
    (forall c :: c in s.walls ==> InBounds(c)) &&
    (s.start.Some? ==> InBounds(s.start.value) && s.start.value !in s.walls) &&
    (s.end.Some? ==> InBounds(s.end.value) && s.end.value !in s.walls) &&
    (s.end.Some? ==> s.start.Some? && s.start != s.end) &&
    (s.end.None? ==> s.walls == {})
  }

  /** The effect of one click on cell `c`. */
  function Click(s: Layout, c: Coord): (r: Layout)
    ensures r.start.Some? && (s.start.Some? ==> r.start == s.start)
    ensures s.end.Some? ==> r.end == s.end
    ensures r.walls - {c} == s.walls - {c}
  {
    if s.start.None? then
      s.(start := Some(c))
    else if s.end.None? && Some(c) != s.start then
      s.(end := Some(c))
    else if Some(c) != s.start && Some(c) != s.end then
      if c in s.walls then s.(walls := s.walls - {c}) else s.(walls := s.walls + {c})
    else
      s
  }

  /** Clicking never breaks consistency: the endpoints are never walls and stay distinct. */
  lemma ClickConsistent(s: Layout, c: Coord)
    requires Consistent(s) && InBounds(c)
    ensures Consistent(Click(s, c))
  {
  }

  /** The first click on an empty layout places the start and nothing else. */
  lemma FirstClickSetsStart(s: Layout, c: Coord)
    requires Consistent(s) && s.start.None?
    ensures Click(s, c) == Layout({}, Some(c), None)
  {
  }

  /** With only the start placed, a click places the end exactly when it hits another cell. */
  lemma SecondClickSetsEnd(s: Layout, c: Coord)
    requires Consistent(s) && s.start.Some? && s.end.None?
    ensures c != s.start.value ==> Click(s, c) == Layout({}, s.start, Some(c))
    ensures c == s.start.value ==> Click(s, c) == s
  {
  }

  /** Once both endpoints are placed they never move, and clicking either does nothing. */
  lemma EndpointsFixed(s: Layout, c: Coord)
    requires s.start.Some? && s.end.Some?
    ensures Click(s, c).start == s.start && Click(s, c).end == s.end
    ensures c == s.start.value || c == s.end.value ==> Click(s, c) == s
    ensures c != s.start.value && c != s.end.value ==>
              (c in Click(s, c).walls <==> c !in s.walls) &&
              Click(s, c).walls - {c} == s.walls - {c}
  {
  }

  /** Clicking the same non-endpoint cell twice restores the layout. */
  lemma ToggleTwice(s: Layout, c: Coord)
    requires s.start.Some? && s.end.Some?
    ensures Click(Click(s, c), c) == s
  {
  }

  class Board {
    /** Wall flag per cell; true where the cell is a wall. */
    const walls: array2<bool>
    var startCell: Option<Coord>
    var endCell: Option<Coord>

    ghost function State(): Layout
      reads this, walls
      requires GridShaped(walls)
    {
      Layout(WallSet(walls), startCell, endCell)
    }

    ghost predicate Valid()
      reads this, walls
    {
      GridShaped(walls) && Consistent(State())
    }

    constructor ()
      ensures Valid() && fresh(walls)
      ensures State() == Empty
    {
      walls := new bool[ROWS, COLS]((i, j) => false);
      startCell, endCell := None, None;
      new;
      assert WallSet(walls) == {};
    }

    /** One mouse click on cell `c`. */
    method HandleCellClick(c: Coord)
      requires Valid() && InBounds(c)
      modifies this, walls
      ensures Valid()
      ensures State() == Click(old(State()), c)
    {
      if startCell.None? {
        startCell := Some(c);
      } else if endCell.None? && Some(c) != startCell {
        endCell := Some(c);
      } else if Some(c) != startCell && Some(c) != endCell {
        ghost var before := WallSet(walls);
        if walls[c.row, c.col] {
          walls[c.row, c.col] := false;
          assert WallSet(walls) == before - {c};
        } else {
          walls[c.row, c.col] := true;
          assert WallSet(walls) == before + {c};
        }
      }
      ClickConsistent(old(State()), c);
    }

    /** The "Clear Grid" button: every cell becomes empty and both endpoints are unset. */
    method ClearGrid()
      requires GridShaped(walls)
      modifies this, walls
      ensures Valid()
      ensures State() == Empty
      ensures forall i, j :: 0 <= i < ROWS && 0 <= j < COLS ==> !walls[i, j]
    {
      for i := 0 to ROWS
        invariant forall r, k :: 0 <= r < i && 0 <= k < COLS ==> !walls[r, k]
      {
        for j := 0 to COLS
          invariant forall r, k :: 0 <= r < i && 0 <= k < COLS ==> !walls[r, k]
          invariant forall k :: 0 <= k < j ==> !walls[i, k]
        {
          walls[i, j] := false;
        }
      }
      startCell := None;
      endCell := None;
      assert WallSet(walls) == {};
    }
  }

  /** `a` comes strictly before `b` in row-major order. */
  predicate RowMajorBefore(a: Coord, b: Coord) {
    a.row < b.row || (a.row == b.row && a.col < b.col)
  }

  /**
   * Looks `target` up in a grid of cells: the first position in row-major order
   * holding it, or None when no position does.
   */
  method FindCell<T(==)>(cells: array2<T>, target: T) returns (r: Option<Coord>)
    requires GridShaped(cells)
    ensures r.Some? ==> InBounds(r.value) && cells[r.value.row, r.value.col] == target
    ensures r.Some? ==> forall i, j :: 0 <= i < ROWS && 0 <= j < COLS && RowMajorBefore(Coord(i, j), r.value)
                          ==> cells[i, j] != target
    ensures r.None? <==> forall i, j :: 0 <= i < ROWS && 0 <= j < COLS ==> cells[i, j] != target
  {
    for i := 0 to ROWS
      invariant forall r, k :: 0 <= r < i && 0 <= k < COLS ==> cells[r, k] != target
    {
      for j := 0 to COLS
        invariant forall r, k :: 0 <= r < i && 0 <= k < COLS ==> cells[r, k] != target
        invariant forall k :: 0 <= k < j ==> cells[i, k] != target
      {
        if cells[i, j] == target {
          return Some(Coord(i, j));
        }
      }
    }
    return None;
  }
}
