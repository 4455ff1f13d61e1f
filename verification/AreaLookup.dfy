/** The area index of one-degree squares, built row by row from the file. */
module AreaLookup {
  /** One row of the file. Aliases share the row, so `row` tells whether two matches are the same object. */
  datatype Place = Place(row: nat, name: string, within: seq<string>, lon: real, lat: real)

  type Cell = (int, int)

  function CellOf(p: Place): Cell { (p.lat.Floor, p.lon.Floor) }

  /** A place is in the square whose corner is no further than a degree south and west of it. */
  lemma SquareOf(p: Place)
    ensures CellOf(p).0 as real <= p.lat < CellOf(p).0 as real + 1.0
    ensures CellOf(p).1 as real <= p.lon < CellOf(p).1 as real + 1.0
  {}

  /** The names of the file, aliases included, each with its matches, as they were read. */
  type ByName = seq<(string, seq<Place>)>

  ghost predicate Indexed(index: ByName, p: Place) {
    exists i, k :: 0 <= i < |index| && 0 <= k < |index[i].1| && index[i].1[k] == p
  }

  /** The same row is the same place. */
  ghost predicate OneObjectPerRow(index: ByName) {
    forall p, q | Indexed(index, p) && Indexed(index, q) && p.row == q.row :: p == q
  }

  type Grid = map<Cell, seq<Place>>

  ghost predicate InGrid(grid: Grid, p: Place) { CellOf(p) in grid && p in grid[CellOf(p)] }

  /** Every square holds its own rows, and none of them twice. */
  ghost predicate Squared(grid: Grid) {
    forall c | c in grid ::
      && (forall k | 0 <= k < |grid[c]| :: CellOf(grid[c][k]) == c)
      && (forall j, k | 0 <= j < k < |grid[c]| :: grid[c][j].row != grid[c][k].row)
  }

  // ---------------------------------------------------------------- the grid

  function Square(grid: Grid, c: Cell): seq<Place> { if c in grid then grid[c] else [] }

  /** What the grid holds is what `seen` names the rows of. */
  ghost predicate HoldsSeen(grid: Grid, seen: set<nat>) {
    forall c, k | c in grid && 0 <= k < |grid[c]| :: grid[c][k].row in seen
  }

  lemma AddToGrid(grid: Grid, seen: set<nat>, p: Place)
    requires Squared(grid) && HoldsSeen(grid, seen) && p.row !in seen
    ensures var next := grid[CellOf(p) := Square(grid, CellOf(p)) + [p]];
            && Squared(next) && HoldsSeen(next, seen + {p.row}) && InGrid(next, p)
            && (forall q | InGrid(grid, q) :: InGrid(next, q))
            && (forall q | InGrid(next, q) :: InGrid(grid, q) || q == p)
  {
    hide CellOf;
  }

  /** One match: counted once, whatever name it is met under. */
  method PlaceOne(grid: Grid, seen: set<nat>, p: Place) returns (grid': Grid, seen': set<nat>)
    requires Squared(grid) && HoldsSeen(grid, seen)
    ensures Squared(grid') && HoldsSeen(grid', seen') && seen' == seen + {p.row}
    ensures p.row !in seen ==> InGrid(grid', p)
    ensures forall q | InGrid(grid, q) :: InGrid(grid', q)
    ensures forall q | InGrid(grid', q) :: InGrid(grid, q) || (q == p && p.row !in seen)
  {
    hide CellOf, Squared, HoldsSeen, InGrid;
    grid', seen' := grid, seen;
    if p.row !in seen {
      AddToGrid(grid, seen, p);
      seen' := seen + {p.row};
      grid' := grid[CellOf(p) := Square(grid, CellOf(p)) + [p]];
    }
  }

  /** `_grid`: every indexed place is in its own square, each row once. */
  method BuildGrid(index: ByName) returns (grid: Grid)
    requires OneObjectPerRow(index)
    ensures Squared(grid)
    ensures forall p :: InGrid(grid, p) <==> Indexed(index, p)
  {
    hide CellOf, Squared, HoldsSeen, InGrid;
    grid := map[];
    var seen: set<nat> := {};
    EmptyGrid();
    for i := 0 to |index|
      invariant Squared(grid) && HoldsSeen(grid, seen)
      invariant forall p | InGrid(grid, p) :: Indexed(index, p)
      invariant forall row | row in seen :: exists p :: InGrid(grid, p) && p.row == row
      invariant forall j, k | 0 <= j < i && 0 <= k < |index[j].1| :: index[j].1[k].row in seen
    {
      for m := 0 to |index[i].1|
        invariant Squared(grid) && HoldsSeen(grid, seen)
        invariant forall p | InGrid(grid, p) :: Indexed(index, p)
        invariant forall row | row in seen :: exists p :: InGrid(grid, p) && p.row == row
        invariant forall j, k | 0 <= j < i && 0 <= k < |index[j].1| :: index[j].1[k].row in seen
        invariant forall k | 0 <= k < m :: index[i].1[k].row in seen
      {
        var p := index[i].1[m];
        assert Indexed(index, p);
        grid, seen := PlaceOne(grid, seen, p);
      }
    }
    forall p | Indexed(index, p)
      ensures InGrid(grid, p)
    {
      var i, k :| 0 <= i < |index| && 0 <= k < |index[i].1| && index[i].1[k] == p;
      var q :| InGrid(grid, q) && q.row == p.row;
    }
  }

  lemma EmptyGrid()
    ensures Squared(map[]) && HoldsSeen(map[], {}) && forall p :: !InGrid(map[], p)
  {}
}
