/** The known place closest to a point, searched in rings of squares around it. */
module Nearest {
  import opened Text
  import opened AreaLookup

  /** How far each place is from the point, in km: the great-circle arithmetic is not part of this model. */
  type Distance = Place -> real

  function Abs(n: int): nat { if n < 0 then -n else n }

  function Max(m: nat, n: nat): nat { if m < n then n else m }

  /** How many rings out a square is. */
  function Ring(home: Cell, c: Cell): nat { Max(Abs(c.0 - home.0), Abs(c.1 - home.1)) }

  /** The search key: distance, and between places as far the shorter chain. */
  predicate Closer(km: Distance, p: Place, q: Place) {
    km(p) < km(q) || (km(p) == km(q) && |p.within| < |q.within|)
  }

  /** The nearer is closer; of two as near, the one named within fewer others. */
  lemma CloserBy(km: Distance, p: Place, q: Place)
    ensures km(p) < km(q) ==> Closer(km, p, q) && !Closer(km, q, p)
    ensures km(p) == km(q) && |p.within| < |q.within| ==> Closer(km, p, q) && !Closer(km, q, p)
    ensures km(p) == km(q) && |p.within| == |q.within| ==> !Closer(km, p, q)
  {}

  /** `best` is the least of what has been looked at. */
  ghost predicate NoneCloser(km: Distance, best: Option<Place>, p: Place) {
    best.Some? && !Closer(km, p, best.value)
  }

  /** Squares as the search reads them, one after the other. */
  type Trail = seq<Cell>

  ghost predicate Least(km: Distance, grid: Grid, read: Trail, best: Option<Place>) {
    && (best.Some? ==> InGrid(grid, best.value) && CellOf(best.value) in read)
    && (forall p | InGrid(grid, p) && CellOf(p) in read :: NoneCloser(km, best, p))
  }

  ghost predicate OnceEach(read: Trail) { forall i, j | 0 <= i < j < |read| :: read[i] != read[j] }

  // ---------------------------------------------------------------- one square

  method ReadSquare(km: Distance, grid: Grid, c: Cell, before: Option<Place>, ghost read: Trail)
    returns (best: Option<Place>)
    requires Squared(grid) && Least(km, grid, read, before) && c !in read
    ensures Least(km, grid, read + [c], best)
  {
    hide CellOf, Closer, Squared;
    best := before;
    var places := Square(grid, c);
    SquareHolds(grid, c);
    for k := 0 to |places|
      invariant best.Some? ==> InGrid(grid, best.value) && CellOf(best.value) in read + [c]
      invariant forall p | InGrid(grid, p) && CellOf(p) in read :: NoneCloser(km, best, p)
      invariant forall j | 0 <= j < k :: NoneCloser(km, best, places[j])
    {
      var match' := places[k];
      if best.None? || Closer(km, match', best.value) {
        CloserYet(km, best, match');
        best := Some(match');
      }
      StillLeast(km, best.value);
    }
  }

  lemma SquareHolds(grid: Grid, c: Cell)
    requires Squared(grid)
    ensures forall k | 0 <= k < |Square(grid, c)| :: InGrid(grid, Square(grid, c)[k]) && CellOf(Square(grid, c)[k]) == c
    ensures forall p | InGrid(grid, p) && CellOf(p) == c :: p in Square(grid, c)
  {
    hide CellOf;
  }

  lemma StillLeast(km: Distance, p: Place)
    ensures NoneCloser(km, Some(p), p)
  {}

  lemma CloserYet(km: Distance, best: Option<Place>, next: Place)
    requires best.None? || Closer(km, next, best.value)
    ensures forall p | NoneCloser(km, best, p) :: NoneCloser(km, Some(next), p)
  {}

  // ---------------------------------------------------------------- one ring

  /** The squares read so far are exactly those nearer than `ring`, and of the ring those before `(dy, dx)`. */
  ghost predicate ReadUpTo(home: Cell, ring: int, dy: int, dx: int, read: Trail) {
    && OnceEach(read)
    && forall c: Cell :: c in read <==>
         || Ring(home, c) < ring
         || (Ring(home, c) == ring && (c.0 - home.0 < dy || (c.0 - home.0 == dy && c.1 - home.1 < dx)))
  }

  lemma ReadNext(home: Cell, ring: int, dy: int, dx: int, read: Trail)
    requires ReadUpTo(home, ring, dy, dx, read)
    ensures var c := (home.0 + dy, home.1 + dx);
            if Ring(home, c) == ring
            then c !in read && ReadUpTo(home, ring, dy, dx + 1, read + [c])
            else ReadUpTo(home, ring, dy, dx + 1, read)
  {}

  /** The end of a row of the ring is the start of the next one. */
  lemma NextRow(home: Cell, ring: int, dy: int, read: Trail)
    requires ReadUpTo(home, ring, dy, ring + 1, read)
    ensures ReadUpTo(home, ring, dy + 1, -ring, read)
  {}

  lemma NextRing(home: Cell, ring: int, read: Trail)
    requires ReadUpTo(home, ring, ring + 1, -ring, read)
    ensures ReadUpTo(home, ring + 1, -ring - 1, -ring - 1, read)
  {}

  method ReadRing(km: Distance, grid: Grid, home: Cell, ring: int, before: Option<Place>, ghost trail: Trail)
    returns (best: Option<Place>, ghost read: Trail)
    requires Squared(grid) && 0 <= ring && ReadUpTo(home, ring, -ring, -ring, trail) && Least(km, grid, trail, before)
    ensures ReadUpTo(home, ring + 1, -ring - 1, -ring - 1, read) && Least(km, grid, read, best)
  {
    hide ReadUpTo, Least, Squared;
    best, read := before, trail;
    var dy := -ring;
    while dy <= ring
      invariant -ring <= dy <= ring + 1
      invariant ReadUpTo(home, ring, dy, -ring, read) && Least(km, grid, read, best)
    {
      var dx := -ring;
      while dx <= ring
        invariant -ring <= dx <= ring + 1
        invariant ReadUpTo(home, ring, dy, dx, read) && Least(km, grid, read, best)
      {
        ReadNext(home, ring, dy, dx, read);
        var c := (home.0 + dy, home.1 + dx);
        if Max(Abs(dy), Abs(dx)) == ring {
          best := ReadSquare(km, grid, c, best, read);
          read := read + [c];
        }
        dx := dx + 1;
      }
      NextRow(home, ring, dy, read);
      dy := dy + 1;
    }
    NextRing(home, ring, read);
  }

  // ---------------------------------------------------------------- the search

  /** The one thing the search needs of the distance: a place `r` rings out is at least `(r - 1) * cellKm` away. */
  ghost predicate RingsAreFar(km: Distance, grid: Grid, home: Cell, cellKm: real) {
    && cellKm > 0.0
    && forall p | InGrid(grid, p) :: km(p) >= (Ring(home, CellOf(p)) - 1) as real * cellKm
  }

  predicate WorthReading(km: Distance, ring: int, cellKm: real, best: Option<Place>, maxKm: real) {
    && (ring - 1) as real * cellKm <= maxKm
    && (best.Some? ==> (ring - 1) as real * cellKm <= km(best.value))
  }

  /** A ring is read only where a place in it could be near enough, and no further than the best found; once it is not
      read, neither could a place in any ring beyond. */
  lemma WorthWhile(km: Distance, ring: int, cellKm: real, best: Option<Place>, maxKm: real, beyond: int)
    requires cellKm > 0.0 && ring <= beyond
    ensures WorthReading(km, ring, cellKm, best, maxKm) ==>
              (ring - 1) as real * cellKm <= maxKm && (best.Some? ==> (ring - 1) as real * cellKm <= km(best.value))
    ensures !WorthReading(km, ring, cellKm, best, maxKm) ==>
              (beyond - 1) as real * cellKm > maxKm || (best.Some? && (beyond - 1) as real * cellKm > km(best.value))
  {
    FurtherRings(ring - 1, beyond - 1, cellKm);
  }

  lemma FurtherRings(m: int, n: int, cellKm: real)
    requires m <= n && cellKm > 0.0
    ensures m as real * cellKm <= n as real * cellKm
  {
    assert (n - m) as real * cellKm >= 0.0;
    assert n as real * cellKm == m as real * cellKm + (n - m) as real * cellKm;
  }

  /** Rings worth reading are no more than fit in the radius. */
  lemma RingsFit(ring: int, cellKm: real, maxKm: real)
    requires cellKm > 0.0 && (ring - 1) as real * cellKm <= maxKm
    ensures ring - 1 <= (maxKm / cellKm).Floor
  {
    var q := maxKm / cellKm;
    var over := (ring - 1) as real - q;
    assert q * cellKm == maxKm;
    assert over * cellKm == (ring - 1) as real * cellKm - q * cellKm;
    PositiveProduct(over, cellKm);
  }

  lemma PositiveProduct(x: real, y: real)
    ensures x > 0.0 && y > 0.0 ==> x * y > 0.0
  {}

  /** What was not read cannot be closer than what was found, nor close enough. */
  lemma UnreadIsFurther(km: Distance, grid: Grid, home: Cell, cellKm: real, maxKm: real, ring: int, read: Trail,
                        best: Option<Place>, p: Place)
    requires RingsAreFar(km, grid, home, cellKm) && ReadUpTo(home, ring, -ring, -ring, read)
    requires !WorthReading(km, ring, cellKm, best, maxKm) && InGrid(grid, p) && CellOf(p) !in read
    ensures km(p) > maxKm || (best.Some? && km(p) > km(best.value))
  {
    hide CellOf, InGrid, Ring;
    var far := Ring(home, CellOf(p));
    assert far >= ring;
    assert km(p) >= (far - 1) as real * cellKm;
    FurtherRings(ring - 1, far - 1, cellKm);
  }

  /** The whole file searched one place after the other: what `nearest` should find. */
  ghost predicate IsNearest(km: Distance, grid: Grid, maxKm: real, r: Option<Place>) {
    match r
    case None => forall p | InGrid(grid, p) :: km(p) > maxKm
    case Some(best) =>
      && InGrid(grid, best)
      && km(best) <= maxKm
      && forall p | InGrid(grid, p) :: !Closer(km, p, best)
  }

  /** `nearest`, and the squares it read on the way. */
  method NearestPlace(km: Distance, grid: Grid, home: Cell, cellKm: real, maxKm: real)
    returns (r: Option<Place>, ghost read: Trail)
    requires Squared(grid) && RingsAreFar(km, grid, home, cellKm)
    ensures IsNearest(km, grid, maxKm, r)
    ensures OnceEach(read)
  {
    hide ReadUpTo, Squared, CellOf, RingsAreFar, Least;
    var best: Option<Place> := None;
    read := [];
    var ring := 0;
    StartOfSearch(km, grid, home);
    ghost var bound := (maxKm / CellWidth(km, grid, home, cellKm)).Floor + 2;
    while WorthReading(km, ring, cellKm, best, maxKm)
      invariant 0 <= ring
      invariant ReadUpTo(home, ring, -ring, -ring, read) && Least(km, grid, read, best)
      decreases bound - ring
    {
      RingsFit(ring, CellWidth(km, grid, home, cellKm), maxKm);
      best, read := ReadRing(km, grid, home, ring, best, read);
      ring := ring + 1;
    }
    r := if best.Some? && km(best.value) <= maxKm then best else None;
    SearchedEnough(km, grid, home, cellKm, maxKm, ring, read, best);
  }

  ghost function CellWidth(km: Distance, grid: Grid, home: Cell, cellKm: real): (w: real)
    requires RingsAreFar(km, grid, home, cellKm)
    ensures w == cellKm > 0.0
  {
    cellKm
  }

  lemma StartOfSearch(km: Distance, grid: Grid, home: Cell)
    ensures ReadUpTo(home, 0, 0, 0, []) && Least(km, grid, [], None)
  {}

  lemma SearchedEnough(km: Distance, grid: Grid, home: Cell, cellKm: real, maxKm: real, ring: int, read: Trail,
                       best: Option<Place>)
    requires RingsAreFar(km, grid, home, cellKm) && ReadUpTo(home, ring, -ring, -ring, read)
    requires Least(km, grid, read, best) && !WorthReading(km, ring, cellKm, best, maxKm)
    ensures IsNearest(km, grid, maxKm, if best.Some? && km(best.value) <= maxKm then best else None)
    ensures OnceEach(read)
  {
    hide CellOf, InGrid, RingsAreFar;
    forall p | InGrid(grid, p)
      ensures NoneCloser(km, best, p) || km(p) > maxKm || (best.Some? && km(p) > km(best.value))
    {
      if CellOf(p) !in read {
        UnreadIsFurther(km, grid, home, cellKm, maxKm, ring, read, best, p);
      }
    }
  }

  /** The index built and searched: the answer is the one a scan of every row of the file would give. */
  method NearestInFile(index: ByName, km: Distance, lon: real, lat: real, cellKm: real, maxKm: real)
    returns (r: Option<Place>)
    requires OneObjectPerRow(index) && cellKm > 0.0
    requires forall p | Indexed(index, p) :: km(p) >= (Ring((lat.Floor, lon.Floor), CellOf(p)) - 1) as real * cellKm
    ensures r.None? <==> forall p | Indexed(index, p) :: km(p) > maxKm
    ensures r.Some? ==>
              Indexed(index, r.value) && km(r.value) <= maxKm
              && forall p | Indexed(index, p) :: !Closer(km, p, r.value)
  {
    hide InGrid, CellOf, Indexed, Ring, Squared;
    var grid := BuildGrid(index);
    ghost var read;
    r, read := NearestPlace(km, grid, (lat.Floor, lon.Floor), cellKm, maxKm);
  }
}
