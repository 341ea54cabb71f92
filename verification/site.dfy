/** The placement grid (`SiteInfo`): a fixed pitch per axis, snapping of a
    coordinate to the nearest lattice point, and conversion between real
    coordinates and integer lattice indices. Coordinates are exact reals; the
    binary floating-point error of the original is not modelled. */
module Sites {

  /** Python's built-in `round` on one argument: to the nearest integer, ties
      to the even neighbour. */
  function Round(r: real): (k: int)
    ensures r - 0.5 <= k as real <= r + 0.5
    ensures (k as real == r - 0.5 || k as real == r + 0.5) ==> k % 2 == 0
  {
    var f := r.Floor;
    var frac := r - f as real;
    if frac < 0.5 then f
    else if frac > 0.5 then f + 1
    else if f % 2 == 0 then f
    else f + 1
  }

  /** The two properties in the contract of `Round` single out its result. */
  lemma RoundUnique(r: real, k: int)
    requires r - 0.5 <= k as real <= r + 0.5
    requires (k as real == r - 0.5 || k as real == r + 0.5) ==> k % 2 == 0
    ensures k == Round(r)
  {
  }

  /** Rounding an integer gives it back. */
  lemma RoundOfInteger(k: int)
    ensures Round(k as real) == k
  {
  }

  /** A grid pitch as the original stores it; every use divides by both pitches. */
  datatype SiteInfo = SiteInfo(width: real, height: real)

  /** A grid with strictly positive pitches. */
  type Site = s: SiteInfo | s.width > 0.0 && s.height > 0.0 witness SiteInfo(0.14, 0.9)

  /** The default site of the original: 0.14 wide, 0.9 high. */
  const DefaultSite: Site := SiteInfo(0.14, 0.9)

  datatype Point = Point(x: real, y: real)

  function Add(p: Point, q: Point): Point {
    Point(p.x + q.x, p.y + q.y)
  }

  /** An integer lattice index (column, row). */
  datatype Lattice = Lattice(gx: int, gy: int)

  function LatticeAdd(a: Lattice, b: Lattice): Lattice {
    Lattice(a.gx + b.gx, a.gy + b.gy)
  }

  function LatticeSub(a: Lattice, b: Lattice): Lattice {
    Lattice(a.gx - b.gx, a.gy - b.gy)
  }

  lemma MulDivCancel(a: real, w: real)
    requires w > 0.0
    ensures (a * w) / w == a
  {
  }

  lemma DivMulCancel(a: real, w: real)
    requires w > 0.0
    ensures (a / w) * w == a
  {
  }

  /** Scaling "k is within half a unit of a / w" by the pitch w. */
  lemma {:induction false} ScaleHalf(a: real, w: real, k: int)
    requires w > 0.0
    requires a / w - 0.5 <= k as real <= a / w + 0.5
    ensures a - w / 2.0 <= k as real * w <= a + w / 2.0
  {
    var q := a / w;
    var kr := k as real;
    DivMulCancel(a, w);
    MulMonotone(q - 0.5, kr, w);
    MulMonotone(kr, q + 0.5, w);
    assert (q - 0.5) * w == a - w / 2.0;
    assert (q + 0.5) * w == a + w / 2.0;
  }

  lemma MulMonotone(a: real, b: real, w: real)
    requires w > 0.0 && a <= b
    ensures a * w <= b * w
  {
  }

  /** The lattice index nearest to a point (`to_grid_coords`). */
  function ToGridCoords(site: Site, p: Point): (l: Lattice)
    ensures p.x - site.width / 2.0 <= l.gx as real * site.width <= p.x + site.width / 2.0
    ensures p.y - site.height / 2.0 <= l.gy as real * site.height <= p.y + site.height / 2.0
  {
    var l := Lattice(Round(p.x / site.width), Round(p.y / site.height));
    ScaleHalf(p.x, site.width, l.gx);
    ScaleHalf(p.y, site.height, l.gy);
    l
  }

  /** The point of a lattice index (`from_grid_coords`). */
  function FromGridCoords(site: Site, l: Lattice): (p: Point)
    ensures ToGridCoords(site, p) == l
  {
    var p := Point(l.gx as real * site.width, l.gy as real * site.height);
    assert p.x / site.width == l.gx as real by { MulDivCancel(l.gx as real, site.width); }
    assert p.y / site.height == l.gy as real by { MulDivCancel(l.gy as real, site.height); }
    RoundOfInteger(l.gx);
    RoundOfInteger(l.gy);
    p
  }

  /** A point is on the grid when it is the point of its own lattice index. */
  ghost predicate OnGrid(site: Site, p: Point) {
    FromGridCoords(site, ToGridCoords(site, p)) == p
  }

  /** Snapping to the nearest lattice point (`snap_to_grid`). */
  function SnapToGrid(site: Site, p: Point): (q: Point)
    ensures OnGrid(site, q)
    ensures ToGridCoords(site, q) == ToGridCoords(site, p)
    ensures p.x - site.width / 2.0 <= q.x <= p.x + site.width / 2.0
    ensures p.y - site.height / 2.0 <= q.y <= p.y + site.height / 2.0
  {
    var l := ToGridCoords(site, p);
    var q := Point(Round(p.x / site.width) as real * site.width, Round(p.y / site.height) as real * site.height);
    assert q == FromGridCoords(site, l);
    q
  }

  /** Snapping is idempotent. */
  lemma SnapIdempotent(site: Site, p: Point)
    ensures SnapToGrid(site, SnapToGrid(site, p)) == SnapToGrid(site, p)
  {
    SnapOfOnGrid(site, SnapToGrid(site, p));
  }

  /** Snapping leaves a lattice point where it is. */
  lemma SnapOfOnGrid(site: Site, p: Point)
    requires OnGrid(site, p)
    ensures SnapToGrid(site, p) == p
  {
  }

  /** The lattice index of a lattice point is exact. */
  lemma ToFromGrid(site: Site, l: Lattice)
    ensures ToGridCoords(site, FromGridCoords(site, l)) == l
    ensures OnGrid(site, FromGridCoords(site, l))
  {
  }

  /** Lattice points are closed under addition, and their indices add. */
  lemma {:induction false} OnGridAdd(site: Site, p: Point, q: Point)
    requires OnGrid(site, p) && OnGrid(site, q)
    ensures OnGrid(site, Add(p, q))
    ensures ToGridCoords(site, Add(p, q)) == LatticeAdd(ToGridCoords(site, p), ToGridCoords(site, q))
  {
    var lp := ToGridCoords(site, p);
    var lq := ToGridCoords(site, q);
    var l := LatticeAdd(lp, lq);
    assert Add(p, q) == FromGridCoords(site, l) by {
      assert p == FromGridCoords(site, lp) && q == FromGridCoords(site, lq);
      assert (lp.gx + lq.gx) as real * site.width == lp.gx as real * site.width + lq.gx as real * site.width;
      assert (lp.gy + lq.gy) as real * site.height == lp.gy as real * site.height + lq.gy as real * site.height;
    }
    ToFromGrid(site, l);
  }

  /** The lattice is closed under negation. */
  lemma OnGridNeg(site: Site, p: Point)
    requires OnGrid(site, p)
    ensures OnGrid(site, Point(-p.x, -p.y))
  {
    var l := ToGridCoords(site, p);
    var n := Lattice(-l.gx, -l.gy);
    assert Point(-p.x, -p.y) == FromGridCoords(site, n) by {
      assert p == FromGridCoords(site, l);
      assert (-l.gx) as real * site.width == -(l.gx as real * site.width);
      assert (-l.gy) as real * site.height == -(l.gy as real * site.height);
    }
    ToFromGrid(site, n);
  }
}
