/** Repositioning a micro: `set_origin`, `set_origin_by_grid`, `move_by`,
    `move_by_grid`, and the cascade `_update_grid_coordinates` +
    `_update_absolute_positions` that every one of them ends in.

    The cascade re-places every direct cell at the new origin and re-derives
    its orientation by the row rule, then calls `set_origin` on every
    sub-micro with the new origin plus that sub-micro's CURRENT origin. A
    sub-micro's origin is already absolute at that point, so offsets
    accumulate: re-placing a micro where it already is shifts its sub-micros
    again (`ResettingOriginShiftsSubMicros`). The model reproduces this. */
module Placement {
  import opened Common
  import opened Orientations
  import opened Sites
  import opened Cells
  import opened Micros

  /** The relative lattice index `_update_grid_coordinates` stores: the micro's
      index minus its parent's, or the micro's own index without a parent. */
  function RelativeGrid(own: Lattice, parent: Option<Lattice>): Lattice {
    match parent
    case None => own
    case Some(g) => LatticeSub(own, g)
  }

  /** One cell of `_update_absolute_positions`: placed at the owner's origin on
      the owner's site, then re-oriented by the row rule at its new absolute
      height. It stays in its abutment group and is top-anchored exactly on
      even rows; nothing but the position caches and the orientation changes. */
  function PlaceCell(c: Cell, origin: Point, site: Site): (r: Cell)
    ensures CellPlaced(r, origin, site)
    ensures RightAnchored(r.orientation) == RightAnchored(c.orientation)
    ensures TopAnchored(r.orientation) <==> Round(r.abs.y / site.height) % 2 == 0
    ensures r.(orientation := c.orientation, abs := c.abs, site := c.site, bbox := c.bbox) == c
  {
    var placed := SetAbsolutePosition(c, origin, Some(site));
    SetOrientation(placed, OrientationForRow(placed, placed.abs.y))
  }

  /** What storing origin `o` and cascading leaves in `r`, starting from `m`:
      the origin and relative index are updated; name, description, site and
      path are untouched; every cell keeps its identity and stored position
      and is re-placed at `o`; every sub-micro keeps its identity and is moved
      to the snap of `o` plus its previous origin. */
  ghost predicate MovedTo(m: Micro, r: Micro, o: Point, parent: Option<Lattice>) {
    && r.origin == o
    && r.relGrid == RelativeGrid(ToGridCoords(m.site, o), parent)
    && r.(origin := m.origin, relGrid := m.relGrid, cells := m.cells, subs := m.subs) == m
    && |r.cells| == |m.cells|
    && (forall i :: 0 <= i < |m.cells| ==> r.cells[i] == PlaceCell(m.cells[i], o, m.site))
    && |r.subs| == |m.subs|
    && (forall i :: 0 <= i < |m.subs| ==> SubMoved(m.subs[i], r.subs[i], o))
  }

  /** A sub-micro `s` of an owner moved to `o` becomes `t`: it keeps its
      identity and sits at the snap of `o` plus its previous origin. */
  ghost predicate SubMoved(s: Micro, t: Micro, o: Point) {
    && t.origin == SnapToGrid(s.site, Add(o, s.origin))
    && t.(origin := s.origin, relGrid := s.relGrid, cells := s.cells, subs := s.subs) == s
  }

  /** Store origin `o` as is, then run the cascade. */
  function Reposition(m: Micro, o: Point, parent: Option<Lattice>): (r: Micro)
    ensures MovedTo(m, r, o, parent)
    ensures Height(r) == Height(m)
    decreases m, 1
  {
    var g := ToGridCoords(m.site, o);
    var subs := MoveSubs(m, o);
    var r := m.(
      origin := o,
      relGrid := RelativeGrid(g, parent),
      cells := PlacedCells(m.cells, o, m.site),
      subs := subs);
    HeightCongruent(r, m);
    r
  }

  /** The cell half of the cascade: every cell re-placed at `o`, in order. */
  function PlacedCells(cs: seq<Cell>, o: Point, site: Site): (rs: seq<Cell>)
    ensures |rs| == |cs| && forall i :: 0 <= i < |cs| ==> rs[i] == PlaceCell(cs[i], o, site)
  {
    seq(|cs|, i requires 0 <= i < |cs| => PlaceCell(cs[i], o, site))
  }

  /** The sub-micro half of the cascade: each sub-micro is set to `o` plus its
      current origin, with `o`'s lattice index as its parent's. */
  function MoveSubs(m: Micro, o: Point): (subs: seq<Micro>)
    ensures |subs| == |m.subs|
    ensures forall i :: 0 <= i < |m.subs| ==>
      subs[i] == SetOrigin(m.subs[i], Add(o, m.subs[i].origin), Some(ToGridCoords(m.site, o)))
    ensures forall i :: 0 <= i < |m.subs| ==>
      SubMoved(m.subs[i], subs[i], o) && Height(subs[i]) == Height(m.subs[i])
    decreases m, 0
  {
    var g := ToGridCoords(m.site, o);
    seq(|m.subs|, i requires 0 <= i < |m.subs| => SetOrigin(m.subs[i], Add(o, m.subs[i].origin), Some(g)))
  }

  /** `set_origin`: the origin becomes the snap of `p`, the micro's lattice
      index becomes that of `p`, and the cascade re-places the subtree. */
  function SetOrigin(m: Micro, p: Point, parent: Option<Lattice>): (r: Micro)
    ensures MovedTo(m, r, SnapToGrid(m.site, p), parent)
    ensures OnGrid(m.site, r.origin) && GridOf(r) == ToGridCoords(m.site, p)
    ensures Height(r) == Height(m)
    decreases m, 2
  {
    Reposition(m, SnapToGrid(m.site, p), parent)
  }

  /** `set_origin_by_grid`: the origin becomes the point of lattice index `l`. */
  function SetOriginByGrid(m: Micro, l: Lattice, parent: Option<Lattice>): (r: Micro)
    ensures MovedTo(m, r, FromGridCoords(m.site, l), parent)
    ensures GridOf(r) == l
  {
    ToFromGrid(m.site, l);
    SnapOfOnGrid(m.site, FromGridCoords(m.site, l));
    SetOrigin(m, FromGridCoords(m.site, l), parent)
  }

  /** `move_by`: the snapped delta is added to the current origin, which is
      NOT snapped again — an origin left off the grid by the constructor stays
      off the grid. */
  function MoveBy(m: Micro, d: Point, parent: Option<Lattice>): (r: Micro)
    ensures MovedTo(m, r, Add(m.origin, SnapToGrid(m.site, d)), parent)
    ensures Height(r) == Height(m)
  {
    Reposition(m, Add(m.origin, SnapToGrid(m.site, d)), parent)
  }

  /** `move_by_grid`: a move by a whole number of pitches on each axis. */
  function MoveByGrid(m: Micro, dl: Lattice, parent: Option<Lattice>): (r: Micro)
    ensures MovedTo(m, r, Add(m.origin, FromGridCoords(m.site, dl)), parent)
    ensures OnGrid(m.site, m.origin) ==> GridOf(r) == LatticeAdd(GridOf(m), dl)
  {
    var d := GridStep(m.site, dl);
    ShiftByLatticePoint(m.site, m.origin, d);
    MoveBy(m, d, parent)
  }

  /** The offset of `dl` whole pitches: a lattice point, kept by snapping. */
  function GridStep(site: Site, dl: Lattice): (d: Point)
    ensures d == FromGridCoords(site, dl) && OnGrid(site, d)
    ensures SnapToGrid(site, d) == d && ToGridCoords(site, d) == dl
  {
    var d := FromGridCoords(site, dl);
    SnapOfOnGrid(site, d);
    d
  }

  /** Adding a lattice point to a point on the grid adds the indices. */
  lemma ShiftByLatticePoint(site: Site, p: Point, d: Point)
    requires OnGrid(site, d)
    ensures OnGrid(site, p) ==> ToGridCoords(site, Add(p, d)) == LatticeAdd(ToGridCoords(site, p), ToGridCoords(site, d))
  {
    if OnGrid(site, p) {
      OnGridAdd(site, p, d);
    }
  }

  /** From an origin on the grid, `move_by` is `set_origin` at the old origin plus the snapped delta. */
  lemma MoveByIsSetOriginOnGrid(m: Micro, d: Point, parent: Option<Lattice>)
    requires OnGrid(m.site, m.origin)
    ensures MoveBy(m, d, parent) == SetOrigin(m, Add(m.origin, SnapToGrid(m.site, d)), parent)
  {
    var q := Add(m.origin, SnapToGrid(m.site, d));
    OnGridAdd(m.site, m.origin, SnapToGrid(m.site, d));
    SnapOfOnGrid(m.site, q);
  }

  /** After the cascade, the whole subtree's position caches are coherent,
      whatever they were before. */
  lemma {:induction false} RepositionMakesPositionsCoherent(m: Micro, o: Point, parent: Option<Lattice>)
    ensures PositionsCoherent(Reposition(m, o, parent))
    decreases m, 0
  {
    var r := Reposition(m, o, parent);
    var g := ToGridCoords(m.site, o);
    assert GridOf(r) == g;
    forall i | 0 <= i < |r.subs|
      ensures r.subs[i].relGrid == LatticeSub(GridOf(r.subs[i]), GridOf(r)) && PositionsCoherent(r.subs[i])
    {
      assert r.subs[i] == SetOrigin(m.subs[i], Add(o, m.subs[i].origin), Some(g));
      SetOriginMakesPositionsCoherent(m.subs[i], Add(o, m.subs[i].origin), Some(g));
    }
  }

  lemma {:induction false} SetOriginMakesPositionsCoherent(m: Micro, p: Point, parent: Option<Lattice>)
    ensures PositionsCoherent(SetOrigin(m, p, parent))
    decreases m, 1
  {
    RepositionMakesPositionsCoherent(m, SnapToGrid(m.site, p), parent);
  }

  /** The cascade changes no path and no name, so it keeps paths coherent. */
  lemma {:induction false} RepositionKeepsPathsCoherent(m: Micro, o: Point, parent: Option<Lattice>)
    requires PathsCoherent(m)
    ensures PathsCoherent(Reposition(m, o, parent))
    decreases m, 0
  {
    var r := Reposition(m, o, parent);
    var g := ToGridCoords(m.site, o);
    forall i | 0 <= i < |r.cells|
      ensures r.cells[i].path == JoinPath(r.path, r.cells[i].name)
    {
      assert r.cells[i] == PlaceCell(m.cells[i], o, m.site);
    }
    forall i | 0 <= i < |r.subs|
      ensures r.subs[i].path == JoinPath(r.path, r.subs[i].name) && PathsCoherent(r.subs[i])
    {
      assert r.subs[i] == SetOrigin(m.subs[i], Add(o, m.subs[i].origin), Some(g));
      SetOriginKeepsPathsCoherent(m.subs[i], Add(o, m.subs[i].origin), Some(g));
    }
  }

  lemma {:induction false} SetOriginKeepsPathsCoherent(m: Micro, p: Point, parent: Option<Lattice>)
    requires PathsCoherent(m)
    ensures PathsCoherent(SetOrigin(m, p, parent))
    decreases m, 1
  {
    RepositionKeepsPathsCoherent(m, SnapToGrid(m.site, p), parent);
  }

  /** Repositioning keeps the layout: cells are only re-placed (keeping
      their abutment group), sub-micros only moved. */
  lemma {:induction false} RepositionKeepsLayout(m: Micro, o: Point, parent: Option<Lattice>)
    ensures SameLayout(Reposition(m, o, parent), m)
    decreases m, 0
  {
    var r := Reposition(m, o, parent);
    var g := ToGridCoords(m.site, o);
    forall i | 0 <= i < |m.cells|
      ensures SameCellShape(r.cells[i], m.cells[i])
    {
      assert r.cells[i] == PlaceCell(m.cells[i], o, m.site);
    }
    forall j | 0 <= j < |m.subs|
      ensures r.subs[j].name == m.subs[j].name && SameLayout(r.subs[j], m.subs[j])
    {
      assert r.subs[j] == SetOrigin(m.subs[j], Add(o, m.subs[j].origin), Some(g));
      SetOriginKeepsLayout(m.subs[j], Add(o, m.subs[j].origin), Some(g));
    }
  }

  lemma {:induction false} SetOriginKeepsLayout(m: Micro, p: Point, parent: Option<Lattice>)
    ensures SameLayout(SetOrigin(m, p, parent), m)
    decreases m, 1
  {
    RepositionKeepsLayout(m, SnapToGrid(m.site, p), parent);
  }

  /** Every repositioning operation leaves a coherent micro coherent. */
  lemma RepositionCoherent(m: Micro, o: Point, parent: Option<Lattice>)
    requires PathsCoherent(m)
    ensures Coherent(Reposition(m, o, parent))
  {
    RepositionMakesPositionsCoherent(m, o, parent);
    RepositionKeepsPathsCoherent(m, o, parent);
  }

  lemma SetOriginCoherent(m: Micro, p: Point, parent: Option<Lattice>)
    requires PathsCoherent(m)
    ensures Coherent(SetOrigin(m, p, parent))
  {
    RepositionCoherent(m, SnapToGrid(m.site, p), parent);
  }

  lemma SetOriginByGridCoherent(m: Micro, l: Lattice, parent: Option<Lattice>)
    requires PathsCoherent(m)
    ensures Coherent(SetOriginByGrid(m, l, parent))
  {
    SetOriginCoherent(m, FromGridCoords(m.site, l), parent);
  }

  lemma MoveByCoherent(m: Micro, d: Point, parent: Option<Lattice>)
    requires PathsCoherent(m)
    ensures Coherent(MoveBy(m, d, parent))
  {
    RepositionCoherent(m, Add(m.origin, SnapToGrid(m.site, d)), parent);
  }

  lemma MoveByGridCoherent(m: Micro, dl: Lattice, parent: Option<Lattice>)
    requires PathsCoherent(m)
    ensures Coherent(MoveByGrid(m, dl, parent))
  {
    MoveByCoherent(m, GridStep(m.site, dl), parent);
  }

  /** Re-placing a micro at the point it already occupies moves each of its
      sub-micros by the micro's origin once more: only a micro at (0, 0)
      leaves its sub-micros where they are. */
  lemma ResettingOriginShiftsSubMicros(m: Micro, parent: Option<Lattice>, i: nat)
    requires OnGrid(m.site, m.origin)
    requires i < |m.subs|
    requires OnGrid(m.subs[i].site, m.origin) && OnGrid(m.subs[i].site, m.subs[i].origin)
    ensures SetOrigin(m, m.origin, parent).subs[i].origin == Add(m.origin, m.subs[i].origin)
  {
    SnapOfOnGrid(m.site, m.origin);
    OnGridAdd(m.subs[i].site, m.origin, m.subs[i].origin);
    SnapOfOnGrid(m.subs[i].site, Add(m.origin, m.subs[i].origin));
  }

  /** `move_by` shifts the origin by a lattice vector, so the origin is on
      the grid afterwards exactly when it was before: an off-grid origin
      (which the constructor can store) stays off the grid. */
  lemma MoveByKeepsGridness(m: Micro, d: Point, parent: Option<Lattice>)
    ensures OnGrid(m.site, MoveBy(m, d, parent).origin) <==> OnGrid(m.site, m.origin)
  {
    var s := SnapToGrid(m.site, d);
    var o := Add(m.origin, s);
    assert MoveBy(m, d, parent).origin == o;
    if OnGrid(m.site, m.origin) {
      OnGridAdd(m.site, m.origin, s);
    }
    if OnGrid(m.site, o) {
      OnGridNeg(m.site, s);
      OnGridAdd(m.site, o, Point(-s.x, -s.y));
      assert Add(o, Point(-s.x, -s.y)) == m.origin;
    }
  }

  /** The constructor stores an off-grid origin as given, and `move_by` keeps it off the grid. */
  lemma MoveByKeepsOffGridOrigin()
    ensures var m := NewMicro("A", Point(0.05, 0.0), "", DefaultSite);
      && !OnGrid(DefaultSite, m.origin)
      && MoveBy(m, Point(0.0, 0.0), None).origin == m.origin
  {
    var m := NewMicro("A", Point(0.05, 0.0), "", DefaultSite);
    assert (0.05 / 0.14).Floor == 0;
    assert Round(0.05 / 0.14) == 0;
    assert ToGridCoords(DefaultSite, m.origin).gx == 0;
    assert Round(0.0 / 0.14) == 0;
    assert SnapToGrid(DefaultSite, Point(0.0, 0.0)) == Point(0.0, 0.0);
  }
}
