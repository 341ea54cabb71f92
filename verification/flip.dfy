/** `Micro.flip_horizontal`: mirror a micro left to right inside the width of
    its bounding box, toggling every cell's mirror bit.

    Each direct cell's stored x becomes W - x - (width of its cached box),
    where W is the width of the micro's bounding box, and its orientation is
    mirrored. Each sub-micro is moved to W - (its origin x) - (its own box
    width) and flipped recursively. The micro then re-runs the cascade at its
    unchanged origin, which re-derives every cell's orientation by the row
    rule — keeping the mirrored group — and moves each sub-micro by the
    micro's origin once more. */
module Flip {
  import opened Common
  import opened Orientations
  import opened Sites
  import opened Cells
  import opened Micros
  import opened Placement
  import opened Flatten

  /** The x a cell is mirrored to inside a box of width `w`. */
  function MirrorX(c: Cell, w: real): real {
    w - c.pos.x - (c.bbox.maxX - c.bbox.minX)
  }

  /** A direct cell's step of the flip: the stored position is mirrored and
      the mirror bit toggled; size, name and path are kept. */
  function MirrorCell(c: Cell, w: real, site: Site): (r: Cell)
    ensures r.pos == Point(MirrorX(c, w), c.pos.y)
    ensures RightAnchored(r.orientation) == !RightAnchored(c.orientation)
    ensures TopAnchored(r.orientation) == TopAnchored(c.orientation)
    ensures r.name == c.name && r.width == c.width && r.height == c.height && r.path == c.path
  {
    FlipOrientation(SetRelPosition(c, Point(MirrorX(c, w), c.pos.y), Some(site)))
  }

  /** The cell step of the flip over a list of cells, in order. */
  function MirroredCells(cs: seq<Cell>, w: real, site: Site): (rs: seq<Cell>)
    ensures |rs| == |cs| && forall i :: 0 <= i < |cs| ==> rs[i] == MirrorCell(cs[i], w, site)
    ensures forall i :: 0 <= i < |cs| ==> rs[i].name == cs[i].name && rs[i].path == cs[i].path
  {
    seq(|cs|, i requires 0 <= i < |cs| => MirrorCell(cs[i], w, site))
  }

  /** `t` is what the flip of a micro at `origin` on `site`, whose box is `w`
      wide, leaves of its direct cell `c`: mirrored stored position, the other
      abutment group, the row rule at its row, placed at the origin. */
  ghost predicate Mirrored(t: Cell, c: Cell, w: real, origin: Point, site: Site) {
    && t.pos == Point(MirrorX(c, w), c.pos.y)
    && RightAnchored(t.orientation) == !RightAnchored(c.orientation)
    && (TopAnchored(t.orientation) <==> Round(t.abs.y / site.height) % 2 == 0)
    && CellPlaced(t, origin, site)
    && t.name == c.name && t.width == c.width && t.height == c.height && t.path == c.path
  }

  /** `flip_horizontal`, for a micro whose parent (if any) has lattice index
      `parent`. */
  function FlipHorizontal(m: Micro, parent: Option<Lattice>): (r: Micro)
    ensures r.name == m.name && r.origin == m.origin && r.description == m.description
    ensures r.site == m.site && r.path == m.path
    ensures r.relGrid == RelativeGrid(GridOf(m), parent)
    ensures |r.cells| == |m.cells|
    ensures forall i :: 0 <= i < |m.cells| ==> Mirrored(r.cells[i], m.cells[i], BoxWidth(m), m.origin, m.site)
    ensures |r.subs| == |m.subs|
    ensures forall j :: 0 <= j < |m.subs| ==> r.subs[j].name == m.subs[j].name && r.subs[j].path == m.subs[j].path
    ensures Height(r) == Height(m)
    decreases Height(m), 3
  {
    var w := BoxWidth(m);
    var m' := MirroredParts(m, w);
    var r := Reposition(m', m.origin, parent);
    PlacedMirrorsAreMirrored(m.cells, r.cells, w, m.origin, m.site);
    MovedSubsKeepNames(m'.subs, r.subs, m.origin);
    r
  }

  /** Mirrored cells placed again at the owner's origin are `Mirrored`. */
  lemma PlacedMirrorsAreMirrored(cs: seq<Cell>, rs: seq<Cell>, w: real, origin: Point, site: Site)
    requires |rs| == |cs|
    requires forall i :: 0 <= i < |cs| ==> rs[i] == PlaceCell(MirroredCells(cs, w, site)[i], origin, site)
    ensures forall i :: 0 <= i < |cs| ==> Mirrored(rs[i], cs[i], w, origin, site)
  {
    forall i | 0 <= i < |cs|
      ensures Mirrored(rs[i], cs[i], w, origin, site)
    {
      PlacedMirrorIsMirrored(cs[i], w, origin, site);
    }
  }

  /** Moving sub-micros keeps their names and paths. */
  lemma MovedSubsKeepNames(ss: seq<Micro>, ts: seq<Micro>, o: Point)
    requires |ts| == |ss| && forall j :: 0 <= j < |ss| ==> SubMoved(ss[j], ts[j], o)
    ensures forall j :: 0 <= j < |ss| ==> ts[j].name == ss[j].name && ts[j].path == ss[j].path
  {
    forall j | 0 <= j < |ss|
      ensures ts[j].name == ss[j].name && ts[j].path == ss[j].path
    {
      assert SubMoved(ss[j], ts[j], o);
    }
  }

  /** The micro before the final cascade: its cells mirrored and its
      sub-micros flipped, everything else as it was. */
  function MirroredParts(m: Micro, w: real): (r: Micro)
    ensures r.(cells := m.cells, subs := m.subs) == m
    ensures r.cells == MirroredCells(m.cells, w, m.site) && r.subs == FlippedSubs(m, w)
    ensures |r.subs| == |m.subs|
    ensures forall j :: 0 <= j < |m.subs| ==> r.subs[j].name == m.subs[j].name && r.subs[j].path == m.subs[j].path
    ensures Height(r) == Height(m)
    decreases Height(m), 2
  {
    var subs := FlippedSubs(m, w);
    var r := m.(cells := MirroredCells(m.cells, w, m.site), subs := subs);
    assert forall j :: 0 <= j < |m.subs| ==>
      subs[j].name == m.subs[j].name && subs[j].path == m.subs[j].path && Height(subs[j]) == Height(m.subs[j]) by {
      forall j | 0 <= j < |m.subs|
        ensures subs[j].name == m.subs[j].name && subs[j].path == m.subs[j].path && Height(subs[j]) == Height(m.subs[j])
      {
        assert subs[j] == FlippedSub(m, w, j);
      }
    }
    HeightCongruent(r, m);
    r
  }

  /** A mirrored cell, placed again at its owner's origin, is `Mirrored`. */
  lemma PlacedMirrorIsMirrored(c: Cell, w: real, origin: Point, site: Site)
    ensures Mirrored(PlaceCell(MirrorCell(c, w, site), origin, site), c, w, origin, site)
  {
  }

  /** The sub-micro step of the flip: each sub-micro is moved to its mirrored
      origin, with this micro as parent, and then flipped itself. */
  function FlippedSubs(m: Micro, w: real): (subs: seq<Micro>)
    ensures |subs| == |m.subs|
    ensures forall j :: 0 <= j < |m.subs| ==> subs[j] == FlippedSub(m, w, j)
    decreases Height(m), 1
  {
    seq(|m.subs|, j requires 0 <= j < |m.subs| => FlippedSub(m, w, j))
  }

  /** The flip step of the `j`-th sub-micro of `m`. */
  function FlippedSub(m: Micro, w: real, j: nat): (r: Micro)
    requires j < |m.subs|
    ensures r == FlipSub(m.subs[j], w, GridOf(m))
    ensures r.name == m.subs[j].name && r.path == m.subs[j].path && Height(r) == Height(m.subs[j])
    decreases Height(m), 0
  {
    SubIsLower(m, j);
    FlipSub(m.subs[j], w, GridOf(m))
  }

  /** One sub-micro of the flip: moved to its mirrored origin, then flipped. */
  function FlipSub(s: Micro, w: real, parent: Lattice): (r: Micro)
    ensures r.name == s.name && r.path == s.path && Height(r) == Height(s)
    ensures r.site == s.site && r.origin == MirroredOrigin(s, w)
    decreases Height(s), 4
  {
    FlipHorizontal(MirrorSubOrigin(s, w, parent), Some(parent))
  }

  /** The snapped origin a sub-micro is given by the flip of an owner whose
      box is `w` wide: its box mirrored inside the owner's. */
  function MirroredOrigin(s: Micro, w: real): Point {
    SnapToGrid(s.site, MirrorTarget(s, w))
  }

  /** The unsnapped origin of a sub-micro's box mirrored inside a box `w` wide. */
  function MirrorTarget(s: Micro, w: real): Point {
    Point(w - s.origin.x - BoxWidth(s), s.origin.y)
  }

  /** `set_origin` of a sub-micro at its mirrored origin inside a box `w` wide. */
  function MirrorSubOrigin(s: Micro, w: real, parent: Lattice): (r: Micro)
    ensures r.origin == MirroredOrigin(s, w)
    ensures r.name == s.name && r.path == s.path && r.site == s.site
    ensures Height(r) == Height(s)
    ensures PathsCoherent(s) ==> PathsCoherent(r)
  {
    var target := MirrorTarget(s, w);
    KeepsPathsIfCoherent(s, target, parent);
    SetOrigin(s, target, Some(parent))
  }

  lemma KeepsPathsIfCoherent(s: Micro, p: Point, parent: Lattice)
    ensures PathsCoherent(s) ==> PathsCoherent(SetOrigin(s, p, Some(parent)))
  {
    if PathsCoherent(s) {
      SetOriginKeepsPathsCoherent(s, p, Some(parent));
    }
  }

  /** Where the flip leaves the `j`-th sub-micro: flipped at its mirrored
      origin, then moved by the whole micro's origin and snapped again, so
      the origin of the micro is counted twice as it was by the shift. */
  lemma FlipPlacesSubMicro(m: Micro, parent: Option<Lattice>, j: nat)
    requires j < |m.subs|
    ensures var r := FlipHorizontal(m, parent);
            var f := FlipSub(m.subs[j], BoxWidth(m), GridOf(m));
            && SubMoved(f, r.subs[j], m.origin)
            && r.subs[j] == SetOrigin(f, Add(m.origin, f.origin), Some(GridOf(m)))
    ensures FlipHorizontal(m, parent).subs[j].origin ==
              SnapToGrid(m.subs[j].site, Add(m.origin, MirroredOrigin(m.subs[j], BoxWidth(m))))
  {
    var w := BoxWidth(m);
    var m' := MirroredParts(m, w);
    var f := FlipSub(m.subs[j], w, GridOf(m));
    var r := FlipHorizontal(m, parent);
    assert r == Reposition(m', m.origin, parent);
    assert r.subs == MoveSubs(m', m.origin);
    assert m'.subs[j] == f by {
      assert m'.subs[j] == FlippedSub(m, w, j);
    }
    assert r.subs[j] == SetOrigin(f, Add(m.origin, f.origin), Some(GridOf(m)));
    var s := m.subs[j];
    var mirrored := MirroredOrigin(s, w);
    FlipSubOrigin(s, w, GridOf(m));
    assert r.subs[j].origin == SnapToGrid(s.site, Add(m.origin, mirrored)) by {
      assert SubMoved(f, r.subs[j], m.origin);
    }
  }

  lemma FlipSubOrigin(s: Micro, w: real, parent: Lattice)
    ensures FlipSub(s, w, parent).site == s.site
    ensures FlipSub(s, w, parent).origin == MirroredOrigin(s, w)
  {
  }

  /** A flipped cell is in the other abutment group. */
  lemma FlipSwapsGroup(m: Micro, parent: Option<Lattice>, i: nat)
    requires i < |m.cells|
    ensures RightAnchored(FlipHorizontal(m, parent).cells[i].orientation) == !RightAnchored(m.cells[i].orientation)
  {
    assert Mirrored(FlipHorizontal(m, parent).cells[i], m.cells[i], BoxWidth(m), m.origin, m.site);
  }

  /** With a consistent box, a direct cell's stored x becomes W - x - width. */
  lemma FlipMirrorsCell(m: Micro, parent: Option<Lattice>, i: nat)
    requires i < |m.cells| && BboxFresh(m.cells[i])
    ensures FlipHorizontal(m, parent).cells[i].pos ==
      Point(BoxWidth(m) - m.cells[i].pos.x - m.cells[i].width, m.cells[i].pos.y)
  {
    assert Mirrored(FlipHorizontal(m, parent).cells[i], m.cells[i], BoxWidth(m), m.origin, m.site);
  }

  /** The flip changes no path and no name, so it keeps paths coherent. */
  lemma {:induction false} FlipKeepsPathsCoherent(m: Micro, parent: Option<Lattice>)
    requires PathsCoherent(m)
    ensures PathsCoherent(FlipHorizontal(m, parent))
    decreases Height(m)
  {
    var w := BoxWidth(m);
    var m' := MirroredParts(m, w);
    var subs := m'.subs;
    forall j | 0 <= j < |m'.subs|
      ensures m'.subs[j].path == JoinPath(m'.path, m'.subs[j].name) && PathsCoherent(m'.subs[j])
    {
      SubIsLower(m, j);
      var g := GridOf(m);
      var moved := MirrorSubOrigin(m.subs[j], w, g);
      assert subs[j] == FlippedSub(m, w, j) == FlipHorizontal(moved, Some(g));
      FlipKeepsPathsCoherent(moved, Some(g));
    }
    forall i | 0 <= i < |m'.cells|
      ensures m'.cells[i].path == JoinPath(m'.path, m'.cells[i].name)
    {
      assert m'.cells[i].name == m.cells[i].name && m'.cells[i].path == m.cells[i].path;
    }
    assert PathsCoherent(m');
    RepositionKeepsPathsCoherent(m', m.origin, parent);
  }

  /** The flip leaves a coherent micro coherent. */
  lemma FlipCoherent(m: Micro, parent: Option<Lattice>)
    requires PathsCoherent(m)
    ensures Coherent(FlipHorizontal(m, parent))
  {
    var m' := MirroredParts(m, BoxWidth(m));
    RepositionMakesPositionsCoherent(m', m.origin, parent);
    FlipKeepsPathsCoherent(m, parent);
  }
}
