/** The container (`Micro`): a named node that owns an ordered list of cells
    and an ordered list of sub-micros, and has an origin on a grid. The
    parent back-reference of the original is not stored: the operations that
    read it take the parent's lattice index as an argument instead.

    This module holds the datatype, its height (the termination measure of
    the operations that recurse on transformed sub-trees), construction, path
    assignment and the two consistency invariants the operations maintain. */
module Micros {
  import opened Common
  import opened Orientations
  import opened Sites
  import opened Cells

  /** `origin` is the micro's origin as stored (absolute for a sub-micro once
      attached), `path` its hierarchical path, `relGrid` its cached lattice
      index relative to its parent (`rel_grid_x`, `rel_grid_y`). */
  datatype Micro = Micro(
    name: string,
    origin: Point,
    description: string,
    site: Site,
    cells: seq<Cell>,
    subs: seq<Micro>,
    path: string,
    relGrid: Lattice)

  /** Number of levels of the tree: 1 for a micro without sub-micros. */
  function Height(m: Micro): (h: nat)
    ensures h >= 1
    decreases m, 1
  {
    1 + MaxOf(SubHeights(m))
  }

  /** The heights of the direct sub-micros, in order. */
  function SubHeights(m: Micro): (hs: seq<nat>)
    ensures |hs| == |m.subs|
    ensures forall i :: 0 <= i < |m.subs| ==> hs[i] == Height(m.subs[i])
    decreases m, 0
  {
    seq(|m.subs|, i requires 0 <= i < |m.subs| => Height(m.subs[i]))
  }

  /** A sub-micro is strictly lower than its owner. */
  lemma SubIsLower(m: Micro, i: nat)
    requires i < |m.subs|
    ensures Height(m.subs[i]) < Height(m)
  {
    assert SubHeights(m)[i] == Height(m.subs[i]);
  }

  /** Two micros whose sub-micros have the same heights, in order, have the same height. */
  lemma HeightCongruent(a: Micro, b: Micro)
    requires |a.subs| == |b.subs|
    requires forall i :: 0 <= i < |a.subs| ==> Height(a.subs[i]) == Height(b.subs[i])
    ensures Height(a) == Height(b)
  {
    assert SubHeights(a) == SubHeights(b);
  }

  /** The micro's own lattice index (`grid_x`, `grid_y`), always recomputed from its origin. */
  function GridOf(m: Micro): Lattice {
    ToGridCoords(m.site, m.origin)
  }

  /** `Micro.__init__`: no cells, no sub-micros, path equal to the name,
      relative lattice index (0, 0), and the origin stored exactly as given —
      the constructor does not snap it to the grid. */
  function NewMicro(name: string, origin: Point, description: string, site: Site): (m: Micro)
    ensures m.name == name && m.origin == origin && m.description == description && m.site == site
    ensures m.cells == [] && m.subs == []
    ensures m.path == name && m.relGrid == Lattice(0, 0)
    ensures Height(m) == 1
  {
    Micro(name, origin, description, site, [], [], name, Lattice(0, 0))
  }

  /** A cell placed by its owner: absolute position equal to the owner's
      origin plus the stored position, the owner's site, a consistent box. */
  ghost predicate CellPlaced(c: Cell, origin: Point, site: Site) {
    c.abs == Add(origin, c.pos) && c.site == site && BboxFresh(c)
  }

  /** Position caches agree with origins throughout the tree: every cell is
      placed by its owner, and every sub-micro's relative lattice index is its
      own index minus its owner's. */
  ghost predicate PositionsCoherent(m: Micro)
    decreases m
  {
    && (forall i :: 0 <= i < |m.cells| ==> CellPlaced(m.cells[i], m.origin, m.site))
    && (forall i :: 0 <= i < |m.subs| ==>
          m.subs[i].relGrid == LatticeSub(GridOf(m.subs[i]), GridOf(m)) && PositionsCoherent(m.subs[i]))
  }

  /** Every cell and sub-micro has the path of its owner joined with its own name, throughout the tree. */
  ghost predicate PathsCoherent(m: Micro)
    decreases m
  {
    && (forall i :: 0 <= i < |m.cells| ==> m.cells[i].path == JoinPath(m.path, m.cells[i].name))
    && (forall i :: 0 <= i < |m.subs| ==>
          m.subs[i].path == JoinPath(m.path, m.subs[i].name) && PathsCoherent(m.subs[i]))
  }

  /** The derived-state invariant of a micro tree. */
  ghost predicate Coherent(m: Micro) {
    PositionsCoherent(m) && PathsCoherent(m)
  }

  /** A new micro is coherent. */
  lemma NewMicroCoherent(name: string, origin: Point, description: string, site: Site)
    ensures Coherent(NewMicro(name, origin, description, site))
  {
  }

  /** `Micro.set_hierarchical_path`: the micro's path becomes "parent/name"
      (just "name" under an empty parent path) and the whole subtree is
      re-pathed; nothing but paths changes. */
  function SetHierarchicalPath(m: Micro, parentPath: string): (r: Micro)
    ensures r.path == JoinPath(parentPath, m.name)
    ensures r.(path := m.path, cells := m.cells, subs := m.subs) == m
    ensures |r.cells| == |m.cells|
    ensures forall i :: 0 <= i < |m.cells| ==> r.cells[i].(path := m.cells[i].path) == m.cells[i]
    ensures forall i :: 0 <= i < |m.cells| ==> r.cells[i].path == JoinPath(r.path, m.cells[i].name)
    ensures |r.subs| == |m.subs|
    ensures forall i :: 0 <= i < |m.subs| ==>
              r.subs[i].(path := m.subs[i].path, cells := m.subs[i].cells, subs := m.subs[i].subs) == m.subs[i]
    ensures Height(r) == Height(m)
    ensures EqualUpToPaths(r, m)
    decreases m, 1
  {
    var p := JoinPath(parentPath, m.name);
    var cells := RepathedCells(m.cells, p);
    var subs := RepathedSubs(m, p);
    var r := m.(path := p, cells := cells, subs := subs);
    HeightCongruent(r, m);
    r
  }

  /** `a` is `b` with, at most, other paths: on itself, on its cells and,
      recursively, on its sub-micros. */
  ghost predicate EqualUpToPaths(a: Micro, b: Micro)
    decreases b
  {
    && a.(path := b.path, cells := b.cells, subs := b.subs) == b
    && |a.cells| == |b.cells|
    && (forall i :: 0 <= i < |b.cells| ==> a.cells[i].(path := b.cells[i].path) == b.cells[i])
    && |a.subs| == |b.subs|
    && (forall j :: 0 <= j < |b.subs| ==> EqualUpToPaths(a.subs[j], b.subs[j]))
  }

  /** Cells `a` and `b` have the same shape: name, stored position, size and
      abutment group. Caches, path and the row half of the orientation may differ. */
  ghost predicate SameCellShape(a: Cell, b: Cell) {
    && a.name == b.name && a.pos == b.pos && a.width == b.width && a.height == b.height
    && RightAnchored(a.orientation) == RightAnchored(b.orientation)
  }

  /** `t` is laid out like `s`: cells of the same shape in the same order and,
      recursively, sub-micros of the same names laid out alike. Origins,
      paths and every cache may differ. */
  ghost predicate SameLayout(t: Micro, s: Micro)
    decreases s
  {
    && |t.cells| == |s.cells|
    && (forall i :: 0 <= i < |s.cells| ==> SameCellShape(t.cells[i], s.cells[i]))
    && |t.subs| == |s.subs|
    && (forall j :: 0 <= j < |s.subs| ==> t.subs[j].name == s.subs[j].name && SameLayout(t.subs[j], s.subs[j]))
  }

  /** Layouts compose. */
  lemma {:induction false} SameLayoutTrans(a: Micro, b: Micro, c: Micro)
    requires SameLayout(a, b) && SameLayout(b, c)
    ensures SameLayout(a, c)
    decreases c
  {
    forall j | 0 <= j < |c.subs|
      ensures a.subs[j].name == c.subs[j].name && SameLayout(a.subs[j], c.subs[j])
    {
      SameLayoutTrans(a.subs[j], b.subs[j], c.subs[j]);
    }
  }

  /** A micro that differs only in paths has the same layout. */
  lemma {:induction false} EqualUpToPathsSameLayout(a: Micro, b: Micro)
    requires EqualUpToPaths(a, b)
    ensures SameLayout(a, b)
    decreases b
  {
    forall i | 0 <= i < |b.cells|
      ensures SameCellShape(a.cells[i], b.cells[i])
    {
      assert a.cells[i].(path := b.cells[i].path) == b.cells[i];
    }
    forall j | 0 <= j < |b.subs|
      ensures a.subs[j].name == b.subs[j].name && SameLayout(a.subs[j], b.subs[j])
    {
      assert EqualUpToPaths(a.subs[j], b.subs[j]);
      EqualUpToPathsSameLayout(a.subs[j], b.subs[j]);
    }
  }

  /** Every cell re-pathed under `p`, in order. */
  function RepathedCells(cs: seq<Cell>, p: string): (rs: seq<Cell>)
    ensures |rs| == |cs| && forall i :: 0 <= i < |cs| ==> rs[i] == Cells.SetHierarchicalPath(cs[i], p)
    ensures forall i :: 0 <= i < |cs| ==> rs[i].(path := cs[i].path) == cs[i] && rs[i].path == JoinPath(p, cs[i].name)
  {
    seq(|cs|, i requires 0 <= i < |cs| => Cells.SetHierarchicalPath(cs[i], p))
  }

  /** Every sub-micro re-pathed under `p`, in order. */
  function RepathedSubs(m: Micro, p: string): (rs: seq<Micro>)
    ensures |rs| == |m.subs| && forall i :: 0 <= i < |m.subs| ==> rs[i] == SetHierarchicalPath(m.subs[i], p)
    ensures forall i :: 0 <= i < |m.subs| ==>
              rs[i].(path := m.subs[i].path, cells := m.subs[i].cells, subs := m.subs[i].subs) == m.subs[i]
    ensures forall i :: 0 <= i < |m.subs| ==> Height(rs[i]) == Height(m.subs[i])
    ensures forall i :: 0 <= i < |m.subs| ==> EqualUpToPaths(rs[i], m.subs[i])
    decreases m, 0
  {
    seq(|m.subs|, i requires 0 <= i < |m.subs| => SetHierarchicalPath(m.subs[i], p))
  }

  /** Re-pathing makes the whole subtree's paths coherent, whatever they were. */
  lemma {:induction false} SetHierarchicalPathMakesPathsCoherent(m: Micro, parentPath: string)
    ensures PathsCoherent(SetHierarchicalPath(m, parentPath))
    decreases m
  {
    var p := JoinPath(parentPath, m.name);
    var r := SetHierarchicalPath(m, parentPath);
    var subs := RepathedSubs(m, p);
    assert r.subs == subs;
    forall i | 0 <= i < |r.cells|
      ensures r.cells[i].path == JoinPath(r.path, r.cells[i].name)
    {
      assert r.cells[i].name == m.cells[i].name;
    }
    forall i | 0 <= i < |subs|
      ensures subs[i].path == JoinPath(p, subs[i].name) && PathsCoherent(subs[i])
    {
      SetHierarchicalPathMakesPathsCoherent(m.subs[i], p);
    }
  }

  /** Re-pathing keeps position caches coherent. */
  lemma {:induction false} SetHierarchicalPathKeepsPositions(m: Micro, parentPath: string)
    requires PositionsCoherent(m)
    ensures PositionsCoherent(SetHierarchicalPath(m, parentPath))
    decreases m
  {
    var r := SetHierarchicalPath(m, parentPath);
    forall i | 0 <= i < |r.cells|
      ensures CellPlaced(r.cells[i], r.origin, r.site)
    {
      assert CellPlaced(m.cells[i], m.origin, m.site);
    }
    forall i | 0 <= i < |r.subs|
      ensures r.subs[i].relGrid == LatticeSub(GridOf(r.subs[i]), GridOf(r)) && PositionsCoherent(r.subs[i])
    {
      assert r.subs[i] == SetHierarchicalPath(m.subs[i], r.path);
      SetHierarchicalPathKeepsPositions(m.subs[i], r.path);
    }
  }
}
