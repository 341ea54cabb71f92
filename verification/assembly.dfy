/** Building and editing a micro tree: `add_cell`, `add_cells`,
    `add_sub_micro`, `remove_cell`, `remove_sub_micro` and `Micro.clone`.

    `add_sub_micro` inserts a clone of its argument, and `Micro.clone` adds
    each sub-micro through `add_sub_micro` after cloning it — so a nested
    sub-micro is cloned twice, and its (already absolute) origin has the new
    owner's origin added to it once more. */
module Assembly {
  import opened Common
  import opened Sites
  import opened Cells
  import opened Micros
  import opened Placement
  import opened Flatten

  /** `copy` is what adding `c` to a micro with origin `origin`, site `site`
      and path `path` stores: `c` with its absolute position and box placed at
      the origin, the owner's site, and the owner's path joined with its name.
      The orientation is kept as given. */
  ghost predicate AddedCopy(copy: Cell, c: Cell, origin: Point, site: Site, path: string) {
    && copy.(abs := c.abs, site := c.site, bbox := c.bbox, path := c.path) == c
    && CellPlaced(copy, origin, site)
    && copy.path == JoinPath(path, c.name)
  }

  /** `add_cell`: exactly one copy of `c` is appended; the cells already there
      and everything else of the micro are unchanged. */
  function AddCell(m: Micro, c: Cell): (r: Micro)
    ensures |r.cells| == |m.cells| + 1 && r.cells[..|m.cells|] == m.cells
    ensures AddedCopy(r.cells[|m.cells|], c, m.origin, m.site, m.path)
    ensures r.(cells := m.cells) == m
  {
    var copy := SetAbsolutePosition(CloneCell(c), m.origin, Some(m.site));
    m.(cells := m.cells + [Cells.SetHierarchicalPath(copy, m.path)])
  }

  /** `add_cells`: `add_cell` for each cell, in order. */
  function AddCells(m: Micro, cs: seq<Cell>): (r: Micro)
    ensures |r.cells| == |m.cells| + |cs| && r.cells[..|m.cells|] == m.cells
    ensures forall j :: 0 <= j < |cs| ==> AddedCopy(r.cells[|m.cells| + j], cs[j], m.origin, m.site, m.path)
    ensures r.(cells := m.cells) == m
    decreases |cs|
  {
    if |cs| == 0 then m
    else
      var init := AddCells(m, cs[..|cs| - 1]);
      var r := AddCell(init, cs[|cs| - 1]);
      assert forall j :: 0 <= j < |cs| - 1 ==> cs[..|cs| - 1][j] == cs[j];
      assert forall k :: 0 <= k < |init.cells| ==> r.cells[k] == init.cells[k];
      r
  }

  /** On a micro without cells, `add_cells` leaves exactly one placed copy of
      each given cell, at the same index. */
  lemma AddCellsToEmpty(m: Micro, cs: seq<Cell>)
    requires m.cells == []
    ensures |AddCells(m, cs).cells| == |cs|
    ensures forall j :: 0 <= j < |cs| ==> AddedCopy(AddCells(m, cs).cells[j], cs[j], m.origin, m.site, m.path)
  {
    var r := AddCells(m, cs);
    forall j | 0 <= j < |cs|
      ensures AddedCopy(r.cells[j], cs[j], m.origin, m.site, m.path)
    {
      assert r.cells[j] == r.cells[|m.cells| + j];
    }
  }

  /** A sub-micro `t` attached under `p` from `s`: same name, site, height and
      layout (cells and, recursively, sub-micros), path under `p`'s path,
      origin the snap of `p`'s origin plus `s`'s origin, relative lattice
      index taken against `p`, and coherent throughout. */
  ghost predicate Attached(t: Micro, s: Micro, p: Micro) {
    && t.name == s.name && t.site == s.site && t.description == s.description
    && SameLayout(t, s)
    && t.path == JoinPath(p.path, s.name)
    && t.origin == SnapToGrid(s.site, Add(p.origin, s.origin))
    && t.relGrid == LatticeSub(GridOf(t), GridOf(p))
    && Height(t) == Height(s)
    && Coherent(t)
  }

  /** The copy `add_sub_micro` stores once its argument has been cloned: the
      copy re-pathed under `p` and moved to `p`'s origin plus its own. It only
      reads `p`'s path, origin and site, which appending sub-micros leaves alone. */
  function PlaceUnder(p: Micro, s: Micro): (t: Micro)
    ensures Attached(t, s, p)
  {
    var named := Micros.SetHierarchicalPath(s, p.path);
    SetHierarchicalPathMakesPathsCoherent(s, p.path);
    SetOriginCoherent(named, Add(p.origin, named.origin), Some(GridOf(p)));
    var t := SetOrigin(named, Add(p.origin, named.origin), Some(GridOf(p)));
    EqualUpToPathsSameLayout(named, s);
    SetOriginKeepsLayout(named, Add(p.origin, named.origin), Some(GridOf(p)));
    SameLayoutTrans(t, named, s);
    t
  }

  /** The name `clone` gives its copy: the new name, unless it is missing or empty. */
  function CloneName(m: Micro, newName: Option<string>): (n: string)
    ensures newName.Some? && newName.value != "" ==> n == newName.value
    ensures newName.None? || newName.value == "" ==> n == m.name
  {
    match newName
    case Some(n) => if n == "" then m.name else n
    case None => m.name
  }

  /** The sub-micro `add_sub_micro` appends: a clone of `s`, placed under `p`. */
  function AddedSub(p: Micro, s: Micro): (t: Micro)
    ensures Attached(t, s, p)
    decreases Height(s), 3
  {
    var c := CloneMicro(s, None);
    var t := PlaceUnder(p, c);
    AttachedSameShape(t, c, s, p, p);
    t
  }

  /** `add_sub_micro`: a clone of `s` is attached as the last sub-micro; the
      sub-micros already there and everything else are unchanged. */
  function AddSubMicro(p: Micro, s: Micro): (r: Micro)
    ensures |r.subs| == |p.subs| + 1 && r.subs[..|p.subs|] == p.subs
    ensures Attached(r.subs[|p.subs|], s, p)
    ensures r.(subs := p.subs) == p
  {
    p.(subs := p.subs + [AddedSub(p, s)])
  }

  /** `Micro.clone`: a new micro with the same origin (not snapped), description
      and site, named `newName` or else the original name, holding a placed
      copy of each cell and an attached clone of each sub-micro, in order. */
  function CloneMicro(m: Micro, newName: Option<string>): (r: Micro)
    ensures r.name == CloneName(m, newName) && r.path == r.name
    ensures r.origin == m.origin && r.description == m.description && r.site == m.site
    ensures r.relGrid == Lattice(0, 0)
    ensures |r.cells| == |m.cells|
    ensures forall i :: 0 <= i < |m.cells| ==> AddedCopy(r.cells[i], m.cells[i], m.origin, m.site, r.path)
    ensures |r.subs| == |m.subs|
    ensures forall j :: 0 <= j < |m.subs| ==> Attached(r.subs[j], m.subs[j], r)
    ensures SameLayout(r, m) && Height(r) == Height(m)
    decreases Height(m), 2
  {
    var base := NewMicro(CloneName(m, newName), m.origin, m.description, m.site);
    var withCells := AddCells(base, ClonedCells(m.cells));
    ClonedCellsAdded(base, m.cells);
    var subs := ClonedSubs(withCells, m);
    var r := withCells.(subs := subs);
    AttachedToSameSpot(subs, m.subs, withCells, r);
    HeightCongruent(r, m);
    CopiesKeepLayout(r, m);
    r
  }

  /** A micro holding a placed copy of each cell of `m` and an attached
      sub-micro from each of `m`'s is laid out like `m`. */
  lemma CopiesKeepLayout(r: Micro, m: Micro)
    requires |r.cells| == |m.cells|
    requires forall i :: 0 <= i < |m.cells| ==> AddedCopy(r.cells[i], m.cells[i], m.origin, m.site, r.path)
    requires |r.subs| == |m.subs| && forall j :: 0 <= j < |m.subs| ==> Attached(r.subs[j], m.subs[j], r)
    ensures SameLayout(r, m)
  {
    forall i | 0 <= i < |m.cells|
      ensures SameCellShape(r.cells[i], m.cells[i])
    {
      assert AddedCopy(r.cells[i], m.cells[i], m.origin, m.site, r.path);
    }
    forall j | 0 <= j < |m.subs|
      ensures r.subs[j].name == m.subs[j].name && SameLayout(r.subs[j], m.subs[j])
    {
      assert Attached(r.subs[j], m.subs[j], r);
    }
  }

  /** Sub-micros attached under `p` are attached under any `q` with the same
      path, origin and site, and keep their sources' heights. */
  lemma AttachedToSameSpot(ts: seq<Micro>, ss: seq<Micro>, p: Micro, q: Micro)
    requires |ts| == |ss| && forall j :: 0 <= j < |ss| ==> Attached(ts[j], ss[j], p)
    requires q.path == p.path && q.origin == p.origin && q.site == p.site
    ensures forall j :: 0 <= j < |ss| ==> Attached(ts[j], ss[j], q) && Height(ts[j]) == Height(ss[j])
  {
    forall j | 0 <= j < |ss|
      ensures Attached(ts[j], ss[j], q) && Height(ts[j]) == Height(ss[j])
    {
      AttachedMovedOwner(ts[j], ss[j], p, q);
    }
  }

  /** The cell loop of `Micro.clone`: a clone of each cell, in order. */
  function ClonedCells(cs: seq<Cell>): (rs: seq<Cell>)
    ensures |rs| == |cs| && forall i :: 0 <= i < |cs| ==> rs[i] == CloneCell(cs[i])
  {
    seq(|cs|, i requires 0 <= i < |cs| => CloneCell(cs[i]))
  }

  /** Adding clones of cells to a micro without cells stores a placed copy
      of each original cell. */
  lemma ClonedCellsAdded(base: Micro, cs: seq<Cell>)
    requires base.cells == []
    ensures |AddCells(base, ClonedCells(cs)).cells| == |cs|
    ensures forall i :: 0 <= i < |cs| ==>
      AddedCopy(AddCells(base, ClonedCells(cs)).cells[i], cs[i], base.origin, base.site, base.path)
  {
    var copies := ClonedCells(cs);
    var r := AddCells(base, copies);
    AddCellsToEmpty(base, copies);
    forall i | 0 <= i < |cs|
      ensures AddedCopy(r.cells[i], cs[i], base.origin, base.site, base.path)
    {
      AddedCopyOfClone(r.cells[i], cs[i], base.origin, base.site, base.path);
    }
  }

  /** The sub-micro loop of `Micro.clone`: each sub-micro is cloned and the
      clone handed to `add_sub_micro`, which clones it again. */
  function ClonedSubs(owner: Micro, m: Micro): (subs: seq<Micro>)
    ensures |subs| == |m.subs|
    ensures forall j :: 0 <= j < |m.subs| ==> Attached(subs[j], m.subs[j], owner)
    decreases Height(m), 1
  {
    seq(|m.subs|, j requires 0 <= j < |m.subs| => ClonedSub(owner, m, j))
  }

  /** The `j`-th sub-micro of the clone. */
  function ClonedSub(owner: Micro, m: Micro, j: nat): (t: Micro)
    requires j < |m.subs|
    ensures Attached(t, m.subs[j], owner)
    decreases Height(m), 0
  {
    SubIsLower(m, j);
    var c := CloneMicro(m.subs[j], None);
    var t := AddedSub(owner, c);
    AttachedSameShape(t, c, m.subs[j], owner, owner);
    t
  }

  /** Adding a clone of a cell stores the same copy as adding the cell: the
      clone differs only in its box, which adding rebuilds. */
  lemma AddedCopyOfClone(copy: Cell, c: Cell, origin: Point, site: Site, path: string)
    requires AddedCopy(copy, CloneCell(c), origin, site, path)
    ensures AddedCopy(copy, c, origin, site, path)
  {
  }

  /** `Attached` only looks at the name, site, description, origin, height
      and layout of the source and at the path, origin and site of the owner. */
  lemma AttachedSameShape(t: Micro, s: Micro, s2: Micro, p: Micro, q: Micro)
    requires Attached(t, s, p)
    requires s2.name == s.name && s2.site == s.site && s2.description == s.description
    requires s2.origin == s.origin && Height(s2) == Height(s) && SameLayout(s, s2)
    requires q.path == p.path && q.origin == p.origin && q.site == p.site
    ensures Attached(t, s2, q)
  {
    SameLayoutTrans(t, s, s2);
  }

  /** The owner side of `AttachedSameShape`, for an unchanged source. */
  lemma AttachedMovedOwner(t: Micro, s: Micro, p: Micro, q: Micro)
    requires Attached(t, s, p)
    requires q.path == p.path && q.origin == p.origin && q.site == p.site
    ensures Attached(t, s, q)
  {
  }

  /** Names of a sequence of cells, in order. */
  function CellNames(cs: seq<Cell>): (ns: seq<string>)
    ensures |ns| == |cs| && forall i :: 0 <= i < |cs| ==> ns[i] == cs[i].name
  {
    seq(|cs|, i requires 0 <= i < |cs| => cs[i].name)
  }

  /** Names of a sequence of micros, in order. */
  function MicroNames(ms: seq<Micro>): (ns: seq<string>)
    ensures |ns| == |ms| && forall i :: 0 <= i < |ms| ==> ns[i] == ms[i].name
  {
    seq(|ms|, i requires 0 <= i < |ms| => ms[i].name)
  }

  /** `remove_cell`: reports whether some direct cell has that name; if so the
      first such cell is dropped and the rest keep their order, otherwise the
      micro is unchanged. */
  function RemoveCell(m: Micro, name: string): (res: (Micro, bool))
    ensures res.1 <==> exists i :: 0 <= i < |m.cells| && m.cells[i].name == name
    ensures !res.1 ==> res.0 == m
    ensures res.1 ==> exists k ::
      && 0 <= k < |m.cells| && m.cells[k].name == name
      && (forall j :: 0 <= j < k ==> m.cells[j].name != name)
      && res.0 == m.(cells := m.cells[..k] + m.cells[k + 1..])
  {
    var names := CellNames(m.cells);
    match FirstIndex(names, name)
    case None => (m, false)
    case Some(k) => (m.(cells := RemoveAt(m.cells, k)), true)
  }

  /** `remove_sub_micro`: the same, over the direct sub-micros. */
  function RemoveSubMicro(m: Micro, name: string): (res: (Micro, bool))
    ensures res.1 <==> exists i :: 0 <= i < |m.subs| && m.subs[i].name == name
    ensures !res.1 ==> res.0 == m
    ensures res.1 ==> exists k ::
      && 0 <= k < |m.subs| && m.subs[k].name == name
      && (forall j :: 0 <= j < k ==> m.subs[j].name != name)
      && res.0 == m.(subs := m.subs[..k] + m.subs[k + 1..])
  {
    var names := MicroNames(m.subs);
    match FirstIndex(names, name)
    case None => (m, false)
    case Some(k) => (m.(subs := RemoveAt(m.subs, k)), true)
  }

  /** Removing the name of a freshly added cell takes exactly that cell back out. */
  lemma {:induction false} RemoveAfterAddCell(m: Micro, c: Cell)
    requires forall i :: 0 <= i < |m.cells| ==> m.cells[i].name != c.name
    ensures RemoveCell(AddCell(m, c), c.name) == (m, true)
  {
    var a := AddCell(m, c);
    var res := RemoveCell(a, c.name);
    assert a.cells[|m.cells|].name == c.name;
    var k :| 0 <= k < |a.cells| && a.cells[k].name == c.name
      && (forall j :: 0 <= j < k ==> a.cells[j].name != c.name)
      && res.0 == a.(cells := a.cells[..k] + a.cells[k + 1..]);
    assert k == |m.cells|;
    assert a.cells[..k] == m.cells && a.cells[k + 1..] == [];
    assert a.cells[..k] + a.cells[k + 1..] == m.cells;
  }

  /** Removing the name of a freshly added sub-micro takes exactly that sub-micro back out. */
  lemma {:induction false} RemoveAfterAddSubMicro(p: Micro, s: Micro)
    requires forall i :: 0 <= i < |p.subs| ==> p.subs[i].name != s.name
    ensures RemoveSubMicro(AddSubMicro(p, s), s.name) == (p, true)
  {
    var a := AddSubMicro(p, s);
    var res := RemoveSubMicro(a, s.name);
    assert a.subs[|p.subs|].name == s.name;
    var k :| 0 <= k < |a.subs| && a.subs[k].name == s.name
      && (forall j :: 0 <= j < k ==> a.subs[j].name != s.name)
      && res.0 == a.(subs := a.subs[..k] + a.subs[k + 1..]);
    assert k == |p.subs|;
    assert a.subs[..k] == p.subs && a.subs[k + 1..] == [];
    assert a.subs[..k] + a.subs[k + 1..] == p.subs;
  }

  /** Adding a cell keeps a coherent micro coherent. */
  lemma {:induction false} AddCellCoherent(m: Micro, c: Cell)
    requires Coherent(m)
    ensures Coherent(AddCell(m, c))
  {
    var r := AddCell(m, c);
    assert forall i :: 0 <= i < |m.cells| ==> r.cells[i] == m.cells[i];
    assert GridOf(r) == GridOf(m);
  }

  /** Adding cells keeps a coherent micro coherent. */
  lemma {:induction false} AddCellsCoherent(m: Micro, cs: seq<Cell>)
    requires Coherent(m)
    ensures Coherent(AddCells(m, cs))
  {
    var r := AddCells(m, cs);
    assert forall i :: 0 <= i < |m.cells| ==> r.cells[i] == m.cells[i];
    forall i | |m.cells| <= i < |r.cells|
      ensures CellPlaced(r.cells[i], r.origin, r.site) && r.cells[i].path == JoinPath(r.path, r.cells[i].name)
    {
      assert AddedCopy(r.cells[|m.cells| + (i - |m.cells|)], cs[i - |m.cells|], m.origin, m.site, m.path);
    }
    assert GridOf(r) == GridOf(m);
  }

  /** Appending a coherent sub-micro whose path and relative index are taken
      against the owner keeps a coherent owner coherent. */
  lemma {:induction false} AppendSubCoherent(p: Micro, t: Micro)
    requires Coherent(p) && Coherent(t)
    requires t.path == JoinPath(p.path, t.name) && t.relGrid == LatticeSub(GridOf(t), GridOf(p))
    ensures Coherent(p.(subs := p.subs + [t]))
  {
    var r := p.(subs := p.subs + [t]);
    assert GridOf(r) == GridOf(p);
    forall i | 0 <= i < |r.subs|
      ensures r.subs[i].relGrid == LatticeSub(GridOf(r.subs[i]), GridOf(r)) && PositionsCoherent(r.subs[i])
      ensures r.subs[i].path == JoinPath(r.path, r.subs[i].name) && PathsCoherent(r.subs[i])
    {
      if i < |p.subs| {
        assert r.subs[i] == p.subs[i];
      } else {
        assert r.subs[i] == t;
      }
    }
  }

  /** Adding a sub-micro keeps a coherent micro coherent, whatever is added. */
  lemma AddSubMicroCoherent(p: Micro, s: Micro)
    requires Coherent(p)
    ensures Coherent(AddSubMicro(p, s))
  {
    AppendSubCoherent(p, AddedSub(p, s));
  }

  /** A clone is coherent, whatever the state of the original. */
  lemma {:induction false} CloneMicroCoherent(m: Micro, newName: Option<string>)
    ensures Coherent(CloneMicro(m, newName))
  {
    var r := CloneMicro(m, newName);
    forall i | 0 <= i < |r.cells|
      ensures CellPlaced(r.cells[i], r.origin, r.site) && r.cells[i].path == JoinPath(r.path, r.cells[i].name)
    {
      assert AddedCopy(r.cells[i], m.cells[i], m.origin, m.site, r.path);
    }
    forall j | 0 <= j < |r.subs|
      ensures r.subs[j].relGrid == LatticeSub(GridOf(r.subs[j]), GridOf(r)) && PositionsCoherent(r.subs[j])
      ensures r.subs[j].path == JoinPath(r.path, r.subs[j].name) && PathsCoherent(r.subs[j])
    {
      assert Attached(r.subs[j], m.subs[j], r);
    }
  }

  /** Removing a direct cell keeps a coherent micro coherent. */
  lemma {:induction false} RemoveCellCoherent(m: Micro, name: string)
    requires Coherent(m)
    ensures Coherent(RemoveCell(m, name).0)
  {
    var res := RemoveCell(m, name);
    if res.1 {
      var k :| 0 <= k < |m.cells| && res.0 == m.(cells := m.cells[..k] + m.cells[k + 1..]);
      DropCellCoherent(m, k);
    }
  }

  /** Dropping the `k`-th direct cell keeps a coherent micro coherent. */
  lemma DropCellCoherent(m: Micro, k: nat)
    requires Coherent(m) && k < |m.cells|
    ensures Coherent(m.(cells := m.cells[..k] + m.cells[k + 1..]))
  {
    var r := m.(cells := m.cells[..k] + m.cells[k + 1..]);
    assert GridOf(r) == GridOf(m);
    forall i | 0 <= i < |r.cells|
      ensures CellPlaced(r.cells[i], r.origin, r.site) && r.cells[i].path == JoinPath(r.path, r.cells[i].name)
    {
      var j := if i < k then i else i + 1;
      assert r.cells[i] == m.cells[j];
    }
  }

  /** Removing a direct sub-micro keeps a coherent micro coherent. */
  lemma {:induction false} RemoveSubMicroCoherent(m: Micro, name: string)
    requires Coherent(m)
    ensures Coherent(RemoveSubMicro(m, name).0)
  {
    var res := RemoveSubMicro(m, name);
    if res.1 {
      var k :| 0 <= k < |m.subs| && res.0 == m.(subs := m.subs[..k] + m.subs[k + 1..]);
      DropSubCoherent(m, k);
    }
  }

  /** Dropping the `k`-th direct sub-micro keeps a coherent micro coherent. */
  lemma DropSubCoherent(m: Micro, k: nat)
    requires Coherent(m) && k < |m.subs|
    ensures Coherent(m.(subs := m.subs[..k] + m.subs[k + 1..]))
  {
    var r := m.(subs := m.subs[..k] + m.subs[k + 1..]);
    assert GridOf(r) == GridOf(m);
    forall i | 0 <= i < |r.subs|
      ensures r.subs[i].relGrid == LatticeSub(GridOf(r.subs[i]), GridOf(r)) && PositionsCoherent(r.subs[i])
      ensures r.subs[i].path == JoinPath(r.path, r.subs[i].name) && PathsCoherent(r.subs[i])
    {
      var j := if i < k then i else i + 1;
      assert r.subs[i] == m.subs[j];
    }
  }

  /** Cloning a coherent micro without sub-micros, whose path is its name, under
      its own name gives back the same micro, up to the relative lattice index
      the constructor resets. */
  lemma {:induction false} CloneOfFlatMicro(m: Micro)
    requires Coherent(m) && m.subs == [] && m.path == m.name
    ensures CloneMicro(m, None) == m.(relGrid := Lattice(0, 0))
  {
    var r := CloneMicro(m, None);
    forall i | 0 <= i < |m.cells|
      ensures r.cells[i] == m.cells[i]
    {
      assert AddedCopy(r.cells[i], m.cells[i], m.origin, m.site, r.path);
      assert CellPlaced(m.cells[i], m.origin, m.site);
    }
    assert r.cells == m.cells;
  }

  /** The flattening after `add_cell` ends the micro's own block with the copy. */
  lemma AllCellsAfterAddCell(m: Micro, c: Cell)
    ensures AllCells(AddCell(m, c)) == m.cells + [AddCell(m, c).cells[|m.cells|]] + Concat(SubCells(m))
  {
    var r := AddCell(m, c);
    assert r == m.(cells := m.cells + [r.cells[|m.cells|]]);
    AllCellsAppendCell(m, r.cells[|m.cells|]);
  }

  /** The flattening after `add_sub_micro` is the old one followed by the cells of the attached copy. */
  lemma AllCellsAfterAddSubMicro(p: Micro, s: Micro)
    ensures AllCells(AddSubMicro(p, s)) == AllCells(p) + AllCells(AddSubMicro(p, s).subs[|p.subs|])
  {
    var r := AddSubMicro(p, s);
    assert r == p.(subs := p.subs + [r.subs[|p.subs|]]);
    AllCellsAppendSub(p, r.subs[|p.subs|]);
  }
}
