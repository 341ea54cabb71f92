/** Reading a micro tree: the pre-order flattenings (`get_all_cells`,
    `get_all_sub_micros`), the placement records of `get_cell_placements`,
    path lookup (`get_cell_by_path`, `get_sub_micro_by_path`) and
    `calculate_bounding_box`. */
module Flatten {
  import opened Common
  import opened Orientations
  import opened Sites
  import opened Cells
  import opened Micros

  /** `get_all_cells`: the micro's own cells, then each sub-micro's cells
      recursively, sub-micros in order. */
  function AllCells(m: Micro): (cs: seq<Cell>)
    ensures |cs| >= |m.cells| && cs[..|m.cells|] == m.cells
    ensures m.subs == [] ==> cs == m.cells
    decreases m, 1
  {
    m.cells + Concat(SubCells(m))
  }

  /** The cells of each sub-micro, one block per sub-micro. */
  function SubCells(m: Micro): (blocks: seq<seq<Cell>>)
    ensures |blocks| == |m.subs|
    ensures forall i :: 0 <= i < |m.subs| ==> blocks[i] == AllCells(m.subs[i])
    decreases m, 0
  {
    seq(|m.subs|, i requires 0 <= i < |m.subs| => AllCells(m.subs[i]))
  }

  /** The micro followed by every micro below it, each before its own descendants. */
  function Preorder(m: Micro): (ms: seq<Micro>)
    ensures |ms| >= 1 && ms[0] == m
    decreases m, 2
  {
    [m] + AllSubMicros(m)
  }

  /** `get_all_sub_micros`: each direct sub-micro followed by its own
      descendants, sub-micros in order; the micro itself is not included. */
  function AllSubMicros(m: Micro): (ms: seq<Micro>)
    ensures m.subs == [] ==> ms == []
    decreases m, 1
  {
    Concat(SubPreorders(m))
  }

  function SubPreorders(m: Micro): (blocks: seq<seq<Micro>>)
    ensures |blocks| == |m.subs|
    ensures forall i :: 0 <= i < |m.subs| ==> blocks[i] == Preorder(m.subs[i])
    decreases m, 0
  {
    seq(|m.subs|, i requires 0 <= i < |m.subs| => Preorder(m.subs[i]))
  }

  /** A cell is in the flattening exactly when it is a direct cell or in the
      flattening of some direct sub-micro. */
  lemma AllCellsMembership(m: Micro, c: Cell)
    ensures c in AllCells(m) <==>
      (c in m.cells || exists i :: 0 <= i < |m.subs| && c in AllCells(m.subs[i]))
  {
    ConcatMembership(SubCells(m), c);
  }

  /** A micro is below `m` exactly when it is a direct sub-micro or below one. */
  lemma AllSubMicrosMembership(m: Micro, s: Micro)
    ensures s in AllSubMicros(m) <==>
      exists i :: 0 <= i < |m.subs| && (s == m.subs[i] || s in AllSubMicros(m.subs[i]))
  {
    ConcatMembership(SubPreorders(m), s);
    if s in AllSubMicros(m) {
      var i :| 0 <= i < |m.subs| && s in SubPreorders(m)[i];
      assert s in Preorder(m.subs[i]);
    }
    if exists i :: 0 <= i < |m.subs| && (s == m.subs[i] || s in AllSubMicros(m.subs[i])) {
      var i :| 0 <= i < |m.subs| && (s == m.subs[i] || s in AllSubMicros(m.subs[i]));
      assert s in SubPreorders(m)[i];
    }
  }

  /** The two flattenings agree: the cells of the whole tree are exactly the
      direct cells of the micro and of the micros below it. */
  lemma {:induction false} AllCellsFromPreorder(m: Micro, c: Cell)
    ensures c in AllCells(m) <==> exists t :: t in Preorder(m) && c in t.cells
    decreases m
  {
    AllCellsMembership(m, c);
    if c in AllCells(m) {
      if c in m.cells {
        assert m in Preorder(m) && c in m.cells;
      } else {
        var i :| 0 <= i < |m.subs| && c in AllCells(m.subs[i]);
        AllCellsFromPreorder(m.subs[i], c);
        var t :| t in Preorder(m.subs[i]) && c in t.cells;
        AllSubMicrosMembership(m, t);
        assert t in Preorder(m);
      }
    }
    if exists t :: t in Preorder(m) && c in t.cells {
      var t :| t in Preorder(m) && c in t.cells;
      if t != m {
        assert t in AllSubMicros(m);
        AllSubMicrosMembership(m, t);
        var i :| 0 <= i < |m.subs| && (t == m.subs[i] || t in AllSubMicros(m.subs[i]));
        assert t in Preorder(m.subs[i]);
        AllCellsFromPreorder(m.subs[i], c);
      }
    }
  }

  /** Appending a cell appends it to the micro's own block of the flattening. */
  lemma AllCellsAppendCell(m: Micro, c: Cell)
    ensures AllCells(m.(cells := m.cells + [c])) == m.cells + [c] + Concat(SubCells(m))
  {
    assert SubCells(m.(cells := m.cells + [c])) == SubCells(m);
  }

  /** Appending a sub-micro appends its flattening at the end. */
  lemma {:induction false} AllCellsAppendSub(m: Micro, s: Micro)
    ensures AllCells(m.(subs := m.subs + [s])) == AllCells(m) + AllCells(s)
  {
    var m' := m.(subs := m.subs + [s]);
    assert SubCells(m') == SubCells(m) + [AllCells(s)] by {
      forall i | 0 <= i < |m'.subs| ensures SubCells(m')[i] == (SubCells(m) + [AllCells(s)])[i] {
        if i < |m.subs| {
          assert m'.subs[i] == m.subs[i];
        }
      }
    }
    ConcatSplit(SubCells(m), [AllCells(s)]);
    assert Concat([AllCells(s)]) == AllCells(s) by {
      assert [AllCells(s)][..0] == [];
    }
  }

  /** Appending a sub-micro appends it and its descendants at the end. */
  lemma {:induction false} AllSubMicrosAppendSub(m: Micro, s: Micro)
    ensures AllSubMicros(m.(subs := m.subs + [s])) == AllSubMicros(m) + Preorder(s)
  {
    var m' := m.(subs := m.subs + [s]);
    var blocks := SubPreorders(m);
    var ps := Preorder(s);
    assert SubPreorders(m') == blocks + [ps] by {
      forall i | 0 <= i < |m'.subs| ensures SubPreorders(m')[i] == (blocks + [ps])[i] {
        if i < |m.subs| {
          assert m'.subs[i] == m.subs[i];
        }
      }
    }
    assert AllSubMicros(m') == Concat(blocks + [ps]);
    ConcatSplit(blocks, [ps]);
    assert Concat([ps]) == ps by {
      assert [ps][..0] == [];
    }
    assert AllSubMicros(m) == Concat(blocks);
  }

  /** One entry of `get_cell_placements`: the cell's path, its anchor corner,
      its orientation and the name of the micro the placements were asked of.
      The 3-decimal rounding of the coordinates is not modelled. */
  datatype PlacementRecord = PlacementRecord(cell: string, x: real, y: real, orientation: Orientation, micro: string)

  function RecordOf(c: Cell, microName: string): (p: PlacementRecord)
    ensures p.cell == c.path && p.orientation == c.orientation && p.micro == microName
    ensures Point(p.x, p.y) == PlacementOrigin(c)
  {
    var o := PlacementOrigin(c);
    PlacementRecord(c.path, o.x, o.y, c.orientation, microName)
  }

  /** `get_cell_placements`: one record per cell of the flattening, in the
      same order, each anchored by its orientation and tagged with the name
      of `m` — not with the name of the micro that owns the cell. */
  function CellPlacements(m: Micro): (rs: seq<PlacementRecord>)
    ensures |rs| == |AllCells(m)|
    ensures forall i :: 0 <= i < |rs| ==>
      && rs[i].cell == AllCells(m)[i].path
      && Point(rs[i].x, rs[i].y) == PlacementOrigin(AllCells(m)[i])
      && rs[i].orientation == AllCells(m)[i].orientation
      && rs[i].micro == m.name
  {
    var cs := AllCells(m);
    seq(|cs|, i requires 0 <= i < |cs| => RecordOf(cs[i], m.name))
  }

  /** Paths of a sequence of cells, in order. */
  function CellPaths(cs: seq<Cell>): (ps: seq<string>)
    ensures |ps| == |cs| && forall i :: 0 <= i < |cs| ==> ps[i] == cs[i].path
  {
    seq(|cs|, i requires 0 <= i < |cs| => cs[i].path)
  }

  /** `get_cell_by_path`: the first cell of the flattening with that path, if any. */
  function GetCellByPath(m: Micro, path: string): (r: Option<Cell>)
    ensures r.Some? ==> exists k :: 0 <= k < |AllCells(m)| && AllCells(m)[k] == r.value &&
                                    (forall j :: 0 <= j < k ==> AllCells(m)[j].path != path)
    ensures r.Some? ==> r.value.path == path
    ensures r.None? <==> forall c :: c in AllCells(m) ==> c.path != path
  {
    var cs := AllCells(m);
    match FirstIndex(CellPaths(cs), path)
    case None => None
    case Some(k) => Some(cs[k])
  }

  /** `get_sub_micro_by_path`: the micro itself if its path matches, else the
      first hit of the same search in its sub-micros, in order. */
  function GetSubMicroByPath(m: Micro, path: string): (r: Option<Micro>)
    ensures r.Some? ==> r.value.path == path && r.value in Preorder(m)
    decreases m, |m.subs| + 1
  {
    if m.path == path then Some(m) else SearchSubs(m, path, 0)
  }

  /** The search of `get_sub_micro_by_path` over sub-micros `i` onwards. */
  function SearchSubs(m: Micro, path: string, i: nat): (r: Option<Micro>)
    requires i <= |m.subs|
    ensures r.Some? ==> r.value.path == path && r.value in AllSubMicros(m)
    decreases m, |m.subs| - i
  {
    if i == |m.subs| then None
    else match GetSubMicroByPath(m.subs[i], path)
      case Some(hit) =>
        AllSubMicrosMembership(m, hit);
        Some(hit)
      case None => SearchSubs(m, path, i + 1)
  }

  /** The first micro of a sequence with the given path. */
  function FirstWithPath(ms: seq<Micro>, path: string): (r: Option<Micro>)
    ensures r.Some? ==> r.value in ms && r.value.path == path
    ensures r.None? <==> forall t :: t in ms ==> t.path != path
  {
    if |ms| == 0 then None
    else if ms[0].path == path then Some(ms[0])
    else FirstWithPath(ms[1..], path)
  }

  /** The first match in a concatenation is the first match in the front part,
      or else the first match in the back part. */
  lemma {:induction false} FirstWithPathAppend(a: seq<Micro>, b: seq<Micro>, path: string)
    ensures FirstWithPath(a + b, path) ==
      (if FirstWithPath(a, path).Some? then FirstWithPath(a, path) else FirstWithPath(b, path))
    decreases |a|
  {
    if |a| > 0 {
      assert (a + b)[1..] == a[1..] + b;
      FirstWithPathAppend(a[1..], b, path);
    } else {
      assert a + b == b;
    }
  }

  /** The concatenation of blocks `i` onwards, split off its first block. */
  lemma ConcatFrom<T>(ss: seq<seq<T>>, i: nat)
    requires i < |ss|
    ensures Concat(ss[i..]) == ss[i] + Concat(ss[i + 1..])
  {
    assert ss[i..] == [ss[i]] + ss[i + 1..];
    ConcatSplit([ss[i]], ss[i + 1..]);
    assert Concat([ss[i]]) == ss[i] by {
      assert [ss[i]][..0] == [];
    }
  }

  /** `get_sub_micro_by_path` is the first micro with that path in pre-order. */
  lemma {:induction false} GetSubMicroByPathIsFirstInPreorder(m: Micro, path: string)
    ensures GetSubMicroByPath(m, path) == FirstWithPath(Preorder(m), path)
    decreases m, |m.subs| + 1
  {
    assert Preorder(m)[1..] == AllSubMicros(m);
    if m.path != path {
      SearchSubsIsFirst(m, path, 0);
      assert SubPreorders(m)[0..] == SubPreorders(m);
    }
  }

  lemma {:induction false} SearchSubsIsFirst(m: Micro, path: string, i: nat)
    requires i <= |m.subs|
    ensures SearchSubs(m, path, i) == FirstWithPath(Concat(SubPreorders(m)[i..]), path)
    decreases m, |m.subs| - i
  {
    var blocks := SubPreorders(m);
    if i == |m.subs| {
      assert blocks[i..] == [];
    } else {
      ConcatFrom(blocks, i);
      FirstWithPathAppend(blocks[i], Concat(blocks[i + 1..]), path);
      GetSubMicroByPathIsFirstInPreorder(m.subs[i], path);
      SearchSubsIsFirst(m, path, i + 1);
    }
  }

  /** The search finds nothing exactly when no micro of the tree has that path. */
  lemma GetSubMicroByPathNone(m: Micro, path: string)
    ensures GetSubMicroByPath(m, path).None? <==> forall t :: t in Preorder(m) ==> t.path != path
  {
    GetSubMicroByPathIsFirstInPreorder(m, path);
  }

  /** A box is well formed when its min corner is below and left of its max corner. */
  predicate WellFormed(b: Box) {
    b.minX <= b.maxX && b.minY <= b.maxY
  }

  /** `b` encloses `inner`. */
  predicate Encloses(b: Box, inner: Box) {
    b.minX <= inner.minX && b.minY <= inner.minY && inner.maxX <= b.maxX && inner.maxY <= b.maxY
  }

  /** The four bounds of a non-empty list of cached boxes, each attained. */
  function EnclosingBox(cs: seq<Cell>): (b: Box)
    requires |cs| > 0
    ensures forall c :: c in cs ==> Encloses(b, c.bbox)
    ensures exists c :: c in cs && c.bbox.minX == b.minX
    ensures exists c :: c in cs && c.bbox.minY == b.minY
    ensures exists c :: c in cs && c.bbox.maxX == b.maxX
    ensures exists c :: c in cs && c.bbox.maxY == b.maxY
  {
    var minXs := seq(|cs|, i requires 0 <= i < |cs| => cs[i].bbox.minX);
    var minYs := seq(|cs|, i requires 0 <= i < |cs| => cs[i].bbox.minY);
    var maxXs := seq(|cs|, i requires 0 <= i < |cs| => cs[i].bbox.maxX);
    var maxYs := seq(|cs|, i requires 0 <= i < |cs| => cs[i].bbox.maxY);
    var b := Box(Least(minXs), Least(minYs), Greatest(maxXs), Greatest(maxYs));
    assert forall i :: 0 <= i < |cs| ==> Encloses(b, cs[i].bbox) by {
      forall i | 0 <= i < |cs| ensures Encloses(b, cs[i].bbox) {
        assert minXs[i] == cs[i].bbox.minX && minYs[i] == cs[i].bbox.minY;
        assert maxXs[i] == cs[i].bbox.maxX && maxYs[i] == cs[i].bbox.maxY;
      }
    }
    var i0 :| 0 <= i0 < |cs| && minXs[i0] == b.minX;
    var i1 :| 0 <= i1 < |cs| && minYs[i1] == b.minY;
    var i2 :| 0 <= i2 < |cs| && maxXs[i2] == b.maxX;
    var i3 :| 0 <= i3 < |cs| && maxYs[i3] == b.maxY;
    assert cs[i0] in cs && cs[i1] in cs && cs[i2] in cs && cs[i3] in cs;
    b
  }

  /** `calculate_bounding_box`: (0, 0, 0, 0) without cells in the whole tree;
      otherwise the least box enclosing the cached box of every cell of the
      flattening — each bound is attained by some cell. */
  function CalculateBoundingBox(m: Micro): (b: Box)
    ensures AllCells(m) == [] ==> b == Box(0.0, 0.0, 0.0, 0.0)
    ensures forall c :: c in AllCells(m) ==> Encloses(b, c.bbox)
    ensures AllCells(m) != [] ==>
      && (exists c :: c in AllCells(m) && c.bbox.minX == b.minX)
      && (exists c :: c in AllCells(m) && c.bbox.minY == b.minY)
      && (exists c :: c in AllCells(m) && c.bbox.maxX == b.maxX)
      && (exists c :: c in AllCells(m) && c.bbox.maxY == b.maxY)
    ensures (forall c :: c in AllCells(m) ==> WellFormed(c.bbox)) ==> WellFormed(b)
  {
    var cs := AllCells(m);
    if |cs| == 0 then Box(0.0, 0.0, 0.0, 0.0)
    else
      var b := EnclosingBox(cs);
      assert Encloses(b, cs[0].bbox);
      b
  }

  /** The width the mirror uses: max x minus min x of the micro's box. */
  function BoxWidth(m: Micro): (w: real)
    ensures (forall c :: c in AllCells(m) ==> WellFormed(c.bbox)) ==> w >= 0.0
  {
    var b := CalculateBoundingBox(m);
    b.maxX - b.minX
  }
}
