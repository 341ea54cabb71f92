/** The exported shape of a micro (`Micro.to_dict`, `Cell.to_dict`) and the
    loader that rebuilds a micro from it (`load_from_file`, `_load_from_dict`).

    Only the fields that are exported exactly are kept: the cell's absolute
    position, anchor and box are exported rounded to 3 decimals and never read
    back, so they are not part of the record. The loader reads name, origin,
    description and site of a micro and name, stored position, orientation
    and size of a cell; it rebuilds the tree through `add_cell` and
    `add_sub_micro`, so grids, paths and absolute positions are recomputed. */
module Records {
  import opened Common
  import opened Orientations
  import opened Sites
  import opened Cells
  import opened Micros
  import opened Flatten
  import opened Assembly

  datatype CellRecord = CellRecord(
    name: string,
    rel: Point,
    relGrid: Lattice,
    grid: Lattice,
    width: real,
    height: real,
    orientation: Orientation,
    path: string)

  /** The site is an unconstrained pair of reals here: a record may carry a
      pitch the model cannot build a micro on. */
  datatype MicroRecord = MicroRecord(
    name: string,
    origin: Point,
    grid: Lattice,
    relGrid: Lattice,
    site: SiteInfo,
    description: string,
    path: string,
    cells: seq<CellRecord>,
    subs: seq<MicroRecord>,
    bbox: Box)

  /** `Cell.to_dict`, without the rounded fields. */
  function CellToRecord(c: Cell): (r: CellRecord)
    ensures r.name == c.name && r.rel == c.pos && r.path == c.path
    ensures r.orientation == c.orientation && r.width == c.width && r.height == c.height
    ensures r.grid == GridCoords(c) && r.relGrid == RelGridCoords(c)
  {
    CellRecord(c.name, c.pos, RelGridCoords(c), GridCoords(c), c.width, c.height, c.orientation, c.path)
  }

  /** `Micro.to_dict`: the micro's own fields, its lattice indices, its
      bounding box, and the records of its cells and sub-micros in order. */
  function ToRecord(m: Micro): (r: MicroRecord)
    ensures r.name == m.name && r.origin == m.origin && r.description == m.description
    ensures r.site == m.site && r.path == m.path && r.grid == GridOf(m) && r.relGrid == m.relGrid
    ensures r.bbox == CalculateBoundingBox(m)
    ensures |r.cells| == |m.cells| && forall i :: 0 <= i < |m.cells| ==> r.cells[i] == CellToRecord(m.cells[i])
    ensures |r.subs| == |m.subs| && forall j :: 0 <= j < |m.subs| ==> r.subs[j] == ToRecord(m.subs[j])
    decreases m, 1
  {
    MicroRecord(
      m.name, m.origin, GridOf(m), m.relGrid, m.site, m.description, m.path,
      CellRecords(m.cells), SubRecords(m), CalculateBoundingBox(m))
  }

  function CellRecords(cs: seq<Cell>): (rs: seq<CellRecord>)
    ensures |rs| == |cs| && forall i :: 0 <= i < |cs| ==> rs[i] == CellToRecord(cs[i])
  {
    seq(|cs|, i requires 0 <= i < |cs| => CellToRecord(cs[i]))
  }

  function SubRecords(m: Micro): (rs: seq<MicroRecord>)
    ensures |rs| == |m.subs| && forall j :: 0 <= j < |m.subs| ==> rs[j] == ToRecord(m.subs[j])
    decreases m, 0
  {
    seq(|m.subs|, j requires 0 <= j < |m.subs| => ToRecord(m.subs[j]))
  }

  /** Every site in the record has positive pitches. */
  predicate Buildable(r: MicroRecord)
    decreases r
  {
    && r.site.width > 0.0 && r.site.height > 0.0
    && forall j :: 0 <= j < |r.subs| ==> Buildable(r.subs[j])
  }

  /** The cell the loader constructs from a cell record. */
  function CellFromRecord(c: CellRecord): (r: Cell)
    ensures r.name == c.name && r.pos == c.rel && r.orientation == c.orientation
    ensures r.width == c.width && r.height == c.height
  {
    NewCell(c.name, c.rel, c.orientation, c.width, c.height)
  }

  /** `m` is what the loader builds from `r` before its sub-records are
      attached: the record's own fields, a fresh path and relative index,
      and a placed copy of each cell record, in order. */
  ghost predicate LoadedShell(m: Micro, r: MicroRecord) {
    && m.name == r.name && m.origin == r.origin
    && m.description == r.description && m.site == r.site
    && m.path == r.name && m.relGrid == Lattice(0, 0)
    && |m.cells| == |r.cells| && |m.subs| == |r.subs|
    && forall i :: 0 <= i < |r.cells| ==> AddedCopy(m.cells[i], CellFromRecord(r.cells[i]), r.origin, m.site, r.name)
  }

  /** `_load_from_dict`: a new micro built with the record's name, origin,
      description and site, then each cell record added with `add_cell`
      and each loaded sub-record with `add_sub_micro`. A record with a
      pitch that is not positive loads nothing. */
  function Load(r: MicroRecord): (res: Option<Micro>)
    ensures res.Some? <==> Buildable(r)
    ensures res.Some? ==> LoadedShell(res.value, r)
    ensures res.Some? ==> forall j :: 0 <= j < |r.subs| ==>
      Load(r.subs[j]).Some? && Attached(res.value.subs[j], Load(r.subs[j]).value, res.value)
    decreases r, 2
  {
    if !(r.site.width > 0.0 && r.site.height > 0.0) then None
    else if !(forall j :: 0 <= j < |r.subs| ==> Buildable(r.subs[j])) then None
    else
      var withCells := LoadCells(r, r.site);
      var m := withCells.(subs := LoadedSubs(withCells, r));
      assert LoadedShell(m, r);
      Some(m)
  }

  /** The loader's micro before its sub-records: the record's own fields and
      one placed copy per cell record, in order. */
  function LoadCells(r: MicroRecord, site: Site): (m: Micro)
    requires site == r.site
    ensures m.name == r.name && m.origin == r.origin && m.description == r.description && m.site == site
    ensures m.path == r.name && m.relGrid == Lattice(0, 0) && m.subs == []
    ensures |m.cells| == |r.cells|
    ensures forall i :: 0 <= i < |r.cells| ==> AddedCopy(m.cells[i], CellFromRecord(r.cells[i]), r.origin, site, r.name)
  {
    var base := NewMicro(r.name, r.origin, r.description, site);
    var cells := CellsFromRecords(r.cells);
    AddCellsToEmpty(base, cells);
    AddCells(base, cells)
  }

  /** The cells the loader constructs from a list of cell records, in order. */
  function CellsFromRecords(cs: seq<CellRecord>): (rs: seq<Cell>)
    ensures |rs| == |cs| && forall i :: 0 <= i < |cs| ==> rs[i] == CellFromRecord(cs[i])
  {
    seq(|cs|, i requires 0 <= i < |cs| => CellFromRecord(cs[i]))
  }

  /** Each sub-record loaded and attached under `owner`, in order. */
  function LoadedSubs(owner: Micro, r: MicroRecord): (subs: seq<Micro>)
    requires forall j :: 0 <= j < |r.subs| ==> Buildable(r.subs[j])
    ensures |subs| == |r.subs|
    ensures forall j :: 0 <= j < |r.subs| ==>
      Load(r.subs[j]).Some? && Attached(subs[j], Load(r.subs[j]).value, owner)
    decreases r, 1
  {
    seq(|r.subs|, j requires 0 <= j < |r.subs| => LoadedSub(owner, r.subs[j]))
  }

  /** One sub-record loaded and attached under `owner`. */
  function LoadedSub(owner: Micro, sub: MicroRecord): (t: Micro)
    requires Buildable(sub)
    ensures Load(sub).Some? && Attached(t, Load(sub).value, owner)
    decreases sub, 3
  {
    AddedSub(owner, Load(sub).value)
  }

  /** Exporting a coherent micro without sub-micros, whose path is its name,
      and loading the record back gives the same micro, up to the relative
      lattice index the constructor resets. */
  lemma {:induction false} LoadOfFlatRecord(m: Micro)
    requires Coherent(m) && m.subs == [] && m.path == m.name
    ensures Load(ToRecord(m)) == Some(m.(relGrid := Lattice(0, 0)))
  {
    var rec := ToRecord(m);
    assert rec.subs == [] && rec.site == m.site;
    assert Buildable(rec);
    FlatShellIsOriginal(Load(rec).value, m);
  }

  /** What the loader builds from the record of a coherent flat micro,
      whose path is its name, is that micro with a fresh relative index. */
  lemma FlatShellIsOriginal(loaded: Micro, m: Micro)
    requires LoadedShell(loaded, ToRecord(m))
    requires Coherent(m) && m.subs == [] && m.path == m.name
    ensures loaded == m.(relGrid := Lattice(0, 0))
  {
    FlatShellCells(loaded, m);
    assert |loaded.subs| == 0;
  }

  /** Its cells are the micro's own cells, in order. */
  lemma FlatShellCells(loaded: Micro, m: Micro)
    requires LoadedShell(loaded, ToRecord(m))
    requires Coherent(m) && m.path == m.name
    ensures loaded.cells == m.cells
  {
    forall i | 0 <= i < |m.cells|
      ensures loaded.cells[i] == m.cells[i]
    {
      FlatShellCell(loaded, m, i);
    }
  }

  /** The `i`-th cell of that loaded micro is the micro's own `i`-th cell. */
  lemma FlatShellCell(loaded: Micro, m: Micro, i: nat)
    requires LoadedShell(loaded, ToRecord(m))
    requires Coherent(m) && m.path == m.name && i < |m.cells|
    ensures loaded.cells[i] == m.cells[i]
  {
    var rec := ToRecord(m);
    assert CellPlaced(m.cells[i], m.origin, m.site) && m.cells[i].path == JoinPath(m.path, m.cells[i].name);
    assert rec.cells[i] == CellToRecord(m.cells[i]);
    assert AddedCopy(loaded.cells[i], CellFromRecord(rec.cells[i]), rec.origin, loaded.site, rec.name);
    LoadedCellIsOriginal(loaded.cells[i], m.cells[i], m.origin, m.site, m.name);
  }

  /** A cell exported and loaded back under the same owner is the cell itself. */
  lemma LoadedCellIsOriginal(t: Cell, c: Cell, origin: Point, site: Site, path: string)
    requires AddedCopy(t, CellFromRecord(CellToRecord(c)), origin, site, path)
    requires CellPlaced(c, origin, site) && c.path == JoinPath(path, c.name)
    ensures t == c
  {
  }

  /** A record from the model's own export always loads. */
  lemma {:induction false} ExportedRecordsLoad(m: Micro)
    ensures Buildable(ToRecord(m))
    decreases m
  {
    var r := ToRecord(m);
    forall j | 0 <= j < |r.subs|
      ensures Buildable(r.subs[j])
    {
      ExportedRecordsLoad(m.subs[j]);
    }
  }

  /** The loaded micro is coherent. */
  lemma {:induction false} LoadCoherent(r: MicroRecord)
    requires Buildable(r)
    ensures Coherent(Load(r).value)
  {
    var m := Load(r).value;
    forall i | 0 <= i < |m.cells|
      ensures CellPlaced(m.cells[i], m.origin, m.site) && m.cells[i].path == JoinPath(m.path, m.cells[i].name)
    {
      assert AddedCopy(m.cells[i], CellFromRecord(r.cells[i]), r.origin, m.site, r.name);
    }
    forall j | 0 <= j < |m.subs|
      ensures m.subs[j].relGrid == LatticeSub(GridOf(m.subs[j]), GridOf(m)) && PositionsCoherent(m.subs[j])
      ensures m.subs[j].path == JoinPath(m.path, m.subs[j].name) && PathsCoherent(m.subs[j])
    {
    }
  }

  /** The record stores each sub-micro's absolute origin, and the loader adds
      the parent's origin to it again: a loaded sub-micro sits at the snapped
      sum of its parent's and its own exported origins. */
  lemma LoadShiftsSubOrigins(m: Micro, j: nat)
    requires j < |m.subs|
    ensures Load(ToRecord(m)).Some?
    ensures Load(ToRecord(m)).value.subs[j].origin ==
      SnapToGrid(m.subs[j].site, Add(m.origin, m.subs[j].origin))
  {
    ExportedRecordsLoad(m);
    var rec := ToRecord(m);
    var loaded := Load(rec).value;
    assert Attached(loaded.subs[j], Load(rec.subs[j]).value, loaded);
  }

  /** Exporting any micro and loading the record back gives a micro with the
      same name, description, site and origin, laid out like the original
      all the way down: the same cells, in order, with the same stored
      positions, sizes and abutment groups, and sub-micros of the same names
      laid out alike. Only where the tree sits may differ. */
  lemma {:induction false} ExportLoadKeepsLayout(m: Micro)
    ensures Load(ToRecord(m)).Some?
    ensures var loaded := Load(ToRecord(m)).value;
      && loaded.name == m.name && loaded.description == m.description
      && loaded.site == m.site && loaded.origin == m.origin
      && SameLayout(loaded, m)
    decreases m
  {
    ExportedRecordsLoad(m);
    var rec := ToRecord(m);
    var loaded := Load(rec).value;
    forall i | 0 <= i < |m.cells|
      ensures SameCellShape(loaded.cells[i], m.cells[i])
    {
      assert rec.cells[i] == CellToRecord(m.cells[i]);
      assert AddedCopy(loaded.cells[i], CellFromRecord(rec.cells[i]), rec.origin, loaded.site, rec.name);
    }
    forall j | 0 <= j < |m.subs|
      ensures loaded.subs[j].name == m.subs[j].name && SameLayout(loaded.subs[j], m.subs[j])
    {
      assert rec.subs[j] == ToRecord(m.subs[j]);
      assert Attached(loaded.subs[j], Load(rec.subs[j]).value, loaded);
      ExportLoadKeepsLayout(m.subs[j]);
      SameLayoutTrans(loaded.subs[j], Load(rec.subs[j]).value, m.subs[j]);
    }
  }
}
