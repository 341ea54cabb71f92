/** `PlaceCellEngine`: an ordered registry of named root micros sharing one
    site, in front of a micro library.

    The registry is a sequence of name/micro entries with the semantics of
    the source's insertion-ordered dictionary: storing under a present name
    replaces that entry in place, storing under a new name appends, and
    deleting keeps the order of the rest. Every registered micro is a root:
    it has no parent, so its relative lattice index is its own index. */
module Engine {
  import opened Common
  import opened Orientations
  import opened Sites
  import opened Cells
  import opened Micros
  import opened Placement
  import opened Flatten
  import opened Assembly
  import opened Flip
  import opened Library
  import Records

  datatype Entry = Entry(name: string, micro: Micro)

  datatype PlaceEngine = PlaceEngine(site: Site, active: seq<Entry>, library: MicroLibrary)

  /** The error the registry operations raise for a name it does not hold. */
  datatype EngineError = MicroNotFound(name: string)

  datatype Outcome = Ok(engine: PlaceEngine) | Err(error: EngineError)

  /** One cell description handed to `create_micro_from_cells`. */
  datatype CellSpec = CellSpec(cell: string, x: real, y: real, orientation: Orientation, width: real, height: real)

  /** The registered names, in registration order. */
  function Names(active: seq<Entry>): (ns: seq<string>)
    ensures |ns| == |active| && forall i :: 0 <= i < |active| ==> ns[i] == active[i].name
  {
    seq(|active|, i requires 0 <= i < |active| => active[i].name)
  }

  /** No name is registered twice: the registry is a dictionary. */
  ghost predicate DistinctNames(active: seq<Entry>) {
    forall i, j :: 0 <= i < j < |active| ==> active[i].name != active[j].name
  }

  /** The registry invariant: distinct names, and every registered micro
      coherent. */
  ghost predicate Valid(e: PlaceEngine) {
    && DistinctNames(e.active)
    && forall i :: 0 <= i < |e.active| ==> Coherent(e.active[i].micro)
  }

  /** `PlaceCellEngine.__init__`: nothing registered, and a library with
      nothing cached in front of the records already saved in its directory. */
  function NewEngine(site: Site, store: map<string, Records.MicroRecord>): (e: PlaceEngine)
    ensures e.site == site && e.active == [] && Valid(e)
    ensures e.library.templates == map[] && e.library.store == store
  {
    PlaceEngine(site, [], MicroLibrary(map[], store))
  }

  /** A fresh engine can already instantiate any loadable micro saved in its
      library's directory, and caches it on the way. */
  lemma NewEngineFindsSavedMicros(site: Site, store: map<string, Records.MicroRecord>, template: string,
                                  newName: string, origin: Point)
    requires template in store && Records.Buildable(store[template])
    ensures var res := CreateMicroFromTemplate(NewEngine(site, store), template, newName, origin);
      && res.1.Some?
      && template in res.0.library.templates
      && GetMicro(res.0, newName) == res.1
  {
  }

  /** `r` is `e` with the entry at `k` holding micro `m`, everything else kept. */
  ghost predicate ReplacedAt(e: PlaceEngine, r: PlaceEngine, k: nat, m: Micro)
    requires k < |e.active|
  {
    && r.site == e.site && r.library == e.library
    && |r.active| == |e.active|
    && r.active[k] == Entry(e.active[k].name, m)
    && forall j :: 0 <= j < |e.active| && j != k ==> r.active[j] == e.active[j]
  }

  /** Storing `m` under `name`: replaced in place if the name is registered,
      appended otherwise. */
  function Register(e: PlaceEngine, name: string, m: Micro): (r: PlaceEngine)
    ensures name in Names(e.active) ==> ReplacedAt(e, r, FirstIndex(Names(e.active), name).value, m)
    ensures name !in Names(e.active) ==>
      r == e.(active := e.active + [Entry(name, m)])
    ensures name in Names(r.active)
  {
    match FirstIndex(Names(e.active), name)
    case Some(k) => e.(active := e.active[k := Entry(name, m)])
    case None =>
      var r := e.(active := e.active + [Entry(name, m)]);
      assert Names(r.active)[|e.active|] == name;
      r
  }

  /** `get_micro`: the micro registered under `name`, if any. */
  function GetMicro(e: PlaceEngine, name: string): (r: Option<Micro>)
    ensures r.Some? <==> name in Names(e.active)
    ensures r.Some? ==> exists i :: 0 <= i < |e.active| && e.active[i] == Entry(name, r.value)
  {
    match FirstIndex(Names(e.active), name)
    case Some(k) => Some(e.active[k].micro)
    case None => None
  }

  /** `list_active_micros`. */
  function ListActiveMicros(e: PlaceEngine): (r: seq<string>)
    ensures |r| == |e.active| && forall i :: 0 <= i < |r| ==> r[i] == e.active[i].name
    ensures forall n :: n in r <==> GetMicro(e, n).Some?
  {
    Names(e.active)
  }

  /** `create_micro`: a new micro on the engine's site, registered under
      its name, replacing any micro of that name. */
  function CreateMicro(e: PlaceEngine, name: string, origin: Point, description: string): (res: (PlaceEngine, Micro))
    ensures res.1 == NewMicro(name, origin, description, e.site)
    ensures GetMicro(res.0, name) == Some(res.1)
    ensures res.0 == Register(e, name, res.1)
  {
    var m := NewMicro(name, origin, description, e.site);
    var r := Register(e, name, m);
    RegisteredIsFound(e, name, m);
    (r, m)
  }

  /** The cell `create_micro_from_cells` builds from one description. */
  function CellOfSpec(s: CellSpec): (c: Cell)
    ensures c.name == s.cell && c.pos == Point(s.x, s.y) && c.orientation == s.orientation
    ensures c.width == s.width && c.height == s.height
  {
    NewCell(s.cell, Point(s.x, s.y), s.orientation, s.width, s.height)
  }

  /** `create_micro_from_cells`: `create_micro` with an empty description,
      then one `add_cell` per description, in order. */
  function CreateMicroFromCells(e: PlaceEngine, name: string, specs: seq<CellSpec>, origin: Point)
    : (res: (PlaceEngine, Micro))
    ensures res.1.name == name && res.1.origin == origin && res.1.site == e.site && res.1.subs == []
    ensures res.1.description == ""
    ensures |res.1.cells| == |specs|
    ensures forall i :: 0 <= i < |specs| ==> AddedCopy(res.1.cells[i], CellOfSpec(specs[i]), origin, e.site, name)
    ensures res.0 == Register(e, name, res.1) && GetMicro(res.0, name) == Some(res.1)
  {
    var base := NewMicro(name, origin, "", e.site);
    var cells := CellsOfSpecs(specs);
    var m := AddCells(base, cells);
    AddCellsToEmpty(base, cells);
    RegisteredIsFound(e, name, m);
    (Register(e, name, m), m)
  }

  /** One cell per description, in order. */
  function CellsOfSpecs(specs: seq<CellSpec>): (cs: seq<Cell>)
    ensures |cs| == |specs| && forall i :: 0 <= i < |specs| ==> cs[i] == CellOfSpec(specs[i])
  {
    seq(|specs|, i requires 0 <= i < |specs| => CellOfSpec(specs[i]))
  }

  /** `create_micro_from_template`: the library's instance is moved onto the
      engine's site, placed again at the requested origin and registered
      under `newName` (which is also its name unless `newName` is empty). */
  function CreateMicroFromTemplate(e: PlaceEngine, template: string, newName: string, origin: Point)
    : (res: (PlaceEngine, Option<Micro>))
    ensures FromTemplate(e, Library.CreateMicroFromTemplate(e.library, template, newName, origin), newName, origin, res)
  {
    Adoption(e, Library.CreateMicroFromTemplate(e.library, template, newName, origin), newName, origin)
  }

  /** `res` is what the engine makes of the library's answer `made`: the
      library is replaced by the one `made` carries; without an instance
      nothing is registered; with one, the instance moved onto the engine's
      site and placed at `origin` as a root is registered under `name`, so
      it sits on the snapped origin and is what `name` looks up to. */
  ghost predicate FromTemplate(e: PlaceEngine, made: (MicroLibrary, Option<Micro>), name: string, origin: Point,
                               res: (PlaceEngine, Option<Micro>))
  {
    && res.0.library == made.0
    && (res.1.Some? <==> made.1.Some?)
    && (res.1.None? ==> res.0.active == e.active)
    && (res.1.Some? ==>
          && res.1.value == SetOrigin(made.1.value.(site := e.site), origin, None)
          && res.0 == Register(e.(library := made.0), name, res.1.value)
          && res.1.value.site == e.site
          && res.1.value.origin == SnapToGrid(e.site, origin)
          && GridOf(res.1.value) == ToGridCoords(e.site, origin)
          && GetMicro(res.0, name) == res.1)
  }

  /** The engine's side of `create_micro_from_template`, given the library's answer. */
  function Adoption(e: PlaceEngine, made: (MicroLibrary, Option<Micro>), name: string, origin: Point)
    : (res: (PlaceEngine, Option<Micro>))
    ensures FromTemplate(e, made, name, origin, res)
  {
    var e' := e.(library := made.0);
    if made.1.None? then (e', None)
    else
      var adopted := Adopt(e', name, made.1.value, origin);
      (adopted.0, Some(adopted.1))
  }

  /** The last step of `create_micro_from_template`: the instance is moved
      onto the engine's site, placed at `origin` as a root and registered. */
  function Adopt(e: PlaceEngine, name: string, t: Micro, origin: Point): (res: (PlaceEngine, Micro))
    ensures res.1 == SetOrigin(t.(site := e.site), origin, None)
    ensures res.1.site == e.site && res.1.origin == SnapToGrid(e.site, origin)
    ensures GridOf(res.1) == ToGridCoords(e.site, origin)
    ensures res.0 == Register(e, name, res.1) && GetMicro(res.0, name) == Some(res.1)
  {
    var m := SetOrigin(t.(site := e.site), origin, None);
    RegisteredIsFound(e, name, m);
    (Register(e, name, m), m)
  }

  /** The shared shape of the operations on one registered micro: an error
      for an unknown name, otherwise only that entry changes, to `f` of its
      micro. */
  function Update(e: PlaceEngine, name: string, f: Micro -> Micro): (r: Outcome)
    ensures r.Err? <==> name !in Names(e.active)
    ensures r.Err? ==> r.error == MicroNotFound(name)
    ensures r.Ok? ==>
      var k := FirstIndex(Names(e.active), name).value;
      ReplacedAt(e, r.engine, k, f(e.active[k].micro))
  {
    match FirstIndex(Names(e.active), name)
    case None => Err(MicroNotFound(name))
    case Some(k) => Ok(e.(active := e.active[k := Entry(name, f(e.active[k].micro))]))
  }

  /** `place_micro`: `set_origin` of the named root micro. */
  function PlaceMicro(e: PlaceEngine, name: string, p: Point): (r: Outcome)
    ensures r.Err? <==> name !in Names(e.active)
    ensures r.Ok? ==>
      var k := FirstIndex(Names(e.active), name).value;
      ReplacedAt(e, r.engine, k, SetOrigin(e.active[k].micro, p, None))
  {
    Update(e, name, m => SetOrigin(m, p, None))
  }

  /** `place_micro_by_grid`: `set_origin_by_grid` of the named root micro. */
  function PlaceMicroByGrid(e: PlaceEngine, name: string, l: Lattice): (r: Outcome)
    ensures r.Err? <==> name !in Names(e.active)
    ensures r.Ok? ==>
      var k := FirstIndex(Names(e.active), name).value;
      ReplacedAt(e, r.engine, k, SetOriginByGrid(e.active[k].micro, l, None))
  {
    Update(e, name, m => SetOriginByGrid(m, l, None))
  }

  /** `move_micro`: `move_by` of the named root micro. */
  function MoveMicro(e: PlaceEngine, name: string, d: Point): (r: Outcome)
    ensures r.Err? <==> name !in Names(e.active)
    ensures r.Ok? ==>
      var k := FirstIndex(Names(e.active), name).value;
      ReplacedAt(e, r.engine, k, MoveBy(e.active[k].micro, d, None))
  {
    Update(e, name, m => MoveBy(m, d, None))
  }

  /** `move_micro_by_grid`: `move_by_grid` of the named root micro. */
  function MoveMicroByGrid(e: PlaceEngine, name: string, dl: Lattice): (r: Outcome)
    ensures r.Err? <==> name !in Names(e.active)
    ensures r.Ok? ==>
      var k := FirstIndex(Names(e.active), name).value;
      ReplacedAt(e, r.engine, k, MoveByGrid(e.active[k].micro, dl, None))
  {
    Update(e, name, m => MoveByGrid(m, dl, None))
  }

  /** `flip_micro_horizontal`: `flip_horizontal` of the named root micro. */
  function FlipMicroHorizontal(e: PlaceEngine, name: string): (r: Outcome)
    ensures r.Err? <==> name !in Names(e.active)
    ensures r.Ok? ==>
      var k := FirstIndex(Names(e.active), name).value;
      ReplacedAt(e, r.engine, k, FlipHorizontal(e.active[k].micro, None))
  {
    Update(e, name, m => FlipHorizontal(m, None))
  }

  /** `remove_micro`: true iff the name was registered; its entry is dropped
      and the others keep their order. */
  function RemoveMicro(e: PlaceEngine, name: string): (res: (PlaceEngine, bool))
    ensures res.1 <==> name in Names(e.active)
    ensures !res.1 ==> res.0 == e
    ensures res.1 ==> res.0 == e.(active := RemoveAt(e.active, FirstIndex(Names(e.active), name).value))
    ensures res.0.site == e.site && res.0.library == e.library
  {
    match FirstIndex(Names(e.active), name)
    case None => (e, false)
    case Some(k) => (e.(active := RemoveAt(e.active, k)), true)
  }

  /** `save_micro_to_library`: the named micro is saved to the library;
      an unknown name is an error. */
  function SaveMicroToLibrary(e: PlaceEngine, name: string): (r: Outcome)
    ensures r.Err? <==> name !in Names(e.active)
    ensures r.Err? ==> r.error == MicroNotFound(name)
    ensures r.Ok? ==>
      && r.engine.active == e.active && r.engine.site == e.site
      && r.engine.library == SaveMicro(e.library, GetMicro(e, name).value)
  {
    match GetMicro(e, name)
    case None => Err(MicroNotFound(name))
    case Some(m) => Ok(e.(library := SaveMicro(e.library, m)))
  }

  /** The placement records of each registered micro, in registration order. */
  function PlacementBlocks(active: seq<Entry>): (bs: seq<seq<PlacementRecord>>)
    ensures |bs| == |active| && forall i :: 0 <= i < |active| ==> bs[i] == CellPlacements(active[i].micro)
  {
    seq(|active|, i requires 0 <= i < |active| => CellPlacements(active[i].micro))
  }

  /** `generate_global_placements`: the placement records of every
      registered micro, one block per micro in registration order. */
  function GenerateGlobalPlacements(e: PlaceEngine): (rs: seq<PlacementRecord>)
    ensures e.active == [] ==> rs == []
    ensures |e.active| > 0 ==>
      var n := |e.active| - 1;
      rs == GenerateGlobalPlacements(e.(active := e.active[..n])) + CellPlacements(e.active[n].micro)
    decreases |e.active|
  {
    GlobalPlacementsSplit(e.active);
    Concat(PlacementBlocks(e.active))
  }

  /** Helper: the blocks of all but the last entry, then the last block. */
  lemma GlobalPlacementsSplit(active: seq<Entry>)
    ensures |active| > 0 ==>
      var n := |active| - 1;
      Concat(PlacementBlocks(active)) == Concat(PlacementBlocks(active[..n])) + CellPlacements(active[n].micro)
  {
    if |active| > 0 {
      var n := |active| - 1;
      assert PlacementBlocks(active)[..n] == PlacementBlocks(active[..n]);
    }
  }

  /** Helper: after `Register`, the name looks up to the stored micro. */
  lemma RegisteredIsFound(e: PlaceEngine, name: string, m: Micro)
    ensures GetMicro(Register(e, name, m), name) == Some(m)
  {
    var r := Register(e, name, m);
    var ns := Names(e.active);
    var rs := Names(r.active);
    match FirstIndex(ns, name)
    case Some(k) =>
      assert rs[k] == name;
      forall j | 0 <= j < k ensures rs[j] != name {
        assert rs[j] == ns[j];
      }
      assert FirstIndex(rs, name) == Some(k) by {
        FirstIndexUnique(rs, name, k);
      }
    case None =>
      assert rs == ns + [name];
      forall j | 0 <= j < |ns| ensures rs[j] != name {
        assert rs[j] == ns[j];
      }
      FirstIndexUnique(rs, name, |ns|);
  }

  /** The first index is the one position holding the key with no earlier one. */
  lemma FirstIndexUnique(keys: seq<string>, key: string, k: nat)
    requires k < |keys| && keys[k] == key
    requires forall j :: 0 <= j < k ==> keys[j] != key
    ensures FirstIndex(keys, key) == Some(k)
  {
  }

  /** Replacing one entry with a coherent micro keeps the registry valid. */
  lemma ReplacedAtValid(e: PlaceEngine, r: PlaceEngine, k: nat, m: Micro)
    requires Valid(e) && k < |e.active| && ReplacedAt(e, r, k, m) && Coherent(m)
    ensures Valid(r)
  {
    forall i, j | 0 <= i < j < |r.active|
      ensures r.active[i].name != r.active[j].name
    {
      assert r.active[i].name == e.active[i].name && r.active[j].name == e.active[j].name;
    }
  }

  /** Registering a coherent micro keeps the registry valid. */
  lemma RegisterValid(e: PlaceEngine, name: string, m: Micro)
    requires Valid(e) && Coherent(m)
    ensures Valid(Register(e, name, m))
  {
    var ns := Names(e.active);
    if name in ns {
      ReplacedAtValid(e, Register(e, name, m), FirstIndex(ns, name).value, m);
    } else {
      var r := Register(e, name, m);
      forall i, j | 0 <= i < j < |r.active|
        ensures r.active[i].name != r.active[j].name
      {
        if j == |e.active| {
          assert r.active[i].name == ns[i];
        }
      }
    }
  }

  /** Creating a micro, from nothing, from cell descriptions or from a
      template, keeps the registry valid. */
  lemma CreateValid(e: PlaceEngine, name: string, origin: Point, description: string, specs: seq<CellSpec>, template: string)
    requires Valid(e)
    ensures Valid(CreateMicro(e, name, origin, description).0)
    ensures Valid(CreateMicroFromCells(e, name, specs, origin).0)
    ensures Valid(CreateMicroFromTemplate(e, template, name, origin).0)
  {
    var m := NewMicro(name, origin, description, e.site);
    NewMicroCoherent(name, origin, description, e.site);
    RegisterValid(e, name, m);
    var base := NewMicro(name, origin, "", e.site);
    var cells := CellsOfSpecs(specs);
    NewMicroCoherent(name, origin, "", e.site);
    AddCellsCoherent(base, cells);
    RegisterValid(e, name, AddCells(base, cells));
    var (lib', made) := Library.CreateMicroFromTemplate(e.library, template, name, origin);
    var e' := e.(library := lib');
    if made.Some? {
      var t := made.value;
      assert PathsCoherent(t.(site := e.site)) by {
        PathsDoNotDependOnSite(t, e.site);
      }
      SetOriginCoherent(t.(site := e.site), origin, None);
      RegisterValid(e', name, SetOrigin(t.(site := e.site), origin, None));
    }
  }

  /** Paths coherence is about names and paths only. */
  lemma PathsDoNotDependOnSite(t: Micro, site: Site)
    requires PathsCoherent(t)
    ensures PathsCoherent(t.(site := site))
  {
  }

  /** Every operation on one registered micro keeps the registry valid. */
  lemma UpdatesValid(e: PlaceEngine, name: string, p: Point, l: Lattice)
    requires Valid(e)
    ensures PlaceMicro(e, name, p).Ok? ==> Valid(PlaceMicro(e, name, p).engine)
    ensures PlaceMicroByGrid(e, name, l).Ok? ==> Valid(PlaceMicroByGrid(e, name, l).engine)
    ensures MoveMicro(e, name, p).Ok? ==> Valid(MoveMicro(e, name, p).engine)
    ensures MoveMicroByGrid(e, name, l).Ok? ==> Valid(MoveMicroByGrid(e, name, l).engine)
    ensures FlipMicroHorizontal(e, name).Ok? ==> Valid(FlipMicroHorizontal(e, name).engine)
  {
    if name in Names(e.active) {
      var k := FirstIndex(Names(e.active), name).value;
      var m := e.active[k].micro;
      assert Coherent(m);
      SetOriginCoherent(m, p, None);
      ReplacedAtValid(e, PlaceMicro(e, name, p).engine, k, SetOrigin(m, p, None));
      SetOriginByGridCoherent(m, l, None);
      ReplacedAtValid(e, PlaceMicroByGrid(e, name, l).engine, k, SetOriginByGrid(m, l, None));
      MoveByCoherent(m, p, None);
      ReplacedAtValid(e, MoveMicro(e, name, p).engine, k, MoveBy(m, p, None));
      MoveByGridCoherent(m, l, None);
      ReplacedAtValid(e, MoveMicroByGrid(e, name, l).engine, k, MoveByGrid(m, l, None));
      FlipCoherent(m, None);
      ReplacedAtValid(e, FlipMicroHorizontal(e, name).engine, k, FlipHorizontal(m, None));
    }
  }

  /** Removing and saving keep the registry valid. */
  lemma RemoveAndSaveValid(e: PlaceEngine, name: string)
    requires Valid(e)
    ensures Valid(RemoveMicro(e, name).0)
    ensures SaveMicroToLibrary(e, name).Ok? ==> Valid(SaveMicroToLibrary(e, name).engine)
  {
    var (r, found) := RemoveMicro(e, name);
    if found {
      var k := FirstIndex(Names(e.active), name).value;
      forall i, j | 0 <= i < j < |r.active|
        ensures r.active[i].name != r.active[j].name
      {
        var i' := if i < k then i else i + 1;
        var j' := if j < k then j else j + 1;
        assert r.active[i] == e.active[i'] && r.active[j] == e.active[j'];
      }
      forall i | 0 <= i < |r.active|
        ensures Coherent(r.active[i].micro)
      {
        assert r.active[i] == e.active[if i < k then i else i + 1];
      }
    }
  }

  /** An operation on one registered micro leaves every other name looking
      up to the same micro, and the operated name to the new one. */
  lemma UpdateLookups(e: PlaceEngine, name: string, f: Micro -> Micro, other: string)
    requires Update(e, name, f).Ok?
    ensures GetMicro(Update(e, name, f).engine, name) == Some(f(GetMicro(e, name).value))
    ensures other != name ==> GetMicro(Update(e, name, f).engine, other) == GetMicro(e, other)
  {
    var r := Update(e, name, f).engine;
    assert Names(r.active) == Names(e.active);
  }

  /** Removing a micro just created under a fresh name gives the registry
      back as it was. */
  lemma RemoveAfterCreate(e: PlaceEngine, name: string, origin: Point, description: string)
    requires name !in Names(e.active)
    ensures RemoveMicro(CreateMicro(e, name, origin, description).0, name) == (e, true)
  {
    var r := CreateMicro(e, name, origin, description).0;
    var ns := Names(r.active);
    assert ns[|e.active|] == name;
    forall j | 0 <= j < |e.active| ensures ns[j] != name {
      assert ns[j] == Names(e.active)[j];
    }
    FirstIndexUnique(ns, name, |e.active|);
    assert RemoveAt(r.active, |e.active|) == e.active;
  }

  /** A record is in the global placements exactly when it is among the
      placements of some registered micro. */
  lemma GlobalPlacementsMembership(e: PlaceEngine, p: PlacementRecord)
    ensures p in GenerateGlobalPlacements(e) <==>
      exists i :: 0 <= i < |e.active| && p in CellPlacements(e.active[i].micro)
  {
    ConcatMembership(PlacementBlocks(e.active), p);
  }

  /** Every global record names a cell of the flattening of a registered
      micro and carries that micro's name. */
  lemma GlobalPlacementsTagged(e: PlaceEngine, p: PlacementRecord)
    requires p in GenerateGlobalPlacements(e)
    ensures exists i :: 0 <= i < |e.active| && p.micro == e.active[i].micro.name && HasRecordedCell(e.active[i].micro, p)
  {
    GlobalPlacementsMembership(e, p);
    var i :| 0 <= i < |e.active| && p in CellPlacements(e.active[i].micro);
    var rs := CellPlacements(e.active[i].micro);
    var k :| 0 <= k < |rs| && rs[k] == p;
    assert AllCells(e.active[i].micro)[k] in AllCells(e.active[i].micro);
  }

  /** Some cell of the flattening of `m` is the one `p` records. */
  ghost predicate HasRecordedCell(m: Micro, p: PlacementRecord) {
    exists c :: c in AllCells(m) && p.cell == c.path && Point(p.x, p.y) == PlacementOrigin(c)
  }

  /** Registering a new name appends that micro's records to the global
      placements; everything already there keeps its place. */
  lemma GlobalPlacementsAfterRegister(e: PlaceEngine, name: string, m: Micro)
    requires name !in Names(e.active)
    ensures GenerateGlobalPlacements(Register(e, name, m)) == GenerateGlobalPlacements(e) + CellPlacements(m)
  {
    var r := Register(e, name, m);
    assert PlacementBlocks(r.active) == PlacementBlocks(e.active) + [CellPlacements(m)];
    ConcatSplit(PlacementBlocks(e.active), [CellPlacements(m)]);
    assert Concat([CellPlacements(m)]) == Concat<PlacementRecord>([]) + CellPlacements(m);
  }

  /** `PlaceCellEngine.calculate_bounding_box`: the least and greatest anchor
      coordinates over all global placement records, (0, 0, 0, 0) when there
      are none. Unlike a micro's box it is built from anchors, not cell boxes. */
  function EngineBoundingBox(e: PlaceEngine): (b: Box)
    ensures GenerateGlobalPlacements(e) == [] ==> b == Box(0.0, 0.0, 0.0, 0.0)
    ensures WellFormed(b)
    ensures forall p :: p in GenerateGlobalPlacements(e) ==>
      b.minX <= p.x <= b.maxX && b.minY <= p.y <= b.maxY
    ensures GenerateGlobalPlacements(e) != [] ==>
      && (exists p :: p in GenerateGlobalPlacements(e) && p.x == b.minX)
      && (exists p :: p in GenerateGlobalPlacements(e) && p.x == b.maxX)
      && (exists p :: p in GenerateGlobalPlacements(e) && p.y == b.minY)
      && (exists p :: p in GenerateGlobalPlacements(e) && p.y == b.maxY)
  {
    var ps := GenerateGlobalPlacements(e);
    AnchorBoxAttained(ps);
    AnchorBox(ps)
  }

  /** The least and greatest anchor coordinates of a list of placement
      records, (0, 0, 0, 0) for none: every anchor lies inside. */
  function AnchorBox(ps: seq<PlacementRecord>): (b: Box)
    ensures ps == [] ==> b == Box(0.0, 0.0, 0.0, 0.0)
    ensures WellFormed(b)
    ensures forall p :: p in ps ==> b.minX <= p.x <= b.maxX && b.minY <= p.y <= b.maxY
  {
    if |ps| == 0 then Box(0.0, 0.0, 0.0, 0.0)
    else
      var xs := AnchorXs(ps);
      var ys := AnchorYs(ps);
      var b := Box(Least(xs), Least(ys), Greatest(xs), Greatest(ys));
      assert forall p :: p in ps ==> b.minX <= p.x <= b.maxX && b.minY <= p.y <= b.maxY by {
        forall p | p in ps
          ensures b.minX <= p.x <= b.maxX && b.minY <= p.y <= b.maxY
        {
          var i :| 0 <= i < |ps| && ps[i] == p;
          assert xs[i] == p.x && ys[i] == p.y;
        }
      }
      assert b.minX <= ps[0].x <= b.maxX && b.minY <= ps[0].y <= b.maxY;
      b
  }

  function AnchorXs(ps: seq<PlacementRecord>): (xs: seq<real>)
    ensures |xs| == |ps| && forall i :: 0 <= i < |ps| ==> xs[i] == ps[i].x
  {
    seq(|ps|, i requires 0 <= i < |ps| => ps[i].x)
  }

  function AnchorYs(ps: seq<PlacementRecord>): (ys: seq<real>)
    ensures |ys| == |ps| && forall i :: 0 <= i < |ps| ==> ys[i] == ps[i].y
  {
    seq(|ps|, i requires 0 <= i < |ps| => ps[i].y)
  }

  /** Each side of the anchor box of a non-empty list is attained by some record. */
  lemma AnchorBoxAttained(ps: seq<PlacementRecord>)
    ensures ps != [] ==>
      && (exists p :: p in ps && p.x == AnchorBox(ps).minX)
      && (exists p :: p in ps && p.x == AnchorBox(ps).maxX)
      && (exists p :: p in ps && p.y == AnchorBox(ps).minY)
      && (exists p :: p in ps && p.y == AnchorBox(ps).maxY)
  {
    if ps != [] {
      var xs, ys := AnchorXs(ps), AnchorYs(ps);
      var i1 :| 0 <= i1 < |xs| && xs[i1] == Least(xs);
      var i2 :| 0 <= i2 < |xs| && xs[i2] == Greatest(xs);
      var i3 :| 0 <= i3 < |ys| && ys[i3] == Least(ys);
      var i4 :| 0 <= i4 < |ys| && ys[i4] == Greatest(ys);
      assert ps[i1] in ps && ps[i2] in ps && ps[i3] in ps && ps[i4] in ps;
    }
  }
}
