/** `MicroLibrary`: a cache of template micros in front of a persistent store
    of exported records, one per micro name. The store stands in for the
    library directory of JSON files. */
module Library {
  import opened Common
  import opened Sites
  import opened Micros
  import opened Placement
  import opened Assembly
  import opened Records

  datatype MicroLibrary = MicroLibrary(templates: map<string, Micro>, store: map<string, MicroRecord>)

  /** A library that has nothing cached and nothing stored. */
  function EmptyLibrary(): (lib: MicroLibrary)
    ensures lib.templates == map[] && lib.store == map[]
  {
    MicroLibrary(map[], map[])
  }

  /** A map with `k` bound to `v` and every other binding kept. */
  function Put<V>(mp: map<string, V>, k: string, v: V): (r: map<string, V>)
    ensures r.Keys == mp.Keys + {k} && r[k] == v
    ensures forall n :: n in mp && n != k ==> r[n] == mp[n]
  {
    mp[k := v]
  }

  /** `save_micro`: the micro's record is written under its name and a clone
      of it is cached under the same name; every other entry is kept. */
  function SaveMicro(lib: MicroLibrary, m: Micro): (r: MicroLibrary)
    ensures r.store.Keys == lib.store.Keys + {m.name} && r.templates.Keys == lib.templates.Keys + {m.name}
    ensures r.store[m.name] == ToRecord(m) && r.templates[m.name] == CloneMicro(m, None)
    ensures forall n :: n in lib.store && n != m.name ==> r.store[n] == lib.store[n]
    ensures forall n :: n in lib.templates && n != m.name ==> r.templates[n] == lib.templates[n]
  {
    MicroLibrary(Put(lib.templates, m.name, CloneMicro(m, None)), Put(lib.store, m.name, ToRecord(m)))
  }

  /** `load_micro`: a stored record is loaded, cached under the requested
      name and returned; a name with no stored record gives nothing and
      changes nothing. */
  function LoadMicro(lib: MicroLibrary, name: string): (res: (MicroLibrary, Option<Micro>))
    ensures res.1.Some? <==> name in lib.store && Buildable(lib.store[name])
    ensures res.1.Some? ==> res.1 == Load(lib.store[name]) && res.0 == lib.(templates := lib.templates[name := res.1.value])
    ensures res.1.None? ==> res.0 == lib
  {
    if name in lib.store then
      match Load(lib.store[name])
      case Some(m) => (lib.(templates := lib.templates[name := m]), Some(m))
      case None => (lib, None)
    else (lib, None)
  }

  /** The instance made from a template: a clone under the new name, moved
      to the requested origin as a root. */
  function Instantiate(t: Micro, newName: string, origin: Point): (r: Micro)
    ensures r.name == CloneName(t, Some(newName)) && r.path == r.name
    ensures r.origin == SnapToGrid(t.site, origin) && OnGrid(r.site, r.origin)
    ensures r.site == t.site && r.description == t.description
    ensures GridOf(r) == ToGridCoords(t.site, origin) && r.relGrid == GridOf(r)
    ensures Coherent(r) && SameLayout(r, t)
  {
    var c := CloneMicro(t, Some(newName));
    CloneMicroCoherent(t, Some(newName));
    SetOriginCoherent(c, origin, None);
    var r := SetOrigin(c, origin, None);
    SetOriginKeepsLayout(c, origin, None);
    SameLayoutTrans(r, c, t);
    r
  }

  /** `create_micro_from_template`: a cached template is instantiated with
      the library unchanged; otherwise the template is loaded from the store
      (and so cached) and instantiated; otherwise nothing is made. */
  function CreateMicroFromTemplate(lib: MicroLibrary, template: string, newName: string, origin: Point)
    : (res: (MicroLibrary, Option<Micro>))
    ensures template in lib.templates ==>
      res == (lib, Some(Instantiate(lib.templates[template], newName, origin)))
    ensures template !in lib.templates ==>
      res.0 == LoadMicro(lib, template).0 &&
      res.1 == (match LoadMicro(lib, template).1
                case Some(t) => Some(Instantiate(t, newName, origin))
                case None => None)
    ensures res.1.Some? <==> template in lib.templates || (template in lib.store && Buildable(lib.store[template]))
    ensures res.1.Some? ==> Coherent(res.1.value) && OnGrid(res.1.value.site, res.1.value.origin)
  {
    if template in lib.templates then
      (lib, Some(Instantiate(lib.templates[template], newName, origin)))
    else
      var (lib', loaded) := LoadMicro(lib, template);
      match loaded
      case Some(t) => (lib', Some(Instantiate(t, newName, origin)))
      case None => (lib', None)
  }

  /** A saved micro is instantiated from the cache, as a clone of the cached
      clone, without touching the library. */
  lemma CreateAfterSave(lib: MicroLibrary, m: Micro, newName: string, origin: Point)
    ensures CreateMicroFromTemplate(SaveMicro(lib, m), m.name, newName, origin) ==
      (SaveMicro(lib, m), Some(Instantiate(CloneMicro(m, None), newName, origin)))
  {
  }

  /** A template found only in the store is cached by the first
      instantiation, so a second one comes from the cache and leaves the
      library as the first one left it. */
  lemma SecondCreateUsesCache(lib: MicroLibrary, template: string, n1: string, n2: string, o1: Point, o2: Point)
    requires template !in lib.templates && template in lib.store && Buildable(lib.store[template])
    ensures var (lib1, _) := CreateMicroFromTemplate(lib, template, n1, o1);
      && template in lib1.templates
      && lib1.store == lib.store
      && CreateMicroFromTemplate(lib1, template, n2, o2) ==
           (lib1, Some(Instantiate(Load(lib.store[template]).value, n2, o2)))
  {
  }

  /** An instance of a flat template saved under its own name is the saved
      micro renamed and moved: cloning a coherent flat micro twice gives it
      back. */
  lemma {:induction false} InstanceOfFlatTemplate(lib: MicroLibrary, m: Micro, origin: Point)
    requires Coherent(m) && m.subs == [] && m.path == m.name
    ensures CreateMicroFromTemplate(SaveMicro(lib, m), m.name, "", origin).1 ==
      Some(SetOrigin(m.(relGrid := Lattice(0, 0)), origin, None))
  {
    CloneOfFlatMicro(m);
    var once := m.(relGrid := Lattice(0, 0));
    assert Coherent(once) && once.subs == [] && once.path == once.name;
    CloneOfFlatMicro(once);
    assert CloneMicro(once, Some("")) == CloneMicro(once, None);
  }
}
