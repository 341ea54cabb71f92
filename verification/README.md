# Place-cell engine model

A Dafny model of the placement data model of `placetools/place_engine.py`. The modelled system places standard cells on a site grid inside nested groups called micros.

The model covers these parts:

- **Orientations.** The four cell orientations (N, S, FN, FS) are described by two anchor bits: right-anchored ({FN, S}, the abutment group) and top-anchored ({FS, S}). The model covers the row rule, which keeps the group and picks the top-anchored member on even rows, and the horizontal flip, which swaps the group.
- **Site grid.** `SiteInfo` snapping and conversion between points and lattice indices. Python's `round` is modelled exactly as round-half-to-even.
- **Cells.** The stored (relative) position, the absolute position, the cached bounding box, the hierarchical path, and the orientation-dependent placement anchor.
- **Micro tree.**
  - Adding and removing cells and sub-micros.
  - `set_origin`, `move_by` and their grid variants, with the cascade that re-places cells and moves sub-micros.
  - `flip_horizontal` and `clone`.
  - Flattening into cells, sub-micros and placement records, and the lookups by path.
  - The bounding box.
  - The export record and the loader (`to_dict` / `_load_from_dict`).
- **Library.** The template cache in front of a store of exported records.
- **Engine.** The ordered registry of root micros, with create, place, move, flip, remove and save, the global placement list, and its bounding box.

All coordinates are exact `real`s. Every structure is an immutable datatype and every operation is a pure function that returns the new value.

The source's `parent` back-reference is replaced by an explicit argument: the lattice index of the parent, or none for a root. This argument is used where the source computes `rel_grid_*`.

**Coherence.** `Micros.Coherent` is the derived-state invariant of a tree:
- every cell's absolute position is its owner's origin plus its stored position;
- every cell's box is fresh;
- every sub-micro's relative index is the difference of lattice indices;
- every path is the owner's path joined with the node's own name.

Every modelled operation is shown to preserve it.

**Behaviour reproduced as written.** The following are what the code does, and the model follows the code:
- When a micro is placed, each sub-micro is moved to the snapped sum of the micro's new origin and the sub-micro's current origin, which is already absolute. Offsets therefore accumulate at depth two or more and on every repeated placement (`Placement.ResettingOriginShiftsSubMicros`). Cloning and loading re-add the parent origin in the same way (`Records.LoadShiftsSubOrigins`).
- The `Micro` constructor does not snap its origin, and `move_by` adds a snapped delta without re-snapping the result. The origin is therefore on the grid after a move exactly when it was before (`Placement.MoveByKeepsGridness`), and an unsnapped constructor origin stays off the grid (`Placement.MoveByKeepsOffGridOrigin`). `move_by` equals `set_origin` at the shifted point only from an on-grid origin (`Placement.MoveByIsSetOriginOnGrid`).
- `Micro.clone` hands each cloned sub-micro to `add_sub_micro`, which clones it again.
- `Cell.clone` rebuilds the cached box from the stored (relative) position.
- `add_cell` does not re-derive the orientation.
- Placement records are tagged with the micro's own name, not the registry key.
- `get_sub_micro_by_path` is a pre-order search that starts with the micro itself.

## Model

| member | source | states |
|---|---|---|
| Orientations.FromAnchors | placetools/place_engine.py:11-16 | the two anchor bits single out exactly one orientation |
| Orientations.AnchorsDetermineOrientation | placetools/place_engine.py:11-16 | an orientation is recovered from its anchor bits |
| Orientations.RowOrientation | placetools/place_engine.py:127-142 | the row rule keeps the abutment group and is top-anchored exactly on even rows |
| Orientations.RowOrientationIdempotent | placetools/place_engine.py:127-142 | re-applying the row rule at the same row changes nothing |
| Orientations.RowOrientationByGroup | placetools/place_engine.py:127-142 | the row rule's result depends only on the group, not on the member |
| Orientations.RowOrientationAlternates | placetools/place_engine.py:127-142 | adjacent rows get different orientations; rows two apart get the same one |
| Orientations.Flip | placetools/place_engine.py:144-153 | the flip swaps the abutment group and keeps the top bit |
| Orientations.FlipInvolution | placetools/place_engine.py:144-153 | flipping twice is the identity |
| Orientations.FlipCommutesWithRow | placetools/place_engine.py:127-153 | flipping and then applying the row rule equals applying the row rule and then flipping |
| Sites.Round | placetools/place_engine.py:26-32 | Python's round: within one half of the input, and even on a tie |
| Sites.RoundUnique | placetools/place_engine.py:26-32 | those two conditions determine the rounded value |
| Sites.RoundOfInteger | placetools/place_engine.py:26-32 | an integer rounds to itself |
| Sites.ToGridCoords | placetools/place_engine.py:30-34 | the lattice point lies within half a pitch of the input on each axis |
| Sites.FromGridCoords | placetools/place_engine.py:36-40 | converting the lattice point back gives the same indices |
| Sites.SnapToGrid | placetools/place_engine.py:24-28 | the snapped point is on the grid, has the input's lattice indices, and lies within half a pitch of the input |
| Sites.SnapIdempotent | placetools/place_engine.py:24-28 | snapping twice is snapping once |
| Sites.SnapOfOnGrid | placetools/place_engine.py:24-28 | a point already on the grid is not moved by snapping |
| Sites.ToFromGrid | placetools/place_engine.py:30-40 | to_grid_coords(from_grid_coords(l)) == l, and the point is on the grid |
| Sites.OnGridAdd | placetools/place_engine.py:24-40 | the sum of two grid points is on the grid, and its indices are the sums of theirs |
| Cells.NewCell | placetools/place_engine.py:52-58 | a new cell sits at its stored position on the default site, with its own name as path and a fresh box |
| Cells.SetRelPosition | placetools/place_engine.py:73-81 | only the stored position, site and box change; the absolute position stays |
| Cells.SetAbsolutePosition | placetools/place_engine.py:83-91 | absolute = origin + stored position, with a fresh box; nothing else changes |
| Cells.SetHierarchicalPath | placetools/place_engine.py:93-98 | the path becomes parent/name (just the name under an empty parent); nothing else changes |
| Cells.SetOrientation | placetools/place_engine.py:100-103 | only the orientation changes; no coordinate moves |
| Cells.SetSize | placetools/place_engine.py:105-109 | size and box change together; nothing else changes |
| Cells.PlacementOrigin | placetools/place_engine.py:111-125 | the anchor is offset by the width when right-anchored and by the height when top-anchored |
| Cells.OrientationForRow | placetools/place_engine.py:127-142 | the cell keeps its group and is top-anchored iff round(y / pitch) is even |
| Cells.FlipOrientation | placetools/place_engine.py:144-153 | only the orientation changes, to the other group |
| Cells.CloneCell | placetools/place_engine.py:186-194 | a copy whose box is rebuilt from the stored position; every other field is kept |
| Cells.CloneOfUnplacedCell | placetools/place_engine.py:186-194 | a clone of a cell whose absolute position is its stored one is the cell itself |
| Cells.AnchorIsBoxCorner | placetools/place_engine.py:111-125 | with a fresh box, the anchor is the box corner that the orientation names |
| Cells.AnchorMirrorsUnderFlip | placetools/place_engine.py:111-153 | flipping mirrors the anchor's x about the cell's middle and keeps its y |
| Micros.NewMicro | placetools/place_engine.py:202-217 | a new micro is empty, has its own name as path and relative index (0, 0), and keeps its origin unsnapped |
| Micros.NewMicroCoherent | placetools/place_engine.py:202-217 | a new micro is coherent |
| Micros.SetHierarchicalPath | placetools/place_engine.py:219-230 | the node gets the path parent/name; every cell and sub-micro below is re-pathed; at every depth nothing but paths changes |
| Micros.SetHierarchicalPathMakesPathsCoherent | placetools/place_engine.py:219-230 | after re-pathing, every path in the subtree is its owner's path joined with its name |
| Micros.SetHierarchicalPathKeepsPositions | placetools/place_engine.py:219-230 | re-pathing keeps positions coherent |
| Placement.PlaceCell | placetools/place_engine.py:339-346 | the cell is placed at the origin, keeps its group, and is top-anchored iff its row is even; nothing else changes |
| Placement.Reposition | placetools/place_engine.py:325-351 | the grid-and-positions cascade at a given origin: every cell is re-placed and every sub-micro moved to the snapped sum of origins |
| Placement.SetOrigin | placetools/place_engine.py:272-280 | the origin becomes the snapped point and the lattice index becomes the input's; the cascade follows |
| Placement.SetOriginByGrid | placetools/place_engine.py:282-285 | placement at the lattice point; the resulting index is the one requested |
| Placement.MoveBy | placetools/place_engine.py:287-295 | the snapped delta is added to the origin, which is not snapped again; the cascade follows |
| Placement.MoveByGrid | placetools/place_engine.py:297-301 | a move by whole pitches; from an on-grid origin, the lattice indices add |
| Placement.MoveByIsSetOriginOnGrid | placetools/place_engine.py:272-295 | from an on-grid origin, move_by equals set_origin at the shifted point |
| Placement.MoveByKeepsGridness | placetools/place_engine.py:287-295 | the origin is on the grid after move_by iff it was before |
| Placement.MoveByKeepsOffGridOrigin | placetools/place_engine.py:287-295 | an unsnapped constructor origin stays off the grid after a zero move |
| Placement.ResettingOriginShiftsSubMicros | placetools/place_engine.py:349-351 | placing a micro at its own origin moves each sub-micro by that origin once more |
| Placement.RepositionKeepsLayout | placetools/place_engine.py:325-351 | the cascade keeps every cell's name, stored position, size and abutment group, and every sub-micro's name, at every depth |
| Placement.SetOriginKeepsLayout | placetools/place_engine.py:272-280 | set_origin keeps the whole tree's layout: cells and sub-micros, their names, stored positions, sizes and groups |
| Placement.RepositionMakesPositionsCoherent | placetools/place_engine.py:325-351 | after the cascade, every position in the tree is coherent |
| Placement.RepositionKeepsPathsCoherent | placetools/place_engine.py:325-351 | the cascade changes no path |
| Placement.SetOriginCoherent | placetools/place_engine.py:272-280 | set_origin keeps a tree coherent |
| Placement.SetOriginByGridCoherent | placetools/place_engine.py:282-285 | set_origin_by_grid keeps a tree coherent |
| Placement.MoveByCoherent | placetools/place_engine.py:287-295 | move_by keeps a tree coherent |
| Placement.MoveByGridCoherent | placetools/place_engine.py:297-301 | move_by_grid keeps a tree coherent |
| Flatten.AllCells | placetools/place_engine.py:353-364 | the flattening starts with the micro's own cells, in order |
| Flatten.AllCellsMembership | placetools/place_engine.py:353-364 | a cell is in the flattening iff it is a direct cell or is in the flattening of some sub-micro |
| Flatten.AllCellsFromPreorder | placetools/place_engine.py:353-374 | a cell is in the flattening iff some micro of the pre-order owns it directly |
| Flatten.AllCellsAppendSub | placetools/place_engine.py:353-364 | appending a sub-micro appends its flattening |
| Flatten.AllSubMicros | placetools/place_engine.py:366-374 | a micro without sub-micros has none below it; its partners below state membership and order |
| Flatten.AllSubMicrosMembership | placetools/place_engine.py:366-374 | a micro is in the sub-micro list iff it is a direct sub-micro or is in the list of some sub-micro |
| Flatten.AllSubMicrosAppendSub | placetools/place_engine.py:366-374 | appending a sub-micro appends its pre-order, so each child comes before its descendants |
| Flatten.CellPlacements | placetools/place_engine.py:376-391 | one record per flattened cell, in order, with the cell's path, anchor and orientation, tagged with the micro's name |
| Flatten.GetCellByPath | placetools/place_engine.py:393-398 | the result is the first flattened cell with that path; there is none iff no flattened cell has that path |
| Flatten.GetSubMicroByPath | placetools/place_engine.py:400-410 | a micro found has the requested path and is the micro itself or one of its descendants |
| Flatten.GetSubMicroByPathIsFirstInPreorder | placetools/place_engine.py:400-410 | the lookup returns the first micro of the pre-order (self first) that has the path |
| Flatten.GetSubMicroByPathNone | placetools/place_engine.py:400-410 | the lookup finds nothing iff no micro of the pre-order has the path |
| Flatten.CalculateBoundingBox | placetools/place_engine.py:412-425 | the box is (0, 0, 0, 0) with no cells; otherwise it encloses every cell box, each bound is attained, and it is well-formed when the cell boxes are |
| Flatten.BoxWidth | placetools/place_engine.py:303-306 | the mirror width is not negative when the cell boxes are well-formed |
| Assembly.AddCell | placetools/place_engine.py:232-238 | exactly one placed copy is appended, under the micro's path; the earlier cells and the rest of the micro are unchanged |
| Assembly.AddCells | placetools/place_engine.py:240-244 | one copy per cell, appended in order |
| Assembly.AddSubMicro | placetools/place_engine.py:246-254 | exactly one attached copy is appended: laid out like the argument down to every nested cell and sub-micro, re-pathed, placed at the snapped sum of origins, relative to this micro; nothing else changes |
| Assembly.CloneMicro | placetools/place_engine.py:453-467 | the clone has the new name (the old one when the new name is empty), an unsnapped origin, relative index (0, 0), a placed copy of each cell and an attached clone of each sub-micro, so that it is laid out like the original at every depth |
| Assembly.RemoveCell | placetools/place_engine.py:256-262 | true iff a cell has the name; if so only the first such cell is dropped and the order is kept, otherwise nothing changes |
| Assembly.RemoveSubMicro | placetools/place_engine.py:264-270 | true iff a sub-micro has the name; if so only the first one is dropped and the order is kept, otherwise nothing changes |
| Assembly.RemoveAfterAddCell | placetools/place_engine.py:232-262 | removing a freshly added cell under a new name gives the micro back and reports true |
| Assembly.RemoveAfterAddSubMicro | placetools/place_engine.py:246-270 | removing a freshly added sub-micro under a new name gives the micro back and reports true |
| Assembly.AddCellCoherent | placetools/place_engine.py:232-238 | add_cell keeps a tree coherent |
| Assembly.AddSubMicroCoherent | placetools/place_engine.py:246-254 | add_sub_micro keeps a tree coherent |
| Assembly.CloneMicroCoherent | placetools/place_engine.py:453-467 | every clone is coherent |
| Assembly.RemoveCellCoherent | placetools/place_engine.py:256-262 | remove_cell keeps a tree coherent |
| Assembly.RemoveSubMicroCoherent | placetools/place_engine.py:264-270 | remove_sub_micro keeps a tree coherent |
| Assembly.CloneOfFlatMicro | placetools/place_engine.py:453-467 | cloning a coherent micro without sub-micros, whose path is its name, gives it back with relative index (0, 0) |
| Assembly.AllCellsAfterAddCell | placetools/place_engine.py:232-238 | after add_cell, the flattening holds the new copy right after the micro's own cells |
| Assembly.AllCellsAfterAddSubMicro | placetools/place_engine.py:246-254 | after add_sub_micro, the flattening ends with the new sub-micro's flattening |
| Flip.MirrorCell | placetools/place_engine.py:309-311 | a direct cell's stored x is mirrored inside the width and its group swapped; size, name and path are kept |
| Flip.FlipHorizontal | placetools/place_engine.py:303-321 | origin, name, site and path are kept; each direct cell is mirrored, in the other group, and placed by the row rule; sub-micros keep their names and paths |
| Flip.FlipPlacesSubMicro | placetools/place_engine.py:313-321 | each sub-micro is flipped at its mirrored origin and then moved by the micro's origin, ending at the snap of that origin plus the snapped mirrored one |
| Flip.FlipSwapsGroup | placetools/place_engine.py:303-321 | every direct cell ends in the other abutment group |
| Flip.FlipMirrorsCell | placetools/place_engine.py:303-311 | with a fresh box, the stored x becomes W - x - width and y is kept |
| Flip.FlipKeepsPathsCoherent | placetools/place_engine.py:303-321 | the flip changes no path |
| Flip.FlipCoherent | placetools/place_engine.py:303-321 | the flip keeps a tree coherent |
| Records.CellToRecord | placetools/place_engine.py:159-184 | the record carries the cell's name, stored position, path, orientation, size, and its absolute and relative lattice indices |
| Records.ToRecord | placetools/place_engine.py:427-451 | the record carries the micro's fields, its lattice indices, its bounding box, and the records of its cells and sub-micros in order |
| Records.Load | placetools/place_engine.py:516-549 | a record loads iff every pitch in it is positive; the loaded micro has the record's fields, a placed copy of each cell and an attached load of each sub-record, laid out like it |
| Records.ExportLoadKeepsLayout | placetools/place_engine.py:516-549 | exporting any micro and loading it back keeps its name, description, site, origin and layout at every depth |
| Records.LoadOfFlatRecord | placetools/place_engine.py:516-549 | exporting and loading a coherent micro without sub-micros, whose path is its name, gives it back with relative index (0, 0) |
| Records.ExportedRecordsLoad | placetools/place_engine.py:516-549 | every exported record loads |
| Records.LoadCoherent | placetools/place_engine.py:516-549 | a loaded micro is coherent |
| Records.LoadShiftsSubOrigins | placetools/place_engine.py:543-547 | a loaded sub-micro sits at the snapped sum of its parent's and its own exported origins |
| Library.SaveMicro | placetools/place_engine.py:587-591 | the record is stored and a clone cached under the micro's name; every other entry is kept |
| Library.LoadMicro | placetools/place_engine.py:593-602 | a stored, loadable record is loaded and cached under the name; otherwise nothing is returned and nothing changes |
| Library.Instantiate | placetools/place_engine.py:609-624 | the instance has the new name (the template's own when the new name is empty), a snapped origin and the requested lattice index, is coherent, and is laid out like the template at every depth |
| Library.CreateMicroFromTemplate | placetools/place_engine.py:609-624 | the cache is tried first, then the store; a result exists iff the template is cached or stored and loadable, and it is coherent and on the grid |
| Library.SecondCreateUsesCache | placetools/place_engine.py:593-624 | a template found in the store is cached, so the next instance leaves the library unchanged |
| Library.InstanceOfFlatTemplate | placetools/place_engine.py:587-624 | an instance of a saved flat micro is that micro moved to the requested origin |
| Engine.NewEngine | placetools/place_engine.py:628-633 | a new engine has nothing registered, is valid, and has a library with nothing cached in front of the records already in its directory |
| Engine.NewEngineFindsSavedMicros | placetools/place_engine.py:593-602 | on a fresh engine, a loadable micro already saved in the directory can be instantiated, is cached, and is registered under the new name |
| Engine.Register | placetools/place_engine.py:635-640 | storing under a present name replaces that entry in place; under a new name it appends |
| Engine.GetMicro | placetools/place_engine.py:709-711 | a micro is returned iff the name is registered, and it is the one registered under it |
| Engine.ListActiveMicros | placetools/place_engine.py:713-715 | the registered names in registration order: exactly the names that look up to a micro |
| Engine.CreateMicro | placetools/place_engine.py:635-640 | a new empty micro on the engine's site is registered and afterwards found under its name |
| Engine.CreateMicroFromCells | placetools/place_engine.py:642-654 | a micro with an empty description, holding one placed copy per description in order, is registered under the name as create_micro registers |
| Engine.CreateMicroFromTemplate | placetools/place_engine.py:656-665 | the engine takes the library the call returns; it succeeds iff the library makes an instance, and then registers under the new name exactly that instance moved onto the engine's site and placed at the origin as a root; otherwise the registry is unchanged |
| Engine.PlaceMicro | placetools/place_engine.py:667-672 | unknown name: error; otherwise only that entry changes, by set_origin |
| Engine.PlaceMicroByGrid | placetools/place_engine.py:674-679 | unknown name: error; otherwise only that entry changes, by set_origin_by_grid |
| Engine.MoveMicro | placetools/place_engine.py:681-686 | unknown name: error; otherwise only that entry changes, by move_by |
| Engine.MoveMicroByGrid | placetools/place_engine.py:688-693 | unknown name: error; otherwise only that entry changes, by move_by_grid |
| Engine.FlipMicroHorizontal | placetools/place_engine.py:695-699 | unknown name: error; otherwise only that entry changes, by flip_horizontal |
| Engine.RemoveMicro | placetools/place_engine.py:702-707 | true iff the name was registered; only that entry is dropped and the order is kept |
| Engine.SaveMicroToLibrary | placetools/place_engine.py:717-722 | unknown name: error; otherwise the registered micro is saved and the registry is unchanged |
| Engine.RegisterValid | placetools/place_engine.py:635-640 | registering a coherent micro keeps names distinct and every micro coherent |
| Engine.CreateValid | placetools/place_engine.py:635-665 | every create operation keeps the registry valid |
| Engine.UpdatesValid | placetools/place_engine.py:667-699 | place, move and flip keep the registry valid |
| Engine.RemoveAndSaveValid | placetools/place_engine.py:702-722 | remove and save keep the registry valid |
| Engine.UpdateLookups | placetools/place_engine.py:667-699 | after an operation on one name, every other name looks up to the same micro |
| Engine.RemoveAfterCreate | placetools/place_engine.py:702-707 | removing a micro just created under a new name gives the registry back |
| Engine.GenerateGlobalPlacements | placetools/place_engine.py:736-744 | no records for an empty registry; otherwise the records of the earlier micros followed by the last micro's, so one block per micro in registration order |
| Engine.GlobalPlacementsMembership | placetools/place_engine.py:736-744 | a record is global iff it is among some registered micro's placements |
| Engine.GlobalPlacementsTagged | placetools/place_engine.py:736-744 | every global record carries a registered micro's name and records a cell of that micro's flattening |
| Engine.GlobalPlacementsAfterRegister | placetools/place_engine.py:736-744 | registering a new name appends that micro's records after all earlier ones |
| Engine.EngineBoundingBox | placetools/place_engine.py:813-825 | (0, 0, 0, 0) without records; otherwise the least and greatest anchor coordinates, each attained |

## Left out

- Binary floating point is not modelled: coordinates are exact reals, so errors such as `0.14 * 3` do not arise. The 3-decimal `round(…, 3)` of exported and placement coordinates is also omitted. For this reason the cell record keeps only the exactly exported fields: name, stored position, lattice indices, size, orientation and path.
- JSON file I/O (`export_to_file`, `load_from_file`, `save_configuration`, `load_configuration`) is left out: it is I/O. The library's directory handling (`os.makedirs`, `os.path.exists`, `listdir`, `list_available_micros`) is replaced by a map from micro names to records, which `Engine.NewEngine` takes as the directory's contents.
- Missing-key defaults of the JSON reader are not modelled: records always carry every field.
- `generate_tcl_script`, `print_hierarchy`, `__repr__` and the demo function are left out: they are text output only.
- `get_placement_statistics` is left out: it only counts, and its counts are the lengths of lists modelled here.
- `load_micro_from_library` is left out. It renames and re-paths the very object held in the library cache, so the cache and the registry alias one mutable micro, which a value model does not express.
- Object identity is not modelled. `get_micro` returns the registry's micro by reference in the source, and the model returns its value.
- Records.Load: a record with a non-positive pitch loads nothing. The source raises on a zero pitch and accepts a negative one, which the model's positive-pitch site type does not admit.
- Library.LoadMicro: a stored record that cannot be loaded gives nothing, where the source raises.
- Full round trips of export/load and of clone for micros with sub-micros are claimed only up to position: the source re-adds parent origins at depth two or more. The layout is kept at every depth (`Records.ExportLoadKeepsLayout`, `Assembly.CloneMicro`), and the drift itself is stated (`Records.LoadShiftsSubOrigins`, `Placement.ResettingOriginShiftsSubMicros`).
- The defaults of `create_micro_from_cells` for a missing key (orientation "N", width 0.14, height 0.9) and of the origin arguments (0, 0) are not modelled: every `Engine.CellSpec` carries all its fields and the origin is always given.
- `placetools/console.py`, `placetools/run_console.py` and `placetools/placevis.py` are not part of this model: they are an interactive shell, a launcher and plotting code.
