/** A leaf cell (`Cell`): a rectangle whose stored position is relative to its
    owning micro and always expressed as if the cell were in orientation N.
    The absolute position and the bounding box are caches that the owning
    micro refreshes; the orientation only affects the anchor reported to the
    external layout tool. */
module Cells {
  import opened Common
  import opened Orientations
  import opened Sites

  /** An axis-aligned box (min corner, max corner). */
  datatype Box = Box(minX: real, minY: real, maxX: real, maxY: real)

  /** `pos` is the stored relative position, `abs` the cached absolute position,
      `site` the grid the cell was last positioned with, `bbox` the cached box. */
  datatype Cell = Cell(
    name: string,
    pos: Point,
    orientation: Orientation,
    width: real,
    height: real,
    abs: Point,
    path: string,
    site: Site,
    bbox: Box)

  /** Default size of a standard cell: one site wide, one row high. */
  const DefaultWidth: real := 0.14
  const DefaultHeight: real := 0.9

  /** The box of a w-by-h rectangle whose lower-left corner is `p`. */
  function BoxAt(p: Point, w: real, h: real): Box {
    Box(p.x, p.y, p.x + w, p.y + h)
  }

  /** The cached box is the N-orientation box at the absolute position,
      whatever the orientation. */
  ghost predicate BboxFresh(c: Cell) {
    c.bbox == BoxAt(c.abs, c.width, c.height)
  }

  /** A freshly constructed cell: absolute position equal to the stored one,
      path equal to the name, default site, consistent box. */
  function NewCell(name: string, pos: Point, orientation: Orientation, width: real, height: real): (c: Cell)
    ensures c.name == name && c.pos == pos && c.orientation == orientation
    ensures c.width == width && c.height == height
    ensures c.abs == pos && c.path == name && c.site == DefaultSite
    ensures BboxFresh(c)
  {
    Cell(name, pos, orientation, width, height, pos, name, DefaultSite, BoxAt(pos, width, height))
  }

  /** Lattice index of the absolute position (`grid_x`, `grid_y`). */
  function GridCoords(c: Cell): Lattice {
    ToGridCoords(c.site, c.abs)
  }

  /** Lattice index of the stored relative position (`rel_grid_x`, `rel_grid_y`). */
  function RelGridCoords(c: Cell): Lattice {
    ToGridCoords(c.site, c.pos)
  }

  /** The site a positioning call leaves on the cell: the given one, if any. */
  function SiteAfter(c: Cell, site: Option<Site>): Site {
    if site.Some? then site.value else c.site
  }

  /** `set_rel_position`: overwrites the stored position and refreshes the box
      from the (unchanged) cached absolute position. */
  function SetRelPosition(c: Cell, p: Point, site: Option<Site>): (r: Cell)
    ensures r.pos == p && r.abs == c.abs && r.site == SiteAfter(c, site)
    ensures BboxFresh(r)
    ensures r.(pos := c.pos, site := c.site, bbox := c.bbox) == c
  {
    c.(pos := p, site := SiteAfter(c, site), bbox := BoxAt(c.abs, c.width, c.height))
  }

  /** `set_absolute_position`: the absolute position becomes the given origin
      plus the stored position, and the box follows it. */
  function SetAbsolutePosition(c: Cell, origin: Point, site: Option<Site>): (r: Cell)
    ensures r.abs == Add(origin, c.pos) && r.pos == c.pos && r.site == SiteAfter(c, site)
    ensures BboxFresh(r)
    ensures r.(abs := c.abs, site := c.site, bbox := c.bbox) == c
  {
    var a := Add(origin, c.pos);
    c.(abs := a, site := SiteAfter(c, site), bbox := BoxAt(a, c.width, c.height))
  }

  /** A hierarchical path: "parent/name", or just "name" under an empty parent path. */
  function JoinPath(parent: string, name: string): string {
    if parent == "" then name else parent + "/" + name
  }

  /** `set_hierarchical_path` of a cell. */
  function SetHierarchicalPath(c: Cell, parentPath: string): (r: Cell)
    ensures r.path == JoinPath(parentPath, c.name)
    ensures r.(path := c.path) == c
  {
    c.(path := JoinPath(parentPath, c.name))
  }

  /** `set_orientation` changes no coordinate and no cache. */
  function SetOrientation(c: Cell, o: Orientation): (r: Cell)
    ensures r.orientation == o
    ensures r.(orientation := c.orientation) == c
  {
    c.(orientation := o)
  }

  /** `set_size`: new size, box refreshed at the unchanged absolute position. */
  function SetSize(c: Cell, w: real, h: real): (r: Cell)
    ensures r.width == w && r.height == h && BboxFresh(r)
    ensures r.(width := c.width, height := c.height, bbox := c.bbox) == c
  {
    c.(width := w, height := h, bbox := BoxAt(c.abs, w, h))
  }

  /** `get_placement_origin`: the corner the external tool anchors the cell at —
      lower-left for N, upper-right for S, lower-right for FN, upper-left for FS. */
  function PlacementOrigin(c: Cell): (p: Point)
    ensures p.x == c.abs.x + (if RightAnchored(c.orientation) then c.width else 0.0)
    ensures p.y == c.abs.y + (if TopAnchored(c.orientation) then c.height else 0.0)
  {
    match c.orientation
    case N => c.abs
    case S => Point(c.abs.x + c.width, c.abs.y + c.height)
    case FN => Point(c.abs.x + c.width, c.abs.y)
    case FS => Point(c.abs.x, c.abs.y + c.height)
  }

  /** `get_orientation_for_row`: the row rule at the row of height `rowY` on the cell's site. */
  function OrientationForRow(c: Cell, rowY: real): (o: Orientation)
    ensures RightAnchored(o) == RightAnchored(c.orientation)
    ensures TopAnchored(o) <==> Round(rowY / c.site.height) % 2 == 0
  {
    RowOrientation(c.orientation, Round(rowY / c.site.height))
  }

  /** `flip_oritentation`: the mirror toggle on the cell's orientation. */
  function FlipOrientation(c: Cell): (r: Cell)
    ensures RightAnchored(r.orientation) == !RightAnchored(c.orientation)
    ensures TopAnchored(r.orientation) == TopAnchored(c.orientation)
    ensures r.(orientation := c.orientation) == c
  {
    c.(orientation := Flip(c.orientation))
  }

  /** `Cell.clone`: every field is copied, but the box cache is the one the
      constructor builds from the stored (relative) position; clone does not
      refresh it from the copied absolute position. */
  function CloneCell(c: Cell): (r: Cell)
    ensures r.bbox == BoxAt(c.pos, c.width, c.height)
    ensures r.(bbox := c.bbox) == c
  {
    var built := NewCell(c.name, c.pos, c.orientation, c.width, c.height);
    built.(path := c.path, site := c.site, abs := c.abs)
  }

  /** A clone of a cell that still sits at its stored position is an exact copy. */
  lemma CloneOfUnplacedCell(c: Cell)
    requires BboxFresh(c) && c.abs == c.pos
    ensures CloneCell(c) == c
  {
  }

  /** With a consistent box, the anchor is the corner of the cached box picked
      by the two anchor bits. */
  lemma AnchorIsBoxCorner(c: Cell)
    requires BboxFresh(c)
    ensures PlacementOrigin(c).x == (if RightAnchored(c.orientation) then c.bbox.maxX else c.bbox.minX)
    ensures PlacementOrigin(c).y == (if TopAnchored(c.orientation) then c.bbox.maxY else c.bbox.minY)
  {
  }

  /** Mirroring a cell moves its anchor to the opposite vertical edge of the
      cell and keeps its height. */
  lemma AnchorMirrorsUnderFlip(c: Cell)
    ensures PlacementOrigin(FlipOrientation(c)).x == 2.0 * c.abs.x + c.width - PlacementOrigin(c).x
    ensures PlacementOrigin(FlipOrientation(c)).y == PlacementOrigin(c).y
  {
  }
}
