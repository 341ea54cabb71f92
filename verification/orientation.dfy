/** The four cell orientations and the two rules over them: the row rule that
    re-derives an orientation from a row index, and the horizontal mirror.

    An orientation is read here through two anchor bits: whether the external
    tool anchors the cell at its right edge (the cell is mirrored left to
    right: FN and S) and whether it anchors it at its top edge (the cell is
    mirrored top to bottom: FS and S). The abutment groups of the row rule are
    the values of the first bit: {FS, N} anchor on the left, {FN, S} on the
    right. */
module Orientations {

  /** N normal, S rotated by 180 degrees, FN mirrored about the Y axis,
      FS mirrored about the X axis. */
  datatype Orientation = N | S | FN | FS

  /** Anchored at the right edge: the {FN, S} abutment group. */
  predicate RightAnchored(o: Orientation) {
    o == FN || o == S
  }

  /** Anchored at the top edge: mirrored top to bottom. */
  predicate TopAnchored(o: Orientation) {
    o == FS || o == S
  }

  /** The orientation with the given anchor bits. */
  function FromAnchors(right: bool, top: bool): (o: Orientation)
    ensures RightAnchored(o) == right && TopAnchored(o) == top
  {
    if right then (if top then S else FN) else (if top then FS else N)
  }

  /** The anchor bits determine the orientation. */
  lemma AnchorsDetermineOrientation(o: Orientation)
    ensures FromAnchors(RightAnchored(o), TopAnchored(o)) == o
  {
  }

  /** Row rule: a cell in the {FS, N} group becomes FS on an even row and N on
      an odd one; a cell in the {FN, S} group becomes S on an even row and FN
      on an odd one. Python's `%` by 2 and Dafny's agree on every integer. */
  function RowOrientation(o: Orientation, row: int): (r: Orientation)
    ensures RightAnchored(r) == RightAnchored(o)
    ensures TopAnchored(r) <==> row % 2 == 0
  {
    if !RightAnchored(o) then
      (if row % 2 == 0 then FS else N)
    else
      (if row % 2 == 0 then S else FN)
  }

  /** The mirror toggle: N and FN swap, S and FS swap. */
  function Flip(o: Orientation): (r: Orientation)
    ensures RightAnchored(r) == !RightAnchored(o)
    ensures TopAnchored(r) == TopAnchored(o)
  {
    match o
    case N => FN
    case S => FS
    case FN => N
    case FS => S
  }

  /** Re-applying the row rule on the same row changes nothing. */
  lemma RowOrientationIdempotent(o: Orientation, row: int)
    ensures RowOrientation(RowOrientation(o, row), row) == RowOrientation(o, row)
  {
  }

  /** The row rule only looks at the group of its input. */
  lemma RowOrientationByGroup(o1: Orientation, o2: Orientation, row: int)
    requires RightAnchored(o1) == RightAnchored(o2)
    ensures RowOrientation(o1, row) == RowOrientation(o2, row)
  {
    AnchorsDetermineOrientation(RowOrientation(o1, row));
    AnchorsDetermineOrientation(RowOrientation(o2, row));
  }

  /** Moving by one row toggles the result of the row rule; two rows restore it. */
  lemma RowOrientationAlternates(o: Orientation, row: int)
    ensures RowOrientation(o, row + 1) != RowOrientation(o, row)
    ensures RowOrientation(o, row + 2) == RowOrientation(o, row)
  {
    AnchorsDetermineOrientation(RowOrientation(o, row + 2));
    AnchorsDetermineOrientation(RowOrientation(o, row));
  }

  /** The mirror toggle is an involution. */
  lemma FlipInvolution(o: Orientation)
    ensures Flip(Flip(o)) == o
  {
  }

  /** Mirroring and then re-deriving by row equals re-deriving and then mirroring. */
  lemma FlipCommutesWithRow(o: Orientation, row: int)
    ensures RowOrientation(Flip(o), row) == Flip(RowOrientation(o, row))
  {
    AnchorsDetermineOrientation(RowOrientation(Flip(o), row));
    AnchorsDetermineOrientation(Flip(RowOrientation(o, row)));
  }
}
