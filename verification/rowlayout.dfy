/** The row layout strategy of the widget package: children are placed one
    after another along a primary axis (x for a horizontal row, y for a
    vertical one), separated by a fixed spacing and inset by a padding. Each
    child may carry row layout data that stretches it across the row, caps its
    size and aligns it on the cross axis. */
module RowLayout {
  import opened Geometry
  import opened Wrappers

  datatype Direction = Horizontal | Vertical

  /** Cross-axis alignment of a child (`RowLayoutPosition`). */
  datatype Position = Start | Center | End

  /** `RowLayoutData`. A maximum of 0 (or less) means "unlimited". */
  datatype RowLayoutData = RowLayoutData(position: Position, stretch: bool, maxWidth: int, maxHeight: int)

  /** The opaque per-child layout data as the row layout sees it. Only a
      pointer to a `RowLayoutData` is recognised; a `RowLayoutData` stored by
      value, or data meant for another strategy, is treated as absent. */
  datatype LayoutData =
    | NoLayoutData
    | RowDataPtr(data: RowLayoutData)
    | RowDataValue(value: RowLayoutData)
    | OtherLayoutData

  datatype Size = Size(w: int, h: int)

  /** A child widget as the layout sees it: its preferred size when it has the
      `PreferredSizer` capability, whether it has the `Locateable` capability,
      and its layout data. */
  datatype Child = Child(preferred: Option<Size>, locateable: bool, layoutData: LayoutData)

  /** One `SetLocation` (or, speculatively, one union step) for the child at
      position `index` of the child list. */
  datatype Placement = Placement(index: nat, rect: Rect)

  /** Where a child goes and how large it is, relative to the padded rect. */
  datatype Slot = Slot(origin: Point, size: Size)

  /** The `rowLayout` struct: its configuration and the dirty flag. */
  datatype RowLayoutState = RowLayoutState(direction: Direction, padding: Insets, spacing: int, dirty: bool)

  /** The options accepted by `NewRowLayout`. */
  datatype RowLayoutOpt = DirectionOpt(d: Direction) | PaddingOpt(i: Insets) | SpacingOpt(s: int)

  const NoInsets := Insets(0, 0, 0, 0)

  /** The size given to a child without a preferred size. */
  const DefaultChildSize := Size(50, 50)

  /** `NewRowLayout`: the zero-valued layout (horizontal, no padding, no
      spacing, clean) with the options applied in order. */
  function NewRowLayout(opts: seq<RowLayoutOpt>): (r: RowLayoutState)
    ensures !r.dirty
    ensures (forall k | 0 <= k < |opts| :: !opts[k].DirectionOpt?) ==> r.direction == Horizontal
    ensures (forall k | 0 <= k < |opts| :: !opts[k].PaddingOpt?) ==> r.padding == NoInsets
    ensures (forall k | 0 <= k < |opts| :: !opts[k].SpacingOpt?) ==> r.spacing == 0
  {
    if |opts| == 0 then RowLayoutState(Horizontal, NoInsets, 0, false)
    else
      var r := NewRowLayout(opts[..|opts| - 1]);
      match opts[|opts| - 1]
      case DirectionOpt(d) => r.(direction := d)
      case PaddingOpt(i) => r.(padding := i)
      case SpacingOpt(s) => r.(spacing := s)
  }

  /** `MarkDirty`. */
  function MarkDirty(l: RowLayoutState): (r: RowLayoutState)
    ensures r.dirty
    ensures r.(dirty := l.dirty) == l
  {
    l.(dirty := true)
  }

  /** `preferredSizeWidget`: the child's preferred size, or 50x50 without one. */
  function PreferredSizeOf(c: Child): Size
  {
    c.preferred.GetOr(DefaultChildSize)
  }

  /** `applyStretch`: a stretched child takes the padded rect's cross extent. */
  function ApplyStretch(l: RowLayoutState, d: RowLayoutData, s: Size, inner: Rect): Size
  {
    if !d.stretch then s
    else if l.direction == Horizontal then Size(s.w, inner.Dy())
    else Size(inner.Dx(), s.h)
  }

  /** `applyMaxSize`: caps each extent by its positive maximum. */
  function ApplyMaxSize(d: RowLayoutData, s: Size): Size
  {
    Size(if d.maxWidth > 0 && s.w > d.maxWidth then d.maxWidth else s.w,
         if d.maxHeight > 0 && s.h > d.maxHeight then d.maxHeight else s.h)
  }

  /** `applyPosition`: moves the origin along the cross axis; `acc` is the
      running offset of the loop. */
  function ApplyPosition(l: RowLayoutState, d: RowLayoutData, origin: Point, s: Size, inner: Rect, acc: Point): Point
  {
    match d.position
    case Center =>
      if l.direction == Horizontal then origin.(y := acc.y + TruncDiv(inner.Dy() - s.h, 2))
      else origin.(x := acc.x + TruncDiv(inner.Dx() - s.w, 2))
    case End =>
      if l.direction == Horizontal then origin.(y := acc.y + inner.Dy() - s.h)
      else origin.(x := acc.x + inner.Dx() - s.w)
    case Start => origin
  }

  /** `applyLayoutData`: stretch, then clamp, then position; stretch and
      position only when real locations are being assigned. */
  function ApplyLayoutData(l: RowLayoutState, d: RowLayoutData, s: Slot, usePosition: bool, inner: Rect, acc: Point): Slot
  {
    var stretched := if usePosition then ApplyStretch(l, d, s.size, inner) else s.size;
    var clamped := ApplyMaxSize(d, stretched);
    var origin := if usePosition then ApplyPosition(l, d, s.origin, clamped, inner, acc) else s.origin;
    Slot(origin, clamped)
  }

  /** The body of the placement loop for one child at running offset `acc`. */
  function ChildSlot(l: RowLayoutState, c: Child, inner: Rect, usePosition: bool, acc: Point): Slot
  {
    var s := Slot(acc, PreferredSizeOf(c));
    if c.layoutData.RowDataPtr? then ApplyLayoutData(l, c.layoutData.data, s, usePosition, inner, acc)
    else s
  }

  /** The rectangle handed to the location callback: the rectangle from
      (0, 0) to the slot's size, translated by the padded rect's origin and
      then by the slot origin (written as one translation by their sum). */
  function SlotRect(inner: Rect, s: Slot): Rect
  {
    MakeRect(0, 0, s.size.w, s.size.h).Add(Point(inner.min.x + s.origin.x, inner.min.y + s.origin.y))
  }

  /** The running offset after a child of size `s`: only the primary axis moves. */
  function NextOffset(l: RowLayoutState, acc: Point, s: Size): (r: Point)
    ensures l.direction == Horizontal ==> r.y == acc.y && r.x - acc.x - l.spacing == s.w
    ensures l.direction == Vertical ==> r.x == acc.x && r.y - acc.y - l.spacing == s.h
  {
    if l.direction == Horizontal then Point(acc.x + s.w + l.spacing, acc.y)
    else Point(acc.x, acc.y + s.h + l.spacing)
  }

  /** The placement loop of `layout` from child `i` on, at running offset
      `acc`: one placement per locateable child, in child order. */
  function Walk(l: RowLayoutState, cs: seq<Child>, inner: Rect, usePosition: bool, i: nat, acc: Point): (r: seq<Placement>)
    requires i <= |cs|
    ensures |r| <= |cs| - i
    ensures forall k | 0 <= k < |r| :: i <= r[k].index < |cs| && cs[r[k].index].locateable
    ensures forall k, k' | 0 <= k < k' < |r| :: r[k].index < r[k'].index
    decreases |cs| - i
  {
    if i == |cs| then []
    else
      var s := ChildSlot(l, cs[i], inner, usePosition, acc);
      var here := if cs[i].locateable then [Placement(i, SlotRect(inner, s))] else [];
      here + Walk(l, cs, inner, usePosition, i + 1, NextOffset(l, acc, s.size))
  }

  /** `layout`: nothing for an empty child list; otherwise the placement loop
      over the padded rect, starting at offset (0, 0). */
  function Arrange(l: RowLayoutState, cs: seq<Child>, rect: Rect, usePosition: bool): (r: seq<Placement>)
    ensures |cs| == 0 ==> r == []
  {
    if |cs| == 0 then []
    else Walk(l, cs, l.padding.Apply(rect), usePosition, 0, Point(0, 0))
  }

  /** Folds `Union` over the placed rectangles, in order. */
  function UnionAll(acc: Rect, ps: seq<Placement>): Rect
    decreases |ps|
  {
    if |ps| == 0 then acc
    else UnionAll(Union(acc, ps[0].rect), ps[1..])
  }

  /** `PreferredSize`: the union of the speculative placements (laid out in
      the zero rectangle, without stretch or alignment), plus the padding. */
  function PreferredSize(l: RowLayoutState, cs: seq<Child>): Size
  {
    var u := UnionAll(ZeroRect, Arrange(l, cs, ZeroRect, false));
    Size(u.Dx() + l.padding.Dx(), u.Dy() + l.padding.Dy())
  }

  /** `Layout`: on a dirty layout, the placements of the real layout pass and
      a clean layout afterwards; on a clean one, nothing at all. */
  function Layout(l: RowLayoutState, cs: seq<Child>, rect: Rect): (r: (RowLayoutState, seq<Placement>))
    ensures !r.0.dirty
    ensures r.0.(dirty := l.dirty) == l
    ensures !l.dirty ==> r.1 == []
    ensures l.dirty ==> r.1 == Arrange(l, cs, rect, true)
  {
    if !l.dirty then (l, [])
    else (l.(dirty := false), Arrange(l, cs, rect, true))
  }
}
