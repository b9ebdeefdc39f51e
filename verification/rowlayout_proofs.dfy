/** Properties of the row layout: the cache (dirty flag) protocol, where each
    child is placed, how layout data changes a child, and the preferred size
    of a plain row. */
module RowLayoutProofs {
  import opened Geometry
  import opened Wrappers
  import opened RowLayout

  /* ---------------------------------------------------------------------- */
  /* Construction and the dirty flag                                         */
  /* ---------------------------------------------------------------------- */

  /** Each setting of a new layout is the one given by the last option of
      its kind: if option `j` is the last one of its kind, it decides. */
  lemma {:induction false} NewRowLayoutLastOptionWins(opts: seq<RowLayoutOpt>, j: nat)
    requires j < |opts|
    ensures opts[j].DirectionOpt? && (forall j' | j < j' < |opts| :: !opts[j'].DirectionOpt?) ==>
      NewRowLayout(opts).direction == opts[j].d
    ensures opts[j].PaddingOpt? && (forall j' | j < j' < |opts| :: !opts[j'].PaddingOpt?) ==>
      NewRowLayout(opts).padding == opts[j].i
    ensures opts[j].SpacingOpt? && (forall j' | j < j' < |opts| :: !opts[j'].SpacingOpt?) ==>
      NewRowLayout(opts).spacing == opts[j].s
  {
    if j < |opts| - 1 {
      var init := opts[..|opts| - 1];
      NewRowLayoutLastOptionWins(init, j);
      assert init[j] == opts[j];
      assert forall j' | j < j' < |init| :: init[j'] == opts[j'];
    }
  }

  /** The placement loop reads the configuration, never the dirty flag. */
  lemma {:induction false} WalkIgnoresDirty(l: RowLayoutState, cs: seq<Child>, inner: Rect, usePosition: bool, i: nat, acc: Point, dirty: bool)
    requires i <= |cs|
    ensures Walk(l.(dirty := dirty), cs, inner, usePosition, i, acc) == Walk(l, cs, inner, usePosition, i, acc)
    decreases |cs| - i
  {
    if i < |cs| {
      var l' := l.(dirty := dirty);
      var s := ChildSlot(l, cs[i], inner, usePosition, acc);
      assert ChildSlot(l', cs[i], inner, usePosition, acc) == s;
      assert NextOffset(l', acc, s.size) == NextOffset(l, acc, s.size);
      var here := if cs[i].locateable then [Placement(i, SlotRect(inner, s))] else [];
      calc {
        Walk(l', cs, inner, usePosition, i, acc);
        here + Walk(l', cs, inner, usePosition, i + 1, NextOffset(l, acc, s.size));
        { WalkIgnoresDirty(l, cs, inner, usePosition, i + 1, NextOffset(l, acc, s.size), dirty); }
        here + Walk(l, cs, inner, usePosition, i + 1, NextOffset(l, acc, s.size));
        Walk(l, cs, inner, usePosition, i, acc);
      }
    }
  }

  /** A freshly built layout is clean, so its first `Layout` places nothing. */
  lemma FreshLayoutPlacesNothing(opts: seq<RowLayoutOpt>, cs: seq<Child>, rect: Rect)
    ensures Layout(NewRowLayout(opts), cs, rect).1 == []
  {
  }

  /** A second `Layout` without an intervening `MarkDirty` places nothing and
      leaves the layout as it was. */
  lemma SecondLayoutPlacesNothing(l: RowLayoutState, cs: seq<Child>, rect: Rect, cs': seq<Child>, rect': Rect)
    ensures var l' := Layout(l, cs, rect).0;
      Layout(l', cs', rect') == (l', [])
  {
  }

  /** After `MarkDirty`, `Layout` assigns the full placement of the layout's
      configuration, then the layout is back to its clean self. */
  lemma MarkDirtyThenLayout(l: RowLayoutState, cs: seq<Child>, rect: Rect)
    requires !l.dirty
    ensures Layout(MarkDirty(l), cs, rect) == (l, Arrange(l, cs, rect, true))
  {
    if |cs| > 0 {
      WalkIgnoresDirty(l, cs, l.padding.Apply(rect), true, 0, Point(0, 0), true);
    }
  }

  /** With no children, nothing is placed and the preferred size is exactly
      the padding. */
  lemma EmptyRow(l: RowLayoutState, rect: Rect, usePosition: bool)
    ensures Arrange(l, [], rect, usePosition) == []
    ensures PreferredSize(l, []) == Size(l.padding.Dx(), l.padding.Dy())
  {
  }

  /* ---------------------------------------------------------------------- */
  /* Where every child goes                                                  */
  /* ---------------------------------------------------------------------- */

  /** The extent of a child along the primary axis. */
  function Along(d: Direction, s: Size): int
  {
    if d == Horizontal then s.w else s.h
  }

  /** The size of a child once its layout data is applied; it does not depend
      on where the child is. */
  function ChildExtent(l: RowLayoutState, c: Child, inner: Rect, usePosition: bool): Size
  {
    ChildSlot(l, c, inner, usePosition, Point(0, 0)).size
  }

  lemma SlotSizeIgnoresOffset(l: RowLayoutState, c: Child, inner: Rect, usePosition: bool, acc: Point)
    ensures ChildSlot(l, c, inner, usePosition, acc).size == ChildExtent(l, c, inner, usePosition)
  {
  }

  /** The sum of the primary extents of the first `n` children. */
  function ExtentSum(l: RowLayoutState, cs: seq<Child>, inner: Rect, usePosition: bool, n: nat): int
    requires n <= |cs|
  {
    if n == 0 then 0
    else ExtentSum(l, cs, inner, usePosition, n - 1) + Along(l.direction, ChildExtent(l, cs[n - 1], inner, usePosition))
  }

  /** `n` spacings, added up one at a time as the layout loop does. */
  function Gaps(n: nat, spacing: int): (g: int)
    ensures spacing >= 0 ==> g >= 0
  {
    if n == 0 then 0 else Gaps(n - 1, spacing) + spacing
  }

  lemma {:induction false} GapsAreProduct(n: nat, spacing: int)
    ensures Gaps(n, spacing) == n * spacing
  {
    if n > 0 {
      GapsAreProduct(n - 1, spacing);
    }
  }

  /** The running offset at child `i`: the previous children's extents plus
      `i` spacings on the primary axis, and always 0 on the cross axis. */
  function OffsetAt(l: RowLayoutState, cs: seq<Child>, inner: Rect, usePosition: bool, i: nat): Point
    requires i <= |cs|
  {
    var a := ExtentSum(l, cs, inner, usePosition, i) + Gaps(i, l.spacing);
    if l.direction == Horizontal then Point(a, 0) else Point(0, a)
  }

  /** The rectangle of child `i` in closed form. */
  function ChildRect(l: RowLayoutState, cs: seq<Child>, inner: Rect, usePosition: bool, i: nat): Rect
    requires i < |cs|
  {
    SlotRect(inner, ChildSlot(l, cs[i], inner, usePosition, OffsetAt(l, cs, inner, usePosition, i)))
  }

  /** The loop's offset update agrees with the closed form. */
  lemma OffsetStep(l: RowLayoutState, cs: seq<Child>, inner: Rect, usePosition: bool, i: nat)
    requires i < |cs|
    ensures NextOffset(l, OffsetAt(l, cs, inner, usePosition, i), ChildExtent(l, cs[i], inner, usePosition))
      == OffsetAt(l, cs, inner, usePosition, i + 1)
  {
  }

  /** Every placement in `ps` carries the closed form rectangle of its child. */
  predicate ClosedFormRects(l: RowLayoutState, cs: seq<Child>, inner: Rect, usePosition: bool, ps: seq<Placement>)
  {
    forall k | 0 <= k < |ps| && ps[k].index < |cs| :: ps[k].rect == ChildRect(l, cs, inner, usePosition, ps[k].index)
  }

  /** Every placement of the loop from child `i` on (started at the closed
      form offset) carries the closed form rectangle of its child. */
  lemma {:induction false} WalkRects(l: RowLayoutState, cs: seq<Child>, inner: Rect, usePosition: bool, i: nat)
    requires i <= |cs|
    ensures ClosedFormRects(l, cs, inner, usePosition, Walk(l, cs, inner, usePosition, i, OffsetAt(l, cs, inner, usePosition, i)))
    decreases |cs| - i
  {
    if i < |cs| {
      var acc := OffsetAt(l, cs, inner, usePosition, i);
      var s := ChildSlot(l, cs[i], inner, usePosition, acc);
      var next := OffsetAt(l, cs, inner, usePosition, i + 1);
      SlotSizeIgnoresOffset(l, cs[i], inner, usePosition, acc);
      OffsetStep(l, cs, inner, usePosition, i);
      var rest := Walk(l, cs, inner, usePosition, i + 1, next);
      var ps := Walk(l, cs, inner, usePosition, i, acc);
      WalkRects(l, cs, inner, usePosition, i + 1);
      if cs[i].locateable {
        var p := Placement(i, SlotRect(inner, s));
        assert ps == [p] + rest;
        forall k | 0 <= k < |ps| && ps[k].index < |cs|
          ensures ps[k].rect == ChildRect(l, cs, inner, usePosition, ps[k].index)
        {
          if k > 0 {
            assert ps[k] == rest[k - 1];
          }
        }
      } else {
        assert ps == rest;
      }
    }
  }

  /** Some placement is for child `j`. */
  predicate Placed(ps: seq<Placement>, j: nat)
  {
    exists k | 0 <= k < |ps| :: ps[k].index == j
  }

  /** Every locateable child from `i` on has a placement in `ps`. */
  predicate PlacesAllFrom(cs: seq<Child>, ps: seq<Placement>, i: nat)
  {
    forall j | i <= j < |cs| && cs[j].locateable :: Placed(ps, j)
  }

  /** The loop from child `i` on places every locateable child from `i` on,
      wherever it starts. */
  lemma {:induction false} WalkComplete(l: RowLayoutState, cs: seq<Child>, inner: Rect, usePosition: bool, i: nat, acc: Point)
    requires i <= |cs|
    ensures PlacesAllFrom(cs, Walk(l, cs, inner, usePosition, i, acc), i)
    decreases |cs| - i
  {
    if i < |cs| {
      var s := ChildSlot(l, cs[i], inner, usePosition, acc);
      var next := NextOffset(l, acc, s.size);
      var rest := Walk(l, cs, inner, usePosition, i + 1, next);
      var ps := Walk(l, cs, inner, usePosition, i, acc);
      WalkComplete(l, cs, inner, usePosition, i + 1, next);
      if cs[i].locateable {
        var p := Placement(i, SlotRect(inner, s));
        assert ps == [p] + rest;
        assert ps[0] == p;
        forall j | i < j < |cs| && cs[j].locateable
          ensures Placed(ps, j)
        {
          var k :| 0 <= k < |rest| && rest[k].index == j;
          assert ps[k + 1] == rest[k];
        }
      } else {
        assert ps == rest;
      }
    }
  }

  /** `Layout`/`PreferredSize` hand exactly the locateable children, each
      once and in child order, to the location callback, and child `i` gets
      the rectangle of its slot at offset `OffsetAt(i)`: the sum of the
      earlier children's final extents (locateable or not) plus `i` spacings
      along the primary axis, and 0 across it. */
  lemma PlacesEveryLocateableChild(l: RowLayoutState, cs: seq<Child>, rect: Rect, usePosition: bool)
    ensures var ps := Arrange(l, cs, rect, usePosition);
      && (forall k | 0 <= k < |ps| :: ps[k].index < |cs| && cs[ps[k].index].locateable)
      && (forall k, k' | 0 <= k < k' < |ps| :: ps[k].index < ps[k'].index)
      && PlacesAllFrom(cs, ps, 0)
      && ClosedFormRects(l, cs, l.padding.Apply(rect), usePosition, ps)
  {
    if |cs| > 0 {
      var inner := l.padding.Apply(rect);
      assert OffsetAt(l, cs, inner, usePosition, 0) == Point(0, 0);
      WalkRects(l, cs, inner, usePosition, 0);
      WalkComplete(l, cs, inner, usePosition, 0, Point(0, 0));
    }
  }

  /** A child's rectangle has the child's extents and starts at the padded
      origin shifted by the slot origin; on the primary axis the slot origin is
      the running offset itself. */
  lemma ChildRectGeometry(l: RowLayoutState, cs: seq<Child>, inner: Rect, usePosition: bool, i: nat)
    requires i < |cs|
    requires ChildExtent(l, cs[i], inner, usePosition).w >= 0 && ChildExtent(l, cs[i], inner, usePosition).h >= 0
    ensures var r := ChildRect(l, cs, inner, usePosition, i);
      var s := ChildExtent(l, cs[i], inner, usePosition);
      var a := ExtentSum(l, cs, inner, usePosition, i) + i * l.spacing;
      && r.Dx() == s.w && r.Dy() == s.h
      && (l.direction == Horizontal ==> r.min.x == inner.min.x + a)
      && (l.direction == Vertical ==> r.min.y == inner.min.y + a)
  {
    GapsAreProduct(i, l.spacing);
  }

  /** The rectangle handed to the location callback has the magnitudes of
      the slot's extents: `image.Rect` orders its corners, so a negative
      extent comes out flipped and the rectangle is never inverted. */
  lemma SlotRectExtents(inner: Rect, s: Slot)
    ensures SlotRect(inner, s).Dx() == (if s.size.w >= 0 then s.size.w else -s.size.w)
    ensures SlotRect(inner, s).Dy() == (if s.size.h >= 0 then s.size.h else -s.size.h)
  {
  }

  /** Rectangles without negative extents stay so under the union loop. */
  lemma {:induction false} UnionAllNotInverted(acc: Rect, ps: seq<Placement>)
    requires acc.Dx() >= 0 && acc.Dy() >= 0
    requires forall k | 0 <= k < |ps| :: ps[k].rect.Dx() >= 0 && ps[k].rect.Dy() >= 0
    ensures UnionAll(acc, ps).Dx() >= 0 && UnionAll(acc, ps).Dy() >= 0
    decreases |ps|
  {
    if |ps| > 0 {
      var rest := ps[1..];
      assert forall k | 0 <= k < |rest| :: rest[k] == ps[k + 1];
      UnionAllNotInverted(Union(acc, ps[0].rect), rest);
    }
  }

  /** `PreferredSize` is never smaller than the padding, whatever sizes the
      children report: every placed rectangle is ordered by `image.Rect`, and
      so is their union. */
  lemma PreferredSizeCoversPadding(l: RowLayoutState, cs: seq<Child>)
    ensures PreferredSize(l, cs).w >= l.padding.Dx()
    ensures PreferredSize(l, cs).h >= l.padding.Dy()
  {
    var inner := l.padding.Apply(ZeroRect);
    var ps := Arrange(l, cs, ZeroRect, false);
    PlacesEveryLocateableChild(l, cs, ZeroRect, false);
    forall k | 0 <= k < |ps| ensures ps[k].rect.Dx() >= 0 && ps[k].rect.Dy() >= 0 {
      var i := ps[k].index;
      assert ps[k].rect == ChildRect(l, cs, inner, false, i);
      SlotRectExtents(inner, ChildSlot(l, cs[i], inner, false, OffsetAt(l, cs, inner, false, i)));
    }
    UnionAllNotInverted(ZeroRect, ps);
  }

  /* ---------------------------------------------------------------------- */
  /* How layout data changes one child                                       */
  /* ---------------------------------------------------------------------- */

  /** The extent of a size across the primary axis. */
  function Across(d: Direction, s: Size): int
  {
    if d == Horizontal then s.h else s.w
  }

  /** The coordinate of a point along, and across, the primary axis. */
  function AlongAt(d: Direction, p: Point): int
  {
    if d == Horizontal then p.x else p.y
  }

  function AcrossAt(d: Direction, p: Point): int
  {
    if d == Horizontal then p.y else p.x
  }

  /** A value capped by a maximum, where a maximum of 0 or less is none. */
  function Capped(max: int, v: int): int
  {
    if max > 0 then Min(v, max) else v
  }

  /** Layout data other than a `*RowLayoutData` is ignored: the child keeps
      its preferred size (50x50 without one) and sits at the running offset.
      In particular a `RowLayoutData` stored by value changes nothing. */
  lemma OnlyRowDataPointerHonoured(l: RowLayoutState, c: Child, inner: Rect, usePosition: bool, acc: Point)
    requires !c.layoutData.RowDataPtr?
    ensures ChildSlot(l, c, inner, usePosition, acc) == Slot(acc, PreferredSizeOf(c))
    ensures c.preferred.None? ==> PreferredSizeOf(c) == Size(50, 50)
    ensures c.preferred.Some? ==> PreferredSizeOf(c) == c.preferred.value
    ensures ChildSlot(l, c, inner, usePosition, acc) == ChildSlot(l, c.(layoutData := NoLayoutData), inner, usePosition, acc)
  {
  }

  /** Stretch, then clamp: a stretched child takes the padded rect's cross
      extent, and a positive maximum caps the result; stretch is ignored when
      only the preferred size is being computed, the cap is not. The primary
      extent is never stretched. */
  lemma StretchThenClamp(l: RowLayoutState, c: Child, inner: Rect, usePosition: bool, acc: Point)
    requires c.layoutData.RowDataPtr?
    ensures var d := c.layoutData.data;
      var p := PreferredSizeOf(c);
      var s := ChildSlot(l, c, inner, usePosition, acc).size;
      var stretch := usePosition && d.stretch;
      && s.w == Capped(d.maxWidth, if stretch && l.direction == Vertical then inner.Dx() else p.w)
      && s.h == Capped(d.maxHeight, if stretch && l.direction == Horizontal then inner.Dy() else p.h)
  {
  }

  /** Alignment moves a child only across the primary axis: `Start` keeps it
      at the running offset, `End` puts its trailing edge on the padded rect's
      trailing edge, and `Center` splits the free room in two, the first part
      being half the room rounded toward zero (Go division), also when the
      room is negative. Without positioning the child stays at the offset. */
  lemma CrossAlignment(l: RowLayoutState, c: Child, inner: Rect, usePosition: bool, acc: Point)
    ensures var s := ChildSlot(l, c, inner, usePosition, acc);
      var room := Across(l.direction, Size(inner.Dx(), inner.Dy())) - Across(l.direction, s.size);
      var shift := AcrossAt(l.direction, s.origin) - AcrossAt(l.direction, acc);
      && AlongAt(l.direction, s.origin) == AlongAt(l.direction, acc)
      && (!usePosition || !c.layoutData.RowDataPtr? || c.layoutData.data.position == Start ==> shift == 0)
      && (usePosition && c.layoutData.RowDataPtr? && c.layoutData.data.position == End ==> shift == room)
      && (usePosition && c.layoutData.RowDataPtr? && c.layoutData.data.position == Center ==>
            && (room >= 0 ==> 0 <= room - 2 * shift <= 1)
            && (room < 0 ==> -1 <= room - 2 * shift <= 0))
  {
  }

  /* ---------------------------------------------------------------------- */
  /* The preferred size of a plain row                                       */
  /* ---------------------------------------------------------------------- */

  /** A row whose children are all locateable, carry no row layout data and
      have a positive size, with a non-negative spacing. */
  predicate PlainRow(l: RowLayoutState, cs: seq<Child>)
  {
    && l.spacing >= 0
    && forall j | 0 <= j < |cs| ::
         && cs[j].locateable && !cs[j].layoutData.RowDataPtr?
         && PreferredSizeOf(cs[j]).w > 0 && PreferredSizeOf(cs[j]).h > 0
  }

  /** The sum of the first `n` preferred extents along the primary axis. */
  function SumAlong(d: Direction, cs: seq<Child>, n: nat): int
    requires n <= |cs|
  {
    if n == 0 then 0 else SumAlong(d, cs, n - 1) + Along(d, PreferredSizeOf(cs[n - 1]))
  }

  /** The largest of the first `n` preferred extents across the primary axis. */
  function MaxAcross(d: Direction, cs: seq<Child>, n: nat): int
    requires 1 <= n <= |cs|
  {
    if n == 1 then Across(d, PreferredSizeOf(cs[0]))
    else Max(MaxAcross(d, cs, n - 1), Across(d, PreferredSizeOf(cs[n - 1])))
  }

  lemma {:induction false} PlainRowSums(l: RowLayoutState, cs: seq<Child>, n: nat)
    requires PlainRow(l, cs) && 1 <= n <= |cs|
    ensures SumAlong(l.direction, cs, n) >= n
    ensures MaxAcross(l.direction, cs, n) > 0
  {
    if n > 1 {
      PlainRowSums(l, cs, n - 1);
    }
  }

  /** The running offset of a plain row at child `i`. */
  function PlainOffset(l: RowLayoutState, cs: seq<Child>, i: nat): Point
    requires i <= |cs|
  {
    var a := SumAlong(l.direction, cs, i) + Gaps(i, l.spacing);
    if l.direction == Horizontal then Point(a, 0) else Point(0, a)
  }

  /** The union of the first `k` rectangles of a plain row laid out in `inner`. */
  function Hull(l: RowLayoutState, cs: seq<Child>, inner: Rect, k: nat): Rect
    requires 1 <= k <= |cs|
  {
    var a := SumAlong(l.direction, cs, k) + Gaps(k - 1, l.spacing);
    var c := MaxAcross(l.direction, cs, k);
    if l.direction == Horizontal then Rect(inner.min, Point(inner.min.x + a, inner.min.y + c))
    else Rect(inner.min, Point(inner.min.x + c, inner.min.y + a))
  }

  /** A slot of positive size covers `size` from `inner.min + origin`. */
  lemma SlotRectOfPositiveSize(inner: Rect, s: Slot)
    requires s.size.w > 0 && s.size.h > 0
    ensures var o := Point(inner.min.x + s.origin.x, inner.min.y + s.origin.y);
      SlotRect(inner, s) == Rect(o, Point(o.x + s.size.w, o.y + s.size.h))
  {
  }

  /** A box placed after the hull along x (resp. y) extends it to the box's
      far edge and to the larger cross extent. */
  lemma UnionExtendsX(m: Point, a: int, c: int, off: int, w: int, h: int)
    requires a > 0 && c > 0 && off >= a && w > 0 && h > 0
    ensures Union(Rect(m, Point(m.x + a, m.y + c)), Rect(Point(m.x + off, m.y), Point(m.x + off + w, m.y + h)))
      == Rect(m, Point(m.x + off + w, m.y + Max(c, h)))
  {
  }

  lemma UnionExtendsY(m: Point, a: int, c: int, off: int, w: int, h: int)
    requires a > 0 && c > 0 && off >= a && w > 0 && h > 0
    ensures Union(Rect(m, Point(m.x + c, m.y + a)), Rect(Point(m.x, m.y + off), Point(m.x + h, m.y + off + w)))
      == Rect(m, Point(m.x + Max(c, h), m.y + off + w))
  {
  }

  /** One step of the union loop over a plain row. */
  lemma HullGrows(l: RowLayoutState, cs: seq<Child>, inner: Rect, i: nat)
    requires PlainRow(l, cs) && 1 <= i < |cs|
    ensures var p := PreferredSizeOf(cs[i]);
      Union(Hull(l, cs, inner, i), SlotRect(inner, Slot(PlainOffset(l, cs, i), p))) == Hull(l, cs, inner, i + 1)
  {
    var p := PreferredSizeOf(cs[i]);
    var off := PlainOffset(l, cs, i);
    PlainRowSums(l, cs, i);
    var sum, across := SumAlong(l.direction, cs, i), MaxAcross(l.direction, cs, i);
    var a, o := sum + Gaps(i - 1, l.spacing), sum + Gaps(i, l.spacing);
    SlotRectOfPositiveSize(inner, Slot(off, p));
    if l.direction == Horizontal {
      UnionExtendsX(inner.min, a, across, o, p.w, p.h);
    } else {
      UnionExtendsY(inner.min, a, across, o, p.h, p.w);
    }
  }

  /** The placements of a plain row from child `i` on, in closed form: each
      child at its running offset with its preferred size. */
  function PlainPlacements(l: RowLayoutState, cs: seq<Child>, inner: Rect, i: nat): seq<Placement>
    requires i <= |cs|
    decreases |cs| - i
  {
    if i == |cs| then []
    else
      var here := Placement(i, SlotRect(inner, Slot(PlainOffset(l, cs, i), PreferredSizeOf(cs[i]))));
      [here] + PlainPlacements(l, cs, inner, i + 1)
  }

  /** One turn of the layout loop over a plain row. */
  lemma PlainWalkStep(l: RowLayoutState, cs: seq<Child>, inner: Rect, i: nat)
    requires PlainRow(l, cs) && i < |cs|
    ensures Walk(l, cs, inner, false, i, PlainOffset(l, cs, i)) ==
      [Placement(i, SlotRect(inner, Slot(PlainOffset(l, cs, i), PreferredSizeOf(cs[i]))))]
        + Walk(l, cs, inner, false, i + 1, PlainOffset(l, cs, i + 1))
  {
    var acc := PlainOffset(l, cs, i);
    var p := PreferredSizeOf(cs[i]);
    assert ChildSlot(l, cs[i], inner, false, acc) == Slot(acc, p);
    assert NextOffset(l, acc, p) == PlainOffset(l, cs, i + 1);
  }

  /** On a plain row, the layout loop produces the closed form. */
  lemma {:induction false} WalkIsPlain(l: RowLayoutState, cs: seq<Child>, inner: Rect, i: nat)
    requires PlainRow(l, cs) && i <= |cs|
    ensures Walk(l, cs, inner, false, i, PlainOffset(l, cs, i)) == PlainPlacements(l, cs, inner, i)
    decreases |cs| - i
  {
    if i < |cs| {
      PlainWalkStep(l, cs, inner, i);
      WalkIsPlain(l, cs, inner, i + 1);
    }
  }

  /** The union loop takes one placement off the front. */
  lemma UnionAllCons(acc: Rect, p: Placement, rest: seq<Placement>)
    ensures UnionAll(acc, [p] + rest) == UnionAll(Union(acc, p.rect), rest)
  {
    assert ([p] + rest)[1..] == rest;
  }

  lemma {:induction false} HullOfPlacements(l: RowLayoutState, cs: seq<Child>, inner: Rect, i: nat)
    requires PlainRow(l, cs) && 1 <= i <= |cs|
    ensures UnionAll(Hull(l, cs, inner, i), PlainPlacements(l, cs, inner, i)) == Hull(l, cs, inner, |cs|)
    decreases |cs| - i
  {
    if i < |cs| {
      var here := Placement(i, SlotRect(inner, Slot(PlainOffset(l, cs, i), PreferredSizeOf(cs[i]))));
      UnionAllCons(Hull(l, cs, inner, i), here, PlainPlacements(l, cs, inner, i + 1));
      HullGrows(l, cs, inner, i);
      HullOfPlacements(l, cs, inner, i + 1);
    }
  }

  /** The speculative pass over a plain row covers exactly the hull of all
      its children. */
  lemma PlainRowHull(l: RowLayoutState, cs: seq<Child>)
    requires PlainRow(l, cs) && |cs| > 0
    ensures UnionAll(ZeroRect, Arrange(l, cs, ZeroRect, false)) == Hull(l, cs, l.padding.Apply(ZeroRect), |cs|)
  {
    var inner := l.padding.Apply(ZeroRect);
    WalkIsPlain(l, cs, inner, 0);
    var here := Placement(0, SlotRect(inner, Slot(PlainOffset(l, cs, 0), PreferredSizeOf(cs[0]))));
    UnionAllCons(ZeroRect, here, PlainPlacements(l, cs, inner, 1));
    FirstHull(l, cs, inner);
    HullOfPlacements(l, cs, inner, 1);
  }

  lemma FirstHull(l: RowLayoutState, cs: seq<Child>, inner: Rect)
    requires PlainRow(l, cs) && |cs| > 0
    ensures Union(ZeroRect, SlotRect(inner, Slot(PlainOffset(l, cs, 0), PreferredSizeOf(cs[0])))) == Hull(l, cs, inner, 1)
  {
    SlotRectOfPositiveSize(inner, Slot(PlainOffset(l, cs, 0), PreferredSizeOf(cs[0])));
  }

  /** The extents of the hull of the first `k` children of a row. */
  lemma HullExtents(l: RowLayoutState, cs: seq<Child>, inner: Rect, k: nat)
    requires 1 <= k <= |cs|
    ensures var h := Hull(l, cs, inner, k);
      var along := SumAlong(l.direction, cs, k) + (k - 1) * l.spacing;
      var across := MaxAcross(l.direction, cs, k);
      && (l.direction == Horizontal ==> h.Dx() == along && h.Dy() == across)
      && (l.direction == Vertical ==> h.Dx() == across && h.Dy() == along)
  {
    GapsAreProduct(k - 1, l.spacing);
  }

  /** The preferred size of a plain row: along the primary axis, the sum of
      the children's extents plus the spacings between them plus the padding;
      across it, the largest child extent plus the padding. */
  lemma PlainRowPreferredSize(l: RowLayoutState, cs: seq<Child>)
    requires PlainRow(l, cs) && |cs| > 0
    ensures var along := SumAlong(l.direction, cs, |cs|) + (|cs| - 1) * l.spacing;
      var across := MaxAcross(l.direction, cs, |cs|);
      PreferredSize(l, cs) ==
        if l.direction == Horizontal then Size(along + l.padding.Dx(), across + l.padding.Dy())
        else Size(across + l.padding.Dx(), along + l.padding.Dy())
  {
    PlainRowHull(l, cs);
    HullExtents(l, cs, l.padding.Apply(ZeroRect), |cs|);
  }

  /** Three 50-wide children in a horizontal row with spacing 10 and no
      padding start at x offsets 0, 60 and 120. */
  lemma ThreeChildrenExample(l: RowLayoutState, c: Child, rect: Rect)
    requires l == RowLayoutState(Horizontal, NoInsets, 10, true)
    requires c == Child(None, true, NoLayoutData)
    requires rect == Rect(Point(0, 0), Point(190, 50))
    ensures Layout(l, [c, c, c], rect).1 ==
      [Placement(0, Rect(Point(0, 0), Point(50, 50))),
       Placement(1, Rect(Point(60, 0), Point(110, 50))),
       Placement(2, Rect(Point(120, 0), Point(170, 50)))]
  {
    var cs := [c, c, c];
    assert l.padding.Apply(rect) == rect;
    var p0 := Placement(0, Rect(Point(0, 0), Point(50, 50)));
    var p1 := Placement(1, Rect(Point(60, 0), Point(110, 50)));
    var p2 := Placement(2, Rect(Point(120, 0), Point(170, 50)));
    assert Walk(l, cs, rect, true, 3, Point(180, 0)) == [];
    assert Walk(l, cs, rect, true, 2, Point(120, 0)) == [p2];
    assert Walk(l, cs, rect, true, 1, Point(60, 0)) == [p1, p2];
    assert Walk(l, cs, rect, true, 0, Point(0, 0)) == [p0, p1, p2];
  }
}
