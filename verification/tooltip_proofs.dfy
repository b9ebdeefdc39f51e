/** Properties of the tooltip registry across calls, and the size of the
    tooltip it builds. */
module ToolTipProofs {
  import opened Wrappers
  import opened Geometry
  import opened RowLayout
  import RowLayoutProofs
  import opened ToolTip

  /** Whenever `Create` builds a tooltip, `Update` on the same widget can run
      (both labels it writes exist) and shows that widget's tip, with the time
      exactly when it is shown for the widget. */
  lemma CreateEnablesUpdate(tc: ToolTipContents, w: WidgetId, now: string)
    requires Create(tc, w).1.Some?
    ensures var c := Create(tc, w).0;
      && c.text.Some? && (ShowsTime(c, w) ==> c.timeText.Some?)
      && Update(c, w, now).text == Some(tc.tips[w])
      && (ShowsTime(tc, w) ==> Update(c, w, now).timeText == Some(now))
  {
  }

  /** `Set` followed by `Create` and `Update` shows the text just set; other
      widgets' tips are unaffected. */
  lemma SetThenShow(tc: ToolTipContents, w: WidgetId, v: WidgetId, s: string, now: string)
    ensures Create(Set(tc, w, s), w).1.Some?
    ensures Update(Create(Set(tc, w, s), w).0, w, now).text == Some(s)
    ensures v != w ==> (Create(Set(tc, w, s), v).1.Some? <==> Create(tc, v).1.Some?)
  {
  }

  /** A text line of the given preferred size. */
  function Line(s: Size): Child
  {
    Child(Some(s), true, NoLayoutData)
  }

  /** The preferred size of a one-line tooltip is its line plus padding. */
  lemma OneLineToolTipSize(tc: ToolTipContents, w: WidgetId, text: Size)
    requires Create(tc, w).1.Some? && Create(tc, w).1.value.lines == 1
    requires text.w > 0 && text.h > 0
    ensures PreferredSize(Create(tc, w).1.value.layout, [Line(text)]) ==
      Size(text.w + tc.padding.Dx(), text.h + tc.padding.Dy())
  {
    var l := ToolTipLayout(tc.padding);
    ToolTipLayoutShape(tc.padding);
    RowLayoutProofs.PlainRowPreferredSize(l, [Line(text)]);
  }

  /** The preferred size of a two-line tooltip: as wide as the wider line,
      as tall as both lines and the two-pixel gap, plus padding. */
  lemma TwoLineToolTipSize(tc: ToolTipContents, w: WidgetId, text: Size, time: Size)
    requires Create(tc, w).1.Some? && Create(tc, w).1.value.lines == 2
    requires text.w > 0 && text.h > 0 && time.w > 0 && time.h > 0
    ensures PreferredSize(Create(tc, w).1.value.layout, [Line(text), Line(time)]) ==
      Size(Max(text.w, time.w) + tc.padding.Dx(), text.h + time.h + 2 + tc.padding.Dy())
  {
    var l := ToolTipLayout(tc.padding);
    var cs := [Line(text), Line(time)];
    ToolTipLayoutShape(tc.padding);
    RowLayoutProofs.PlainRowPreferredSize(l, cs);
    assert PreferredSizeOf(cs[0]) == text && PreferredSizeOf(cs[1]) == time;
    assert RowLayoutProofs.SumAlong(Vertical, cs, 1) == text.h;
    assert RowLayoutProofs.SumAlong(Vertical, cs, 2) == text.h + time.h;
    assert RowLayoutProofs.MaxAcross(Vertical, cs, 1) == text.w;
    assert RowLayoutProofs.MaxAcross(Vertical, cs, 2) == Max(text.w, time.w);
  }
}
