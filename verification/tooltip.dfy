/** The demo's tooltip contents: a registry of tooltip texts per widget and
    the tooltip widget built for one of them, optionally with a second line
    showing the current time. */
module ToolTip {
  import opened Wrappers
  import opened Geometry
  import opened RowLayout
  import RowLayoutProofs
  import WidgetTree

  type WidgetId = WidgetTree.WidgetId

  /** `Tips`, `WidgetsWithTime`, `ShowTime`, the padding taken from the
      tooltip resources, and the labels of the two text widgets of the
      current tooltip (`None` while not created). */
  datatype ToolTipContents = ToolTipContents(
    tips: map<WidgetId, string>,
    widgetsWithTime: seq<WidgetId>,
    showTime: bool,
    padding: Insets,
    text: Option<string>,
    timeText: Option<string>)

  /** The tooltip container: its row layout and how many text lines it holds. */
  datatype ToolTipWidget = ToolTipWidget(layout: RowLayoutState, lines: nat)

  /** The container's layout: a row layout built from the options `Create`
      passes, in that order. */
  function ToolTipLayout(padding: Insets): RowLayoutState
  {
    NewRowLayout([DirectionOpt(Vertical), PaddingOpt(padding), SpacingOpt(2)])
  }

  /** The tooltip's layout is vertical, padded with the tooltip padding, puts
      two pixels between lines, and starts clean. */
  lemma ToolTipLayoutShape(padding: Insets)
    ensures ToolTipLayout(padding) == RowLayoutState(Vertical, padding, 2, false)
  {
    var opts := [DirectionOpt(Vertical), PaddingOpt(padding), SpacingOpt(2)];
    RowLayoutProofs.NewRowLayoutLastOptionWins(opts, 0);
    RowLayoutProofs.NewRowLayoutLastOptionWins(opts, 1);
    RowLayoutProofs.NewRowLayoutLastOptionWins(opts, 2);
  }

  /** `CanShowTime`: a linear scan of `WidgetsWithTime`. */
  function CanShowTime(tc: ToolTipContents, w: WidgetId): (r: bool)
    ensures r <==> w in tc.widgetsWithTime
  {
    WidgetTree.Contains(tc.widgetsWithTime, w)
  }

  /** Whether the tooltip of `w` shows the time line. */
  predicate ShowsTime(tc: ToolTipContents, w: WidgetId)
  {
    tc.showTime && CanShowTime(tc, w)
  }

  /** `Set`: registers or overwrites the tip of `w`; every other tip stays. */
  function Set(tc: ToolTipContents, w: WidgetId, s: string): (r: ToolTipContents)
    ensures w in r.tips && r.tips[w] == s
    ensures r.tips.Keys == tc.tips.Keys + {w}
    ensures forall v | v in tc.tips && v != w :: r.tips[v] == tc.tips[v]
    ensures r.(tips := tc.tips) == tc
  {
    tc.(tips := tc.tips[w := s])
  }

  /** `Create`: no tooltip for a widget without a tip (even an empty tip
      counts); otherwise one empty text line, plus an empty time line when
      the time is shown for `w`. A time label from an earlier tooltip is
      left as it was when no time line is created. */
  function Create(tc: ToolTipContents, w: WidgetId): (r: (ToolTipContents, Option<ToolTipWidget>))
    ensures r.1.None? <==> w !in tc.tips
    ensures r.1.None? ==> r.0 == tc
    ensures r.1.Some? ==> r.1.value.layout == ToolTipLayout(tc.padding) && r.0.text == Some("")
    ensures r.1.Some? ==> (r.1.value.lines == 2 <==> tc.showTime && w in tc.widgetsWithTime)
    ensures r.1.Some? ==> (r.1.value.lines == 1 <==> !(tc.showTime && w in tc.widgetsWithTime))
    ensures r.1.Some? && ShowsTime(tc, w) ==> r.0.timeText == Some("")
    ensures !ShowsTime(tc, w) ==> r.0.timeText == tc.timeText
    ensures r.0.tips == tc.tips && r.0.widgetsWithTime == tc.widgetsWithTime && r.0.showTime == tc.showTime
  {
    if w !in tc.tips then (tc, None)
    else
      var withText := tc.(text := Some(""));
      if ShowsTime(tc, w) then (withText.(timeText := Some("")), Some(ToolTipWidget(ToolTipLayout(tc.padding), 2)))
      else (withText, Some(ToolTipWidget(ToolTipLayout(tc.padding), 1)))
  }

  /** `Update`: the text line shows the tip of `w` (a missing tip reads as
      the empty string); the time line, only when shown for `w`, gets the
      formatted current time `now`. Both labels must exist: the source
      dereferences them. */
  function Update(tc: ToolTipContents, w: WidgetId, now: string): (r: ToolTipContents)
    requires tc.text.Some?
    requires ShowsTime(tc, w) ==> tc.timeText.Some?
    ensures w in tc.tips ==> r.text == Some(tc.tips[w])
    ensures w !in tc.tips ==> r.text == Some("")
    ensures tc.showTime && w in tc.widgetsWithTime ==> r.timeText == Some(now)
    ensures !(tc.showTime && w in tc.widgetsWithTime) ==> r.timeText == tc.timeText
    ensures r.tips == tc.tips && r.widgetsWithTime == tc.widgetsWithTime && r.showTime == tc.showTime
  {
    var tip := if w in tc.tips then tc.tips[w] else "";
    var withText := tc.(text := Some(tip));
    if !ShowsTime(tc, w) then withText else withText.(timeText := Some(now))
  }
}
