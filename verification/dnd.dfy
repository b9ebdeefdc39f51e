/** The demo's drag-and-drop contents: which widgets may start a drag, which
    accept a drop, and the label of the dragged widget. A widget counts as a
    source (target) when it or any ancestor was registered as one. */
module DragAndDrop {
  import opened Wrappers
  import opened WidgetTree
  import RowLayout

  const DragLabel := "Drag Me!"
  const DropLabel := "* DROP ME! *"

  /** The registered sources and targets, and the label of the text widget
      inside the current drag widget (`None` until a drag was created). */
  datatype DragContents = DragContents(sources: seq<WidgetId>, targets: seq<WidgetId>, text: Option<string>)

  /** The container `Create` hands to the drag machinery; only its row layout
      data is modelled (`RowLayoutData{Stretch: true}`, given by value). */
  datatype DragWidget = DragWidget(layoutData: RowLayout.LayoutData)

  const Empty := DragContents([], [], None)

  function IsSource(d: DragContents, t: Tree, w: WidgetId): bool
    requires Ranked(t)
  {
    RegisteredAncestorOrSelf(d.sources, t, w)
  }

  function IsTarget(d: DragContents, t: Tree, w: WidgetId): bool
    requires Ranked(t)
  {
    RegisteredAncestorOrSelf(d.targets, t, w)
  }

  /** `AddSource`: appends; targets and label are untouched. */
  function AddSource(d: DragContents, s: WidgetId): (r: DragContents)
    ensures r.sources == d.sources + [s] && r.targets == d.targets && r.text == d.text
  {
    d.(sources := d.sources + [s])
  }

  /** `AddTarget`: appends; sources and label are untouched. */
  function AddTarget(d: DragContents, s: WidgetId): (r: DragContents)
    ensures r.targets == d.targets + [s] && r.sources == d.sources && r.text == d.text
  {
    d.(targets := d.targets + [s])
  }

  /** `Create`: no drag widget unless `w` is a source; otherwise a fresh
      label reading "Drag Me!" inside a new container. */
  function Create(d: DragContents, t: Tree, w: WidgetId): (r: (DragContents, Option<DragWidget>))
    requires Ranked(t)
    ensures r.1.Some? <==> IsSource(d, t, w)
    ensures r.1.None? ==> r.0 == d
    ensures r.1.Some? ==> r.0 == d.(text := Some(DragLabel))
  {
    if !IsSource(d, t, w) then (d, None)
    else
      var stretch := RowLayout.RowLayoutData(RowLayout.Start, true, 0, 0);
      (d.(text := Some(DragLabel)), Some(DragWidget(RowLayout.RowDataValue(stretch))))
  }

  /** `Update`: the label says "* DROP ME! *" while hovering over a target
      (a nil target is none) and "Drag Me!" otherwise. The label must exist:
      the source dereferences it. */
  function Update(d: DragContents, t: Tree, target: Option<WidgetId>): (r: DragContents)
    requires Ranked(t)
    requires d.text.Some?
    ensures r.sources == d.sources && r.targets == d.targets
    ensures r.text == Some(DropLabel) <==> target.Some? && IsTarget(d, t, target.value)
    ensures r.text == Some(DragLabel) <==> !(target.Some? && IsTarget(d, t, target.value))
  {
    if target.Some? && IsTarget(d, t, target.value) then d.(text := Some(DropLabel))
    else d.(text := Some(DragLabel))
  }
}
