/** Properties of the drag-and-drop resolver in terms of the widget tree. */
module DragAndDropProofs {
  import opened Wrappers
  import opened WidgetTree
  import opened DragAndDrop
  import RowLayout
  import Geometry

  /** A widget is a source exactly when it or one of its ancestors was
      registered as a source; likewise for targets. */
  lemma SourceMeansListedAncestor(d: DragContents, t: Tree, w: WidgetId)
    requires Ranked(t)
    ensures IsSource(d, t, w) <==> exists k: nat :: Ancestor(t, w, k).Some? && Ancestor(t, w, k).value in d.sources
    ensures IsTarget(d, t, w) <==> exists k: nat :: Ancestor(t, w, k).Some? && Ancestor(t, w, k).value in d.targets
  {
    RegisteredIffAncestorListed(d.sources, t, w);
    RegisteredIffAncestorListed(d.targets, t, w);
  }

  /** Registering a source makes it and all its descendants sources, keeps
      every earlier source, adds nothing else, and leaves targets alone. */
  lemma AddSourceCoversDescendants(d: DragContents, t: Tree, s: WidgetId, w: WidgetId)
    requires Ranked(t)
    ensures IsSource(AddSource(d, s), t, w) <==> IsSource(d, t, w) || AncestorOrSelf(t, s, w)
    ensures IsTarget(AddSource(d, s), t, w) == IsTarget(d, t, w)
  {
    RegisterOneMore(d.sources, t, s, w);
  }

  /** The same for targets. */
  lemma AddTargetCoversDescendants(d: DragContents, t: Tree, s: WidgetId, w: WidgetId)
    requires Ranked(t)
    ensures IsTarget(AddTarget(d, s), t, w) <==> IsTarget(d, t, w) || AncestorOrSelf(t, s, w)
    ensures IsSource(AddTarget(d, s), t, w) == IsSource(d, t, w)
  {
    RegisterOneMore(d.targets, t, s, w);
  }

  /** A drag can only start from a source, and a created drag always leaves
      a label that `Update` can change; `Update` then shows "* DROP ME! *"
      exactly over a target or a descendant of one. */
  lemma CreateThenUpdate(d: DragContents, t: Tree, w: WidgetId, target: WidgetId)
    requires Ranked(t)
    requires Create(d, t, w).1.Some?
    ensures exists k: nat :: Ancestor(t, w, k).Some? && Ancestor(t, w, k).value in d.sources
    ensures Create(d, t, w).0.text.Some?
    ensures Update(Create(d, t, w).0, t, Some(target)).text == Some(DropLabel) <==>
      exists k: nat :: Ancestor(t, target, k).Some? && Ancestor(t, target, k).value in d.targets
  {
    SourceMeansListedAncestor(d, t, w);
    SourceMeansListedAncestor(Create(d, t, w).0, t, target);
  }

  /** The drag widget's stretch is given by value, which a row layout does
      not honour: in a row it would get its preferred size, as if it had no
      layout data at all. */
  lemma DragWidgetStretchIgnoredByRows(d: DragContents, t: Tree, w: WidgetId, pref: Option<RowLayout.Size>,
                                        l: RowLayout.RowLayoutState, inner: Geometry.Rect, acc: Geometry.Point)
    requires Ranked(t) && Create(d, t, w).1.Some?
    ensures var c := RowLayout.Child(pref, true, Create(d, t, w).1.value.layoutData);
      RowLayout.ChildSlot(l, c, inner, true, acc) == RowLayout.ChildSlot(l, c.(layoutData := RowLayout.NoLayoutData), inner, true, acc)
  {
  }

  /** A container with a child and a grandchild, and a sibling beside it:
      after registering the container as a source, the grandchild is a
      source and the sibling is not. */
  lemma NestedSourceExample(t: Tree, root: WidgetId, box: WidgetId, child: WidgetId, grandchild: WidgetId, sibling: WidgetId)
    requires root == 0 && box == 1 && child == 2 && grandchild == 3 && sibling == 4
    requires t.parent == map[box := root, child := box, grandchild := child, sibling := root]
    requires t.rank == map[root := 0, box := 1, child := 2, grandchild := 3, sibling := 1]
    ensures Ranked(t)
    ensures IsSource(AddSource(Empty, box), t, grandchild)
    ensures !IsSource(AddSource(Empty, box), t, sibling)
    ensures !IsTarget(AddSource(Empty, box), t, grandchild)
  {
    assert Ranked(t);
    assert Parent(t, grandchild) == Some(child) && Parent(t, child) == Some(box);
    assert Ancestor(t, grandchild, 2) == Some(box);
    ListedAncestorRegistered(AddSource(Empty, box).sources, t, grandchild, 2);
    var d := AddSource(Empty, box);
    assert d.sources == [box];
    assert Parent(t, root) == None && !RegisteredAncestorOrSelf(d.sources, t, root);
    assert Parent(t, sibling) == Some(root);
    EmptyListFindsNothing(t, grandchild);
  }
}
