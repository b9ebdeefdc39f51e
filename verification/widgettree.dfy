/** The part of the widget tree the drag-and-drop resolver relies on: every
    widget has at most one parent (`Widget.Parent()`). The tree is a finite
    parent map; a rank map that strictly decreases towards the root witnesses
    that parent chains are finite, which the source takes for granted. */
module WidgetTree {
  import opened Wrappers

  /** A widget's identity (the source compares `*widget.Widget` pointers). */
  type WidgetId = nat

  datatype Tree = Tree(parent: map<WidgetId, WidgetId>, rank: map<WidgetId, nat>)

  /** Parent chains are finite: a parent's rank is below its child's. */
  predicate Ranked(t: Tree)
  {
    forall w | w in t.parent :: w in t.rank && t.parent[w] in t.rank && t.rank[t.parent[w]] < t.rank[w]
  }

  /** `Parent()`; `None` is a nil parent. */
  function Parent(t: Tree, w: WidgetId): Option<WidgetId>
  {
    if w in t.parent then Some(t.parent[w]) else None
  }

  /** The termination measure of a walk to the root. */
  function Height(t: Tree, w: WidgetId): nat
  {
    if w in t.rank then t.rank[w] else 0
  }

  /** The linear scan `for _, s := range list { if s == w { return true } }`. */
  function Contains(list: seq<WidgetId>, w: WidgetId): (r: bool)
    ensures r <==> w in list
  {
    if list == [] then false
    else if list[0] == w then true
    else Contains(list[1..], w)
  }

  /** The recursion shared by `IsSource` and `IsTarget`: is `w` in `list`,
      or else, if it has a parent, is the parent registered in this sense? */
  function RegisteredAncestorOrSelf(list: seq<WidgetId>, t: Tree, w: WidgetId): bool
    requires Ranked(t)
    decreases Height(t, w)
  {
    if Contains(list, w) then true
    else match Parent(t, w)
      case None => false
      case Some(p) => RegisteredAncestorOrSelf(list, t, p)
  }

  /** The `k`-th ancestor of `w` (0 is `w` itself), if the chain is that long;
      defined by the number of steps, independently of the rank. */
  function Ancestor(t: Tree, w: WidgetId, k: nat): Option<WidgetId>
    decreases k
  {
    if k == 0 then Some(w)
    else match Parent(t, w)
      case None => None
      case Some(p) => Ancestor(t, p, k - 1)
  }

  /** `a` is `w` or one of its ancestors. */
  ghost predicate AncestorOrSelf(t: Tree, a: WidgetId, w: WidgetId)
  {
    exists k: nat :: Ancestor(t, w, k) == Some(a)
  }

  /** A registered ancestor-or-self makes the search answer true. */
  lemma {:induction false} ListedAncestorRegistered(list: seq<WidgetId>, t: Tree, w: WidgetId, k: nat)
    requires Ranked(t)
    requires Ancestor(t, w, k).Some? && Ancestor(t, w, k).value in list
    ensures RegisteredAncestorOrSelf(list, t, w)
    decreases k
  {
    if k > 0 && w !in list {
      ListedAncestorRegistered(list, t, Parent(t, w).value, k - 1);
    }
  }

  /** When the search answers true, it found a registered ancestor-or-self:
      `k` is how many parents up. */
  lemma {:induction false} RegisteredHasListedAncestor(list: seq<WidgetId>, t: Tree, w: WidgetId) returns (k: nat)
    requires Ranked(t)
    requires RegisteredAncestorOrSelf(list, t, w)
    ensures Ancestor(t, w, k).Some? && Ancestor(t, w, k).value in list
    decreases Height(t, w)
  {
    if w in list {
      k := 0;
    } else {
      var p := Parent(t, w).value;
      var j := RegisteredHasListedAncestor(list, t, p);
      k := j + 1;
      assert Ancestor(t, w, k) == Ancestor(t, p, j);
    }
  }

  /** The recursive search answers true exactly when some ancestor-or-self of
      `w` is registered in `list`. */
  lemma RegisteredIffAncestorListed(list: seq<WidgetId>, t: Tree, w: WidgetId)
    requires Ranked(t)
    ensures RegisteredAncestorOrSelf(list, t, w) <==>
      exists k: nat :: Ancestor(t, w, k).Some? && Ancestor(t, w, k).value in list
  {
    if RegisteredAncestorOrSelf(list, t, w) {
      var k := RegisteredHasListedAncestor(list, t, w);
    }
    forall k: nat | Ancestor(t, w, k).Some? && Ancestor(t, w, k).value in list
      ensures RegisteredAncestorOrSelf(list, t, w)
    {
      ListedAncestorRegistered(list, t, w, k);
    }
  }

  /** With nothing registered, no widget is found. */
  lemma {:induction false} EmptyListFindsNothing(t: Tree, w: WidgetId)
    requires Ranked(t)
    ensures !RegisteredAncestorOrSelf([], t, w)
    decreases Height(t, w)
  {
    if w in t.parent {
      EmptyListFindsNothing(t, t.parent[w]);
    }
  }

  /** Registering one more widget: a widget becomes registered exactly when
      it was already or the new widget is one of its ancestors-or-self. */
  lemma RegisterOneMore(list: seq<WidgetId>, t: Tree, s: WidgetId, w: WidgetId)
    requires Ranked(t)
    ensures RegisteredAncestorOrSelf(list + [s], t, w) <==>
      RegisteredAncestorOrSelf(list, t, w) || AncestorOrSelf(t, s, w)
  {
    if RegisteredAncestorOrSelf(list + [s], t, w) {
      var k := RegisteredHasListedAncestor(list + [s], t, w);
      if Ancestor(t, w, k).value in list {
        ListedAncestorRegistered(list, t, w, k);
      }
    }
    if RegisteredAncestorOrSelf(list, t, w) {
      var k := RegisteredHasListedAncestor(list, t, w);
      ListedAncestorRegistered(list + [s], t, w, k);
    }
    if AncestorOrSelf(t, s, w) {
      var k: nat :| Ancestor(t, w, k) == Some(s);
      ListedAncestorRegistered(list + [s], t, w, k);
    }
  }
}
