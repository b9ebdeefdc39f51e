/** The checkbox widget: a state machine over `CheckboxState` driven by
    clicks on an inner button that is built lazily behind a deferred-init gate,
    with a changed event fired on every real change of state. */
module Checkbox {
  import opened Wrappers
  import DeferredInit

  /** `CheckboxState` is a Go `int`; the three declared values are below and
      any other value is possible but undeclared. */
  newtype CheckboxState = int

  const Unchecked: CheckboxState := 0
  const Checked: CheckboxState := 1
  const Greyed: CheckboxState := 2

  /** The three graphic variants of `CheckboxGraphicImage`. */
  datatype Graphic = UncheckedGraphic | CheckedGraphic | GreyedGraphic

  /** A fired changed event: which checkbox and its new state. */
  datatype ChangedEvent = ChangedEvent(checkbox: nat, state: CheckboxState)

  /** The public entry points that open the deferred-init gate. */
  datatype EntryPoint = GetWidget | PreferredSize | SetLocation | SetupInputLayer | Render

  /** A checkbox: its identity, tri-state mode, current state, its init gate,
      the graphic installed on the inner button by the last render, and the
      log of changed events fired so far. */
  datatype Checkbox = Checkbox(
    id: nat,
    triState: bool,
    state: CheckboxState,
    init: DeferredInit.Once,
    graphic: Option<Graphic>,
    events: seq<ChangedEvent>)

  /** A two-state checkbox is never Greyed. */
  predicate Valid(c: Checkbox)
  {
    && (c.state == Greyed ==> c.triState)
    && DeferredInit.Valid(c.init)
  }

  /** `NewCheckbox`: the zero state, nothing built, nothing fired. */
  function NewCheckbox(id: nat, triState: bool): (c: Checkbox)
    ensures c.state == Unchecked && c.events == [] && !c.init.done
    ensures Valid(c)
  {
    Checkbox(id, triState, Unchecked, DeferredInit.Fresh, None, [])
  }

  /** The states the source declares. */
  predicate Declared(s: CheckboxState)
  {
    s == Unchecked || s == Checked || s == Greyed
  }

  /** `Advance`: the state after a click. It always moves to another declared
      state, and never to Greyed unless the checkbox is tri-state; every state
      other than Unchecked and Checked (Greyed, or an undeclared value) goes
      back to Unchecked. */
  function Advance(s: CheckboxState, triState: bool): (r: CheckboxState)
    ensures r != s
    ensures Declared(r)
    ensures r == Greyed ==> triState
    ensures s != Unchecked && s != Checked ==> r == Unchecked
  {
    if s == Unchecked then Checked
    else if s == Checked then (if triState then Greyed else Unchecked)
    else Unchecked
  }

  /** `graphicImage`: the graphic variant shown for a state; undeclared
      states look unchecked. */
  function GraphicImage(s: CheckboxState): (g: Graphic)
    ensures g == CheckedGraphic <==> s == Checked
    ensures g == GreyedGraphic <==> s == Greyed
  {
    if s == Checked then CheckedGraphic
    else if s == Greyed then GreyedGraphic
    else UncheckedGraphic
  }

  /** `State`: does not touch the init gate. */
  function State(c: Checkbox): CheckboxState
  {
    c.state
  }

  /** `SetState`: a two-state checkbox refuses Greyed (the source panics);
      setting the current state again does nothing; a real change records
      the state and fires exactly one changed event. The init gate is not
      touched. */
  function SetState(c: Checkbox, s: CheckboxState): (r: Checkbox)
    requires s == Greyed ==> c.triState
    ensures r.id == c.id && r.triState == c.triState && r.init == c.init && r.graphic == c.graphic
    ensures State(r) == s
    ensures s == c.state ==> r == c
    ensures s != c.state ==> r.events == c.events + [ChangedEvent(c.id, s)]
    ensures Valid(c) ==> Valid(r)
  {
    if s != c.state then c.(state := s, events := c.events + [ChangedEvent(c.id, s)])
    else c
  }

  /** An entry point (`GetWidget`, `PreferredSize`, `SetLocation`,
      `SetupInputLayer`, `Render`) opens the init gate first. Opening it builds
      the inner button showing the Unchecked graphic, whatever the state;
      `Render` then installs the graphic for the current state. */
  function Enter(c: Checkbox, e: EntryPoint): (r: Checkbox)
    ensures r.init.done
    ensures r.state == c.state && r.events == c.events && r.triState == c.triState && r.id == c.id
    ensures e == Render ==> r.graphic == Some(GraphicImage(c.state))
    ensures e != Render && c.init.done ==> r == c
    ensures e != Render && !c.init.done ==> r.graphic == Some(UncheckedGraphic)
    ensures Valid(c) ==> Valid(r)
  {
    var built := if c.init.done then c
                 else c.(init := DeferredInit.Do(c.init), graphic := Some(UncheckedGraphic));
    if e == Render then built.(graphic := Some(GraphicImage(c.state))) else built
  }

  /** A click on the inner button, whose handler exists only once the gate
      has built the button: `SetState(Advance(state, triState))`. */
  function Click(c: Checkbox): (r: Checkbox)
    requires c.init.done
    ensures r.id == c.id && r.init == c.init && r.triState == c.triState && r.graphic == c.graphic
    ensures r.state != c.state && Declared(r.state)
    ensures !c.triState ==> r.state != Greyed
    ensures r.events == c.events + [ChangedEvent(c.id, r.state)]
    ensures Valid(c) ==> Valid(r)
  {
    SetState(c, Advance(c.state, c.triState))
  }
}
