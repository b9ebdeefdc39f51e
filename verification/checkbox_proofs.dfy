/** Properties of the checkbox state machine across several calls. */
module CheckboxProofs {
  import opened Wrappers
  import DeferredInit
  import opened Checkbox

  /** The number of clicks after which the state comes back. */
  function Period(triState: bool): nat
  {
    if triState then 3 else 2
  }

  /** The state after `n` clicks, by iterating `Advance`. */
  function AdvanceTimes(s: CheckboxState, triState: bool, n: nat): CheckboxState
  {
    if n == 0 then s else Advance(AdvanceTimes(s, triState, n - 1), triState)
  }

  /** Starting from a state the checkbox can hold, `Period` clicks come back. */
  lemma OnePeriod(s: CheckboxState, triState: bool)
    requires Declared(s) && (s == Greyed ==> triState)
    ensures AdvanceTimes(s, triState, Period(triState)) == s
  {
    if triState {
      assert AdvanceTimes(s, triState, 3) == Advance(Advance(Advance(s, true), true), true);
    } else {
      assert AdvanceTimes(s, triState, 2) == Advance(Advance(s, false), false);
    }
  }

  lemma {:induction false} ShiftByPeriod(s: CheckboxState, triState: bool, n: nat)
    requires Declared(s) && (s == Greyed ==> triState)
    ensures AdvanceTimes(s, triState, n + Period(triState)) == AdvanceTimes(s, triState, n)
  {
    if n == 0 {
      OnePeriod(s, triState);
    } else {
      ShiftByPeriod(s, triState, n - 1);
    }
  }

  /** Clicking cycles with period 2 for a two-state checkbox (Unchecked,
      Checked) and 3 for a tri-state one (Unchecked, Checked, Greyed), and no
      shorter: the state after `n` clicks depends only on `n` modulo the
      period, and fewer clicks than the period never return to the start. */
  lemma {:induction false} ClicksCycle(s: CheckboxState, triState: bool, n: nat)
    requires Declared(s) && (s == Greyed ==> triState)
    ensures AdvanceTimes(s, triState, n) == AdvanceTimes(s, triState, n % Period(triState))
    ensures 0 < n < Period(triState) ==> AdvanceTimes(s, triState, n) != s
    decreases n
  {
    var p := Period(triState);
    if n >= p {
      ShiftByPeriod(s, triState, n - p);
      ClicksCycle(s, triState, n - p);
      assert (n - p) % p == n % p;
    }
    if triState && n == 2 {
      assert AdvanceTimes(s, triState, 2) == Advance(Advance(s, true), true);
    }
  }

  /** `n` clicks on a built checkbox. */
  function Clicks(c: Checkbox, n: nat): (r: Checkbox)
    requires c.init.done
    ensures r.init == c.init && r.id == c.id && r.triState == c.triState
  {
    if n == 0 then c else Click(Clicks(c, n - 1))
  }

  /** `n` clicks take the state `n` steps along `Advance` and fire exactly `n`
      changed events, the i-th carrying the state after i+1 clicks; a
      two-state checkbox never reaches Greyed by clicking. */
  lemma {:induction false} ClicksFireOneEventEach(c: Checkbox, n: nat)
    requires c.init.done && Valid(c)
    ensures Valid(Clicks(c, n)) && Clicks(c, n).init == c.init
    ensures Clicks(c, n).state == AdvanceTimes(c.state, c.triState, n)
    ensures |Clicks(c, n).events| == |c.events| + n
    ensures Clicks(c, n).events[..|c.events|] == c.events
    ensures forall i :: |c.events| <= i < |Clicks(c, n).events| ==>
      Clicks(c, n).events[i] == ChangedEvent(c.id, AdvanceTimes(c.state, c.triState, i - |c.events| + 1))
    ensures !c.triState ==> Clicks(c, n).state != Greyed
  {
    if n > 0 {
      ClicksFireOneEventEach(c, n - 1);
      var prev := Clicks(c, n - 1);
      assert Clicks(c, n).events == prev.events + [ChangedEvent(c.id, AdvanceTimes(c.state, c.triState, n))];
      assert Clicks(c, n).events[..|c.events|] == prev.events[..|c.events|];
    }
  }

  /** Setting a state a second time fires nothing more: at most one event per
      distinct value. */
  lemma SetStateIdempotent(c: Checkbox, s: CheckboxState)
    requires s == Greyed ==> c.triState
    ensures SetState(SetState(c, s), s) == SetState(c, s)
    ensures |SetState(c, s).events| <= |c.events| + 1
  {
  }

  /** The entry points called in order. */
  function EnterAll(c: Checkbox, es: seq<EntryPoint>): Checkbox
    decreases |es|
  {
    if es == [] then c else EnterAll(Enter(c, es[0]), es[1..])
  }

  /** However the entry points are interleaved, a new checkbox builds its
      inner button exactly once if any entry point was called, and never
      otherwise; entry points change neither the state nor the event log. */
  lemma {:induction false} InnerButtonBuiltOnce(c: Checkbox, es: seq<EntryPoint>)
    requires Valid(c)
    ensures Valid(EnterAll(c, es))
    ensures EnterAll(c, es).init.runs == if es == [] then c.init.runs else 1
    ensures EnterAll(c, es).state == c.state && EnterAll(c, es).events == c.events
    decreases |es|
  {
    if es != [] {
      InnerButtonBuiltOnce(Enter(c, es[0]), es[1..]);
    }
  }

  /** The two-state scenario: render, click twice, then set Unchecked again.
      The clicks go Unchecked -> Checked -> Unchecked, each firing one event,
      and the final `SetState` fires none. */
  lemma TwoStateScenario(c0: Checkbox, id: nat)
    requires c0 == NewCheckbox(id, false)
    ensures Click(Enter(c0, Render)).state == Checked
    ensures Click(Click(Enter(c0, Render))).state == Unchecked
    ensures Click(Click(Enter(c0, Render))).events == [ChangedEvent(id, Checked), ChangedEvent(id, Unchecked)]
    ensures SetState(Click(Click(Enter(c0, Render))), Unchecked) == Click(Click(Enter(c0, Render)))
    ensures Enter(c0, Render).graphic == Some(UncheckedGraphic)
  {
  }

  /** The tri-state scenario: three clicks visit Checked, Greyed, Unchecked. */
  lemma TriStateScenario(c0: Checkbox, id: nat)
    requires c0 == Enter(NewCheckbox(id, true), GetWidget)
    ensures Clicks(c0, 3).events == [ChangedEvent(id, Checked), ChangedEvent(id, Greyed), ChangedEvent(id, Unchecked)]
    ensures Clicks(c0, 3).state == Unchecked
  {
    ClicksFireOneEventEach(c0, 3);
    assert AdvanceTimes(Unchecked, true, 2) == Greyed;
  }
}
