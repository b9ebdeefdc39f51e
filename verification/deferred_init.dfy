/** The one-shot initialisation gate (`MultiOnce`) that composite widgets use
    to build their inner widgets lazily. Its steps are abstracted away: the
    gate records whether it has run and how many times the steps ran. */
module DeferredInit {

  datatype Once = Once(done: bool, runs: nat)

  /** A gate nothing has opened yet. */
  const Fresh := Once(false, 0)

  /** The gate's invariant: the steps ran exactly once if the gate is done,
      never otherwise. */
  predicate Valid(o: Once)
  {
    o.runs == if o.done then 1 else 0
  }

  /** `Do`: runs the steps the first time only. */
  function Do(o: Once): (r: Once)
    ensures r.done
    ensures o.done ==> r == o
    ensures Valid(o) ==> Valid(r)
  {
    if o.done then o else Once(true, o.runs + 1)
  }

  /** `Do` called `n` times in a row. */
  function DoTimes(o: Once, n: nat): Once
    decreases n
  {
    if n == 0 then o else DoTimes(Do(o), n - 1)
  }

  /** However many entry points call `Do`, the steps of a fresh gate run once
      if there was at least one call and never otherwise. */
  lemma {:induction false} StepsRunAtMostOnce(o: Once, n: nat)
    requires Valid(o)
    ensures Valid(DoTimes(o, n))
    ensures DoTimes(o, n).runs == if n == 0 then o.runs else 1
    decreases n
  {
    if n > 0 {
      StepsRunAtMostOnce(Do(o), n - 1);
    }
  }
}
