/** How long the circuit breaker stays shut, in every interleaving of diagnostic reads. */
module BreakerCooldown {
  import opened Options
  import opened CircuitBreaking
  import opened DiagnosticQueries

  /** Did the event open the breaker? */
  ghost predicate Opens(policy: Policy, maximum: nat, s: System, e: Event)
    requires Enabled(s, e)
  {
    !s.breaker.phase.Open? && Apply(policy, maximum, s, e).breaker.phase.Open?
  }

  /** The time of the last report that opened the breaker. */
  ghost function LastOpening(policy: Policy, maximum: nat, es: seq<Event>): Option<int>
    requires IsRun(policy, maximum, es)
    decreases |es|
  {
    if es == [] then None
    else
      var before, last := es[..|es| - 1], es[|es| - 1];
      if last.Report? && Opens(policy, maximum, After(policy, maximum, before), last) then Some(last.now)
      else LastOpening(policy, maximum, before)
  }

  /** An open breaker hears nothing, and a Begin that comes too early changes nothing. */
  lemma OpenStepChangesNothing(policy: Policy, maximum: nat, s: System, e: Event)
    requires policy.failureThreshold >= 1 && BreakerSound(policy, s) && s.breaker.phase.Open? && Enabled(s, e)
    requires e.Begin? ==> e.now - s.breaker.openedAt < policy.resetTimeoutMs
    ensures var s' := Apply(policy, maximum, s, e); s'.breaker == s.breaker && s'.calls.Keys == s.calls.Keys
  {
    if e.Report? { assert e.id !in InFlight(s); }
  }

  lemma StepKeepsOpening(policy: Policy, maximum: nat, s: System, e: Event, opening: Option<int>)
    requires policy.failureThreshold >= 1 && BreakerSound(policy, s) && Enabled(s, e)
    requires !s.breaker.phase.Closed? ==> opening == Some(s.breaker.openedAt)
    ensures var s' := Apply(policy, maximum, s, e);
            && (e.Report? && Opens(policy, maximum, s, e) ==> s'.breaker.openedAt == e.now)
            && (!(e.Report? && Opens(policy, maximum, s, e)) && !s'.breaker.phase.Closed? ==>
                  opening == Some(s'.breaker.openedAt))
  {
    if e.Report? && s.breaker.phase.Open? { assert e.id !in InFlight(s); }
  }

  /** A breaker that is not closed remembers when it was last opened. */
  lemma {:induction false} RunKeepsOpening(policy: Policy, maximum: nat, es: seq<Event>)
    requires policy.failureThreshold >= 1 && IsRun(policy, maximum, es)
    ensures var b := After(policy, maximum, es).breaker;
            !b.phase.Closed? ==> LastOpening(policy, maximum, es) == Some(b.openedAt)
    decreases |es|
  {
    hide Apply, Enabled, BreakerSound, SlotsConserved, ResultsHonest, Opens;
    if es != [] {
      var before, last := es[..|es| - 1], es[|es| - 1];
      RunKeepsOpening(policy, maximum, before);
      RunIsSound(policy, maximum, before);
      StepKeepsOpening(policy, maximum, After(policy, maximum, before), last, LastOpening(policy, maximum, before));
    }
  }

  /**
   In every run, what becomes of a call is decided as follows.  A closed breaker admits it.  One that was
   opened admits it, as its only probe, if and only if no probe is in flight and the timeout has passed since
   the opening, or had passed when an earlier call came; a call that is turned away changes the phase at most.
   So without a probe in flight the breaker is never shut longer than the timeout.
   */
  lemma AdmittedIff(policy: Policy, maximum: nat, es: seq<Event>, e: Event)
    requires policy.failureThreshold >= 1 && IsRun(policy, maximum, es)
    requires e.Begin? && Enabled(After(policy, maximum, es), e)
    ensures var s := After(policy, maximum, es);
            var s' := Apply(policy, maximum, s, e);
            if s.breaker.phase.Closed? then
              e.id in s'.calls && !s'.calls[e.id].admission.probe && s'.breaker == s.breaker
            else
              && LastOpening(policy, maximum, es).Some?
              && var late := e.now - LastOpening(policy, maximum, es).value >= policy.resetTimeoutMs;
                 && (e.id in s'.calls <==> InFlight(s) == {} && (s.breaker.phase.HalfOpen? || late))
                 && (e.id in s'.calls ==> s'.calls[e.id].admission.probe && InFlight(s') == {e.id})
                 && (e.id !in s'.calls ==> s'.calls == s.calls && s'.outstanding == s.outstanding)
                 && s'.breaker.phase == if s.breaker.phase.HalfOpen? || late then HalfOpen else Open
  {
    RunIsSound(policy, maximum, es);
    RunKeepsOpening(policy, maximum, es);
    hide SlotsConserved, ResultsHonest, IsRun, After;
    var s := After(policy, maximum, es);
    var s' := Apply(policy, maximum, s, e);
    if e.id in s'.calls {
      assert InFlight(s') == InFlight(s) + {e.id};
      AdmittedWhenResting(policy, maximum, s, e);
    }
  }

  lemma AdmittedWhenResting(policy: Policy, maximum: nat, s: System, e: Event)
    requires BreakerSound(policy, s) && e.Begin? && Enabled(s, e) && e.id in Apply(policy, maximum, s, e).calls
    ensures !s.breaker.phase.Closed? ==> InFlight(s) == {}
  {}

  /** From an opening on, as long as every call comes before the timeout has passed, the breaker stays as it
      is, every call is turned away, and the first that comes later is the probe. */
  lemma {:induction false} CooldownHolds(policy: Policy, maximum: nat, es: seq<Event>, e: Event, more: seq<Event>)
    requires policy.failureThreshold >= 1 && IsRun(policy, maximum, es + [e] + more) && IsRun(policy, maximum, es)
    requires e.Report? && Enabled(After(policy, maximum, es), e)
    requires Opens(policy, maximum, After(policy, maximum, es), e)
    requires forall i :: 0 <= i < |more| && more[i].Begin? ==> more[i].now - e.now < policy.resetTimeoutMs
    ensures IsRun(policy, maximum, es + [e])
    ensures var opening, t := After(policy, maximum, es + [e]), After(policy, maximum, es + [e] + more);
            && t.breaker == opening.breaker && t.breaker.phase.Open? && t.breaker.openedAt == e.now
            && t.calls.Keys == opening.calls.Keys == After(policy, maximum, es).calls.Keys
    decreases |more|
  {
    hide Apply, Enabled, BreakerSound, SlotsConserved, ResultsHonest;
    Extend(policy, maximum, es, e);
    var all := es + [e] + more;
    if more == [] {
      assert all == es + [e];
      RunIsSound(policy, maximum, es);
      RunKeepsOpening(policy, maximum, es);
      StepKeepsOpening(policy, maximum, After(policy, maximum, es), e, LastOpening(policy, maximum, es));
      OpeningKeepsCalls(policy, maximum, After(policy, maximum, es), e);
    } else {
      var before, last := more[..|more| - 1], more[|more| - 1];
      assert all[..|all| - 1] == es + [e] + before && all[|all| - 1] == last;
      CooldownHolds(policy, maximum, es, e, before);
      RunIsSound(policy, maximum, es + [e] + before);
      OpenStepChangesNothing(policy, maximum, After(policy, maximum, es + [e] + before), last);
    }
  }

  lemma OpeningKeepsCalls(policy: Policy, maximum: nat, s: System, e: Event)
    requires Enabled(s, e) && e.Report?
    ensures Apply(policy, maximum, s, e).calls.Keys == s.calls.Keys
  {}

  /** And the first call that comes when the timeout has passed is admitted as the probe. */
  lemma ProbeFollowsCooldown(policy: Policy, maximum: nat, es: seq<Event>, e: Event, more: seq<Event>, late: Event)
    requires policy.failureThreshold >= 1 && IsRun(policy, maximum, es + [e] + more) && IsRun(policy, maximum, es)
    requires e.Report? && Enabled(After(policy, maximum, es), e)
    requires Opens(policy, maximum, After(policy, maximum, es), e)
    requires forall i :: 0 <= i < |more| && more[i].Begin? ==> more[i].now - e.now < policy.resetTimeoutMs
    requires late.Begin? && Enabled(After(policy, maximum, es + [e] + more), late)
    requires late.now - e.now >= policy.resetTimeoutMs
    ensures var s' := Apply(policy, maximum, After(policy, maximum, es + [e] + more), late);
            && late.id in s'.calls && s'.calls[late.id].admission.probe
            && s'.breaker.phase.HalfOpen? && s'.breaker.probeInFlight && InFlight(s') == {late.id}
  {
    var all := es + [e] + more;
    CooldownHolds(policy, maximum, es, e, more);
    RunIsSound(policy, maximum, all);
    RunKeepsOpening(policy, maximum, all);
    AdmittedIff(policy, maximum, all, late);
    hide SlotsConserved, ResultsHonest, IsRun, After;
    var s := After(policy, maximum, all);
    StepKeepsBreaker(policy, maximum, s, late);
  }
}
