/**
 Diagnostic reads go through the circuit breaker and then through a bounded runner
 (src/lib/bounded-query.ts, src/db/client.ts).  A caller stops waiting at its deadline,
 but the slot of its query is held until the query itself settles.
 */
module DiagnosticQueries {
  import opened Options
  import opened CircuitBreaking

  /** How a run request begins; a timeout that is not a finite number is None. */
  datatype Slot = BadTimeout | Overloaded | Acquired

  function Request(outstanding: nat, maximum: nat, timeoutMs: Option<real>): Slot {
    if timeoutMs.None? || timeoutMs.value <= 0.0 then BadTimeout
    else if outstanding >= maximum then Overloaded
    else Acquired
  }

  class BoundedQueryRunner {
    const maximum: nat
    var outstanding: nat

    constructor (maximum: nat)
      requires maximum >= 1
      ensures this.maximum == maximum && outstanding == 0
    {
      this.maximum := maximum;
      outstanding := 0;
    }

    method Acquire(timeoutMs: Option<real>) returns (slot: Slot)
      modifies this
      ensures slot == Request(old(outstanding), maximum, timeoutMs)
      ensures slot.BadTimeout? <==> (timeoutMs.None? || timeoutMs.value <= 0.0)
      ensures slot.Acquired? <==> timeoutMs.Some? && timeoutMs.value > 0.0 && old(outstanding) < maximum
      ensures outstanding == old(outstanding) + (if slot.Acquired? then 1 else 0)
      ensures old(outstanding) <= maximum ==> outstanding <= maximum
    {
      if timeoutMs.None? || timeoutMs.value <= 0.0 { return BadTimeout; }
      if outstanding >= maximum { return Overloaded; }
      outstanding := outstanding + 1;
      return Acquired;
    }

    method Release()
      requires outstanding > 0
      modifies this
      ensures outstanding == old(outstanding) - 1
    {
      outstanding := outstanding - 1;
    }
  }

  /** The query behind a call, if one was started. */
  datatype Query = NoQuery | Running | Finished(ok: bool)

  /** `result` is what the caller was or will be told; `reported` says whether the breaker knows. */
  datatype Call = Call(admission: Admission, query: Query, result: Option<bool>, reported: bool)

  datatype System = System(breaker: Breaker, outstanding: nat, calls: map<nat, Call>)

  /** The synchronous part of one queryWithTimeout call. */
  function Begun(policy: Policy, maximum: nat, b: Breaker, outstanding: nat, now: int, timeoutMs: Option<real>)
    : (Breaker, nat, Option<Call>)
  {
    var (b', admission) := Started(policy, b, now);
    if admission.Turned? then (b', outstanding, None)
    else if Request(outstanding, maximum, timeoutMs).Acquired? then
      (b', outstanding + 1, Some(Call(admission, Running, None, false)))
    else (b', outstanding, Some(Call(admission, NoQuery, Some(false), false)))
  }

  class DiagnosticClient {
    const breaker: CircuitBreaker
    const runner: BoundedQueryRunner

    constructor (breaker: CircuitBreaker, runner: BoundedQueryRunner)
      ensures this.breaker == breaker && this.runner == runner
    {
      this.breaker := breaker;
      this.runner := runner;
    }

    method BeginQuery(now: int, timeoutMs: Option<real>) returns (call: Option<Call>)
      modifies breaker, runner
      ensures (breaker.View(), runner.outstanding, call)
              == Begun(breaker.policy, runner.maximum, old(breaker.View()), old(runner.outstanding), now, timeoutMs)
    {
      var admission := breaker.Start(now);
      if admission.Turned? { return None; }
      var slot := runner.Acquire(timeoutMs);
      if slot.Acquired? { return Some(Call(admission, Running, None, false)); }
      return Some(Call(admission, NoQuery, Some(false), false));
    }

    method QuerySettles(call: Call, ok: bool) returns (call': Call)
      requires call.query.Running? && runner.outstanding > 0
      modifies runner
      ensures runner.outstanding == old(runner.outstanding) - 1 && call' == Settled(call, ok)
    {
      runner.Release();
      return call.(query := Finished(ok), result := Some(call.result.GetOr(ok)));
    }

    method Report(call: Call, now: int) returns (call': Call)
      requires call.admission.Admitted? && call.result.Some? && !call.reported
      modifies breaker
      ensures breaker.View() == Completed(breaker.policy, old(breaker.View()), call.admission, call.result.value, now)
      ensures call' == call.(reported := true)
    {
      breaker.Complete(call.admission, call.result.value, now);
      return call.(reported := true);
    }
  }

  // ---------------------------------------------------------------------------
  // Interleavings
  // ---------------------------------------------------------------------------

  datatype Event =
    | Begin(id: nat, now: int, timeoutMs: Option<real>)
    | Settle(id: nat, ok: bool)
    | Deadline(id: nat)
    | Report(id: nat, now: int)

  function Settled(call: Call, ok: bool): Call
    requires call.query.Running?
  {
    call.(query := Finished(ok), result := Some(call.result.GetOr(ok)))
  }

  ghost predicate Enabled(s: System, e: Event) {
    match e
    case Begin(id, _, _) => id !in s.calls
    case Settle(id, _) => id in s.calls && s.calls[id].query.Running? && s.outstanding > 0
    case Deadline(id) => id in s.calls && s.calls[id].query.Running? && s.calls[id].result.None?
    case Report(id, _) =>
      id in s.calls && s.calls[id].admission.Admitted? && s.calls[id].result.Some? && !s.calls[id].reported
  }

  function Apply(policy: Policy, maximum: nat, s: System, e: Event): System
    requires Enabled(s, e)
  {
    match e
    case Begin(id, now, timeoutMs) =>
      var (b, outstanding, call) := Begun(policy, maximum, s.breaker, s.outstanding, now, timeoutMs);
      System(b, outstanding, if call.Some? then s.calls[id := call.value] else s.calls)
    case Settle(id, ok) => s.(outstanding := s.outstanding - 1, calls := s.calls[id := Settled(s.calls[id], ok)])
    case Deadline(id) => s.(calls := s.calls[id := s.calls[id].(result := Some(false))])
    case Report(id, now) =>
      var call := s.calls[id];
      s.(breaker := Completed(policy, s.breaker, call.admission, call.result.value, now),
         calls := s.calls[id := call.(reported := true)])
  }

  ghost predicate IsRun(policy: Policy, maximum: nat, es: seq<Event>)
    decreases |es|, 0
  {
    es == [] ||
    (IsRun(policy, maximum, es[..|es| - 1]) && Enabled(After(policy, maximum, es[..|es| - 1]), es[|es| - 1]))
  }

  ghost function After(policy: Policy, maximum: nat, es: seq<Event>): System
    requires IsRun(policy, maximum, es)
    decreases |es|, 1
  {
    if es == [] then System(INITIAL, 0, map[])
    else Apply(policy, maximum, After(policy, maximum, es[..|es| - 1]), es[|es| - 1])
  }

  // ---------------------------------------------------------------------------
  // Slots
  // ---------------------------------------------------------------------------

  ghost function RunningOnes(s: System): set<nat> { set id | id in s.calls && s.calls[id].query.Running? }

  /** The slot count is the number of queries that have really not settled, and stays within the budget. */
  ghost predicate SlotsConserved(maximum: nat, s: System) {
    s.outstanding == |RunningOnes(s)| <= maximum
  }

  /** A call without a query failed; a success was told only because the query itself succeeded. */
  ghost predicate ResultsHonest(s: System) {
    forall id :: id in s.calls ==>
      && s.calls[id].admission.Admitted?
      && (s.calls[id].query.NoQuery? ==> s.calls[id].result == Some(false))
      && (s.calls[id].query.Finished? ==> s.calls[id].result.Some?)
      && (s.calls[id].result == Some(true) ==> s.calls[id].query == Finished(true))
      && (s.calls[id].reported ==> s.calls[id].result.Some?)
  }

  lemma StepKeepsSlots(policy: Policy, maximum: nat, s: System, e: Event)
    requires SlotsConserved(maximum, s) && Enabled(s, e)
    ensures SlotsConserved(maximum, Apply(policy, maximum, s, e))
  {
    hide Started, Completed;
    var s' := Apply(policy, maximum, s, e);
    if e.Begin? && s'.outstanding > s.outstanding {
      assert RunningOnes(s') == RunningOnes(s) + {e.id};
    } else if e.Settle? {
      assert RunningOnes(s') == RunningOnes(s) - {e.id};
    } else {
      assert RunningOnes(s') == RunningOnes(s);
    }
  }

  lemma StepKeepsResults(policy: Policy, maximum: nat, s: System, e: Event)
    requires ResultsHonest(s) && Enabled(s, e)
    ensures ResultsHonest(Apply(policy, maximum, s, e))
  {}

  // ---------------------------------------------------------------------------
  // The breaker among concurrent calls
  // ---------------------------------------------------------------------------

  /** Calls started in the current generation whose outcome the breaker does not know yet. */
  ghost function InFlight(s: System): set<nat> {
    set id | && id in s.calls && !s.calls[id].reported
             && s.calls[id].admission.Admitted? && s.calls[id].admission.generation == s.breaker.generation
  }

  ghost predicate BreakerSound(policy: Policy, s: System) {
    && (forall id :: id in s.calls && s.calls[id].admission.Admitted? ==>
          s.calls[id].admission.generation <= s.breaker.generation)
    && (s.breaker.phase.Open? ==>
          InFlight(s) == {} && !s.breaker.probeInFlight && s.breaker.failureCount >= policy.failureThreshold)
    && (s.breaker.phase.HalfOpen? ==>
          && s.breaker.failureCount >= policy.failureThreshold
          && (forall i, j :: i in InFlight(s) && j in InFlight(s) ==> i == j)
          && (forall i :: i in InFlight(s) ==> s.calls[i].admission.probe)
          && (s.breaker.probeInFlight <==> InFlight(s) != {}))
    && (s.breaker.phase.Closed? ==>
          && s.breaker.failureCount < policy.failureThreshold && !s.breaker.probeInFlight
          && (forall i :: i in InFlight(s) ==> !s.calls[i].admission.probe))
  }

  lemma BeginKeepsBreaker(policy: Policy, maximum: nat, s: System, e: Event)
    requires BreakerSound(policy, s) && Enabled(s, e) && e.Begin?
    ensures BreakerSound(policy, Apply(policy, maximum, s, e))
  {
    var s' := Apply(policy, maximum, s, e);
    if e.id in s'.calls {
      assert InFlight(s') == InFlight(s) + {e.id};
      assert e.id in InFlight(s');
    } else {
      assert InFlight(s') == InFlight(s);
    }
  }

  lemma ReportKeepsBreaker(policy: Policy, maximum: nat, s: System, e: Event)
    requires policy.failureThreshold >= 1 && BreakerSound(policy, s) && Enabled(s, e) && e.Report?
    ensures BreakerSound(policy, Apply(policy, maximum, s, e))
  {
    var s' := Apply(policy, maximum, s, e);
    if s.calls[e.id].admission.generation == s.breaker.generation {
      assert e.id in InFlight(s);
      if s'.breaker.generation == s.breaker.generation {
        assert InFlight(s') == InFlight(s) - {e.id};
      } else {
        assert InFlight(s') == {};
      }
    } else {
      assert InFlight(s') == InFlight(s);
    }
  }

  lemma StepKeepsBreaker(policy: Policy, maximum: nat, s: System, e: Event)
    requires policy.failureThreshold >= 1 && BreakerSound(policy, s) && Enabled(s, e)
    ensures BreakerSound(policy, Apply(policy, maximum, s, e))
  {
    if e.Begin? { BeginKeepsBreaker(policy, maximum, s, e); }
    else if e.Report? { ReportKeepsBreaker(policy, maximum, s, e); }
    else { assert InFlight(Apply(policy, maximum, s, e)) == InFlight(s); }
  }

  /**
   In every interleaving of starts, settlements, deadlines and reports: slots are conserved,
   an open breaker has no current call, a half-open one only its probe, and the probe flag
   is up exactly while that probe is in flight.
   */
  lemma {:induction false} RunIsSound(policy: Policy, maximum: nat, es: seq<Event>)
    requires policy.failureThreshold >= 1 && IsRun(policy, maximum, es)
    ensures var s := After(policy, maximum, es);
            SlotsConserved(maximum, s) && ResultsHonest(s) && BreakerSound(policy, s)
    decreases |es|
  {
    if es == [] {
      assert RunningOnes(System(INITIAL, 0, map[])) == {} && InFlight(System(INITIAL, 0, map[])) == {};
    } else {
      var before := es[..|es| - 1];
      RunIsSound(policy, maximum, before);
      StepKeepsSlots(policy, maximum, After(policy, maximum, before), es[|es| - 1]);
      StepKeepsResults(policy, maximum, After(policy, maximum, before), es[|es| - 1]);
      StepKeepsBreaker(policy, maximum, After(policy, maximum, before), es[|es| - 1]);
    }
  }

  /** The breaker closes only on the word of a probe whose query was admitted and really succeeded. */
  lemma OnlyRealSuccessCloses(policy: Policy, maximum: nat, es: seq<Event>, e: Event)
    requires policy.failureThreshold >= 1 && IsRun(policy, maximum, es)
    requires Enabled(After(policy, maximum, es), e)
    requires var s := After(policy, maximum, es);
             !s.breaker.phase.Closed? && Apply(policy, maximum, s, e).breaker.phase.Closed?
    ensures e.Report?
    ensures var s := After(policy, maximum, es);
            && s.breaker.phase.HalfOpen? && InFlight(s) == {e.id}
            && s.calls[e.id].admission.probe && s.calls[e.id].query == Finished(true)
  {
    RunIsSound(policy, maximum, es);
    var s := After(policy, maximum, es);
    if e.Report? { assert e.id in InFlight(s); }
  }

  /** What each call goes through: one admission, at most one query, one result, one report, never taken back. */
  ghost predicate Advances(c: Call, d: Call) {
    && d.admission == c.admission
    && (d.query == c.query || (c.query.Running? && d.query.Finished?))
    && (c.result.Some? ==> d.result == c.result)
    && (c.reported ==> d.reported)
  }

  lemma {:induction false} CallsOnlyAdvance(policy: Policy, maximum: nat, es: seq<Event>, more: seq<Event>, id: nat)
    requires IsRun(policy, maximum, es + more) && IsRun(policy, maximum, es) && id in After(policy, maximum, es).calls
    ensures id in After(policy, maximum, es + more).calls
    ensures Advances(After(policy, maximum, es).calls[id], After(policy, maximum, es + more).calls[id])
    decreases |more|
  {
    if more == [] {
      assert es + more == es;
    } else {
      assert (es + more)[..|es + more| - 1] == es + more[..|more| - 1];
      assert (es + more)[|es + more| - 1] == more[|more| - 1];
      CallsOnlyAdvance(policy, maximum, es, more[..|more| - 1], id);
    }
  }

  lemma {:induction false} GenerationGrows(policy: Policy, maximum: nat, es: seq<Event>, more: seq<Event>)
    requires IsRun(policy, maximum, es + more) && IsRun(policy, maximum, es)
    ensures After(policy, maximum, es).breaker.generation <= After(policy, maximum, es + more).breaker.generation
    decreases |more|
  {
    if more == [] {
      assert es + more == es;
    } else {
      assert (es + more)[..|es + more| - 1] == es + more[..|more| - 1];
      hide Request;
      GenerationGrows(policy, maximum, es, more[..|more| - 1]);
    }
  }

  /** Once the breaker has opened, no call from before ever moves it again, however late it completes. */
  lemma StaleCompletionIsIgnored(policy: Policy, maximum: nat, es: seq<Event>, more: seq<Event>, e: Event)
    requires IsRun(policy, maximum, es + more) && IsRun(policy, maximum, es)
    requires e.Report? && Enabled(After(policy, maximum, es + more), e)
    requires e.id in After(policy, maximum, es).calls
    requires var s := After(policy, maximum, es);
             s.calls[e.id].admission.Admitted? && s.calls[e.id].admission.generation < s.breaker.generation
    ensures var s := After(policy, maximum, es + more);
            var s' := Apply(policy, maximum, s, e);
            s'.breaker == s.breaker && s'.outstanding == s.outstanding
  {
    CallsOnlyAdvance(policy, maximum, es, more, e.id);
    GenerationGrows(policy, maximum, es, more);
  }

  // ---------------------------------------------------------------------------
  // Exactly once
  // ---------------------------------------------------------------------------

  /** How often the breaker was told about a call. */
  ghost function Reports(es: seq<Event>, id: nat): nat {
    if es == [] then 0
    else Reports(es[..|es| - 1], id) + if es[|es| - 1].Report? && es[|es| - 1].id == id then 1 else 0
  }

  /** How often a call's slot was released. */
  ghost function Releases(es: seq<Event>, id: nat): nat {
    if es == [] then 0
    else Releases(es[..|es| - 1], id) + if es[|es| - 1].Settle? && es[|es| - 1].id == id then 1 else 0
  }

  /** In every run a call is reported at most once and its slot released at most once, and the
      state says which of the two have happened. */
  lemma {:induction false} CallsAreCounted(policy: Policy, maximum: nat, es: seq<Event>, id: nat)
    requires IsRun(policy, maximum, es)
    ensures var calls := After(policy, maximum, es).calls;
            && Reports(es, id) == (if id in calls && calls[id].reported then 1 else 0)
            && Releases(es, id) == (if id in calls && calls[id].query.Finished? then 1 else 0)
    decreases |es|
  {
    hide Started, Completed;
    if es != [] { CallsAreCounted(policy, maximum, es[..|es| - 1], id); }
  }

  /** What the query behind a call did first: it settled, or its deadline passed. */
  ghost function FirstOutcome(es: seq<Event>, id: nat): Option<bool> {
    if es == [] then None
    else
      var before, last := FirstOutcome(es[..|es| - 1], id), es[|es| - 1];
      if before.Some? then before
      else if last.Settle? && last.id == id then Some(last.ok)
      else if last.Deadline? && last.id == id then Some(false)
      else None
  }

  /** In every run a caller whose query was started is told what happened to it first, success only if it succeeded
      before its deadline; one without a query is told a failure. */
  lemma {:induction false} CallerIsTold(policy: Policy, maximum: nat, es: seq<Event>, id: nat)
    requires IsRun(policy, maximum, es)
    ensures var calls := After(policy, maximum, es).calls;
            if id !in calls then FirstOutcome(es, id) == None
            else if calls[id].query.NoQuery? then FirstOutcome(es, id) == None && calls[id].result == Some(false)
            else calls[id].result == FirstOutcome(es, id)
    decreases |es|
  {
    hide Started, Completed;
    if es != [] { CallerIsTold(policy, maximum, es[..|es| - 1], id); }
  }

  /** Nothing is left to happen but new calls. */
  ghost predicate AtRest(s: System) { forall e :: Enabled(s, e) ==> e.Begin? }

  lemma NoneRunning(maximum: nat, s: System)
    requires SlotsConserved(maximum, s) && AtRest(s)
    ensures RunningOnes(s) == {}
  {
    forall id ensures id !in RunningOnes(s) {
      assert RunningOnes(s) == {} || s.outstanding > 0;
      assert !Enabled(s, Settle(id, true));
    }
  }

  /** At rest every admitted call has been reported exactly once, every query has released its slot
      exactly once, and all slots are free. */
  lemma ExactlyOnceAtRest(policy: Policy, maximum: nat, es: seq<Event>, id: nat)
    requires policy.failureThreshold >= 1 && IsRun(policy, maximum, es) && AtRest(After(policy, maximum, es))
    requires id in After(policy, maximum, es).calls
    ensures Reports(es, id) == 1
    ensures Releases(es, id) == if After(policy, maximum, es).calls[id].query.NoQuery? then 0 else 1
    ensures After(policy, maximum, es).outstanding == 0
  {
    var s := After(policy, maximum, es);
    RunIsSound(policy, maximum, es);
    CallsAreCounted(policy, maximum, es, id);
    NoneRunning(maximum, s);
    assert id !in RunningOnes(s);
    assert !Enabled(s, Report(id, 0));
  }

  // ---------------------------------------------------------------------------
  // What opens the breaker
  // ---------------------------------------------------------------------------

  /** A report the breaker does not ignore. */
  ghost predicate Counts(s: System, e: Event) {
    && e.Report? && e.id in s.calls && s.calls[e.id].admission.Admitted?
    && s.calls[e.id].admission.generation == s.breaker.generation
  }

  ghost function NextStreak(s: System, streak: set<nat>, e: Event): set<nat> {
    if !Counts(s, e) then streak else if s.calls[e.id].result == Some(true) then {} else streak + {e.id}
  }

  /** The calls whose failure counted, since the last success that did. */
  ghost function Streak(policy: Policy, maximum: nat, es: seq<Event>): set<nat>
    requires IsRun(policy, maximum, es)
    decreases |es|
  {
    if es == [] then {}
    else
      var before := es[..|es| - 1];
      NextStreak(After(policy, maximum, before), Streak(policy, maximum, before), es[|es| - 1])
  }

  ghost predicate StreakKept(s: System, streak: set<nat>) {
    && |streak| == s.breaker.failureCount
    && forall id :: id in streak ==> id in s.calls && s.calls[id].reported && s.calls[id].result == Some(false)
  }

  lemma BeginKeepsStreak(policy: Policy, maximum: nat, s: System, streak: set<nat>, e: Event)
    requires StreakKept(s, streak) && Enabled(s, e) && e.Begin?
    ensures StreakKept(Apply(policy, maximum, s, e), streak)
  {
    hide Request;
  }

  lemma ReportKeepsStreak(policy: Policy, maximum: nat, s: System, streak: set<nat>, e: Event)
    requires StreakKept(s, streak) && Enabled(s, e) && e.Report?
    ensures StreakKept(Apply(policy, maximum, s, e), NextStreak(s, streak, e))
  {
    assert e.id !in streak;
  }

  lemma {:induction false} RunKeepsStreak(policy: Policy, maximum: nat, es: seq<Event>)
    requires IsRun(policy, maximum, es)
    ensures StreakKept(After(policy, maximum, es), Streak(policy, maximum, es))
    decreases |es|
  {
    hide Begun, Completed;
    if es != [] {
      var before, last := es[..|es| - 1], es[|es| - 1];
      var s, streak := After(policy, maximum, before), Streak(policy, maximum, before);
      RunKeepsStreak(policy, maximum, before);
      if last.Begin? { BeginKeepsStreak(policy, maximum, s, streak, last); }
      if last.Report? { ReportKeepsStreak(policy, maximum, s, streak, last); }
    }
  }

  /** Of those, the calls whose query failed or missed its deadline. */
  ghost function FailedQueries(policy: Policy, maximum: nat, es: seq<Event>): set<nat>
    requires IsRun(policy, maximum, es)
  {
    var calls := After(policy, maximum, es).calls;
    set id | id in Streak(policy, maximum, es) && id in calls && !calls[id].query.NoQuery?
  }

  /** And the calls that the runner refused without asking the database. */
  ghost function Refusals(policy: Policy, maximum: nat, es: seq<Event>): set<nat>
    requires IsRun(policy, maximum, es)
  {
    var calls := After(policy, maximum, es).calls;
    set id | id in Streak(policy, maximum, es) && id in calls && calls[id].query.NoQuery?
  }

  /**
   In every run the breaker is not closed if and only if the failed queries and the refusals since
   the last success together reach the threshold.  So when there was no refusal, an opening is the
   database's own doing.
   */
  lemma OpenIff(policy: Policy, maximum: nat, es: seq<Event>)
    requires policy.failureThreshold >= 1 && IsRun(policy, maximum, es)
    ensures !After(policy, maximum, es).breaker.phase.Closed? <==>
            |FailedQueries(policy, maximum, es)| + |Refusals(policy, maximum, es)| >= policy.failureThreshold
  {
    RunIsSound(policy, maximum, es);
    RunKeepsStreak(policy, maximum, es);
    var failed, refused := FailedQueries(policy, maximum, es), Refusals(policy, maximum, es);
    assert failed + refused == Streak(policy, maximum, es) && failed !! refused;
    assert |failed + refused| == |failed| + |refused|;
  }

  /** A run in which every query is still waiting, within its deadline, and j calls were refused. */
  ghost predicate OnlyRefusals(policy: Policy, maximum: nat, es: seq<Event>, ids: nat, running: nat, j: nat) {
    && IsRun(policy, maximum, es)
    && var s := After(policy, maximum, es);
       && s.outstanding == running && s.breaker.failureCount == j
       && (j < policy.failureThreshold ==> s.breaker == Breaker(Closed, j, 0, false, 0))
       && (j >= policy.failureThreshold ==> s.breaker.phase.Open?)
       && (forall id :: id in s.calls ==>
             id < ids && ((s.calls[id].query.Running? && s.calls[id].result.None?) || s.calls[id].query.NoQuery?))
  }

  lemma Extend(policy: Policy, maximum: nat, es: seq<Event>, e: Event)
    requires IsRun(policy, maximum, es) && Enabled(After(policy, maximum, es), e)
    ensures IsRun(policy, maximum, es + [e])
    ensures After(policy, maximum, es + [e]) == Apply(policy, maximum, After(policy, maximum, es), e)
  {
    assert (es + [e])[..|es + [e]| - 1] == es;
  }

  lemma {:induction false} FillSlots(policy: Policy, maximum: nat, k: nat) returns (es: seq<Event>)
    requires policy.failureThreshold >= 1 && k <= maximum
    ensures OnlyRefusals(policy, maximum, es, k, k, 0)
  {
    if k == 0 {
      es := [];
    } else {
      var before := FillSlots(policy, maximum, k - 1);
      var begin := Begin(k - 1, 0, Some(1.0));
      Extend(policy, maximum, before, begin);
      es := before + [begin];
    }
  }

  lemma {:induction false} RefuseCalls(policy: Policy, maximum: nat, j: nat) returns (es: seq<Event>)
    requires policy.failureThreshold >= 1 && j <= policy.failureThreshold
    ensures OnlyRefusals(policy, maximum, es, maximum + j, maximum, j)
    decreases j
  {
    if j == 0 {
      es := FillSlots(policy, maximum, maximum);
    } else {
      var before := RefuseCalls(policy, maximum, j - 1);
      var begin, report := Begin(maximum + j - 1, 0, Some(1.0)), Report(maximum + j - 1, 0);
      Extend(policy, maximum, before, begin);
      Extend(policy, maximum, before + [begin], report);
      es := before + [begin] + [report];
    }
  }

  /** For every threshold and budget some run opens the breaker although no query failed or missed
      its deadline: all slots are taken, and the calls that find none count as failures. */
  lemma OverloadCanOpen(policy: Policy, maximum: nat) returns (es: seq<Event>)
    requires policy.failureThreshold >= 1 && maximum >= 1
    ensures IsRun(policy, maximum, es) && After(policy, maximum, es).breaker.phase.Open?
    ensures var calls := After(policy, maximum, es).calls;
            forall id :: id in calls && !calls[id].query.NoQuery? ==>
              calls[id].query.Running? && calls[id].result.None?
    ensures FailedQueries(policy, maximum, es) == {}
  {
    es := RefuseCalls(policy, maximum, policy.failureThreshold);
    RunKeepsStreak(policy, maximum, es);
  }
}
