/**
 The sweep that writes stale online agents down as offline
 (src/lib/agent-presence-maintenance.ts), among every other write of an agent's presence.
 */
module PresenceSweep {
  import opened Options
  import opened AgentPresence

  type Id = nat

  type Table = map<Id, Agent>

  /** The configured batch size; None is a value that is not a finite number. */
  function SweepLimit(raw: Option<real>): (r: nat)
    ensures 1 <= r <= 5000
    ensures raw.Some? && 1.0 <= raw.value <= 5000.0 ==> r as real <= raw.value < r as real + 1.0
    ensures raw.Some? && 0.0 < raw.value < 1.0 ==> r == 1
    ensures raw.Some? && raw.value > 5000.0 ==> r == 5000
    ensures raw.None? || raw.value <= 0.0 ==> r == 200
  {
    if raw.None? || raw.value <= 0.0 then 200
    else
      var floor := raw.value.Floor;
      if floor < 1 then 1 else if floor > 5000 then 5000 else floor
  }

  predicate StaleOnline(a: Agent, threshold: int, now: int) {
    && a.lifecycle == Active && a.status == Online
    && (a.lastSeen.None? || a.lastSeen.value < now - threshold * SECOND)
  }

  /** Rows locked by another transaction are skipped. */
  function Candidates(t: Table, threshold: int, now: int, locked: set<Id>): set<Id> {
    set id | id in t && StaleOnline(t[id], threshold, now) && id !in locked
  }

  /** Oldest heartbeat first, those without one before all others, then by id. */
  predicate Before(t: Table, x: Id, y: Id)
    requires x in t && y in t
  {
    match (t[x].lastSeen, t[y].lastSeen)
    case (None, None) => x < y
    case (None, Some(_)) => true
    case (Some(_), None) => false
    case (Some(a), Some(b)) => a < b || (a == b && x < y)
  }

  function Preceding(t: Table, c: set<Id>, x: Id): set<Id>
    requires c <= t.Keys && x in t
  {
    set y | y in c && Before(t, y, x)
  }

  /** The first `limit` of the set. */
  function First(t: Table, c: set<Id>, limit: nat): set<Id>
    requires c <= t.Keys
  {
    set x | x in c && |Preceding(t, c, x)| < limit
  }

  function Chosen(t: Table, threshold: int, now: int, locked: set<Id>, limit: nat): set<Id> {
    First(t, Candidates(t, threshold, now, locked), limit)
  }

  function SetOffline(t: Table, ids: set<Id>): Table {
    map id | id in t :: if id in ids then t[id].(status := Offline) else t[id]
  }

  class AgentTable {
    var rows: Table

    constructor (rows: Table)
      ensures this.rows == rows
    {
      this.rows := rows;
    }

    /** Writes exactly the chosen agents down and returns their number. */
    method Sweep(threshold: int, now: int, locked: set<Id>, limit: nat) returns (n: nat)
      modifies this
      ensures rows == SetOffline(old(rows), Chosen(old(rows), threshold, now, locked, limit))
      ensures n == |Chosen(old(rows), threshold, now, locked, limit)|
      ensures Swept(old(rows), rows, n, threshold, now, locked, limit)
    {
      SweepMeans(rows, threshold, now, locked, limit);
      hide Chosen, Swept;
      ghost var before := rows;
      var todo := Chosen(rows, threshold, now, locked, limit);
      ghost var chosen := todo;
      n := 0;
      while todo != {}
        invariant todo <= chosen && n + |todo| == |chosen|
        invariant rows == SetOffline(before, chosen - todo)
        decreases |todo|
      {
        var id :| id in todo;
        if id in rows { rows := rows[id := rows[id].(status := Offline)]; }
        todo := todo - {id};
        n := n + 1;
      }
      assert chosen - todo == chosen;
    }
  }

  // ---------------------------------------------------------------------------
  // How many agents a sweep takes
  // ---------------------------------------------------------------------------

  lemma {:induction false} LastExists(t: Table, c: set<Id>) returns (last: Id)
    requires c != {} && c <= t.Keys
    ensures last in c && forall y :: y in c && y != last ==> Before(t, y, last)
    decreases |c|
  {
    var x :| x in c;
    if c == {x} {
      last := x;
    } else {
      var rest := LastExists(t, c - {x});
      last := if Before(t, x, rest) then rest else x;
      forall y | y in c && y != last ensures Before(t, y, last) {
        if y != x && y != rest { assert Before(t, y, rest); }
      }
    }
  }

  /** The first `limit` of a set are `limit` in number, or all of it; and they precede the others. */
  lemma {:induction false} FirstSize(t: Table, c: set<Id>, limit: nat)
    requires c <= t.Keys
    ensures |First(t, c, limit)| == if |c| <= limit then |c| else limit
    ensures forall x, y :: x in First(t, c, limit) && y in c && y !in First(t, c, limit) ==> Before(t, x, y)
    decreases |c|
  {
    if |c| <= limit {
      forall x | x in c ensures x in First(t, c, limit) {
        assert Preceding(t, c, x) <= c - {x};
        Smaller(Preceding(t, c, x), c - {x});
      }
      assert First(t, c, limit) == c;
    } else {
      var last := LastExists(t, c);
      var rest := c - {last};
      assert Preceding(t, c, last) == rest;
      forall x | x in rest ensures Preceding(t, c, x) == Preceding(t, rest, x) {
        assert Before(t, x, last);
      }
      assert First(t, c, limit) == First(t, rest, limit);
      FirstSize(t, rest, limit);
    }
  }

  lemma {:induction false} Smaller<T>(a: set<T>, b: set<T>)
    requires a <= b
    ensures |a| <= |b|
    decreases |a|
  {
    if a != {} {
      var x :| x in a;
      Smaller(a - {x}, b - {x});
    }
  }

  /** May a sweep take the agent?  It is active, marked online, not locked, and was last seen too long ago. */
  ghost predicate Takeable(t: Table, id: Id, threshold: int, now: int, locked: set<Id>) {
    && id in t && id !in locked && t[id].lifecycle == Active && t[id].status == Online
    && (t[id].lastSeen.Some? ==> t[id].lastSeen.value + threshold * 1_000_000 < now)
  }

  /** The agent that was never seen, or not for longer, or with the smaller id, comes first. */
  ghost predicate Sooner(t: Table, x: Id, y: Id)
    requires x in t && y in t
  {
    if t[x].lastSeen == t[y].lastSeen then x < y
    else t[x].lastSeen.None? || (t[y].lastSeen.Some? && t[x].lastSeen.value < t[y].lastSeen.value)
  }

  /** What a sweep promises: it marks offline only what it may take, and nothing else changes; it takes them in
      order, as many as it counts, and fewer than the limit only if none is left. */
  ghost predicate Swept(t: Table, t': Table, n: nat, threshold: int, now: int, locked: set<Id>, limit: nat) {
    && t'.Keys == t.Keys && n <= limit
    && (forall id :: id in t ==> t'[id] == t[id] || (t'[id] == t[id].(status := Offline)
                                                     && Takeable(t, id, threshold, now, locked)))
    && n == |set id | id in t && t'[id] != t[id]|
    && (forall x, y :: Takeable(t, y, threshold, now, locked) && t'[y] == t[y] && x in t && t'[x] != t[x] ==>
          Sooner(t, x, y))
    && (forall y :: Takeable(t, y, threshold, now, locked) && t'[y] == t[y] ==> n == limit)
  }

  lemma CandidatesAre(t: Table, threshold: int, now: int, locked: set<Id>)
    ensures forall id :: id in Candidates(t, threshold, now, locked) <==> Takeable(t, id, threshold, now, locked)
  {}

  lemma SweptFrom(t: Table, t': Table, chosen: set<Id>, threshold: int, now: int, locked: set<Id>, limit: nat)
    requires t'.Keys == t.Keys && |chosen| <= limit
    requires forall id :: id in chosen ==> Takeable(t, id, threshold, now, locked)
    requires forall id :: id in t ==> t'[id] == if id in chosen then t[id].(status := Offline) else t[id]
    requires forall y :: Takeable(t, y, threshold, now, locked) && y !in chosen ==> |chosen| == limit
    requires forall x, y :: x in chosen && x in t && Takeable(t, y, threshold, now, locked) && y !in chosen ==>
               Sooner(t, x, y)
    ensures Swept(t, t', |chosen|, threshold, now, locked, limit)
  {
    forall id | id in t ensures t'[id] != t[id] <==> id in chosen {
      assert id in chosen ==> Takeable(t, id, threshold, now, locked);
    }
    assert (set id | id in t && t'[id] != t[id]) == chosen;
    hide Sooner;
  }

  lemma SweepMeans(t: Table, threshold: int, now: int, locked: set<Id>, limit: nat)
    ensures var chosen := Chosen(t, threshold, now, locked, limit);
            Swept(t, SetOffline(t, chosen), |chosen|, threshold, now, locked, limit)
  {
    var candidates := Candidates(t, threshold, now, locked);
    var chosen := Chosen(t, threshold, now, locked, limit);
    CandidatesAre(t, threshold, now, locked);
    FirstSize(t, candidates, limit);
    if |candidates| <= limit { SameSize(chosen, candidates); }
    hide Candidates, Takeable, Swept;
    forall x, y | x in chosen && y in candidates && y !in chosen ensures Sooner(t, x, y) {
      assert Before(t, x, y);
    }
    hide Sooner, Before;
    SweptFrom(t, SetOffline(t, chosen), chosen, threshold, now, locked, limit);
  }

  // ---------------------------------------------------------------------------
  // What the sweep leaves unchanged
  // ---------------------------------------------------------------------------

  /** The answers of the gateway about an agent at a millisecond. */
  ghost predicate SameAnswers(a: Agent, b: Agent, threshold: int, at: int) {
    && (Available(a, threshold, at) <==> Available(b, threshold, at))
    && Effective(a, threshold, at) == Effective(b, threshold, at)
  }

  /** A stale heartbeat reads as stale in every later millisecond, and in its own unless at the edge. */
  lemma StaleReads(a: Agent, threshold: int, now: int, at: int)
    requires StaleOnline(a, threshold, now) && 0 <= threshold && Ms(now) <= at
    ensures ObservationFreshness(a.lastSeen, threshold, at) == Fresh <==>
            at == Ms(now) && a.lastSeen.Some? && Ms(a.lastSeen.value) == Ms(now - threshold * SECOND)
  {
    assert Ms(now - threshold * SECOND) == Ms(now) - threshold * 1000;
    if a.lastSeen.Some? {
      AgesAgree(a.lastSeen.value, threshold, at);
    }
  }

  lemma OfflineAnswers(a: Agent, threshold: int, at: int)
    requires a.lifecycle == Active && a.status == Online
    ensures SameAnswers(a, a.(status := Offline), threshold, at) <==>
            ObservationFreshness(a.lastSeen, threshold, at) != Fresh
  {
  }

  /** From the sweep's own instant on, all answers stay as they were, except in that one millisecond
      and exactly when some heartbeat taken was past the threshold by less than it. */
  lemma SweepKeepsAnswersIff(t: Table, threshold: int, now: int, locked: set<Id>, limit: nat, at: int)
    requires 0 <= threshold && Ms(now) <= at
    ensures var chosen := Chosen(t, threshold, now, locked, limit);
            (forall id :: id in t ==> SameAnswers(t[id], SetOffline(t, chosen)[id], threshold, at)) <==>
            !(at == Ms(now) && exists id :: id in chosen && t[id].lastSeen.Some?
                                            && Ms(t[id].lastSeen.value) == Ms(now - threshold * SECOND))
  {
    hide SameAnswers, ObservationFreshness, Ms;
    var chosen := Chosen(t, threshold, now, locked, limit);
    var swept := SetOffline(t, chosen);
    forall id | id in t
      ensures id in chosen ==>
                (SameAnswers(t[id], swept[id], threshold, at) <==>
                 !(at == Ms(now) && t[id].lastSeen.Some? && Ms(t[id].lastSeen.value) == Ms(now - threshold * SECOND)))
      ensures id !in chosen ==> SameAnswers(t[id], swept[id], threshold, at)
    {
      if id in chosen {
        StaleReads(t[id], threshold, now, at);
        OfflineAnswers(t[id], threshold, at);
      } else {
        SameItself(t[id], threshold, at);
      }
    }
  }

  lemma SameItself(a: Agent, threshold: int, at: int)
    ensures SameAnswers(a, a, threshold, at)
  {
  }

  // ---------------------------------------------------------------------------
  // Runs
  // ---------------------------------------------------------------------------

  /** Every write of an agent's presence; times are those of the database, in microseconds. */
  datatype Event =
    | Heartbeat(id: Id, status: Status, at: int)
    | ChangeLifecycle(id: Id, next: Lifecycle, at: int)
    | Enrol(id: Id, at: int)
    | Delete(id: Id, at: int)
    | Sweep(locked: set<Id>, at: int)

  /** The settings a process runs with. */
  datatype Settings = Settings(threshold: nat, limit: nat)

  function Apply(c: Settings, t: Table, e: Event): Table {
    match e
    case Heartbeat(id, status, at) =>
      if id in t && t[id].lifecycle == Active then t[id := t[id].(status := status, lastSeen := Some(at))] else t
    case ChangeLifecycle(id, next, _) =>
      if id in t && t[id].lifecycle != next then t[id := t[id].(lifecycle := next, status := Offline)] else t
    case Enrol(id, at) =>
      if id in t then t else t[id := Agent(Active, Offline, None, at)]
    case Delete(id, _) => t - {id}
    case Sweep(locked, at) => SetOffline(t, Chosen(t, c.threshold, at, locked, c.limit))
  }

  function After(c: Settings, t: Table, es: seq<Event>): Table
    decreases |es|
  {
    if es == [] then t else Apply(c, After(c, t, es[..|es| - 1]), es[|es| - 1])
  }

  /** All events were stamped by then.  They need not be in order: a heartbeat carries the time at which its
      transaction began, and may have waited for a sweep that began later. */
  ghost predicate StampedBy(es: seq<Event>, clock: int) { forall i :: 0 <= i < |es| ==> es[i].at <= clock }

  ghost function WithoutSweeps(es: seq<Event>): seq<Event>
    decreases |es|
  {
    if es == [] then []
    else
      var last := es[|es| - 1];
      WithoutSweeps(es[..|es| - 1]) + (if last.Sweep? then [] else [last])
  }

  /** A row that the sweeps have written down, beside the row as it would be without them. */
  ghost predicate Written(a: Agent, b: Agent, threshold: int, clock: int) {
    a == b || (a == b.(status := Offline) && StaleOnline(b, threshold, clock))
  }

  ghost predicate Simulates(a: Table, b: Table, threshold: int, clock: int) {
    a.Keys == b.Keys && forall id :: id in a ==> Written(a[id], b[id], threshold, clock)
  }

  lemma StepSimulates(c: Settings, a: Table, b: Table, clock: int, e: Event)
    requires Simulates(a, b, c.threshold, clock) && e.at <= clock
    ensures Simulates(Apply(c, a, e), if e.Sweep? then b else Apply(c, b, e), c.threshold, clock)
  {
  }

  lemma {:induction false} RunSimulates(c: Settings, t: Table, es: seq<Event>, clock: int)
    requires StampedBy(es, clock)
    ensures Simulates(After(c, t, es), After(c, t, WithoutSweeps(es)), c.threshold, clock)
    decreases |es|
  {
    hide Apply, Simulates;
    if es == [] {
      SimulatesItself(t, c.threshold, clock);
    } else {
      var before, last := es[..|es| - 1], es[|es| - 1];
      RunSimulates(c, t, before, clock);
      StepSimulates(c, After(c, t, before), After(c, t, WithoutSweeps(before)), clock, last);
      if last.Sweep? {
        assert WithoutSweeps(es) == WithoutSweeps(before);
      } else {
        assert (WithoutSweeps(before) + [last])[..|WithoutSweeps(before)|] == WithoutSweeps(before);
      }
    }
  }

  lemma SimulatesItself(t: Table, threshold: int, clock: int)
    ensures Simulates(t, t, threshold, clock)
  {
  }

  /** Over any run, three answers about every agent do not depend on whether the sweeps ran: the job gate
      from the latest stamp on, availability and the customer-facing status from the next millisecond on. */
  lemma SweepsAreUnobservable(c: Settings, t: Table, es: seq<Event>, clock: int, at: int)
    requires StampedBy(es, clock) && Ms(clock) < at
    ensures var a, b := After(c, t, es), After(c, t, WithoutSweeps(es));
            a.Keys == b.Keys && forall id :: id in a ==>
              SameAnswers(a[id], b[id], c.threshold, at)
              && (SqlGate(a[id], c.threshold, clock) <==> SqlGate(b[id], c.threshold, clock))
  {
    var a, b := After(c, t, es), After(c, t, WithoutSweeps(es));
    RunSimulates(c, t, es, clock);
    forall id | id in a
      ensures SameAnswers(a[id], b[id], c.threshold, at)
              && (SqlGate(a[id], c.threshold, clock) <==> SqlGate(b[id], c.threshold, clock))
    {
      if a[id] != b[id] {
        StaleReads(b[id], c.threshold, clock, at);
        OfflineAnswers(b[id], c.threshold, at);
      }
    }
  }

  /** Past the five minutes in which an agent without a heartbeat starts, or a stale one is degraded. */
  predicate LongGone(a: Agent, at: int) {
    if a.lastSeen.None? then !(0 <= at - Ms(a.created) <= STARTING_MS) else at - Ms(a.lastSeen.value) > DEGRADED_MS
  }

  /** What two other answers say of a row that may have been written down. */
  ghost predicate ShowsIff(a: Agent, b: Agent, threshold: int, at: int) {
    var health, plain := BaseStatus(a, threshold, at), BaseStatus(b, threshold, at);
    var reason, plainReason := Availability(a, threshold, at), Availability(b, threshold, at);
    && (health == plain <==> a == b || LongGone(b, at))
    && (health != plain ==> health == OFFLINE && plain == if b.lastSeen.None? then STARTING else DEGRADED)
    && (reason == plainReason <==> a == b)
    && (reason != plainReason ==>
          reason == NotOnline && plainReason == if b.lastSeen.None? then MissingHeartbeat else StaleHeartbeat)
  }

  lemma WrittenShows(a: Agent, b: Agent, threshold: int, clock: int, at: int)
    requires Written(a, b, threshold, clock) && 0 <= threshold && Ms(clock) < at
    ensures ShowsIff(a, b, threshold, at)
  {
    if a != b {
      StaleReads(b, threshold, clock, at);
      if b.lastSeen.Some? { AgesAgree(b.lastSeen.value, threshold, at); }
    }
  }

  /**
   Two other answers do depend on the sweeps, exactly so: over any run, the base health of an agent
   is the same with and without them if and only if they did not write its row down, or it is long
   gone anyway, and otherwise DEGRADED or STARTING has become OFFLINE; the reason for being
   unavailable is the same if and only if its row was not written down, and otherwise a stale or
   missing heartbeat has become plain offline.
   */
  lemma SweepsShowIff(c: Settings, t: Table, es: seq<Event>, clock: int, at: int, id: Id)
    requires StampedBy(es, clock) && Ms(clock) < at
    requires id in After(c, t, es)
    ensures id in After(c, t, WithoutSweeps(es))
    ensures ShowsIff(After(c, t, es)[id], After(c, t, WithoutSweeps(es))[id], c.threshold, at)
  {
    hide ShowsIff, After, WithoutSweeps, Written;
    RunSimulates(c, t, es, clock);
    WrittenShows(After(c, t, es)[id], After(c, t, WithoutSweeps(es))[id], c.threshold, clock, at);
  }

  // ---------------------------------------------------------------------------
  // How long a backlog lasts
  // ---------------------------------------------------------------------------

  ghost function OnlineIds(t: Table): set<Id> { set id | id in t && t[id].status == Online }

  ghost function Taken(c: Settings, t: Table, e: Event): nat {
    if e.Sweep? then |Chosen(t, c.threshold, e.at, e.locked, c.limit)| else 0
  }

  /** A sweep that leaves behind a stale online agent it could have taken. */
  ghost predicate LeavesBacklog(c: Settings, t: Table, e: Event) {
    e.Sweep? && Candidates(Apply(c, t, e), c.threshold, e.at, e.locked) != {}
  }

  ghost function Raises(es: seq<Event>): nat
    decreases |es|
  {
    if es == [] then 0
    else var last := es[|es| - 1];
      Raises(es[..|es| - 1]) + if last.Heartbeat? && last.status == Online then 1 else 0
  }

  ghost function Backlogs(c: Settings, t: Table, es: seq<Event>): nat
    decreases |es|
  {
    if es == [] then 0
    else
      var before := es[..|es| - 1];
      Backlogs(c, t, before) + if LeavesBacklog(c, After(c, t, before), es[|es| - 1]) then 1 else 0
  }

  /** A sweep that leaves a backlog has taken as many agents as it may, and left one online. */
  lemma BacklogMeansFull(c: Settings, t: Table, e: Event)
    requires LeavesBacklog(c, t, e)
    ensures Taken(c, t, e) == c.limit && OnlineIds(Apply(c, t, e)) != {}
  {
    var candidates := Candidates(t, c.threshold, e.at, e.locked);
    var chosen := Chosen(t, c.threshold, e.at, e.locked, c.limit);
    FirstSize(t, candidates, c.limit);
    var left :| left in Candidates(Apply(c, t, e), c.threshold, e.at, e.locked);
    assert left in candidates && left !in chosen;
    assert left in OnlineIds(Apply(c, t, e));
    if |candidates| <= c.limit { SameSize(chosen, candidates); }
  }

  lemma SameSize<T>(a: set<T>, b: set<T>)
    requires a <= b && |a| == |b|
    ensures a == b
  {
    if x :| x in b && x !in a { Smaller(a, b - {x}); }
  }

  /** Online agents are conserved: what a sweep takes was online, and only a heartbeat adds one. */
  lemma StepConserves(c: Settings, t: Table, e: Event)
    ensures |OnlineIds(Apply(c, t, e))| + Taken(c, t, e)
            <= |OnlineIds(t)| + if e.Heartbeat? && e.status == Online then 1 else 0
  {
    var next := OnlineIds(Apply(c, t, e));
    if e.Sweep? {
      var chosen := Chosen(t, c.threshold, e.at, e.locked, c.limit);
      assert next !! chosen;
      assert |next + chosen| == |next| + |chosen|;
      Smaller(next + chosen, OnlineIds(t));
    } else if e.Heartbeat? && e.status == Online {
      Smaller(next, OnlineIds(t) + {e.id});
    } else {
      Smaller(next, OnlineIds(t));
    }
  }

  lemma {:induction false} RunConserves(c: Settings, t: Table, es: seq<Event>)
    ensures |OnlineIds(After(c, t, es))| + Backlogs(c, t, es) * c.limit <= |OnlineIds(t)| + Raises(es)
    decreases |es|
  {
    hide Apply, OnlineIds, Taken, LeavesBacklog;
    if es != [] {
      var before, last := es[..|es| - 1], es[|es| - 1];
      RunConserves(c, t, before);
      StepConserves(c, After(c, t, before), last);
      if LeavesBacklog(c, After(c, t, before), last) {
        BacklogMeansFull(c, After(c, t, before), last);
        assert (Backlogs(c, t, before) + 1) * c.limit == Backlogs(c, t, before) * c.limit + c.limit;
      }
    }
  }

  /** Sweeps that end with a takeable stale agent are bounded by the agents once online and the
      heartbeats received: without heartbeats, after floor(online / limit) of them none can follow. */
  lemma BacklogIsBounded(c: Settings, t: Table, es: seq<Event>)
    requires 0 < c.limit
    ensures Backlogs(c, t, es) <= (|OnlineIds(t)| + Raises(es)) / c.limit
  {
    RunConserves(c, t, es);
    QuotientBound(Backlogs(c, t, es), c.limit, |OnlineIds(t)| + Raises(es));
  }

  lemma QuotientBound(k: nat, limit: nat, total: nat)
    requires 0 < limit && k * limit <= total
    ensures k <= total / limit
  {
    MultipleExceeds(k, total / limit, limit);
  }

  lemma {:induction false} MultipleExceeds(k: nat, q: nat, limit: nat)
    ensures q < k ==> q * limit + limit <= k * limit
    decreases k
  {
    if q + 1 < k { MultipleExceeds(k - 1, q, limit); }
    if 0 < k { assert k * limit == (k - 1) * limit + limit; }
  }

  // ---------------------------------------------------------------------------
  // What a heartbeat keeps up
  // ---------------------------------------------------------------------------

  /** Does the event leave alone an agent that was last seen at `seen`?  A sweep does as long as that is within the
      threshold of its own time. */
  ghost predicate Spares(c: Settings, e: Event, id: Id, seen: int) {
    if e.Sweep? then e.at <= seen + c.threshold * 1_000_000 else e.id != id
  }

  /** An active agent that has sent an online heartbeat stays as that left it, and passes the job gate until the
      threshold runs out, through whatever sweeps and events of other agents; another agent's row stays as it was. */
  lemma {:induction false} HeartbeatLasts(c: Settings, t: Table, id: Id, seen: int, more: seq<Event>, now: int)
    requires id in t && t[id].lifecycle == Active && forall e :: e in more ==> Spares(c, e, id, seen)
    ensures var t' := After(c, t, [Heartbeat(id, Online, seen)] + more);
            && id in t' && t'[id] == t[id].(status := Online, lastSeen := Some(seen))
            && (SqlGate(t'[id], c.threshold, now) <==> seen <= now <= seen + c.threshold * 1_000_000)
    decreases |more|
  {
    var all := [Heartbeat(id, Online, seen)] + more;
    if more == [] {
      assert all[..0] == [] && After(c, t, all[..0]) == t;
    } else {
      var before, last := more[..|more| - 1], more[|more| - 1];
      assert all[..|all| - 1] == [Heartbeat(id, Online, seen)] + before && all[|all| - 1] == last;
      assert last in more;
      HeartbeatLasts(c, t, id, seen, before, now);
      SpareStep(c, After(c, t, all[..|all| - 1]), last, id, seen);
    }
  }

  lemma SpareStep(c: Settings, t: Table, e: Event, id: Id, seen: int)
    requires id in t && t[id].lastSeen == Some(seen) && Spares(c, e, id, seen)
    ensures id in Apply(c, t, e) && Apply(c, t, e)[id] == t[id]
  {
    if e.Sweep? { CandidatesAre(t, c.threshold, e.at, e.locked); }
  }

  /** Enrolling adds an agent that is not up before its first heartbeat, and never replaces one. */
  lemma EnrolAdds(c: Settings, t: Table, id: Id, at: int, other: Id, now: int)
    ensures var t' := Apply(c, t, Enrol(id, at));
            && t'.Keys == t.Keys + {id} && (other in t ==> t'[other] == t[other])
            && (id !in t ==> t'[id].lifecycle == Active && t'[id].created == at && !SqlGate(t'[id], c.threshold, now))
  {}

  /** A change of lifecycle takes effect, and the agent is not up before its next heartbeat; no other row changes,
      nor does one that has the lifecycle already. */
  lemma LifecycleChanges(c: Settings, t: Table, id: Id, next: Lifecycle, at: int, other: Id, now: int)
    ensures var t' := Apply(c, t, ChangeLifecycle(id, next, at));
            && t'.Keys == t.Keys && (other in t && (other != id || t[id].lifecycle == next) ==> t'[other] == t[other])
            && (id in t ==> t'[id].lifecycle == next)
            && (id in t && t[id].lifecycle != next ==> !SqlGate(t'[id], c.threshold, now))
  {}

  /** A heartbeat of an agent that is not active changes nothing. */
  lemma InactiveIsDeaf(c: Settings, t: Table, e: Event)
    requires e.Heartbeat? && (e.id in t ==> t[e.id].lifecycle != Active)
    ensures Apply(c, t, e) == t
  {}
}
