/**
 What the gateway says of one agent: the routing answer, the customer-facing status and the
 health base status (src/lib/agent-availability.ts, src/lib/agent-health.ts).

 Database timestamps are counted in microseconds, the resolution of a PostgreSQL timestamp;
 JavaScript dates hold whole milliseconds.
 */
module AgentPresence {
  import opened Options

  datatype Lifecycle = Active | Disabled | Retired

  datatype Status = Online | Offline

  /** An agent row; the column checks of the schema admit no other lifecycle or status. */
  datatype Agent = Agent(lifecycle: Lifecycle, status: Status, lastSeen: Option<int>, created: int)

  const MILLI := 1_000
  const SECOND := 1_000_000

  /** The millisecond a database timestamp is read as. */
  function Ms(micros: int): int { micros / MILLI }

  const DEFAULT_THRESHOLD := 90

  /** The configured staleness threshold in seconds; None is a value that is not a finite number. */
  function ResolveThreshold(raw: Option<real>): (r: int)
    ensures 90 <= r <= 3600
    ensures raw.Some? && 90.0 <= raw.value <= 3600.0 ==> r as real <= raw.value < r as real + 1.0
    ensures raw.None? || raw.value < 90.0 || raw.value > 3600.0 ==> r == 90
  {
    if raw.None? || raw.value < 90.0 || raw.value > 3600.0 then DEFAULT_THRESHOLD else raw.value.Floor
  }

  datatype Freshness = Fresh | Stale | Missing

  function AgeSeconds(lastSeen: int, now: int): real { (now - Ms(lastSeen)) as real / 1000.0 }

  /** observationFreshness: `now` is in milliseconds. */
  function ObservationFreshness(lastSeen: Option<int>, threshold: int, now: int): Freshness {
    if lastSeen.None? then Missing
    else if 0.0 <= AgeSeconds(lastSeen.value, now) <= threshold as real then Fresh
    else Stale
  }

  datatype Reason = ActiveOnlineFresh | InactiveLifecycle | NotOnline | StaleHeartbeat | MissingHeartbeat

  /** getAgentAvailability; an agent is available for the one reason ActiveOnlineFresh. */
  function Availability(agent: Agent, threshold: int, now: int): Reason {
    if agent.lifecycle != Active then InactiveLifecycle
    else if agent.status != Online then NotOnline
    else if agent.lastSeen.None? then MissingHeartbeat
    else
      var age := AgeSeconds(agent.lastSeen.value, now);
      if age < 0.0 || age > threshold as real then StaleHeartbeat else ActiveOnlineFresh
  }

  predicate Available(agent: Agent, threshold: int, now: int) {
    Availability(agent, threshold, now) == ActiveOnlineFresh
  }

  datatype EffectiveStatus = EffectivelyOnline | EffectivelyOffline | EffectivelyDisabled | EffectivelyRetired | Unknown

  /** getEffectiveAgentStatus */
  function Effective(agent: Agent, threshold: int, now: int): EffectiveStatus {
    match agent.lifecycle
    case Disabled => EffectivelyDisabled
    case Retired => EffectivelyRetired
    case Active =>
      if ObservationFreshness(agent.lastSeen, threshold, now) != Fresh then Unknown
      else if agent.status == Online then EffectivelyOnline
      else EffectivelyOffline
  }

  datatype HealthStatus = ONLINE | DEGRADED | OFFLINE | STARTING

  const DEGRADED_MS := 300_000
  const STARTING_MS := 300_000

  /** computeAgentHealthStatus */
  function ComputeStatus(lastSeen: Option<int>, created: int, threshold: int, now: int, status: Status): HealthStatus {
    if status == Offline && lastSeen.Some? then OFFLINE
    else if lastSeen.None? then
      if 0 <= now - Ms(created) <= STARTING_MS then STARTING else OFFLINE
    else
      var age := now - Ms(lastSeen.value);
      if age < 0 then OFFLINE
      else if age <= threshold * 1000 then ONLINE
      else if age <= DEGRADED_MS then DEGRADED
      else OFFLINE
  }

  /** An agent that was never seen is starting for five minutes, whatever its status says; one that was seen and says
      it is offline is. */
  lemma SilentAgents(created: int, threshold: int, now: int, status: Status, seen: int)
    ensures ComputeStatus(None, created, threshold, now, status) ==
            if 0 <= now - Ms(created) <= 300_000 then STARTING else OFFLINE
    ensures ComputeStatus(Some(seen), created, threshold, now, Offline) == OFFLINE
  {}

  /** The base status of a health report, before queue and printer evidence. */
  function BaseStatus(agent: Agent, threshold: int, now: int): HealthStatus {
    if agent.lifecycle != Active then OFFLINE
    else if agent.status == Offline then OFFLINE
    else ComputeStatus(agent.lastSeen, agent.created, threshold, now, agent.status)
  }

  /** The gate that the job queries apply in SQL, on the database's own clock (microseconds). */
  predicate SqlGate(agent: Agent, threshold: int, now: int) {
    && agent.lifecycle == Active && agent.status == Online && agent.lastSeen.Some?
    && now - threshold * SECOND <= agent.lastSeen.value <= now
  }

  /** The second-based and the millisecond-based age tests are the same test. */
  lemma AgesAgree(lastSeen: int, threshold: int, now: int)
    ensures 0.0 <= AgeSeconds(lastSeen, now) <==> 0 <= now - Ms(lastSeen)
    ensures AgeSeconds(lastSeen, now) <= threshold as real <==> now - Ms(lastSeen) <= threshold * 1000
  {
    var age := now - Ms(lastSeen);
    assert (threshold * 1000) as real == threshold as real * 1000.0;
    assert age as real <= (threshold * 1000) as real <==> age <= threshold * 1000;
  }

  /** Routing, presentation and health agree on which agents are up, at every instant. */
  lemma ViewsAgree(agent: Agent, threshold: int, now: int)
    ensures Available(agent, threshold, now) <==> Effective(agent, threshold, now) == EffectivelyOnline
    ensures Available(agent, threshold, now) <==> BaseStatus(agent, threshold, now) == ONLINE
  {
    if agent.lastSeen.Some? { AgesAgree(agent.lastSeen.value, threshold, now); }
  }

  /** A heartbeat that is past an edge of the window, but in the same millisecond as that edge. */
  ghost predicate AtEdge(lastSeen: int, threshold: int, now: int) {
    var oldest := now - threshold * SECOND;
    (now < lastSeen && Ms(lastSeen) == Ms(now)) || (lastSeen < oldest && Ms(lastSeen) == Ms(oldest))
  }

  /** The SQL gate at a database instant and the JavaScript answer for its millisecond differ exactly on
      active online agents with a heartbeat at an edge, and there it is JavaScript that still says available. */
  lemma GateAgreesIff(agent: Agent, threshold: int, now: int)
    requires 0 <= threshold
    ensures SqlGate(agent, threshold, now) ==> Available(agent, threshold, Ms(now))
    ensures (SqlGate(agent, threshold, now) <==> Available(agent, threshold, Ms(now))) <==>
            !(agent.lifecycle == Active && agent.status == Online && agent.lastSeen.Some?
              && AtEdge(agent.lastSeen.value, threshold, now))
  {
    if agent.lastSeen.Some? { AgesAgree(agent.lastSeen.value, threshold, Ms(now)); }
    assert Ms(now - threshold * SECOND) == Ms(now) - threshold * 1000;
  }
}
