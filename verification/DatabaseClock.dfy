/**
 The calibrated gateway clock (src/lib/database-clock.ts): the database-minus-host offset is
 measured around a round trip and cached, and `now` is the host clock plus that offset.

 Host readings are whole milliseconds; the database clock is a real number of milliseconds.
 */
module DatabaseClock {
  import opened Options
  import opened AgentPresence

  const CLOCK_TTL_MS := 30_000

  /** A calibration under way; once settled it stays in place until its starter resumes. */
  datatype Calibration = Idle | Probing(startedAt: int) | Settled(result: Option<real>)

  datatype Clock = Clock(offset: Option<real>, lastAttempt: int, calibration: Calibration)

  const INITIAL := Clock(None, 0, Idle)

  // ---------------------------------------------------------------------------
  // Specification: the steps between two suspension points
  // ---------------------------------------------------------------------------

  /** What a call of refreshClockSkew does before it first waits. */
  datatype Answer = Cached(offset: Option<real>) | Joins | Starts

  function RefreshAnswer(c: Clock, force: bool, now: int): Answer {
    if !force && now - c.lastAttempt < CLOCK_TTL_MS then Cached(c.offset)
    else if !c.calibration.Idle? then Joins
    else Starts
  }

  function Refreshed(c: Clock, force: bool, now: int): Clock {
    if RefreshAnswer(c, force, now).Starts? then c.(calibration := Probing(now)) else c
  }

  function Midpoint(startedAt: int, finishedAt: int): real {
    startedAt as real + (finishedAt - startedAt) as real / 2.0
  }

  function Sampled(c: Clock, database: real, finishedAt: int): Clock
    requires c.calibration.Probing?
  {
    var offset := Some(database - Midpoint(c.calibration.startedAt, finishedAt));
    Clock(offset, finishedAt, Settled(offset))
  }

  function Failed(c: Clock, finishedAt: int): Clock
    requires c.calibration.Probing?
  {
    Clock(c.offset, finishedAt, Settled(c.offset))
  }

  function Skew(c: Clock): real { c.offset.GetOr(0.0) }

  /** gatewayNow: a date keeps whole milliseconds. */
  function GatewayNow(c: Clock, host: int): int { (host as real + Skew(c)).Floor }

  // ---------------------------------------------------------------------------
  // The module state
  // ---------------------------------------------------------------------------

  class GatewayClock {
    var cachedOffset: Option<real>
    var lastAttempt: int
    var inFlight: Calibration

    constructor ()
      ensures View() == INITIAL
    {
      cachedOffset, lastAttempt, inFlight := None, 0, Idle;
    }

    function View(): Clock
      reads this
    {
      Clock(cachedOffset, lastAttempt, inFlight)
    }

    method RefreshClockSkew(force: bool, now: int) returns (answer: Answer)
      modifies this
      ensures answer == RefreshAnswer(old(View()), force, now)
      ensures answer.Cached? <==> !force && now < old(lastAttempt) + 30_000
      ensures answer.Cached? ==> answer.offset == old(cachedOffset)
      ensures answer.Joins? <==> !answer.Cached? && old(inFlight) != Idle
      ensures View() == Refreshed(old(View()), force, now)
    {
      var recent := now - lastAttempt < CLOCK_TTL_MS;
      if !force && recent { return Cached(cachedOffset); }
      if inFlight != Idle { return Joins; }
      inFlight := Probing(now);
      return Starts;
    }

    /** The probe ends, with the database time or, on an error or a timeout, without. */
    method ProbeEnds(database: Option<real>, finishedAt: int)
      requires inFlight.Probing?
      modifies this
      ensures View() == if database.Some? then Sampled(old(View()), database.value, finishedAt)
                        else Failed(old(View()), finishedAt)
    {
      if database.Some? {
        cachedOffset := Some(database.value - Midpoint(inFlight.startedAt, finishedAt));
      }
      lastAttempt := finishedAt;
      inFlight := Settled(cachedOffset);
    }

    method StarterResumes()
      modifies this
      ensures View() == old(View()).(calibration := Idle)
    {
      inFlight := Idle;
    }
  }

  // ---------------------------------------------------------------------------
  // Runs, beside the true clocks
  // ---------------------------------------------------------------------------

  /** `host` is the true time on the host's clock at which the database read its own. */
  datatype Event =
    | Refresh(force: bool, now: int)
    | Success(database: real, host: real, finishedAt: int)
    | Failure(finishedAt: int)
    | Resume

  /** The database read its clock during the probe; a reading drops the part below a millisecond. */
  predicate Enabled(c: Clock, e: Event) {
    match e
    case Refresh(_, _) => true
    case Success(_, host, finishedAt) =>
      && c.calibration.Probing?
      && c.calibration.startedAt as real <= host < finishedAt as real + 1.0
    case Failure(_) => c.calibration.Probing?
    case Resume => c.calibration.Settled?
  }

  function Step(c: Clock, e: Event): Clock
    requires Enabled(c, e)
  {
    match e
    case Refresh(force, now) => Refreshed(c, force, now)
    case Success(database, _, finishedAt) => Sampled(c, database, finishedAt)
    case Failure(finishedAt) => Failed(c, finishedAt)
    case Resume => c.(calibration := Idle)
  }

  predicate IsRun(es: seq<Event>)
    decreases |es|, 0
  {
    es == [] || (IsRun(es[..|es| - 1]) && Enabled(After(es[..|es| - 1]), es[|es| - 1]))
  }

  function After(es: seq<Event>): Clock
    requires IsRun(es)
    decreases |es|, 1
  {
    if es == [] then INITIAL else Step(After(es[..|es| - 1]), es[|es| - 1])
  }

  /** The round trip of the probe that ends with this event. */
  function RoundTrip(c: Clock, e: Event): int
    requires Enabled(c, e) && e.Success?
  {
    e.finishedAt - c.calibration.startedAt
  }

  /** In each successful probe of the run the true offset was within `drift` of `offset`,
      and the round trip within `roundTrip`. */
  predicate Steady(es: seq<Event>, offset: real, drift: real, roundTrip: int)
    requires IsRun(es)
    decreases |es|
  {
    es == [] ||
    var before, last := es[..|es| - 1], es[|es| - 1];
    Steady(before, offset, drift, roundTrip) &&
    (last.Success? ==>
       -drift <= last.database - last.host - offset <= drift && RoundTrip(After(before), last) <= roundTrip)
  }

  /** How far a calibrated offset may be from the true one. */
  function Margin(drift: real, roundTrip: int): real { drift + roundTrip as real / 2.0 }

  /** Once calibrated, the cached offset stays within half a round trip of the true one (a
      millisecond more on the side of a truncated host reading), whatever probes fail after. */
  lemma {:induction false} OffsetIsAccurate(es: seq<Event>, offset: real, drift: real, roundTrip: int)
    requires IsRun(es) && Steady(es, offset, drift, roundTrip) && After(es).offset.Some?
    ensures -Margin(drift, roundTrip) <= After(es).offset.value - offset < Margin(drift, roundTrip) + 1.0
    decreases |es|
  {
    var before, last := es[..|es| - 1], es[|es| - 1];
    var c := After(before);
    match last
    case Success(database, host, finishedAt) =>
      var half := (finishedAt - c.calibration.startedAt) as real / 2.0;
      assert half <= roundTrip as real / 2.0;
      assert finishedAt as real == c.calibration.startedAt as real + half + half;
    case Refresh(_, _) => OffsetIsAccurate(before, offset, drift, roundTrip);
    case Failure(_) => OffsetIsAccurate(before, offset, drift, roundTrip);
    case Resume => OffsetIsAccurate(before, offset, drift, roundTrip);
  }

  /** The half round trip is reached: when the database reads its clock as the probe starts. */
  lemma HalfRoundTripIsReached(roundTrip: nat, offset: real)
    ensures var es := [Refresh(true, 0), Success(offset, 0.0, roundTrip)];
            IsRun(es) && Steady(es, offset, 0.0, roundTrip)
            && After(es).offset == Some(offset - Margin(0.0, roundTrip))
  {
    var first, es := [Refresh(true, 0)], [Refresh(true, 0), Success(offset, 0.0, roundTrip)];
    assert first[..0] == [] && es[..1] == first;
    assert IsRun(first) && After(first) == INITIAL.(calibration := Probing(0));
    assert Steady(first, offset, 0.0, roundTrip);
    assert IsRun(es);
  }

  /** The offset is never lost, and only a successful probe changes it. */
  lemma {:induction false} OffsetIsLastSample(es: seq<Event>)
    requires IsRun(es)
    ensures After(es).offset.Some? <==> exists e :: e in es && e.Success?
    ensures es != [] && !es[|es| - 1].Success? ==> After(es).offset == After(es[..|es| - 1]).offset
    decreases |es|
  {
    if es != [] {
      var before, last := es[..|es| - 1], es[|es| - 1];
      OffsetIsLastSample(before);
      assert es == before + [last];
      assert last.Success? ==> last in es;
    }
  }

  /** Whoever joins a calibration gets, when it has settled, the offset that is then cached. */
  lemma {:induction false} JoinersShare(es: seq<Event>)
    requires IsRun(es)
    ensures var c := After(es); c.calibration.Settled? ==> c.calibration.result == c.offset
    decreases |es|
  {
    if es != [] { JoinersShare(es[..|es| - 1]); }
  }

  /** The host time at which the most recent attempt ended. */
  ghost function LastEnd(es: seq<Event>): int
    decreases |es|
  {
    if es == [] then 0
    else
      var last := es[|es| - 1];
      if last.Success? || last.Failure? then last.finishedAt else LastEnd(es[..|es| - 1])
  }

  /** At most one probe is under way: each one started has ended before the next starts,
      and a call starts the next exactly when the last has been cleared and it is forced or comes 30 seconds
      after that end. */
  lemma {:induction false} ProbesAreThrottled(es: seq<Event>)
    requires IsRun(es)
    ensures After(es).lastAttempt == LastEnd(es)
    ensures After(es).calibration.Probing? <==> Started(es) == Ended(es) + 1
    ensures !After(es).calibration.Probing? <==> Started(es) == Ended(es)
    ensures es != [] && es[|es| - 1].Resume? ==> After(es).calibration.Idle?
    ensures es != [] ==>
              var before, last := es[..|es| - 1], es[|es| - 1];
              Started(es) > Started(before) <==>
              last.Refresh? && After(before).calibration.Idle? && (last.force || last.now >= LastEnd(es) + 30_000)
    decreases |es|
  {
    if es != [] { ProbesAreThrottled(es[..|es| - 1]); }
  }

  /** Probes started in a run. */
  ghost function Started(es: seq<Event>): nat
    requires IsRun(es)
    decreases |es|
  {
    if es == [] then 0
    else
      var before, last := es[..|es| - 1], es[|es| - 1];
      Started(before) + if last.Refresh? && RefreshAnswer(After(before), last.force, last.now).Starts? then 1 else 0
  }

  ghost function Ended(es: seq<Event>): nat
    decreases |es|
  {
    if es == [] then 0
    else
      var last := es[|es| - 1];
      Ended(es[..|es| - 1]) + if last.Success? || last.Failure? then 1 else 0
  }

  // ---------------------------------------------------------------------------
  // Freshness on the calibrated clock
  // ---------------------------------------------------------------------------

  /** The gateway's `now` is close to the database's: `host` is the true host time of the reading. */
  lemma NowIsClose(c: Clock, offset: real, margin: real, drift: real, reading: int, host: real, database: real)
    requires c.offset.Some? && -margin <= c.offset.value - offset < margin + 1.0
    requires reading as real <= host < reading as real + 1.0
    requires -drift <= database - host - offset <= drift
    ensures -margin - drift - 2.0 < GatewayNow(c, reading) as real - database < margin + drift + 1.0
  {
  }

  /** A heartbeat whose true age is clear of both edges by the calibration error and two
      milliseconds is judged exactly as the rule on the database clock would judge it. */
  lemma FreshnessIsExact(es: seq<Event>, offset: real, drift: real, roundTrip: int, threshold: int,
                         reading: int, host: real, database: real, lastSeen: int)
    requires IsRun(es) && Steady(es, offset, drift, roundTrip) && After(es).offset.Some?
    requires reading as real <= host < reading as real + 1.0
    requires -drift <= database - host - offset <= drift
    ensures var age := database - lastSeen as real / 1000.0;
            var margin := Margin(drift, roundTrip) + drift + 2.0;
            var limit := threshold as real * 1000.0;
            var verdict := ObservationFreshness(Some(lastSeen), threshold, GatewayNow(After(es), reading));
            && (margin <= age <= limit - margin ==> verdict == Fresh)
            && (age <= -margin || age >= limit + margin ==> verdict == Stale)
  {
    hide After, IsRun, Steady;
    var c := After(es);
    OffsetIsAccurate(es, offset, drift, roundTrip);
    NowIsClose(c, offset, Margin(drift, roundTrip), drift, reading, host, database);
    var now := GatewayNow(c, reading);
    MsIsClose(lastSeen);
    assert AgeSeconds(lastSeen, now) * 1000.0 == now as real - Ms(lastSeen) as real;
  }

  lemma MsIsClose(micros: int)
    ensures Ms(micros) as real <= micros as real / 1000.0 < Ms(micros) as real + 1.0
  {
    var ms := Ms(micros);
    assert 1000 * ms <= micros < 1000 * ms + 1000;
    assert (1000 * ms) as real == 1000.0 * ms as real;
  }

  /** Before the first success the clock is the host's own. */
  lemma UncalibratedIsHost(es: seq<Event>, reading: int)
    requires IsRun(es) && forall e :: e in es ==> !e.Success?
    ensures Skew(After(es)) == 0.0 && GatewayNow(After(es), reading) == reading
  {
    OffsetIsLastSample(es);
  }
}
