/** What the attempt limiter promises over whole histories of one key. */
module AuthRateRuns {
  import opened Options
  import opened AuthRateLimit

  /**
   An attempt on this key; an attempt refused because of another key of the same login,
   which only makes sure that the row exists; a run of the retention cleanup; a recorded
   success.  A success reads no clock, so its time may be any that fits those around it.
   */
  datatype Event = Attempt(at: int) | RefusedElsewhere(at: int) | Sweep(at: int) | Success(at: int)

  datatype History = History(row: Option<Bucket>, admitted: nat, successes: nat)

  function Step(curve: Curve, h: History, e: Event): History {
    match e
    case Attempt(now) =>
      var (decision, row) := Reserve(h.row, now, curve);
      h.(row := Some(row), admitted := h.admitted + if decision.allowed then 1 else 0)
    case RefusedElsewhere(now) => h.(row := Some(h.row.GetOr(Fresh(now))))
    case Sweep(now) =>
      if h.row.Some? && h.row.value.updatedAt < now - RETENTION_MS then h.(row := None) else h
    case Success(_) => h.(row := None, successes := h.successes + 1)
  }

  function After(curve: Curve, es: seq<Event>): History {
    if es == [] then History(None, 0, 0) else Step(curve, After(curve, es[..|es| - 1]), es[|es| - 1])
  }

  /** Transactions may commit out of clock order, but no further back than `slack`. */
  ghost predicate Paced(es: seq<Event>, slack: int) {
    forall i, j :: 0 <= i < j < |es| ==> es[j].at >= es[i].at - slack
  }

  // ---------------------------------------------------------------------------
  // The failure count is capped
  // ---------------------------------------------------------------------------

  ghost function Cap(curve: Curve): nat { if curve.Ip? then 32 else 12 }

  /** Clock regression from which on the cap is no longer kept. */
  ghost function Tolerance(curve: Curve): nat { if curve.Ip? then 300_000 else 150_000 }

  /** The least age of a window in which k attempts can have been recorded. */
  ghost function Age(curve: Curve, k: nat): nat {
    var t := Thresholds(curve);
    if k <= t[0] then 0
    else if k <= t[1] then 30_000 * (k - t[0])
    else 30_000 * (t[1] - t[0]) + 300_000 * (k - t[1])
  }

  lemma AgeGrowsByLock(curve: Curve, k: nat)
    requires k <= Cap(curve) + 1
    ensures Age(curve, k + 1) == Age(curve, k) + LockDuration(curve, k)
    ensures Age(curve, Cap(curve)) <= WINDOW_MS < Age(curve, Cap(curve) + 1) == WINDOW_MS + Tolerance(curve)
  {}

  /** What a row says about the attempts it has recorded; `latest` is the latest time seen so far. */
  ghost predicate Recorded(curve: Curve, b: Bucket, slack: int, latest: int) {
    && b.failures <= Cap(curve)
    && b.windowStart <= latest && b.updatedAt <= latest
    && b.updatedAt >= b.windowStart - slack + Age(curve, b.failures)
    && var lock := LockDuration(curve, b.failures);
       b.lockedUntil == if lock > 0 then Some(b.updatedAt + lock) else None
  }

  lemma ChargeKeepsRecord(curve: Curve, b: Bucket, now: int, slack: int, latest: int)
    requires 0 <= slack < Tolerance(curve)
    requires Recorded(curve, b, slack, latest) && now >= latest - slack && !Locked(b, now)
    ensures Recorded(curve, Charge(b, now, curve), slack, if now > latest then now else latest)
  {
    AgeGrowsByLock(curve, b.failures);
    AgeGrowsByLock(curve, 0);
  }

  ghost function Latest(es: seq<Event>): int
    requires es != []
  {
    if |es| == 1 then es[0].at
    else
      var before := Latest(es[..|es| - 1]);
      if es[|es| - 1].at > before then es[|es| - 1].at else before
  }

  lemma {:induction false} LatestBounds(es: seq<Event>, slack: int, bound: int)
    requires es != [] && slack >= 0
    ensures (forall i :: 0 <= i < |es| ==> es[i].at - slack <= bound) ==> Latest(es) - slack <= bound
    ensures exists i :: 0 <= i < |es| && es[i].at == Latest(es)
  {
    if |es| > 1 {
      var before := es[..|es| - 1];
      LatestBounds(before, slack, bound);
      assert forall i :: 0 <= i < |before| ==> before[i] == es[i];
      var i :| 0 <= i < |before| && before[i].at == Latest(before);
      assert es[i].at == Latest(before);
      assert es[|es| - 1].at == es[|es| - 1].at;
    }
  }

  lemma LatestPaces(es: seq<Event>, slack: int)
    requires |es| > 1 && slack >= 0 && Paced(es, slack)
    ensures Paced(es[..|es| - 1], slack) && es[|es| - 1].at >= Latest(es[..|es| - 1]) - slack
  {
    var before := es[..|es| - 1];
    assert forall i :: 0 <= i < |before| ==> before[i] == es[i];
    LatestBounds(before, slack, es[|es| - 1].at);
  }

  lemma StepKeepsRecord(curve: Curve, h: History, e: Event, slack: int, latest: int)
    requires 0 <= slack < Tolerance(curve) && e.at >= latest - slack
    requires h.row.Some? ==> Recorded(curve, h.row.value, slack, latest)
    ensures var row, now := Step(curve, h, e).row, if e.at > latest then e.at else latest;
            row.Some? ==> Recorded(curve, row.value, slack, now)
  {
    AgeGrowsByLock(curve, 0);
    var now := if e.at > latest then e.at else latest;
    if e.Attempt? {
      hide LockedDecision, AllowedDecision, SnapshotOf;
      if h.row.None? {
        ChargeKeepsRecord(curve, Fresh(e.at), e.at, slack, now);
      } else if !Locked(h.row.value, e.at) {
        ChargeKeepsRecord(curve, h.row.value, e.at, slack, latest);
      }
    }
  }

  /** In every history the row, if there is one, fits its record. */
  lemma {:induction false} RunIsRecorded(curve: Curve, es: seq<Event>, slack: int)
    requires es != [] && Paced(es, slack) && 0 <= slack < Tolerance(curve)
    ensures After(curve, es).row.Some? ==> Recorded(curve, After(curve, es).row.value, slack, Latest(es))
    decreases |es|
  {
    hide Step, Recorded;
    var before, last := es[..|es| - 1], es[|es| - 1];
    if |es| > 1 {
      LatestPaces(es, slack);
      RunIsRecorded(curve, before, slack);
    }
    StepKeepsRecord(curve, After(curve, before), last, slack, if |es| > 1 then Latest(before) else last.at);
  }

  /** No row ever shows more than 12 failures for an account, or 32 for an address. */
  lemma FailuresAreCapped(curve: Curve, es: seq<Event>, slack: int)
    requires Paced(es, slack) && 0 <= slack < Tolerance(curve)
    ensures After(curve, es).row.Some? ==> After(curve, es).row.value.failures <= Cap(curve)
  {
    if es != [] { RunIsRecorded(curve, es, slack); }
  }

  // ---------------------------------------------------------------------------
  // Admissions are bounded
  // ---------------------------------------------------------------------------

  /** All attempts fall between two times. */
  ghost predicate Within(es: seq<Event>, origin: int, end: int) {
    forall i :: 0 <= i < |es| && (es[i].Attempt? || es[i].RefusedElsewhere?) ==> origin <= es[i].at <= end
  }

  /**
   Besides the current window, `finished` windows have run out and each success has cut one short;
   each admitted at most the cap.  Windows run out one after another, but after a success the
   next may start before the last by as much as the clocks go back: `lag` adds that up.
   */
  ghost predicate Accounted(curve: Curve, h: History, slack: int, origin: int, end: int, latest: int,
                            finished: nat, lag: int)
  {
    var elapsed := finished * (WINDOW_MS + 1) - lag;
    && 0 <= lag == h.successes * slack
    && (h.row.Some? ==>
          && origin + elapsed <= h.row.value.windowStart <= end
          && h.admitted <= (finished + h.successes) * Cap(curve) + h.row.value.failures)
    && (h.row.None? ==>
          && (finished == 0 || (latest - slack >= origin + elapsed && elapsed <= end - origin + WINDOW_MS + 1))
          && h.admitted <= (finished + h.successes) * Cap(curve))
  }

  lemma AttemptKeepsAccounts(curve: Curve, h: History, now: int, slack: int, origin: int, end: int, latest: int,
                             finished: nat, lag: int) returns (finished': nat)
    requires 0 <= slack < Tolerance(curve) && origin <= now <= end && now >= latest - slack
    requires h.row.Some? ==> Recorded(curve, h.row.value, slack, latest)
    requires Accounted(curve, h, slack, origin, end, latest, finished, lag)
    ensures Accounted(curve, Step(curve, h, Attempt(now)), slack, origin, end, if now > latest then now else latest,
                      finished', lag)
  {
    var b := h.row.GetOr(Fresh(now));
    finished' := finished;
    if h.row.Some? && !Locked(b, now) && Expired(b, now) { finished' := finished + 1; }
    hide LockDuration, AllowedDecision, LockedDecision, SnapshotOf;
  }

  lemma RefusalKeepsAccounts(curve: Curve, h: History, now: int, slack: int, origin: int, end: int, latest: int,
                             finished: nat, lag: int)
    requires 0 <= slack && origin <= now <= end && now >= latest - slack
    requires Accounted(curve, h, slack, origin, end, latest, finished, lag)
    ensures Accounted(curve, Step(curve, h, RefusedElsewhere(now)), slack, origin, end,
                      if now > latest then now else latest, finished, lag)
  {}

  lemma SweepKeepsAccounts(curve: Curve, h: History, now: int, slack: int, origin: int, end: int, latest: int,
                           finished: nat, lag: int) returns (finished': nat)
    requires 0 <= slack < Tolerance(curve) && now >= latest - slack
    requires h.row.Some? ==> Recorded(curve, h.row.value, slack, latest)
    requires Accounted(curve, h, slack, origin, end, latest, finished, lag)
    ensures Accounted(curve, Step(curve, h, Sweep(now)), slack, origin, end, if now > latest then now else latest,
                      finished', lag)
  {
    finished' := finished;
    if h.row.Some? && h.row.value.updatedAt < now - RETENTION_MS { finished' := finished + 1; }
  }

  lemma SuccessKeepsAccounts(curve: Curve, h: History, now: int, slack: int, origin: int, end: int, latest: int,
                             finished: nat, lag: int)
    requires 0 <= slack < Tolerance(curve)
    requires h.row.Some? ==> Recorded(curve, h.row.value, slack, latest)
    requires Accounted(curve, h, slack, origin, end, latest, finished, lag)
    ensures Accounted(curve, Step(curve, h, Success(now)), slack, origin, end, if now > latest then now else latest,
                      finished, lag + slack)
  {
    assert (h.successes + 1) * slack == h.successes * slack + slack;
    assert (finished + (h.successes + 1)) * Cap(curve) == (finished + h.successes) * Cap(curve) + Cap(curve);
  }

  lemma {:induction false} RunIsAccounted(curve: Curve, es: seq<Event>, slack: int, origin: int, end: int)
    returns (finished: nat, lag: int)
    requires es != [] && Paced(es, slack) && 0 <= slack < Tolerance(curve) && Within(es, origin, end)
    ensures Accounted(curve, After(curve, es), slack, origin, end, Latest(es), finished, lag)
    decreases |es|
  {
    var before, last := es[..|es| - 1], es[|es| - 1];
    var latest := es[0].at;
    finished, lag := 0, 0;
    if |es| > 1 {
      LatestPaces(es, slack);
      RunIsRecorded(curve, before, slack);
      finished, lag := RunIsAccounted(curve, before, slack, origin, end);
      latest := Latest(before);
    }
    var h := After(curve, before);
    hide Step, After, Accounted, Recorded;
    match last
    case Attempt(now) =>
      finished := AttemptKeepsAccounts(curve, h, now, slack, origin, end, latest, finished, lag);
    case RefusedElsewhere(now) => RefusalKeepsAccounts(curve, h, now, slack, origin, end, latest, finished, lag);
    case Sweep(now) =>
      finished := SweepKeepsAccounts(curve, h, now, slack, origin, end, latest, finished, lag);
    case Success(now) =>
      SuccessKeepsAccounts(curve, h, now, slack, origin, end, latest, finished, lag);
      lag := lag + slack;
  }

  /**
   If all attempts fall within T milliseconds, at most Cap attempts are admitted for each started
   window and each success; clock regressions at successes may add to the time there is.
   */
  lemma AdmissionsAreBounded(curve: Curve, es: seq<Event>, slack: int, origin: int, T: nat)
    requires Paced(es, slack) && 0 <= slack < Tolerance(curve) && Within(es, origin, origin + T)
    ensures var h := After(curve, es);
            0 <= h.successes * slack
            && h.admitted <= Cap(curve) * ((T + h.successes * slack) / WINDOW_MS + 1 + h.successes)
  {
    if es != [] {
      hide After;
      var finished, lag := RunIsAccounted(curve, es, slack, origin, origin + T);
      RunIsRecorded(curve, es, slack);
      AccountsBound(curve, After(curve, es), slack, origin, T, Latest(es), finished, lag);
    }
  }

  lemma AccountsBound(curve: Curve, h: History, slack: int, origin: int, T: nat, latest: int, finished: nat, lag: int)
    requires Accounted(curve, h, slack, origin, origin + T, latest, finished, lag)
    requires h.row.Some? ==> h.row.value.failures <= Cap(curve)
    ensures 0 <= h.successes * slack
    ensures h.admitted <= Cap(curve) * ((T + h.successes * slack) / WINDOW_MS + 1 + h.successes)
  {
    var windows := finished + if h.row.Some? then 1 else 0;
    WindowsFit(windows, T + lag);
    assert h.admitted <= (windows + h.successes) * Cap(curve);
    MulMonotone(windows + h.successes, (T + lag) / WINDOW_MS + 1 + h.successes, Cap(curve));
  }

  lemma WindowsFit(windows: nat, time: nat)
    requires windows == 0 || (windows - 1) * (WINDOW_MS + 1) <= time
    ensures windows <= time / WINDOW_MS + 1
  {}

  lemma MulMonotone(a: nat, b: nat, c: nat)
    requires a <= b
    ensures a * c <= b * c
  {}

  // ---------------------------------------------------------------------------
  // The cap is reached, and the tolerance is exact
  // ---------------------------------------------------------------------------

  /** One attempt at `start`, then each further one as soon as the locks allow it after time zero. */
  ghost function Greedy(curve: Curve, start: nat, k: nat): (es: seq<Event>)
    ensures |es| == k
    ensures forall i :: 0 <= i < k ==> es[i] == Attempt(if i == 0 then start else Age(curve, i + 1))
  {
    seq(k, i requires 0 <= i < k => Attempt(if i == 0 then start else Age(curve, i + 1)))
  }

  ghost predicate Filled(curve: Curve, start: nat, k: nat, b: Bucket) {
    && b.failures == k && b.windowStart == start
    && b.lockedUntil == if LockDuration(curve, k) > 0 then Some(Age(curve, k) + LockDuration(curve, k)) else None
  }

  lemma GreedyStep(curve: Curve, start: nat, k: nat, b: Bucket)
    requires 2 <= k <= Cap(curve) + 1 && Age(curve, k) <= WINDOW_MS + start && Filled(curve, start, k - 1, b)
    ensures !Locked(b, Age(curve, k)) && Filled(curve, start, k, Charge(b, Age(curve, k), curve))
  {
    AgeGrowsByLock(curve, k - 1);
    hide Age;
  }

  lemma {:induction false} GreedyFills(curve: Curve, start: nat, k: nat)
    requires 1 <= k <= Cap(curve) + 1 && Age(curve, k) <= WINDOW_MS + start
    ensures var h := After(curve, Greedy(curve, start, k));
            h.admitted == k && h.row.Some? && Filled(curve, start, k, h.row.value)
  {
    var es := Greedy(curve, start, k);
    assert es[..k - 1] == Greedy(curve, start, k - 1);
    if k == 1 {
      assert es[..0] == [];
    } else {
      AgeMonotone(curve, k - 1, k);
      GreedyFills(curve, start, k - 1);
      GreedyStep(curve, start, k, After(curve, es[..k - 1]).row.value);
      hide Age, Charge, Filled, AllowedDecision, LockedDecision, SnapshotOf, LockDuration;
    }
  }

  lemma AgeMonotone(curve: Curve, i: nat, j: nat)
    requires i <= j
    ensures Age(curve, i) <= Age(curve, j)
  {}

  /**
   The cap is exact: with a steady clock it is reached, and it holds for every history
   with a bounded regression if and only if the regression stays below the tolerance.
   */
  lemma CapIsExact(curve: Curve, slack: nat) returns (es: seq<Event>)
    ensures es != [] && es[0].Attempt? && Paced(es, slack) && After(curve, es).row.Some?
    ensures After(curve, es).row.value.failures == if slack < Tolerance(curve) then Cap(curve) else Cap(curve) + 1
  {
    AgeGrowsByLock(curve, 0);
    var start := if slack < Tolerance(curve) then 0 else Tolerance(curve);
    var k := if slack < Tolerance(curve) then Cap(curve) else Cap(curve) + 1;
    es := Greedy(curve, start, k);
    GreedyFills(curve, start, k);
    forall i, j | 0 <= i < j < |es| ensures es[j].at >= es[i].at - slack {
      AgeMonotone(curve, i + 1, j + 1);
    }
  }

  // ---------------------------------------------------------------------------
  // A success starts over
  // ---------------------------------------------------------------------------

  lemma StepDependsOnRow(curve: Curve, h: History, g: History, e: Event)
    requires h.row == g.row && h.admitted >= g.admitted
    ensures Step(curve, h, e).row == Step(curve, g, e).row
    ensures Step(curve, h, e).admitted - h.admitted == Step(curve, g, e).admitted - g.admitted
  {
    hide Reserve;
  }

  /** After a success a key has no past: whatever follows is decided and recorded as in a history of its own. */
  lemma {:induction false} SuccessRestarts(curve: Curve, es: seq<Event>, at: int, more: seq<Event>)
    ensures var h, restarted := After(curve, es + [Success(at)] + more), After(curve, more);
            h.row == restarted.row && h.admitted == After(curve, es).admitted + restarted.admitted
    decreases |more|
  {
    hide Step;
    var all := es + [Success(at)] + more;
    if more == [] {
      assert all[..|all| - 1] == es && all[|all| - 1] == Success(at);
      SuccessForgets(curve, After(curve, es), at);
    } else {
      assert all[..|all| - 1] == es + [Success(at)] + more[..|more| - 1] && all[|all| - 1] == more[|more| - 1];
      SuccessRestarts(curve, es, at, more[..|more| - 1]);
      StepDependsOnRow(curve, After(curve, all[..|all| - 1]), After(curve, more[..|more| - 1]), more[|more| - 1]);
    }
  }

  lemma SuccessForgets(curve: Curve, h: History, at: int)
    ensures Step(curve, h, Success(at)) == History(None, h.admitted, h.successes + 1)
  {
    hide Reserve;
  }

  // ---------------------------------------------------------------------------
  // Cleanup is unobservable
  // ---------------------------------------------------------------------------

  /**
   Cleanup never removes an active lock or a live window, and the next attempt is decided,
   and recorded, exactly as if the row had stayed.
   */
  lemma CleanupIsUnobservable(curve: Curve, es: seq<Event>, slack: int, sweep: int, now: int)
    requires Paced(es, slack) && 0 <= slack < Tolerance(curve)
    requires After(curve, es).row.Some? && After(curve, es).row.value.updatedAt < sweep - RETENTION_MS
    requires now >= sweep - slack
    ensures var b := After(curve, es).row.value;
            && !Locked(b, sweep) && Expired(b, sweep)
            && Reserve(None, now, curve) == Reserve(Some(b), now, curve)
  {
    RunIsRecorded(curve, es, slack);
  }

  // ---------------------------------------------------------------------------
  // What the caller is told
  // ---------------------------------------------------------------------------

  ghost predicate SomeLocked(buckets: seq<Bucket>, t: int) {
    exists i :: 0 <= i < |buckets| && Locked(buckets[i], t)
  }

  ghost function Snapshots(buckets: seq<Bucket>, curves: seq<Curve>, now: int): (r: seq<Snapshot>)
    requires |buckets| == |curves|
    ensures |r| == |buckets|
    ensures forall i :: 0 <= i < |buckets| ==>
      r[i].lockedUntil == if Locked(buckets[i], now) then buckets[i].lockedUntil else None
  {
    seq(|buckets|, i requires 0 <= i < |buckets| => SnapshotOf(buckets[i], now, curves[i]))
  }

  /** Some bucket stays locked until the latest lock ends, and none after it. */
  lemma LockedUntilLatest(buckets: seq<Bucket>, curves: seq<Curve>, now: int, t: int)
    requires |buckets| == |curves| && SomeLocked(buckets, now) && now <= t
    ensures var locked := LockedOnes(Snapshots(buckets, curves, now));
            locked != [] && LatestLock(locked) > now && (SomeLocked(buckets, t) <==> t < LatestLock(locked))
  {
    hide Snapshots, LockedOnes, LatestLock;
    var snapshots := Snapshots(buckets, curves, now);
    var locked := LockedOnes(snapshots);
    var i :| 0 <= i < |buckets| && Locked(buckets[i], now);
    assert snapshots[i] in locked;
    var latest := LatestLock(locked);
    if SomeLocked(buckets, t) {
      var j :| 0 <= j < |buckets| && Locked(buckets[j], t);
      assert snapshots[j] in locked;
    }
    var holder :| holder in locked && holder.lockedUntil.value == latest;
    var h :| 0 <= h < |snapshots| && snapshots[h] == holder;
    assert t < latest ==> Locked(buckets[h], t);
  }

  /** Waiting as long as told frees every bucket, less than a second later than strictly needed. */
  lemma RetryAfterIsTight(buckets: seq<Bucket>, curves: seq<Curve>, now: int, t: int)
    requires |buckets| == |curves| && SomeLocked(buckets, now) && now <= t
    ensures var locked := LockedOnes(Snapshots(buckets, curves, now));
            && locked != []
            && var retry := LockedDecision(false, locked, now).retryAfterSec.value;
               && (t >= now + 1_000 * retry ==> !SomeLocked(buckets, t))
               && (t <= now + 1_000 * (retry - 1) ==> SomeLocked(buckets, t))
  {
    LockedUntilLatest(buckets, curves, now, t);
    hide Snapshots, LockedOnes, SomeLocked, LatestLock;
  }

  /** How many of n attempts made at one instant are admitted. */
  ghost function AdmittedNow(b: Bucket, now: int, curve: Curve, n: nat): nat
    decreases n
  {
    if n == 0 then 0
    else
      var (decision, row) := Reserve(Some(b), now, curve);
      (if decision.allowed then 1 else 0) + AdmittedNow(row, now, curve, n - 1)
  }

  lemma {:induction false} LockedAdmitsNone(b: Bucket, now: int, curve: Curve, n: nat)
    requires Locked(b, now)
    ensures AdmittedNow(b, now, curve, n) == 0
  {
    if n > 0 { LockedAdmitsNone(b, now, curve, n - 1); }
  }

  lemma {:induction false} UnlockedAdmits(b: Bucket, now: int, curve: Curve, n: nat)
    requires b.failures <= Thresholds(curve)[0] && !Expired(b, now)
    requires b.lockedUntil == if b.failures < Thresholds(curve)[0] then None else Some(now + 30_000)
    ensures var left := Thresholds(curve)[0] - b.failures;
            AdmittedNow(b, now, curve, n) == if n < left then n else left
    decreases n
  {
    if b.failures == Thresholds(curve)[0] {
      LockedAdmitsNone(b, now, curve, n);
    } else if n > 0 {
      UnlockedAdmits(Charge(b, now, curve), now, curve, n - 1);
    }
  }

  /** The remaining count told after an admitted attempt is exactly how many more are admitted at once. */
  lemma RemainingIsExact(row: Option<Bucket>, now: int, curve: Curve, n: nat)
    requires Reserve(row, now, curve).0.allowed
    ensures var (decision, b) := Reserve(row, now, curve);
            AdmittedNow(b, now, curve, n) == if n < decision.remaining then n else decision.remaining
  {
    var (decision, b) := Reserve(row, now, curve);
    var s := SnapshotOf(b, now, curve);
    if b.failures >= Thresholds(curve)[0] {
      assert Locked(b, now);
      assert s in [s];
      LockedAdmitsNone(b, now, curve, n);
    } else {
      assert LockedOnes([s]) == [];
      UnlockedAdmits(b, now, curve, n);
    }
  }
}
