/** What the attempt limiter promises over whole histories of its table, key by key. */
module AuthRateKeys {
  import opened Options
  import opened AuthRateLimit
  import Runs = AuthRateRuns

  /** A login attempt on several keys, a pairing attempt on one, the retention cleanup, a recorded success. */
  datatype Action =
    | Login(keys: seq<string>, at: int)
    | Pairing(key: string, at: int)
    | Cleanup(at: int)
    | Success(keys: seq<string>, at: int)

  type Table = map<string, Bucket>

  /** Only the pairing keys are attempted alone, on the account curve. */
  ghost predicate WellFormed(a: Action) { a.Pairing? ==> "pairing-" <= a.key }

  ghost function Row(table: Table, key: string): Option<Bucket> { if key in table then Some(table[key]) else None }

  /** What the methods of the table promise about its rows. */
  ghost function Step(table: Table, a: Action): Table {
    match a
    case Login(keys, now) => Attempted(table, keys, now)
    case Pairing(key, now) => table[key := Reserve(Row(table, key), now, Account).1]
    case Cleanup(now) => map k | k in table && table[k].updatedAt >= now - RETENTION_MS :: table[k]
    case Success(keys, _) => table - (set k | k in keys)
  }

  ghost function After(actions: seq<Action>): Table {
    if actions == [] then map[] else Step(After(actions[..|actions| - 1]), actions[|actions| - 1])
  }

  ghost predicate IsAttempt(a: Action) { a.Login? || a.Pairing? }

  /** Does the action charge an attempt to the key? */
  ghost predicate Charges(table: Table, key: string, a: Action) {
    match a
    case Login(keys, now) => key in keys && !AnyLocked(table, keys, now)
    case Pairing(k, now) => k == key && !(k in table && Locked(table[k], now))
    case _ => false
  }

  ghost function Charged(actions: seq<Action>, key: string): nat {
    if actions == [] then 0
    else
      var before, last := actions[..|actions| - 1], actions[|actions| - 1];
      Charged(before, key) + if Charges(After(before), key, last) then 1 else 0
  }

  ghost function Successes(actions: seq<Action>, key: string): nat {
    if actions == [] then 0
    else
      var last := actions[|actions| - 1];
      Successes(actions[..|actions| - 1], key) + if last.Success? && key in last.keys then 1 else 0
  }

  ghost predicate Paced(actions: seq<Action>, slack: int) {
    forall i, j :: 0 <= i < j < |actions| ==> actions[j].at >= actions[i].at - slack
  }

  ghost predicate AllWellFormed(actions: seq<Action>) { forall a :: a in actions ==> WellFormed(a) }

  // ---------------------------------------------------------------------------
  // One key of the table
  // ---------------------------------------------------------------------------

  /** What an action is to one key. */
  ghost function EventFor(table: Table, key: string, a: Action): (es: seq<Runs.Event>)
    ensures |es| <= 1 && forall e :: e in es ==> e.at == a.at
  {
    match a
    case Login(keys, now) =>
      if key !in keys then []
      else if AnyLocked(table, keys, now) && !(key in table && Locked(table[key], now))
      then [Runs.RefusedElsewhere(now)] else [Runs.Attempt(now)]
    case Pairing(k, now) => if k == key then [Runs.Attempt(now)] else []
    case Cleanup(now) => [Runs.Sweep(now)]
    case Success(keys, now) => if key in keys then [Runs.Success(now)] else []
  }

  ghost function EventsFor(actions: seq<Action>, key: string): seq<Runs.Event> {
    if actions == [] then []
    else
      var before, last := actions[..|actions| - 1], actions[|actions| - 1];
      EventsFor(before, key) + EventFor(After(before), key, last)
  }

  /** The curve of a key, by its text. */
  ghost function CurveFor(key: string): Curve { if "ip:" <= key then Ip else Account }

  lemma PairingIsNotAddress(key: string)
    requires "pairing-" <= key
    ensures !("ip:" <= key)
  {
    assert key[0] == 'p';
  }

  lemma StepProjects(table: Table, key: string, a: Action, h: Runs.History)
    requires WellFormed(a) && h.row == Row(table, key)
    ensures var es := EventFor(table, key, a);
            var h' := if es == [] then h else Runs.Step(CurveFor(key), h, es[0]);
            && h'.row == Row(Step(table, a), key)
            && h'.admitted == h.admitted + (if Charges(table, key, a) then 1 else 0)
            && h'.successes == h.successes + if a.Success? && key in a.keys then 1 else 0
  {
    hide Charge, LockedDecision, AllowedDecision, SnapshotOf;
    if a.Pairing? && a.key == key { PairingIsNotAddress(key); }
  }

  lemma AfterExtended(curve: Curve, es: seq<Runs.Event>, more: seq<Runs.Event>)
    requires |more| <= 1
    ensures Runs.After(curve, es + more) ==
            if more == [] then Runs.After(curve, es) else Runs.Step(curve, Runs.After(curve, es), more[0])
  {
    if more == [] { assert es + more == es; } else { assert (es + more)[..|es + more| - 1] == es; }
  }

  /** In every history of the table, each key has the row, the charges and the successes of its own history. */
  lemma {:induction false} RunProjects(actions: seq<Action>, key: string)
    requires AllWellFormed(actions)
    ensures var h := Runs.After(CurveFor(key), EventsFor(actions, key));
            h == Runs.History(Row(After(actions), key), Charged(actions, key), Successes(actions, key))
    decreases |actions|
  {
    hide Step, EventFor, Charges, CurveFor, Runs.Step;
    if actions != [] {
      var before, last := actions[..|actions| - 1], actions[|actions| - 1];
      RunProjects(before, key);
      StepProjects(After(before), key, last, Runs.After(CurveFor(key), EventsFor(before, key)));
      AfterExtended(CurveFor(key), EventsFor(before, key), EventFor(After(before), key, last));
    }
  }

  /** The attempts of a key happen at the times of the attempts on the table. */
  lemma {:induction false} EventsWithin(actions: seq<Action>, key: string, low: int, high: int)
    requires forall i :: 0 <= i < |actions| && IsAttempt(actions[i]) ==> low <= actions[i].at <= high
    ensures Runs.Within(EventsFor(actions, key), low, high)
    decreases |actions|
  {
    hide After;
    if actions != [] { EventsWithin(actions[..|actions| - 1], key, low, high); }
  }

  lemma {:induction false} EventsPaced(actions: seq<Action>, key: string, slack: int)
    requires Paced(actions, slack)
    ensures Runs.Paced(EventsFor(actions, key), slack)
    decreases |actions|
  {
    hide EventFor, After;
    if actions != [] {
      var before, last := actions[..|actions| - 1], actions[|actions| - 1];
      EventsPaced(before, key, slack);
      EventsPrecede(before, key, last.at + slack);
    }
  }

  lemma {:induction false} EventsPrecede(actions: seq<Action>, key: string, high: int)
    requires forall i :: 0 <= i < |actions| ==> actions[i].at <= high
    ensures forall i :: 0 <= i < |EventsFor(actions, key)| ==> EventsFor(actions, key)[i].at <= high
    decreases |actions|
  {
    hide EventFor, After;
    if actions != [] { EventsPrecede(actions[..|actions| - 1], key, high); }
  }

  // ---------------------------------------------------------------------------
  // What the text of a key decides
  // ---------------------------------------------------------------------------

  lemma CurveForText(key: string)
    ensures CurveFor(key) == if "ip:" <= key then Ip else Account
    ensures Runs.Cap(CurveFor(key)) == if "ip:" <= key then 32 else 12
    ensures Runs.Tolerance(CurveFor(key)) == if "ip:" <= key then 300_000 else 150_000
  {}

  lemma RecordTells(curve: Curve, es: seq<Runs.Event>, slack: int)
    requires Runs.Paced(es, slack) && 0 <= slack < Runs.Tolerance(curve) && Runs.After(curve, es).row.Some?
    ensures var b, first := Runs.After(curve, es).row.value, if curve.Ip? then 20 else 5;
            && b.failures <= Runs.Cap(curve)
            && b.lockedUntil == if b.failures < first then None
                                else Some(b.updatedAt + if b.failures < (if curve.Ip? then 30 else 10)
                                                        then 30_000 else 300_000)
  {
    Runs.RunIsRecorded(curve, es, slack);
    hide Runs.After, Runs.Latest, Runs.Age;
  }

  /**
   In every history of the table a key that begins with "ip:" never records more than 32 failures and is
   locked from its 20th on, any other key never more than 12 and is locked from its 5th on; for half a minute
   at first, then for five minutes.  The clock may go back, by less than 5 minutes or 2 and a half.
   */
  lemma KeysAreCapped(actions: seq<Action>, key: string, slack: int)
    requires AllWellFormed(actions) && Paced(actions, slack) && key in After(actions)
    requires 0 <= slack < if "ip:" <= key then 300_000 else 150_000
    ensures var b := After(actions)[key];
            if "ip:" <= key then
              && b.failures <= 32
              && b.lockedUntil == (if b.failures < 20 then None
                                   else Some(b.updatedAt + if b.failures < 30 then 30_000 else 300_000))
            else
              && b.failures <= 12
              && b.lockedUntil == (if b.failures < 5 then None
                                   else Some(b.updatedAt + if b.failures < 10 then 30_000 else 300_000))
  {
    hide After, EventsFor, Charged, Successes, CurveFor, Paced, Runs.After, Runs.Cap, Runs.Tolerance, Runs.Paced;
    CurveForText(key);
    EventsPaced(actions, key, slack);
    RunProjects(actions, key);
    RecordTells(CurveFor(key), EventsFor(actions, key), slack);
  }

  /**
   If all actions fall within T milliseconds, an address is charged at most 32 attempts, and any other key at
   most 12, for each started window of 15 minutes and each success on it.
   */
  lemma KeyChargesAreBounded(actions: seq<Action>, key: string, slack: int, origin: int, T: nat)
    requires AllWellFormed(actions) && Paced(actions, slack)
    requires 0 <= slack < if "ip:" <= key then 300_000 else 150_000
    requires forall i :: 0 <= i < |actions| && IsAttempt(actions[i]) ==> origin <= actions[i].at <= origin + T
    ensures var n := Successes(actions, key);
            && 0 <= n * slack
            && Charged(actions, key) <= (if "ip:" <= key then 32 else 12) * ((T + n * slack) / 900_000 + 1 + n)
  {
    hide After, EventsFor, Charged, Successes, CurveFor, Paced, Runs.After, Runs.Cap, Runs.Tolerance, Runs.Paced;
    CurveForText(key);
    EventsPaced(actions, key, slack);
    EventsWithin(actions, key, origin, origin + T);
    RunProjects(actions, key);
    Runs.AdmissionsAreBounded(CurveFor(key), EventsFor(actions, key), slack, origin, T);
  }

  lemma StepCounts(table: Table, key: string, a: Action)
    requires key in Step(table, a)
    ensures var b, charges := Step(table, a)[key], if Charges(table, key, a) then 1 else 0;
            if key in table && table[key].windowStart == b.windowStart
            then b.failures == table[key].failures + charges
            else b.failures == charges && (key in table ==> b.windowStart > table[key].windowStart + 900_000)
  {
    hide LockDuration, LockedDecision, AllowedDecision, SnapshotOf, CurveOf;
  }

  /**
   The failures of a row are the attempts charged since its window opened: before the n-th action the key had
   no row, or one whose window had run out, and from then on the row kept the window.
   */
  lemma {:induction false} FailuresAreCharges(actions: seq<Action>, key: string) returns (n: nat)
    requires key in After(actions)
    ensures n < |actions|
    ensures var b, opening := After(actions)[key], After(actions[..n]);
            && b.failures == Charged(actions, key) - Charged(actions[..n], key)
            && (key in opening ==> b.windowStart > opening[key].windowStart + 900_000)
            && forall m :: n < m <= |actions| ==>
                 key in After(actions[..m]) && After(actions[..m])[key].windowStart == b.windowStart
    decreases |actions|
  {
    hide Step, Charges;
    var before, last := actions[..|actions| - 1], actions[|actions| - 1];
    StepCounts(After(before), key, last);
    assert actions[..|actions|] == actions;
    if key in After(before) && After(before)[key].windowStart == After(actions)[key].windowStart {
      n := FailuresAreCharges(before, key);
      assert forall m :: 0 <= m <= |before| ==> before[..m] == actions[..m];
    } else {
      n := |actions| - 1;
    }
  }

  // ---------------------------------------------------------------------------
  // What the caller is told
  // ---------------------------------------------------------------------------

  /** Whole seconds, rounded up. */
  ghost predicate RoundsUp(seconds: int, ms: int) { 1_000 * (seconds - 1) < ms <= 1_000 * seconds }

  ghost function Ratio(s: Snapshot): real {
    if s.limit > 0 then s.remaining as real / s.limit as real else 0.0
  }

  /** The snapshot told is the first of those with the least room, relative to their limits. */
  lemma {:induction false} TightestIsLeast(best: Snapshot, rest: seq<Snapshot>) returns (k: nat)
    ensures var all := [best] + rest;
            && k < |all| && Tightest(best, rest) == all[k]
            && (forall j :: 0 <= j < |all| ==> Ratio(all[k]) <= Ratio(all[j]))
            && (forall j :: 0 <= j < k ==> Ratio(all[k]) < Ratio(all[j]))
    decreases |rest|
  {
    var all := [best] + rest;
    if rest == [] {
      k := 0;
    } else {
      var tighter := Ratio(rest[0]) < Ratio(best);
      var all' := [if tighter then rest[0] else best] + rest[1..];
      var k' := TightestIsLeast(if tighter then rest[0] else best, rest[1..]);
      k := if k' > 0 then k' + 1 else if tighter then 1 else 0;
      assert all[k] == all'[k'] && forall j :: 2 <= j < |all| ==> all[j] == all'[j - 1];
      hide Ratio;
      forall j | 0 <= j < |all| ensures Ratio(all[k]) <= Ratio(all[j]) && (j < k ==> Ratio(all[k]) < Ratio(all[j])) {
        assert Ratio(all'[k']) <= Ratio(all'[if j >= 2 then j - 1 else 0]);
        assert k' > 0 ==> Ratio(all'[k']) < Ratio(all'[0]);
      }
    }
  }

  /** No key is locked longer than this one. */
  ghost predicate LongestLocked(table: Table, keys: seq<string>, now: int, i: nat)
    requires forall k :: k in keys ==> k in table
  {
    && i < |keys| && Locked(table[keys[i]], now)
    && forall j :: 0 <= j < |keys| && Locked(table[keys[j]], now) ==>
         table[keys[j]].lockedUntil.value <= table[keys[i]].lockedUntil.value
  }

  lemma SnapshotTells(b: Bucket, now: int, curve: Curve)
    ensures var s := SnapshotOf(b, now, curve);
            && s.limit == ActiveLimit(curve, b.failures) && s.limit > 0
            && (Locked(b, now) ==> s.lockedUntil == b.lockedUntil && s.resetAt == b.lockedUntil.value)
            && (!Locked(b, now) ==> s.lockedUntil == None && s.resetAt == b.windowStart + 900_000
                                    && s.remaining == Remaining(b, curve))
  {}

  /** What is left of the next threshold. */
  ghost function Remaining(b: Bucket, curve: Curve): nat {
    if ActiveLimit(curve, b.failures) > b.failures then ActiveLimit(curve, b.failures) - b.failures else 0
  }

  ghost function Room(b: Bucket, curve: Curve): real {
    if ActiveLimit(curve, b.failures) > 0 then Remaining(b, curve) as real / ActiveLimit(curve, b.failures) as real
    else 0.0
  }

  lemma {:induction false} FirstResettingIs(locked: seq<Snapshot>, at: int)
    requires exists s :: s in locked && s.resetAt == at
    ensures var found := FirstResettingAt(locked, at);
            found.Some? && found.value in locked && found.value.resetAt == at
  {
    if locked[0].resetAt != at {
      var s :| s in locked && s.resetAt == at;
      assert s in locked[1..];
      FirstResettingIs(locked[1..], at);
    }
  }

  lemma LockedSnapshotsTell(snapshots: seq<Snapshot>, now: int, allowed: bool) returns (i: nat)
    requires exists s :: s in snapshots && s.lockedUntil.Some?
    requires forall s :: s in snapshots && s.lockedUntil.Some? ==> s.resetAt == s.lockedUntil.value > now
    ensures i < |snapshots| && snapshots[i].lockedUntil.Some?
    ensures forall s :: s in snapshots && s.lockedUntil.Some? ==> s.lockedUntil.value <= snapshots[i].lockedUntil.value
    ensures LockedOnes(snapshots) != []
    ensures var d, end := LockedDecision(allowed, LockedOnes(snapshots), now), snapshots[i].lockedUntil.value;
            && d.allowed == allowed && d.remaining == 0 && d.limit == snapshots[i].limit
            && RoundsUp(d.resetAtEpochSec, end)
            && d.retryAfterSec.Some? && RoundsUp(d.retryAfterSec.value, end - now)
  {
    hide LockedOnes, LatestLock, FirstResettingAt;
    var locked := LockedOnes(snapshots);
    var some :| some in snapshots && some.lockedUntil.Some?;
    assert some in locked;
    var latest := LatestLock(locked);
    FirstResettingIs(locked, latest);
    i :| 0 <= i < |snapshots| && snapshots[i] == FirstResettingAt(locked, latest).value;
  }

  lemma SnapshotsTell(table: Table, keys: seq<string>, now: int, j: nat)
    requires (forall k :: k in keys ==> k in table) && j < |keys|
    ensures var s, b, curve := SnapshotsOf(table, keys, now)[j], table[keys[j]], CurveFor(keys[j]);
            && s.limit == ActiveLimit(curve, b.failures) > 0
            && (Locked(b, now) ==> s.lockedUntil == b.lockedUntil && s.resetAt == b.lockedUntil.value)
            && (!Locked(b, now) ==> && s.lockedUntil == None && s.resetAt == b.windowStart + 900_000
                                    && s.remaining == Remaining(b, curve) && Ratio(s) == Room(b, curve))
  {
    SnapshotTells(table[keys[j]], now, CurveOf(keys[j]));
  }

  /** A decision about locked keys names a key that is locked longest: its limit, and its end rounded up. */
  lemma LockedTells(table: Table, keys: seq<string>, now: int, allowed: bool) returns (i: nat)
    requires (forall k :: k in keys ==> k in table) && AnyLocked(table, keys, now)
    ensures LongestLocked(table, keys, now, i)
    ensures var locked := LockedOnes(SnapshotsOf(table, keys, now));
            && locked != []
            && var d, b := LockedDecision(allowed, locked, now), table[keys[i]];
               && d.allowed == allowed && d.remaining == 0
               && d.limit == ActiveLimit(CurveFor(keys[i]), b.failures)
               && RoundsUp(d.resetAtEpochSec, b.lockedUntil.value)
               && d.retryAfterSec.Some? && RoundsUp(d.retryAfterSec.value, b.lockedUntil.value - now)
  {
    hide SnapshotsOf, LockedOnes, LockedDecision, ActiveLimit, CurveFor, SnapshotOf, RoundsUp, Ratio, Room, Remaining;
    var snapshots := SnapshotsOf(table, keys, now);
    forall j | 0 <= j < |keys|
      ensures snapshots[j].limit == ActiveLimit(CurveFor(keys[j]), table[keys[j]].failures)
      ensures snapshots[j].lockedUntil.Some? <==> Locked(table[keys[j]], now)
      ensures Locked(table[keys[j]], now) ==>
                snapshots[j].resetAt == snapshots[j].lockedUntil.value == table[keys[j]].lockedUntil.value > now
    {
      SnapshotsTell(table, keys, now, j);
    }
    hide Locked;
    var k :| k in keys && k in table && Locked(table[k], now);
    var j :| 0 <= j < |keys| && keys[j] == k;
    assert snapshots[j] in snapshots;
    i := LockedSnapshotsTell(snapshots, now, allowed);
  }

  /** A decision about keys without a lock names one with the least room left, relative to its next threshold. */
  lemma AllowedTells(table: Table, keys: seq<string>, now: int) returns (i: nat)
    requires keys != [] && (forall k :: k in keys ==> k in table) && !AnyLocked(table, keys, now)
    ensures i < |keys|
    ensures var d, b, curve := AllowedDecision(SnapshotsOf(table, keys, now), now), table[keys[i]], CurveFor(keys[i]);
            && d.allowed && d.retryAfterSec.None?
            && d.limit == ActiveLimit(curve, b.failures) > 0 && d.remaining == Remaining(b, curve)
            && RoundsUp(d.resetAtEpochSec, b.windowStart + 900_000)
            && forall j :: 0 <= j < |keys| ==> Room(b, curve) <= Room(table[keys[j]], CurveFor(keys[j]))
  {
    var snapshots := SnapshotsOf(table, keys, now);
    forall j | 0 <= j < |keys|
      ensures snapshots[j].limit == ActiveLimit(CurveFor(keys[j]), table[keys[j]].failures) > 0
      ensures snapshots[j].lockedUntil == None && snapshots[j].resetAt == table[keys[j]].windowStart + 900_000
      ensures snapshots[j].remaining == Remaining(table[keys[j]], CurveFor(keys[j]))
      ensures Ratio(snapshots[j]) == Room(table[keys[j]], CurveFor(keys[j]))
    {
      SnapshotsTell(table, keys, now, j);
    }
    assert LockedOnes(snapshots) == [] by {
      if LockedOnes(snapshots) != [] { assert LockedOnes(snapshots)[0] in LockedOnes(snapshots); }
    }
    hide SnapshotsOf, LockedOnes, ActiveLimit, CurveFor, SnapshotOf, Ratio, Remaining, Room, Tightest;
    i := TightestIsLeast(snapshots[0], snapshots[1..]);
    assert [snapshots[0]] + snapshots[1..] == snapshots;
  }
}
