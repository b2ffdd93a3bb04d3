/**
 The database-backed attempt limiter (src/lib/auth-rate-limit.ts): the lock curve,
 one bucket's transition, the decisions reported to callers, and the table that the
 reservation transactions update.  Times are epoch milliseconds of the database clock.
 */
module AuthRateLimit {
  import opened Options

  const WINDOW_MS := 900_000
  const RETENTION_MS := 86_400_000

  datatype Curve = Account | Ip

  datatype Bucket = Bucket(failures: nat, windowStart: int, lockedUntil: Option<int>, updatedAt: int)

  datatype Snapshot = Snapshot(limit: int, remaining: int, resetAt: int, lockedUntil: Option<int>)

  datatype Decision = Decision(allowed: bool, retryAfterSec: Option<int>, limit: int, remaining: int,
                               resetAtEpochSec: int)

  // ---------------------------------------------------------------------------
  // The lock curve
  // ---------------------------------------------------------------------------

  function Thresholds(curve: Curve): seq<int> {
    if curve.Ip? then [20, 30, 40, 50] else [5, 10, 15, 20]
  }

  const LOCK_DURATIONS_MS: seq<int> := [0, 30_000, 300_000, 900_000, 3_600_000]

  function LockDuration(curve: Curve, failures: int): (ms: int)
    ensures 0 <= ms <= 3_600_000
    ensures ms > 0 <==> failures >= Thresholds(curve)[0]
  {
    var t := Thresholds(curve);
    if failures < t[0] then 0
    else if failures < t[1] then 30_000
    else if failures < t[2] then 300_000
    else if failures < t[3] then 900_000
    else 3_600_000
  }

  method LockDurationFor(curve: Curve, failures: int) returns (ms: int)
    ensures ms == LockDuration(curve, failures)
    ensures curve.Ip? ==>
              ms == if failures < 20 then 0 else if failures < 30 then 30_000 else if failures < 40 then 300_000
                    else if failures < 50 then 900_000 else 3_600_000
    ensures curve.Account? ==>
              ms == if failures < 5 then 0 else if failures < 10 then 30_000 else if failures < 15 then 300_000
                    else if failures < 20 then 900_000 else 3_600_000
  {
    var thresholds := Thresholds(curve);
    for i := 0 to |thresholds|
      invariant forall j :: 0 <= j < i ==> failures >= thresholds[j]
    {
      if failures < thresholds[i] { return LOCK_DURATIONS_MS[i]; }
    }
    return LOCK_DURATIONS_MS[|LOCK_DURATIONS_MS| - 1];
  }

  /** The smallest threshold not yet exceeded, or the last one. */
  function ActiveLimit(curve: Curve, failures: int): (limit: int) {
    var t := Thresholds(curve);
    if failures <= t[0] then t[0] else if failures <= t[1] then t[1] else if failures <= t[2] then t[2] else t[3]
  }

  /** So the limit told is the next threshold at which the lock would grow, or the last. */
  lemma LimitIsNextThreshold(curve: Curve, failures: int)
    ensures var t, limit := Thresholds(curve), ActiveLimit(curve, failures);
            && limit in t && forall i :: 0 <= i < |t| && failures <= t[i] ==> failures <= limit <= t[i]
    ensures ActiveLimit(curve, failures) < failures ==>
              forall i :: 0 <= i < |Thresholds(curve)| ==> Thresholds(curve)[i] <= ActiveLimit(curve, failures)
  {
    var t := Thresholds(curve);
    assert t[0] in t && t[1] in t && t[2] in t && t[3] in t;
  }

  // ---------------------------------------------------------------------------
  // One bucket
  // ---------------------------------------------------------------------------

  predicate Locked(b: Bucket, now: int) { b.lockedUntil.Some? && b.lockedUntil.value > now }

  predicate Expired(b: Bucket, now: int) { b.windowStart < now - WINDOW_MS }

  function Fresh(now: int): Bucket { Bucket(0, now, None, now) }

  function Charge(b: Bucket, now: int, curve: Curve): Bucket {
    var attempts := if Expired(b, now) then 1 else b.failures + 1;
    var lock := LockDuration(curve, attempts);
    Bucket(attempts, if Expired(b, now) then now else b.windowStart, if lock > 0 then Some(now + lock) else None, now)
  }

  function SnapshotOf(b: Bucket, now: int, curve: Curve): Snapshot {
    var limit := ActiveLimit(curve, b.failures);
    if Locked(b, now) then Snapshot(limit, 0, b.lockedUntil.value, b.lockedUntil)
    else Snapshot(limit, if limit > b.failures then limit - b.failures else 0, b.windowStart + WINDOW_MS, None)
  }

  // ---------------------------------------------------------------------------
  // Decisions
  // ---------------------------------------------------------------------------

  function CeilSeconds(ms: int): int { (ms + 999) / 1_000 }

  function LockedOnes(snapshots: seq<Snapshot>): (r: seq<Snapshot>)
    ensures forall s :: s in r <==> s in snapshots && s.lockedUntil.Some?
  {
    if snapshots == [] then []
    else (if snapshots[0].lockedUntil.Some? then [snapshots[0]] else []) + LockedOnes(snapshots[1..])
  }

  function LatestLock(locked: seq<Snapshot>): (latest: int)
    requires locked != [] && forall s :: s in locked ==> s.lockedUntil.Some?
    ensures exists s :: s in locked && s.lockedUntil.value == latest
    ensures forall s :: s in locked ==> s.lockedUntil.value <= latest
  {
    if |locked| == 1 then locked[0].lockedUntil.value
    else
      var rest := LatestLock(locked[1..]);
      if locked[0].lockedUntil.value > rest then locked[0].lockedUntil.value else rest
  }

  function FirstResettingAt(locked: seq<Snapshot>, at: int): Option<Snapshot> {
    if locked == [] then None
    else if locked[0].resetAt == at then Some(locked[0])
    else FirstResettingAt(locked[1..], at)
  }

  function LockedDecision(allowed: bool, locked: seq<Snapshot>, now: int): Decision
    requires locked != [] && forall s :: s in locked ==> s.lockedUntil.Some?
  {
    var latest := LatestLock(locked);
    var limiting := FirstResettingAt(locked, latest).GetOr(locked[0]);
    var retry := CeilSeconds(latest - now);
    Decision(allowed, Some(if retry > 1 then retry else 1), limiting.limit, 0, CeilSeconds(latest))
  }

  predicate LessHeadroom(a: Snapshot, b: Snapshot) {
    var ratioA := if a.limit > 0 then a.remaining as real / a.limit as real else 0.0;
    var ratioB := if b.limit > 0 then b.remaining as real / b.limit as real else 0.0;
    ratioA < ratioB
  }

  function Tightest(best: Snapshot, rest: seq<Snapshot>): Snapshot
    decreases |rest|
  {
    if rest == [] then best
    else Tightest(if LessHeadroom(rest[0], best) then rest[0] else best, rest[1..])
  }

  function AllowedDecision(snapshots: seq<Snapshot>, now: int): Decision
    requires snapshots != []
  {
    var locked := LockedOnes(snapshots);
    if locked != [] then LockedDecision(true, locked, now)
    else
      var s := Tightest(snapshots[0], snapshots[1..]);
      Decision(true, None, s.limit, s.remaining, CeilSeconds(s.resetAt))
  }

  /** One reservation on one bucket: the decision and the row it leaves behind. */
  function Reserve(row: Option<Bucket>, now: int, curve: Curve): (r: (Decision, Bucket))
    ensures r.0.allowed <==> !(row.Some? && Locked(row.value, now))
    ensures !r.0.allowed ==> Some(r.1) == row
  {
    var b := row.GetOr(Fresh(now));
    if Locked(b, now) then (LockedDecision(false, [SnapshotOf(b, now, curve)], now), b)
    else (AllowedDecision([SnapshotOf(Charge(b, now, curve), now, curve)], now), Charge(b, now, curve))
  }

  // ---------------------------------------------------------------------------
  // The table
  // ---------------------------------------------------------------------------

  predicate StartsWith(text: string, prefix: string) { prefix <= text }

  function CurveOf(key: string): Curve { if StartsWith(key, "ip:") then Ip else Account }

  function RowOr(rows: map<string, Bucket>, key: string, now: int): Bucket {
    if key in rows then rows[key] else Fresh(now)
  }

  function SnapshotsOf(rows: map<string, Bucket>, keys: seq<string>, now: int): (r: seq<Snapshot>)
    requires forall k :: k in keys ==> k in rows
    ensures |r| == |keys|
    ensures forall i :: 0 <= i < |keys| ==> r[i] == SnapshotOf(rows[keys[i]], now, CurveOf(keys[i]))
  {
    seq(|keys|, i requires 0 <= i < |keys| => SnapshotOf(rows[keys[i]], now, CurveOf(keys[i])))
  }

  /** Does any of the keys hold an active lock? */
  predicate AnyLocked(rows: map<string, Bucket>, keys: seq<string>, now: int) {
    exists k :: k in keys && k in rows && Locked(rows[k], now)
  }

  /** The table after a login attempt: every key charged, or only missing rows seeded. */
  function Attempted(rows: map<string, Bucket>, keys: seq<string>, now: int): map<string, Bucket> {
    if AnyLocked(rows, keys, now) then rows + (map k | k in keys && k !in rows :: Fresh(now))
    else rows + (map k | k in keys :: Charge(RowOr(rows, k, now), now, CurveOf(k)))
  }

  lemma AttemptedRows(rows: map<string, Bucket>, keys: seq<string>, now: int, r: map<string, Bucket>)
    requires r.Keys == rows.Keys + (set k | k in keys)
    requires forall k :: k in rows && k !in keys ==> r[k] == rows[k]
    requires forall k :: k in keys ==>
               r[k] == if AnyLocked(rows, keys, now) then RowOr(rows, k, now)
                       else Charge(RowOr(rows, k, now), now, CurveOf(k))
    ensures r == Attempted(rows, keys, now)
  {
    hide Charge, CurveOf, AnyLocked;
  }

  class RateLimitTable {
    var rows: map<string, Bucket>

    method ReserveBucketAttempt(key: string, now: int, curve: Curve) returns (decision: Decision)
      modifies this
      ensures var before := if key in old(rows) then Some(old(rows)[key]) else None;
              decision == Reserve(before, now, curve).0 && rows == old(rows)[key := Reserve(before, now, curve).1]
    {
      hide LockedDecision, AllowedDecision, ActiveLimit;
      if key !in rows { rows := rows[key := Fresh(now)]; }
      var row := rows[key];
      if row.lockedUntil.Some? && row.lockedUntil.value > now {
        return LockedDecision(false, [SnapshotOf(row, now, curve)], now);
      }
      var charged := ChargeRow(row, now, curve);
      rows := rows[key := charged];
      return AllowedDecision([SnapshotOf(charged, now, curve)], now);
    }

    /**
     A login attempt is charged to all its buckets, or to none of them: a refused attempt
     leaves every existing row as it was (and seeds a missing one with no failures).
     */
    method ReserveAuthAttempt(keys: seq<string>, now: int) returns (decision: Decision)
      requires keys != [] && forall i, j :: 0 <= i < j < |keys| ==> keys[i] != keys[j]
      modifies this
      ensures decision.allowed <==> !AnyLocked(old(rows), keys, now)
      ensures rows == Attempted(old(rows), keys, now)
      ensures rows.Keys == old(rows).Keys + (set k | k in keys)
      ensures forall k :: k in old(rows) && k !in keys ==> rows[k] == old(rows)[k]
      ensures forall k :: k in keys && !decision.allowed ==> rows[k] == RowOr(old(rows), k, now)
      ensures forall k :: k in keys && decision.allowed ==> rows[k] == Charge(RowOr(old(rows), k, now), now, CurveOf(k))
      ensures decision.allowed ==> decision == AllowedDecision(SnapshotsOf(rows, keys, now), now)
      ensures !decision.allowed ==> LockedOnes(SnapshotsOf(rows, keys, now)) != []
                                    && decision == LockedDecision(false, LockedOnes(SnapshotsOf(rows, keys, now)), now)
    {
      hide Attempted, Charge, CurveOf, ActiveLimit, Tightest, LatestLock, FirstResettingAt;
      rows := SeedRows(rows, keys, now);
      var locked := FindLocked(rows, keys, now);
      if locked.Some? {
        var snapshots := SnapshotsOf(rows, keys, now);
        assert snapshots[locked.value] in LockedOnes(snapshots);
        assert keys[locked.value] in old(rows);
        AttemptedRows(old(rows), keys, now, rows);
        return LockedDecision(false, LockedOnes(snapshots), now);
      }
      rows := ChargeRows(rows, keys, now);
      AttemptedRows(old(rows), keys, now, rows);
      return AllowedDecision(SnapshotsOf(rows, keys, now), now);
    }

    /** Deletes the rows that were last written more than a day ago, and reports how many. */
    method Cleanup(now: int) returns (deleted: nat)
      modifies this
      ensures rows == map k | k in old(rows) && old(rows)[k].updatedAt >= now - 86_400_000 :: old(rows)[k]
      ensures deleted == |old(rows)| - |rows|
    {
      var kept := map k | k in rows && rows[k].updatedAt >= now - RETENTION_MS :: rows[k];
      assert kept.Keys <= rows.Keys;
      var gone := rows.Keys - kept.Keys;
      assert rows.Keys == gone + kept.Keys;
      deleted := |gone|;
      rows := kept;
    }

    /** Forgets the keys, so that whatever their locks were the next attempt on them is admitted, and no other key. */
    method RecordSuccess(keys: seq<string>)
      modifies this
      ensures rows == old(rows) - (set k | k in keys)
      ensures forall now :: !AnyLocked(rows, keys, now)
      ensures forall k, now :: k in keys ==> RowOr(rows, k, now) == Fresh(now)
      ensures forall k :: k !in keys ==> (k in rows <==> k in old(rows)) && (k in rows ==> rows[k] == old(rows)[k])
    {
      rows := rows - (set k | k in keys);
    }
  }

  method SeedRows(rows: map<string, Bucket>, keys: seq<string>, now: int) returns (r: map<string, Bucket>)
    ensures r.Keys == rows.Keys + (set k | k in keys)
    ensures forall k :: k in r ==> r[k] == RowOr(rows, k, now)
  {
    r := rows;
    for i := 0 to |keys|
      invariant r.Keys == rows.Keys + (set k | k in keys[..i])
      invariant forall k :: k in r ==> r[k] == RowOr(rows, k, now)
    {
      assert keys[..i + 1] == keys[..i] + [keys[i]];
      if keys[i] !in r { r := r[keys[i] := Fresh(now)]; }
    }
    assert keys[..|keys|] == keys;
  }

  method FindLocked(rows: map<string, Bucket>, keys: seq<string>, now: int) returns (found: Option<nat>)
    requires forall k :: k in keys ==> k in rows
    ensures found.Some? ==> found.value < |keys| && Locked(rows[keys[found.value]], now)
    ensures found.None? ==> forall k :: k in keys ==> !Locked(rows[k], now)
  {
    for i := 0 to |keys|
      invariant forall j :: 0 <= j < i ==> !Locked(rows[keys[j]], now)
    {
      if rows[keys[i]].lockedUntil.Some? && rows[keys[i]].lockedUntil.value > now { return Some(i); }
    }
    return None;
  }

  method ChargeRows(rows: map<string, Bucket>, keys: seq<string>, now: int) returns (r: map<string, Bucket>)
    requires forall k :: k in keys ==> k in rows
    requires forall i, j :: 0 <= i < j < |keys| ==> keys[i] != keys[j]
    ensures r.Keys == rows.Keys
    ensures forall k :: k in rows && k !in keys ==> r[k] == rows[k]
    ensures forall k :: k in keys ==> r[k] == Charge(rows[k], now, CurveOf(k))
  {
    hide CurveOf, Charge;
    r := rows;
    for i := 0 to |keys|
      invariant r.Keys == rows.Keys
      invariant forall k :: k in rows && k !in keys[..i] ==> r[k] == rows[k]
      invariant forall j :: 0 <= j < i ==> r[keys[j]] == Charge(rows[keys[j]], now, CurveOf(keys[j]))
    {
      assert r[keys[i]] == rows[keys[i]];
      var charged := ChargeRow(r[keys[i]], now, CurveOf(keys[i]));
      r := r[keys[i] := charged];
    }
  }

  method ChargeRow(row: Bucket, now: int, curve: Curve) returns (r: Bucket)
    ensures r == Charge(row, now, curve)
  {
    var expired := row.windowStart < now - WINDOW_MS;
    var attempts := if expired then 1 else row.failures + 1;
    var lock := LockDurationFor(curve, attempts);
    r := Bucket(attempts, if expired then now else row.windowStart, if lock > 0 then Some(now + lock) else None, now);
  }
}
