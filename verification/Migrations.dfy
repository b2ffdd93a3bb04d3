/**
 Migration by content hash (migrateByHash in scripts/db-migrate.ts): journal entries and
 retained repairs whose hash is not in the history are executed, in order, in one transaction.
 */
module Migrations {
  import opened Options

  type Hash = nat

  datatype Migration = Migration(hash: Hash, sql: seq<string>, folderMillis: int)

  datatype HistoryRow = HistoryRow(hash: Hash, createdAt: int)

  /** The database: its contents, and the recorded history. */
  datatype Store<Db> = Store(db: Db, history: seq<HistoryRow>)

  /** What the code does not define: query execution (None is an error), the guard rewriting, the hash. */
  datatype Engine<!Db> = Engine(exec: (Db, string) -> Option<Db>, scope: string -> string, hashOf: string -> Hash)

  /** The characters that trimming removes. */
  predicate IsSpace(c: char) {
    || '\U{9}' <= c <= '\U{D}' || c == ' ' || c == '\U{A0}' || c == '\U{1680}' || '\U{2000}' <= c <= '\U{200A}'
    || c == '\U{2028}' || c == '\U{2029}' || c == '\U{202F}' || c == '\U{205F}' || c == '\U{3000}' || c == '\U{FEFF}'
  }

  predicate Blank(s: string) { forall i :: 0 <= i < |s| ==> IsSpace(s[i]) }

  function Hashes(history: seq<HistoryRow>): set<Hash> { set r | r in history :: r.hash }

  // ---------------------------------------------------------------------------
  // Specification
  // ---------------------------------------------------------------------------

  function Execute<Db>(engine: Engine<Db>, db: Db, queries: seq<string>): Option<Db>
    decreases |queries|
  {
    if queries == [] then Some(db)
    else
      var next := engine.exec(db, queries[0]);
      if next.None? then None else Execute(engine, next.value, queries[1..])
  }

  /** The queries of a migration: its statements that are not blank, with their guards scoped. */
  function Queries<Db>(engine: Engine<Db>, sql: seq<string>): seq<string> {
    if sql == [] then []
    else if Blank(sql[0]) then Queries(engine, sql[1..])
    else [engine.scope(sql[0])] + Queries(engine, sql[1..])
  }

  /** A piece of work: a journal entry or a repair. */
  datatype Unit = Unit(hash: Hash, queries: seq<string>, createdAt: Option<int>)

  function ApplyUnit<Db>(engine: Engine<Db>, s: Store<Db>, u: Unit): Option<Store<Db>> {
    if u.hash in Hashes(s.history) then Some(s)
    else
      var db := Execute(engine, s.db, u.queries);
      if db.None? || u.createdAt.None? then None
      else Some(Store(db.value, s.history + [HistoryRow(u.hash, u.createdAt.value)]))
  }

  function ApplyAll<Db>(engine: Engine<Db>, s: Store<Db>, units: seq<Unit>): Option<Store<Db>>
    decreases |units|
  {
    if units == [] then Some(s)
    else
      var next := ApplyUnit(engine, s, units[0]);
      if next.None? then None else ApplyAll(engine, next.value, units[1..])
  }

  ghost predicate IsLatest(journal: seq<Migration>, at: int) {
    (exists m :: m in journal && m.folderMillis == at) && forall m :: m in journal ==> m.folderMillis <= at
  }

  /** The latest folder time, or None: the maximum of no numbers is not a valid time. */
  function LatestMillis(journal: seq<Migration>): (r: Option<int>)
    ensures r.Some? <==> journal != []
    ensures r.Some? ==> IsLatest(journal, r.value)
  {
    if journal == [] then None
    else
      var rest := LatestMillis(journal[1..]);
      assert journal == [journal[0]] + journal[1..];
      Some(if rest.Some? && rest.value > journal[0].folderMillis then rest.value else journal[0].folderMillis)
  }

  function JournalUnit<Db>(engine: Engine<Db>, m: Migration): Unit {
    Unit(m.hash, Queries(engine, m.sql), Some(m.folderMillis))
  }

  function RepairUnit<Db>(engine: Engine<Db>, repair: string, at: Option<int>): Unit {
    Unit(engine.hashOf(repair), [repair], at)
  }

  function Units<Db>(engine: Engine<Db>, repairs: seq<string>, journal: seq<Migration>): (r: seq<Unit>)
    ensures |r| == |journal| + |repairs|
    ensures forall i :: 0 <= i < |journal| ==> r[i] == JournalUnit(engine, journal[i])
    ensures forall i :: 0 <= i < |repairs| ==> r[|journal| + i] == RepairUnit(engine, repairs[i], LatestMillis(journal))
  {
    seq(|journal|, i requires 0 <= i < |journal| => JournalUnit(engine, journal[i]))
    + seq(|repairs|, i requires 0 <= i < |repairs| => RepairUnit(engine, repairs[i], LatestMillis(journal)))
  }

  /** One run; None when it failed, and then the transaction is rolled back. */
  function Migrate<Db>(engine: Engine<Db>, repairs: seq<string>, s: Store<Db>, journal: seq<Migration>)
    : Option<Store<Db>>
  {
    ApplyAll(engine, s, Units(engine, repairs, journal))
  }

  // ---------------------------------------------------------------------------
  // The run, as the script performs it
  // ---------------------------------------------------------------------------

  class Migrator<Db> {
    var db: Db
    var history: seq<HistoryRow>

    constructor (db: Db, history: seq<HistoryRow>)
      ensures this.db == db && this.history == history
    {
      this.db, this.history := db, history;
    }

    ghost function View(): Store<Db>
      reads this
    {
      Store(db, history)
    }

    method ExecuteSql(engine: Engine<Db>, sql: seq<string>) returns (ok: bool)
      modifies this`db
      ensures ok <==> Execute(engine, old(db), Queries(engine, sql)).Some?
      ensures ok ==> db == Execute(engine, old(db), Queries(engine, sql)).value
    {
      var i := 0;
      assert sql[0..] == sql;
      while i < |sql|
        invariant 0 <= i <= |sql|
        invariant Execute(engine, db, Queries(engine, sql[i..])) == Execute(engine, old(db), Queries(engine, sql))
      {
        assert sql[i..][0] == sql[i] && sql[i..][1..] == sql[i + 1..];
        if !Blank(sql[i]) {
          hide Blank;
          var queries := Queries(engine, sql[i..]);
          assert queries[0] == engine.scope(sql[i]) && queries[1..] == Queries(engine, sql[i + 1..]);
          var next := engine.exec(db, engine.scope(sql[i]));
          if next.None? { return false; }
          db := next.value;
        }
        i := i + 1;
      }
      return true;
    }

    /** Either the whole run is committed as specified, or nothing has changed. */
    method MigrateByHash(engine: Engine<Db>, repairs: seq<string>, journal: seq<Migration>) returns (ok: bool)
      modifies this
      ensures ok <==> Migrate(engine, repairs, old(View()), journal).Some?
      ensures View() == if ok then Migrate(engine, repairs, old(View()), journal).value else old(View())
    {
      hide ApplyAll, Units, Hashes, Execute, Blank, LatestMillis, Queries;
      var savedDb, savedHistory := db, history;
      ghost var units := Units(engine, repairs, journal);
      ghost var target := ApplyAll(engine, old(View()), units);
      var applied := Hashes(history);
      assert units[0..] == units;
      for i := 0 to |journal|
        invariant applied == Hashes(history)
        invariant ApplyAll(engine, View(), units[i..]) == target
      {
        var m := journal[i];
        TakeUnit(engine, View(), units, i);
        if m.hash !in applied {
          ok := ExecuteSql(engine, m.sql);
          if !ok {
            db, history := savedDb, savedHistory;
            return false;
          }
          HashAdded(history, HistoryRow(m.hash, m.folderMillis));
          history := history + [HistoryRow(m.hash, m.folderMillis)];
          applied := applied + {m.hash};
        }
      }
      for i := 0 to |repairs|
        invariant applied == Hashes(history)
        invariant ApplyAll(engine, View(), units[|journal| + i..]) == target
      {
        var hash := engine.hashOf(repairs[i]);
        TakeUnit(engine, View(), units, |journal| + i);
        if hash !in applied {
          var next := engine.exec(db, repairs[i]);
          ExecuteOne(engine, db, repairs[i]);
          var createdAt := LatestMillis(journal);
          if next.None? || createdAt.None? {
            db, history := savedDb, savedHistory;
            return false;
          }
          db := next.value;
          HashAdded(history, HistoryRow(hash, createdAt.value));
          history := history + [HistoryRow(hash, createdAt.value)];
          applied := applied + {hash};
        }
      }
      TakeNone(engine, View(), units);
      return true;
    }
  }

  lemma TakeUnit<Db>(engine: Engine<Db>, s: Store<Db>, units: seq<Unit>, i: nat)
    requires i < |units|
    ensures ApplyAll(engine, s, units[i..]) ==
              (var next := ApplyUnit(engine, s, units[i]);
               if next.None? then None else ApplyAll(engine, next.value, units[i + 1..]))
  {
    assert units[i..][1..] == units[i + 1..];
  }

  lemma TakeNone<Db>(engine: Engine<Db>, s: Store<Db>, units: seq<Unit>)
    ensures ApplyAll(engine, s, units[|units|..]) == Some(s)
  {
  }

  lemma ExecuteOne<Db>(engine: Engine<Db>, db: Db, query: string)
    ensures Execute(engine, db, [query]) == engine.exec(db, query)
  {
    var next := engine.exec(db, query);
    if next.Some? { assert Execute(engine, next.value, [query][1..]) == next; }
  }

  // ---------------------------------------------------------------------------
  // What one run does
  // ---------------------------------------------------------------------------

  function HashSeq(history: seq<HistoryRow>): (r: seq<Hash>)
    ensures |r| == |history| && forall i :: 0 <= i < |r| ==> r[i] == history[i].hash
  {
    seq(|history|, i requires 0 <= i < |history| => history[i].hash)
  }

  ghost predicate Distinct(hashes: seq<Hash>) { forall i, j :: 0 <= i < j < |hashes| ==> hashes[i] != hashes[j] }

  /** The database obtained by executing the work behind each of the hashes once, in order. */
  ghost function Replay<Db>(engine: Engine<Db>, content: Hash -> seq<string>, db: Db, hashes: seq<Hash>): Option<Db>
    decreases |hashes|
  {
    if hashes == [] then Some(db)
    else
      var before := Replay(engine, content, db, hashes[..|hashes| - 1]);
      if before.None? then None else Execute(engine, before.value, content(hashes[|hashes| - 1]))
  }

  /** A hash stands for its content: the statements of a journal entry, or the one query of a repair. */
  ghost predicate Identified<Db>(engine: Engine<Db>, content: Hash -> seq<string>, run: Run) {
    && (forall m :: m in run.journal ==> content(m.hash) == Queries(engine, m.sql))
    && (forall r :: r in run.repairs ==> content(engine.hashOf(r)) == [r])
  }

  lemma UnitsIdentified<Db>(engine: Engine<Db>, content: Hash -> seq<string>, run: Run)
    requires Identified(engine, content, run)
    ensures forall u :: u in Units(engine, run.repairs, run.journal) ==> content(u.hash) == u.queries
  {
    var units := Units(engine, run.repairs, run.journal);
    forall u | u in units ensures content(u.hash) == u.queries {
      var i :| 0 <= i < |units| && units[i] == u;
      if i < |run.journal| { assert run.journal[i] in run.journal; }
      else { assert run.repairs[i - |run.journal|] in run.repairs; }
    }
  }

  /** What a store has recorded since another. */
  ghost function Since<Db>(start: Store<Db>, s: Store<Db>): seq<Hash> {
    if |start.history| <= |s.history| then HashSeq(s.history[|start.history|..]) else []
  }

  /** The store is exactly what its history says: grown from the start by the work recorded since, with
      nothing executed twice and nothing that the start had recorded executed again. */
  ghost predicate Faithful<Db>(engine: Engine<Db>, content: Hash -> seq<string>, start: Store<Db>, s: Store<Db>) {
    && start.history <= s.history
    && Distinct(Since(start, s)) && (forall h :: h in Since(start, s) ==> h !in Hashes(start.history))
    && Replay(engine, content, start.db, Since(start, s)) == Some(s.db)
  }

  lemma UnitKeepsFaith<Db>(engine: Engine<Db>, content: Hash -> seq<string>, start: Store<Db>, s: Store<Db>, u: Unit)
    requires Faithful(engine, content, start, s) && content(u.hash) == u.queries
    ensures var next := ApplyUnit(engine, s, u);
            next.Some? ==> Faithful(engine, content, start, next.value)
  {
    var next := ApplyUnit(engine, s, u);
    if next.Some? && u.hash !in Hashes(s.history) {
      var hashes := Since(start, next.value);
      var row := HistoryRow(u.hash, u.createdAt.value);
      assert next.value.history[|start.history|..] == s.history[|start.history|..] + [row];
      assert hashes[..|hashes| - 1] == Since(start, s) && hashes[|hashes| - 1] == u.hash;
      forall i | 0 <= i < |hashes| - 1 ensures hashes[i] != u.hash {
        assert s.history[|start.history| + i] in s.history;
      }
      HashesGrow(start.history, s.history);
      forall h | h in hashes ensures h !in Hashes(start.history) {
        if h != u.hash { assert h in Since(start, s); }
      }
    }
  }

  lemma {:induction false} AllKeepFaith<Db>(engine: Engine<Db>, content: Hash -> seq<string>, start: Store<Db>,
                                            s: Store<Db>, units: seq<Unit>)
    requires Faithful(engine, content, start, s) && forall u :: u in units ==> content(u.hash) == u.queries
    ensures var next := ApplyAll(engine, s, units); next.Some? ==> Faithful(engine, content, start, next.value)
    decreases |units|
  {
    hide Faithful;
    if units != [] {
      assert units[0] in units;
      UnitKeepsFaith(engine, content, start, s, units[0]);
      var first := ApplyUnit(engine, s, units[0]);
      if first.Some? { AllKeepFaith(engine, content, start, first.value, units[1..]); }
    }
  }

  lemma HashesGrow(a: seq<HistoryRow>, b: seq<HistoryRow>)
    requires a <= b
    ensures Hashes(a) <= Hashes(b)
  {
    forall h | h in Hashes(a) ensures h in Hashes(b) {
      var row :| row in a && row.hash == h;
      assert row in b;
    }
  }

  // ---------------------------------------------------------------------------
  // Any number of runs
  // ---------------------------------------------------------------------------

  /** A run with the journal and repairs of that release; it may also be interrupted by an outside failure. */
  datatype Run = Run(journal: seq<Migration>, repairs: seq<string>, interrupted: bool)

  function Step<Db>(engine: Engine<Db>, s: Store<Db>, run: Run): Store<Db> {
    if run.interrupted then s else Migrate(engine, run.repairs, s, run.journal).GetOr(s)
  }

  function After<Db>(engine: Engine<Db>, s: Store<Db>, runs: seq<Run>): Store<Db>
    decreases |runs|
  {
    if runs == [] then s else Step(engine, After(engine, s, runs[..|runs| - 1]), runs[|runs| - 1])
  }

  /** From any store, after any runs of any releases: each unit recorded since has been executed exactly
      once, in recorded order, and none that was recorded before. */
  lemma {:induction false} RunsExecuteOnce<Db>(engine: Engine<Db>, content: Hash -> seq<string>, start: Store<Db>,
                                               runs: seq<Run>)
    requires forall run :: run in runs ==> Identified(engine, content, run)
    ensures Faithful(engine, content, start, After(engine, start, runs))
    decreases |runs|
  {
    if runs == [] {
      assert start.history[|start.history|..] == [];
    } else {
      hide Identified, Units, Faithful;
      var before, last := runs[..|runs| - 1], runs[|runs| - 1];
      assert last in runs;
      RunsExecuteOnce(engine, content, start, before);
      UnitsIdentified(engine, content, last);
      AllKeepFaith(engine, content, start, After(engine, start, before), Units(engine, last.repairs, last.journal));
    }
  }

  /** Every journal hash and every repair hash, whatever its place in the journal. */
  ghost function Needed<Db>(engine: Engine<Db>, repairs: seq<string>, journal: seq<Migration>): set<Hash> {
    (set m | m in journal :: m.hash) + (set r | r in repairs :: engine.hashOf(r))
  }

  lemma NeededAreUnits<Db>(engine: Engine<Db>, repairs: seq<string>, journal: seq<Migration>)
    ensures Needed(engine, repairs, journal) == set u | u in Units(engine, repairs, journal) :: u.hash
  {
    var units := Units(engine, repairs, journal);
    forall h | h in Needed(engine, repairs, journal) ensures exists u :: u in units && u.hash == h {
      if m :| m in journal && m.hash == h {
        var i :| 0 <= i < |journal| && journal[i] == m;
        assert units[i] in units && units[i].hash == h;
      } else {
        var r :| r in repairs && engine.hashOf(r) == h;
        var i :| 0 <= i < |repairs| && repairs[i] == r;
        assert units[|journal| + i] in units && units[|journal| + i].hash == h;
      }
    }
    forall u | u in units ensures u.hash in Needed(engine, repairs, journal) {
      var i :| 0 <= i < |units| && units[i] == u;
      if i < |journal| { assert journal[i] in journal; } else { assert repairs[i - |journal|] in repairs; }
    }
  }

  /** A successful run leaves nothing unapplied, and repeating it then changes nothing. */
  lemma SuccessIsComplete<Db>(engine: Engine<Db>, s: Store<Db>, repairs: seq<string>, journal: seq<Migration>)
    ensures var r := Migrate(engine, repairs, s, journal);
            r.Some? ==> && Hashes(r.value.history) == Hashes(s.history) + Needed(engine, repairs, journal)
                        && Migrate(engine, repairs, r.value, journal) == r
                        && Step(engine, s, Run(journal, repairs, false)) == r.value
    ensures Step(engine, s, Run(journal, repairs, true)) == s
  {
    var units := Units(engine, repairs, journal);
    var r := ApplyAll(engine, s, units);
    if r.Some? {
      HashesAfter(engine, s, units);
      NeededAreUnits(engine, repairs, journal);
      NothingNew(engine, r.value, units);
    }
  }

  lemma {:induction false} HashesAfter<Db>(engine: Engine<Db>, s: Store<Db>, units: seq<Unit>)
    requires ApplyAll(engine, s, units).Some?
    ensures Hashes(ApplyAll(engine, s, units).value.history) == Hashes(s.history) + set u | u in units :: u.hash
    decreases |units|
  {
    if units != [] {
      var first := ApplyUnit(engine, s, units[0]).value;
      HashAdded(s.history, HistoryRow(units[0].hash, units[0].createdAt.GetOr(0)));
      assert Hashes(first.history) == Hashes(s.history) + {units[0].hash};
      HashesAfter(engine, first, units[1..]);
      assert (set u | u in units :: u.hash) == {units[0].hash} + set u | u in units[1..] :: u.hash by {
        assert units == [units[0]] + units[1..];
      }
    }
  }

  lemma HashAdded(history: seq<HistoryRow>, row: HistoryRow)
    ensures Hashes(history + [row]) == Hashes(history) + {row.hash}
  {
    assert row in history + [row];
    forall h | h in Hashes(history) ensures h in Hashes(history + [row]) {
      var r :| r in history && r.hash == h;
      assert r in history + [row];
    }
  }

  lemma {:induction false} NothingNew<Db>(engine: Engine<Db>, s: Store<Db>, units: seq<Unit>)
    requires forall u :: u in units ==> u.hash in Hashes(s.history)
    ensures ApplyAll(engine, s, units) == Some(s)
    decreases |units|
  {
    if units != [] {
      assert units[0] in units;
      NothingNew(engine, s, units[1..]);
    }
  }

  // ---------------------------------------------------------------------------
  // When a run without a journal succeeds
  // ---------------------------------------------------------------------------

  lemma {:induction false} UntimedFails<Db>(engine: Engine<Db>, s: Store<Db>, units: seq<Unit>)
    requires forall u :: u in units ==> u.createdAt.None?
    ensures ApplyAll(engine, s, units).Some? <==> forall u :: u in units ==> u.hash in Hashes(s.history)
    decreases |units|
  {
    if units != [] {
      assert units[0] in units;
      assert units == [units[0]] + units[1..];
      if units[0].hash in Hashes(s.history) { UntimedFails(engine, s, units[1..]); }
    }
  }

  /** With an empty journal a run fails exactly when a repair is pending, however sound the SQL. */
  lemma EmptyJournalSucceedsIff<Db>(engine: Engine<Db>, s: Store<Db>, repairs: seq<string>)
    ensures Migrate(engine, repairs, s, []).Some? <==> Needed(engine, repairs, []) <= Hashes(s.history)
  {
    var units := Units(engine, repairs, []);
    UntimedFails(engine, s, units);
    NeededAreUnits(engine, repairs, []);
  }

  // ---------------------------------------------------------------------------
  // Order
  // ---------------------------------------------------------------------------

  /** The units whose hash is not among those seen, each the first of its hash, in order. */
  ghost function Pending(units: seq<Unit>, seen: set<Hash>): seq<Unit>
    decreases |units|
  {
    if units == [] then []
    else if units[0].hash in seen then Pending(units[1..], seen)
    else [units[0]] + Pending(units[1..], seen + {units[0].hash})
  }

  ghost function Rows(units: seq<Unit>): seq<HistoryRow> {
    if units == [] then [] else [HistoryRow(units[0].hash, units[0].createdAt.GetOr(0))] + Rows(units[1..])
  }

  /** A successful run appends exactly the pending units, in journal order and then repair order,
      including entries older than ones already applied. */
  lemma {:induction false} RunAppendsPending<Db>(engine: Engine<Db>, s: Store<Db>, units: seq<Unit>)
    requires ApplyAll(engine, s, units).Some?
    ensures ApplyAll(engine, s, units).value.history == s.history + Rows(Pending(units, Hashes(s.history)))
    decreases |units|
  {
    if units != [] {
      var first := ApplyUnit(engine, s, units[0]).value;
      RunAppendsPending(engine, first, units[1..]);
      if units[0].hash !in Hashes(s.history) {
        var row := HistoryRow(units[0].hash, units[0].createdAt.value);
        HashAdded(s.history, row);
        var rest := Pending(units[1..], Hashes(first.history));
        assert ([units[0]] + rest)[1..] == rest;
        assert s.history + ([row] + Rows(rest)) == first.history + Rows(rest);
      }
    }
  }

  lemma {:induction false} AppendedIsUnit<Db>(engine: Engine<Db>, s: Store<Db>, units: seq<Unit>, i: nat)
    returns (u: Unit)
    requires ApplyAll(engine, s, units).Some? && |s.history| <= i < |ApplyAll(engine, s, units).value.history|
    ensures u in units && u.createdAt.Some?
    ensures ApplyAll(engine, s, units).value.history[i] == HistoryRow(u.hash, u.createdAt.value)
    decreases |units|
  {
    var first := ApplyUnit(engine, s, units[0]).value;
    RunAppendsPending(engine, first, units[1..]);
    if i < |first.history| {
      u := units[0];
    } else {
      u := AppendedIsUnit(engine, first, units[1..], i);
    }
  }

  /** What a run appends to the history is the hash of a journal entry with the time of its folder, or the hash of
      a repair with the latest of those times. */
  lemma RunRecords<Db>(engine: Engine<Db>, s: Store<Db>, repairs: seq<string>, journal: seq<Migration>, i: nat)
    requires var r := Migrate(engine, repairs, s, journal); r.Some? && |s.history| <= i < |r.value.history|
    ensures var row := Migrate(engine, repairs, s, journal).value.history[i];
            || (exists m :: m in journal && row == HistoryRow(m.hash, m.folderMillis))
            || (exists r :: r in repairs && row.hash == engine.hashOf(r) && IsLatest(journal, row.createdAt))
  {
    hide ApplyAll, LatestMillis, IsLatest;
    var units := Units(engine, repairs, journal);
    var u := AppendedIsUnit(engine, s, units, i);
    var k :| 0 <= k < |units| && units[k] == u;
    if k < |journal| { assert journal[k] in journal; } else { assert repairs[k - |journal|] in repairs; }
  }

  /** The characters that String.prototype.trim removes, by code point: WhiteSpace and LineTerminator of
      sections 12.2 and 12.3 of ECMA-262. */
  ghost predicate Trimmed(c: char) {
    var n := c as int;
    9 <= n <= 13 || 8192 <= n <= 8202 || n in {32, 160, 5760, 8232, 8233, 8239, 8287, 12288, 65279}
  }

  /** Each statement with a character that is not trimmed is executed, scoped, in its place; no other is. */
  lemma {:induction false} StatementsInPlace<Db>(engine: Engine<Db>, a: seq<string>, statement: string, b: seq<string>)
    ensures Queries(engine, a + [statement] + b) ==
            Queries(engine, a)
            + (if exists i :: 0 <= i < |statement| && !Trimmed(statement[i]) then [engine.scope(statement)] else [])
            + Queries(engine, b)
    decreases |a|
  {
    var all := a + [statement] + b;
    BlankIff(statement);
    hide Blank;
    if a == [] {
      assert all[0] == statement && all[1..] == b;
    } else {
      assert all[0] == a[0] && all[1..] == a[1..] + [statement] + b;
      StatementsInPlace(engine, a[1..], statement, b);
    }
  }

  lemma BlankIff(s: string)
    ensures Blank(s) <==> forall i :: 0 <= i < |s| ==> Trimmed(s[i])
  {
    forall i | 0 <= i < |s| ensures IsSpace(s[i]) <==> Trimmed(s[i]) { SpaceIff(s[i]); }
    hide IsSpace, Trimmed;
  }

  lemma SpaceIff(c: char)
    ensures IsSpace(c) <==> Trimmed(c)
  {}

  // ---------------------------------------------------------------------------
  // When a run with a journal succeeds
  // ---------------------------------------------------------------------------

  ghost function AllQueries(units: seq<Unit>): seq<string> {
    if units == [] then [] else units[0].queries + AllQueries(units[1..])
  }

  lemma {:induction false} ExecuteSplit<Db>(engine: Engine<Db>, db: Db, a: seq<string>, b: seq<string>)
    ensures Execute(engine, db, a + b) ==
              (var first := Execute(engine, db, a); if first.None? then None else Execute(engine, first.value, b))
    decreases |a|
  {
    if a == [] {
      assert a + b == b;
    } else {
      assert (a + b)[0] == a[0] && (a + b)[1..] == a[1..] + b;
      var next := engine.exec(db, a[0]);
      if next.Some? { ExecuteSplit(engine, next.value, a[1..], b); }
    }
  }

  lemma {:induction false} TimedSucceedIff<Db>(engine: Engine<Db>, s: Store<Db>, units: seq<Unit>)
    requires forall u :: u in units ==> u.createdAt.Some?
    ensures var r := ApplyAll(engine, s, units);
            var db := Execute(engine, s.db, AllQueries(Pending(units, Hashes(s.history))));
            (r.Some? <==> db.Some?) && (r.Some? ==> r.value.db == db.value)
    decreases |units|
  {
    if units != [] {
      var u, seen := units[0], Hashes(s.history);
      assert u in units;
      var first := ApplyUnit(engine, s, u);
      if u.hash in seen {
        TimedSucceedIff(engine, s, units[1..]);
      } else {
        var rest := Pending(units[1..], seen + {u.hash});
        assert ([u] + rest)[1..] == rest;
        ExecuteSplit(engine, s.db, u.queries, AllQueries(rest));
        if first.Some? {
          HashAdded(s.history, HistoryRow(u.hash, u.createdAt.value));
          TimedSucceedIff(engine, first.value, units[1..]);
        }
      }
    }
  }

  /** With a journal, a run succeeds if and only if the pending queries, executed one after another on the
      database as it is, raise no error; and that is the database it leaves. */
  lemma JournalSucceedsIff<Db>(engine: Engine<Db>, s: Store<Db>, repairs: seq<string>, journal: seq<Migration>)
    requires journal != []
    ensures var pending := Pending(Units(engine, repairs, journal), Hashes(s.history));
            var r, db := Migrate(engine, repairs, s, journal), Execute(engine, s.db, AllQueries(pending));
            (r.Some? <==> db.Some?) && (r.Some? ==> r.value.db == db.value)
  {
    TimedSucceedIff(engine, s, Units(engine, repairs, journal));
  }
}
