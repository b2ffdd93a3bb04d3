/**
 Agent health (src/lib/agent-health.ts): the report of one agent, read with one count per
 question, and the report of a page of agents, read with one grouped query per question.
 */
module FleetHealth {
  import opened Options
  import opened AgentPresence

  type Id = nat

  datatype AgentRow = AgentRow(id: Id, agent: Agent, version: Option<nat>)

  datatype JobStatus = Queued | Claimed | Printing | Success | FailedJob | Expired

  datatype Job = Job(agentId: Id, status: JobStatus)

  datatype PrinterStatus = PrinterOnline | PrinterBusy | PrinterOther

  /** `physical` stands for the test that excludes virtual printers. */
  datatype Printer = Printer(agentId: Id, status: PrinterStatus, lifecycle: Lifecycle, lastSeen: Option<int>,
                             shared: bool, present: bool, physical: bool)

  /** The rows of one tenant. */
  datatype Snapshot = Snapshot(jobs: seq<Job>, printers: seq<Printer>)

  datatype Evidence = Evidence(queueDepth: nat, printerCount: nat, onlinePrinterCount: nat,
                               queueDataAvailable: bool, printerDataAvailable: bool)

  datatype CheckName = Gateway | HeartbeatCheck | Queue | Printers | Version

  datatype CheckStatus = Ok | Warn | Error | UnknownCheck

  datatype Check = Check(name: CheckName, status: CheckStatus, observed: bool)

  datatype Health = Health(id: Id, status: HealthStatus, lastSeen: Option<int>, version: Option<nat>,
                           checks: seq<Check>, queueDepth: nat, printerCount: nat, onlinePrinterCount: nat)

  const PRINTER_THRESHOLD := 90

  function GatewayCheck(a: Agent, threshold: int, now: int): Check {
    if a.lastSeen.None? then Check(Gateway, Error, true)
    else
      var age := now - Ms(a.lastSeen.value);
      Check(Gateway,
            if a.lifecycle != Active || a.status != Online then Error
            else if age < 0 || age > DEGRADED_MS then Error
            else if age > threshold * 1000 then Warn
            else Ok,
            true)
  }

  function HeartbeatStatus(base: HealthStatus): CheckStatus {
    match base
    case ONLINE => Ok
    case DEGRADED => Warn
    case STARTING => UnknownCheck
    case OFFLINE => Error
  }

  function QueueCheck(e: Evidence): Check {
    if e.queueDataAvailable then Check(Queue, if e.queueDepth > 50 then Warn else Ok, true)
    else Check(Queue, UnknownCheck, false)
  }

  function PrintersCheck(e: Evidence): Check {
    if e.printerDataAvailable then
      Check(Printers,
            if e.printerCount == 0 then Warn
            else if e.onlinePrinterCount == 0 then Error
            else if e.onlinePrinterCount < e.printerCount then Warn
            else Ok,
            true)
    else Check(Printers, UnknownCheck, false)
  }

  /** buildHealth */
  function BuildHealth(row: AgentRow, threshold: int, now: int, e: Evidence): Health {
    var base := BaseStatus(row.agent, threshold, now);
    var checks := [
      GatewayCheck(row.agent, threshold, now),
      Check(HeartbeatCheck, HeartbeatStatus(base), false),
      QueueCheck(e),
      PrintersCheck(e),
      Check(Version, if row.version.Some? then Ok else UnknownCheck, true)
    ];
    var degraded := !e.queueDataAvailable || !e.printerDataAvailable || e.queueDepth > 100
                    || (e.onlinePrinterCount == 0 && e.printerCount > 0);
    Health(row.id, if base == ONLINE && degraded then DEGRADED else base, row.agent.lastSeen, row.version, checks,
           e.queueDepth, e.printerCount, e.onlinePrinterCount)
  }

  // ---------------------------------------------------------------------------
  // The queries
  // ---------------------------------------------------------------------------

  predicate Waiting(j: Job) { j.status in {Queued, Claimed, Printing} }

  predicate Listed(p: Printer) { p.shared && p.present && p.lifecycle == Active && p.physical }

  /** The detail report's test, on dates of whole milliseconds. */
  predicate OnlineInScript(p: Printer, now: int) {
    && p.lifecycle == Active
    && (p.status == PrinterOnline || p.status == PrinterBusy)
    && p.lastSeen.Some?
    && 0 <= now - Ms(p.lastSeen.value) <= PRINTER_THRESHOLD * 1000
  }

  /** The fleet report's test, made by the database on full timestamps. */
  predicate OnlineInSql(p: Printer, now: int) {
    && p.lifecycle == Active
    && (p.status == PrinterOnline || p.status == PrinterBusy)
    && p.lastSeen.Some?
    && (now - PRINTER_THRESHOLD * 1000) * MILLI <= p.lastSeen.value <= now * MILLI
  }

  /** Jobs of an agent that still wait. */
  function Depth(jobs: seq<Job>, id: Id): nat {
    if jobs == [] then 0
    else
      var j := jobs[|jobs| - 1];
      Depth(jobs[..|jobs| - 1], id) + if j.agentId == id && Waiting(j) then 1 else 0
  }

  /** Printers listed under an agent. */
  function Listing(printers: seq<Printer>, id: Id): nat {
    if printers == [] then 0
    else
      var p := printers[|printers| - 1];
      Listing(printers[..|printers| - 1], id) + if p.agentId == id && Listed(p) then 1 else 0
  }

  function ScriptOnline(printers: seq<Printer>, id: Id, now: int): nat {
    if printers == [] then 0
    else
      var p := printers[|printers| - 1];
      ScriptOnline(printers[..|printers| - 1], id, now)
      + if p.agentId == id && Listed(p) && OnlineInScript(p, now) then 1 else 0
  }

  function SqlOnline(printers: seq<Printer>, id: Id, now: int): nat {
    if printers == [] then 0
    else
      var p := printers[|printers| - 1];
      SqlOnline(printers[..|printers| - 1], id, now)
      + if p.agentId == id && Listed(p) && OnlineInSql(p, now) then 1 else 0
  }

  // The rows that the counts are of, by their position.

  ghost predicate WaitsUnder(j: Job, id: Id) { j.agentId == id && j.status in {Queued, Claimed, Printing} }

  ghost function WaitingJobs(jobs: seq<Job>, id: Id): set<nat> {
    set i: nat | i < |jobs| && WaitsUnder(jobs[i], id)
  }

  ghost predicate ListedUnder(p: Printer, id: Id) {
    p.agentId == id && p.lifecycle == Active && p.shared && p.present && p.physical
  }

  ghost function ListedPrinters(printers: seq<Printer>, id: Id): set<nat> {
    set i: nat | i < |printers| && ListedUnder(printers[i], id)
  }

  /** Online or busy and last seen in the 90 seconds before `now`, a time that is read as the whole milliseconds
      of the row's, or else taken with its microseconds. */
  ghost predicate OnlineAt(p: Printer, now: int, micros: bool) {
    && p.status in {PrinterOnline, PrinterBusy} && p.lastSeen.Some?
    && if micros then 0 <= now * 1_000 - p.lastSeen.value <= 90_000_000
       else 0 <= now - Ms(p.lastSeen.value) <= 90_000
  }

  ghost function OnlinePrinters(printers: seq<Printer>, id: Id, now: int, micros: bool): set<nat> {
    set i: nat | i < |printers| && ListedUnder(printers[i], id) && OnlineAt(printers[i], now, micros)
  }

  lemma OnlineTests(p: Printer, id: Id, now: int)
    ensures p.agentId == id && Listed(p) <==> ListedUnder(p, id)
    ensures ListedUnder(p, id) ==> (OnlineInScript(p, now) <==> OnlineAt(p, now, false))
    ensures ListedUnder(p, id) ==> (OnlineInSql(p, now) <==> OnlineAt(p, now, true))
  {}

  lemma WaitingTest(j: Job, id: Id)
    ensures j.agentId == id && Waiting(j) <==> WaitsUnder(j, id)
  {}

  lemma {:induction false} DepthIs(jobs: seq<Job>, id: Id)
    ensures Depth(jobs, id) == |WaitingJobs(jobs, id)|
  {
    hide Waiting, WaitsUnder;
    if jobs != [] {
      var before, n := jobs[..|jobs| - 1], |jobs| - 1;
      DepthIs(before, id);
      WaitingTest(jobs[n], id);
      assert WaitingJobs(jobs, id) == WaitingJobs(before, id) + if WaitsUnder(jobs[n], id) then {n} else {};
    }
  }

  lemma {:induction false} ListingIs(printers: seq<Printer>, id: Id)
    ensures Listing(printers, id) == |ListedPrinters(printers, id)|
  {
    hide Listed, ListedUnder;
    if printers != [] {
      var before, n := printers[..|printers| - 1], |printers| - 1;
      ListingIs(before, id);
      OnlineTests(printers[n], id, 0);
      assert ListedPrinters(printers, id) == ListedPrinters(before, id)
                                             + if ListedUnder(printers[n], id) then {n} else {};
    }
  }

  lemma {:induction false} ScriptOnlineIs(printers: seq<Printer>, id: Id, now: int)
    ensures ScriptOnline(printers, id, now) == |OnlinePrinters(printers, id, now, false)|
  {
    hide Listed, ListedUnder, OnlineInScript, OnlineInSql, OnlineAt;
    if printers != [] {
      var before, n := printers[..|printers| - 1], |printers| - 1;
      ScriptOnlineIs(before, id, now);
      var p := printers[n];
      OnlineTests(p, id, now);
      assert OnlinePrinters(printers, id, now, false)
          == OnlinePrinters(before, id, now, false)
             + if ListedUnder(p, id) && OnlineAt(p, now, false) then {n} else {};
    }
  }

  lemma {:induction false} SqlOnlineIs(printers: seq<Printer>, id: Id, now: int)
    ensures SqlOnline(printers, id, now) == |OnlinePrinters(printers, id, now, true)|
  {
    hide Listed, ListedUnder, OnlineInScript, OnlineInSql, OnlineAt;
    if printers != [] {
      var before, n := printers[..|printers| - 1], |printers| - 1;
      SqlOnlineIs(before, id, now);
      var p := printers[n];
      OnlineTests(p, id, now);
      assert OnlinePrinters(printers, id, now, true)
          == OnlinePrinters(before, id, now, true)
             + if ListedUnder(p, id) && OnlineAt(p, now, true) then {n} else {};
    }
  }

  /** Which of the two evidence lookups succeeded. */
  datatype Lookups = Lookups(queue: bool, printers: bool)

  /** The evidence about an agent, with its online printers counted; an unavailable lookup counts as none. */
  function EvidenceOf(s: Snapshot, id: Id, online: nat, up: Lookups): Evidence {
    Evidence(if up.queue then Depth(s.jobs, id) else 0,
             if up.printers then Listing(s.printers, id) else 0,
             if up.printers then online else 0,
             up.queue, up.printers)
  }

  // ---------------------------------------------------------------------------
  // The report of one agent
  // ---------------------------------------------------------------------------

  function AgentReport(s: Snapshot, row: AgentRow, threshold: int, now: int, up: Lookups): Health {
    BuildHealth(row, threshold, now, EvidenceOf(s, row.id, ScriptOnline(s.printers, row.id, now), up))
  }

  /** The counts of a report are those of the agent's own rows; a count that could not be read is told as none. */
  ghost predicate Counted(health: Health, s: Snapshot, id: Id, now: int, up: Lookups, micros: bool) {
    && health.queueDepth == (if up.queue then |WaitingJobs(s.jobs, id)| else 0)
    && health.printerCount == (if up.printers then |ListedPrinters(s.printers, id)| else 0)
    && health.onlinePrinterCount == (if up.printers then |OnlinePrinters(s.printers, id, now, micros)| else 0)
  }

  lemma CountsAreRows(s: Snapshot, row: AgentRow, threshold: int, now: int, up: Lookups)
    ensures Counted(AgentReport(s, row, threshold, now, up), s, row.id, now, up, false)
    ensures Counted(FleetReport(s, row, threshold, now, up), s, row.id, now, up, true)
  {
    DepthIs(s.jobs, row.id);
    ListingIs(s.printers, row.id);
    ScriptOnlineIs(s.printers, row.id, now);
    SqlOnlineIs(s.printers, row.id, now);
  }

  /** The detail report filters the printer rows it has read. */
  method GetAgentHealth(s: Snapshot, row: AgentRow, threshold: int, now: int, up: Lookups) returns (health: Health)
    ensures health == AgentReport(s, row, threshold, now, up)
    ensures Counted(health, s, row.id, now, up, false)
  {
    CountsAreRows(s, row, threshold, now, up);
    hide BuildHealth, Listed, OnlineInScript, Counted;
    var printerCount, onlinePrinterCount := 0, 0;
    if up.printers {
      for i := 0 to |s.printers|
        invariant printerCount == Listing(s.printers[..i], row.id)
        invariant onlinePrinterCount == ScriptOnline(s.printers[..i], row.id, now)
      {
        var p := s.printers[i];
        assert s.printers[..i + 1][..i] == s.printers[..i];
        if p.agentId == row.id && Listed(p) {
          printerCount := printerCount + 1;
          if OnlineInScript(p, now) { onlinePrinterCount := onlinePrinterCount + 1; }
        }
      }
      assert s.printers[..|s.printers|] == s.printers;
    }
    var depth := if up.queue then Depth(s.jobs, row.id) else 0;
    var evidence := Evidence(depth, printerCount, onlinePrinterCount, up.queue, up.printers);
    health := BuildHealth(row, threshold, now, evidence);
  }

  // ---------------------------------------------------------------------------
  // The report of a page of agents
  // ---------------------------------------------------------------------------

  datatype QueueGroup = QueueGroup(agentId: Id, cnt: nat)

  datatype PrinterGroup = PrinterGroup(agentId: Id, cnt: nat, onlineCnt: nat)

  /** The answer of the grouped job query: in any order, one row for each agent asked for that has jobs waiting. */
  ghost predicate GroupsJobs(groups: seq<QueueGroup>, s: Snapshot, ids: set<Id>) {
    && (forall i, j :: 0 <= i < j < |groups| ==> groups[i].agentId != groups[j].agentId)
    && (forall g :: g in groups ==> g.agentId in ids && g.cnt == Depth(s.jobs, g.agentId))
    && (forall id :: id in ids && Depth(s.jobs, id) > 0 ==> exists g :: g in groups && g.agentId == id)
  }

  ghost predicate GroupsPrinters(groups: seq<PrinterGroup>, s: Snapshot, ids: set<Id>, now: int) {
    && (forall i, j :: 0 <= i < j < |groups| ==> groups[i].agentId != groups[j].agentId)
    && (forall g :: g in groups ==> g.agentId in ids && g.cnt == Listing(s.printers, g.agentId)
                                    && g.onlineCnt == SqlOnline(s.printers, g.agentId, now))
    && (forall id :: id in ids && Listing(s.printers, id) > 0 ==> exists g :: g in groups && g.agentId == id)
  }

  lemma {:induction false} QueueAnswerExists(s: Snapshot, ids: set<Id>) returns (groups: seq<QueueGroup>)
    ensures GroupsJobs(groups, s, ids) && forall g :: g in groups ==> g.cnt > 0
    decreases |ids|
  {
    hide Depth;
    if ids == {} {
      groups := [];
    } else {
      var id :| id in ids;
      var before := QueueAnswerExists(s, ids - {id});
      assert ids == ids - {id} + {id} && forall i :: 0 <= i < |before| ==> before[i] in before;
      var row := QueueGroup(id, Depth(s.jobs, id));
      groups := before + if row.cnt > 0 then [row] else [];
      assert row.cnt > 0 ==> row in groups;
    }
  }

  lemma {:induction false} PrinterAnswerExists(s: Snapshot, ids: set<Id>, now: int) returns (groups: seq<PrinterGroup>)
    ensures GroupsPrinters(groups, s, ids, now) && forall g :: g in groups ==> g.cnt > 0
    decreases |ids|
  {
    hide Listing, SqlOnline;
    if ids == {} {
      groups := [];
    } else {
      var id :| id in ids;
      var before := PrinterAnswerExists(s, ids - {id}, now);
      assert ids == ids - {id} + {id} && forall i :: 0 <= i < |before| ==> before[i] in before;
      var row := PrinterGroup(id, Listing(s.printers, id), SqlOnline(s.printers, id, now));
      groups := before + if row.cnt > 0 then [row] else [];
      assert row.cnt > 0 ==> row in groups;
    }
  }

  /** Such answers exist for every snapshot, with a row for each agent that has something to count. */
  lemma AnswersExist(s: Snapshot, ids: set<Id>, now: int)
    returns (queues: seq<QueueGroup>, printers: seq<PrinterGroup>)
    ensures GroupsJobs(queues, s, ids) && GroupsPrinters(printers, s, ids, now)
    ensures (forall g :: g in queues ==> g.cnt > 0) && forall g :: g in printers ==> g.cnt > 0
  {
    queues := QueueAnswerExists(s, ids);
    printers := PrinterAnswerExists(s, ids, now);
  }

  ghost function PageIds(page: seq<AgentRow>): set<Id> { set row | row in page :: row.id }

  function FleetReport(s: Snapshot, row: AgentRow, threshold: int, now: int, up: Lookups): Health {
    BuildHealth(row, threshold, now, EvidenceOf(s, row.id, SqlOnline(s.printers, row.id, now), up))
  }

  /** From the two grouped answers alone, in whatever order, every agent of the page gets the counts of its own rows. */
  method GetAllAgentsHealth(page: seq<AgentRow>, queueRows: Option<seq<QueueGroup>>,
                            printerRows: Option<seq<PrinterGroup>>, threshold: int, now: int, ghost s: Snapshot)
    returns (fleet: seq<Health>)
    requires queueRows.Some? ==> GroupsJobs(queueRows.value, s, PageIds(page))
    requires printerRows.Some? ==> GroupsPrinters(printerRows.value, s, PageIds(page), now)
    ensures |fleet| == |page|
    ensures forall i :: 0 <= i < |page| ==>
      && fleet[i] == FleetReport(s, page[i], threshold, now, Lookups(queueRows.Some?, printerRows.Some?))
      && Counted(fleet[i], s, page[i].id, now, Lookups(queueRows.Some?, printerRows.Some?), true)
  {
    hide BuildHealth, PageIds, Depth, Listing, SqlOnline, Counted;
    var up := Lookups(queueRows.Some?, printerRows.Some?);
    if page == [] { return []; }
    var queues := QueueMap(queueRows.GetOr([]));
    var printerCounts := PrinterMap(printerRows.GetOr([]));
    hide GroupsJobs, GroupsPrinters;
    fleet := [];
    for i := 0 to |page|
      invariant |fleet| == i
      invariant forall k :: 0 <= k < i ==>
        fleet[k] == FleetReport(s, page[k], threshold, now, up) && Counted(fleet[k], s, page[k].id, now, up, true)
    {
      var id := page[i].id;
      var queueDepth := if id in queues then queues[id] else 0;
      var printerCount := if id in printerCounts then printerCounts[id].cnt else 0;
      var onlineCount := if id in printerCounts then printerCounts[id].onlineCnt else 0;
      assert id in PageIds(page) by { InPage(page, i); }
      CountsAreRows(s, page[i], threshold, now, up);
      if queueRows.Some? { QueueOf(queueRows.value, s, PageIds(page), id, queues); }
      if printerRows.Some? { PrintersOf(printerRows.value, s, PageIds(page), id, now, printerCounts); }
      var evidence := Evidence(queueDepth, printerCount, onlineCount, queueRows.Some?, printerRows.Some?);
      fleet := fleet + [BuildHealth(page[i], threshold, now, evidence)];
    }
  }

  lemma InPage(page: seq<AgentRow>, i: nat)
    requires i < |page|
    ensures page[i].id in PageIds(page)
  {
    assert page[i] in page;
  }

  /** The map filled from the rows of a grouped answer. */
  method QueueMap(groups: seq<QueueGroup>) returns (m: map<Id, nat>)
    requires forall i, j :: 0 <= i < j < |groups| ==> groups[i].agentId != groups[j].agentId
    ensures m.Keys == set g | g in groups :: g.agentId
    ensures forall g :: g in groups ==> g.agentId in m && m[g.agentId] == g.cnt
  {
    m := map[];
    for i := 0 to |groups|
      invariant forall id :: id in m ==> exists k :: 0 <= k < i && groups[k].agentId == id
      invariant forall k :: 0 <= k < i ==> groups[k].agentId in m && m[groups[k].agentId] == groups[k].cnt
    {
      m := m[groups[i].agentId := groups[i].cnt];
    }
  }

  method PrinterMap(groups: seq<PrinterGroup>) returns (m: map<Id, PrinterGroup>)
    requires forall i, j :: 0 <= i < j < |groups| ==> groups[i].agentId != groups[j].agentId
    ensures m.Keys == set g | g in groups :: g.agentId
    ensures forall g :: g in groups ==> g.agentId in m && m[g.agentId] == g
  {
    m := map[];
    for i := 0 to |groups|
      invariant forall id :: id in m ==> exists k :: 0 <= k < i && groups[k].agentId == id
      invariant forall k :: 0 <= k < i ==> groups[k].agentId in m && m[groups[k].agentId] == groups[k]
    {
      m := m[groups[i].agentId := groups[i]];
    }
  }

  lemma QueueOf(groups: seq<QueueGroup>, s: Snapshot, ids: set<Id>, id: Id, m: map<Id, nat>)
    requires GroupsJobs(groups, s, ids) && id in ids
    requires m.Keys == set g | g in groups :: g.agentId
    requires forall g :: g in groups ==> g.agentId in m && m[g.agentId] == g.cnt
    ensures (if id in m then m[id] else 0) == Depth(s.jobs, id)
  {
    hide Depth;
    if id in m { var g :| g in groups && g.agentId == id; }
  }

  lemma PrintersOf(groups: seq<PrinterGroup>, s: Snapshot, ids: set<Id>, id: Id, now: int, m: map<Id, PrinterGroup>)
    requires GroupsPrinters(groups, s, ids, now) && id in ids
    requires m.Keys == set g | g in groups :: g.agentId
    requires forall g :: g in groups ==> g.agentId in m && m[g.agentId] == g
    ensures (if id in m then m[id].cnt else 0) == Listing(s.printers, id)
    ensures (if id in m then m[id].onlineCnt else 0) == SqlOnline(s.printers, id, now)
  {
    hide Listing, SqlOnline;
    if id in m { var g :| g in groups && g.agentId == id; }
    OnlineAreListed(s.printers, id, now);
  }

  lemma {:induction false} OnlineAreListed(printers: seq<Printer>, id: Id, now: int)
    ensures SqlOnline(printers, id, now) <= Listing(printers, id)
  {
    if printers != [] { OnlineAreListed(printers[..|printers| - 1], id, now); }
  }

  // ---------------------------------------------------------------------------
  // The two reports agree
  // ---------------------------------------------------------------------------

  /** A printer seen later than `now`, but within the same millisecond. */
  ghost predicate SeenWithin(p: Printer, id: Id, now: int) {
    && p.agentId == id && Listed(p) && (p.status == PrinterOnline || p.status == PrinterBusy)
    && p.lastSeen.Some? && now * MILLI < p.lastSeen.value < (now + 1) * MILLI
  }

  lemma TestsAgreeIff(p: Printer, id: Id, now: int)
    requires p.agentId == id && Listed(p)
    ensures OnlineInSql(p, now) ==> OnlineInScript(p, now)
    ensures (OnlineInSql(p, now) <==> OnlineInScript(p, now)) <==> !SeenWithin(p, id, now)
  {
  }

  lemma {:induction false} CountsAgreeIff(printers: seq<Printer>, id: Id, now: int)
    ensures SqlOnline(printers, id, now) <= ScriptOnline(printers, id, now)
    ensures SqlOnline(printers, id, now) == ScriptOnline(printers, id, now) <==>
            forall p :: p in printers ==> !SeenWithin(p, id, now)
  {
    hide OnlineInSql, OnlineInScript, Listed;
    if printers != [] {
      var before, p := printers[..|printers| - 1], printers[|printers| - 1];
      CountsAgreeIff(before, id, now);
      assert printers == before + [p];
      if p.agentId == id && Listed(p) { TestsAgreeIff(p, id, now); }
    }
  }

  /** On one snapshot and instant the fleet report of an agent is its detail report, exactly
      unless a listed printer was seen within the millisecond of the report but after its start. */
  lemma ReportsAgreeIff(s: Snapshot, row: AgentRow, threshold: int, now: int, up: Lookups)
    ensures FleetReport(s, row, threshold, now, up) == AgentReport(s, row, threshold, now, up) <==>
            !up.printers || forall p :: p in s.printers ==> !SeenWithin(p, row.id, now)
  {
    CountsAgreeIff(s.printers, row.id, now);
  }

  /** The agent is active, online and was last seen within the threshold. */
  ghost predicate Up(a: Agent, threshold: int, now: int) {
    && a.lifecycle == Active && a.status == Online && a.lastSeen.Some?
    && 0 <= now - Ms(a.lastSeen.value) <= threshold * 1_000
  }

  /**
   A detail report says ONLINE exactly when the agent is up, both lookups succeeded, at most 100 of its jobs
   wait, and it has no listed printer or one that is online.  Otherwise it says DEGRADED of an agent that is
   up, or was last seen in the past five minutes.
   */
  lemma OnlineIff(s: Snapshot, row: AgentRow, threshold: int, now: int, up: Lookups)
    ensures var status := AgentReport(s, row, threshold, now, up).status;
            var online := OnlinePrinters(s.printers, row.id, now, false);
            && (status == ONLINE <==>
                  && Up(row.agent, threshold, now) && up.queue && up.printers && |WaitingJobs(s.jobs, row.id)| <= 100
                  && (ListedPrinters(s.printers, row.id) == {} || online != {}))
            && (status == DEGRADED <==>
                  && status != ONLINE && row.agent.lifecycle == Active && row.agent.status == Online
                  && row.agent.lastSeen.Some?
                  && var age := now - Ms(row.agent.lastSeen.value);
                     0 <= age && (age <= threshold * 1_000 || age <= 300_000))
            && (status == STARTING <==>
                  && row.agent.lifecycle == Active && row.agent.status == Online && row.agent.lastSeen.None?
                  && 0 <= now - Ms(row.agent.created) <= 300_000)
  {
    CountsAreRows(s, row, threshold, now, up);
  }

  lemma AllOnline(printers: seq<Printer>, id: Id, now: int, micros: bool)
    ensures var online, listed := OnlinePrinters(printers, id, now, micros), ListedPrinters(printers, id);
            |online| <= |listed| && (|online| == |listed| <==> online == listed)
  {
    var online, listed := OnlinePrinters(printers, id, now, micros), ListedPrinters(printers, id);
    assert online <= listed;
    assert |listed| == |online| + |listed - online| by { assert listed == online + (listed - online); }
    assert listed - online == {} ==> online == listed;
  }

  /**
   What the five checks of a detail report say: the agent is up, and was seen in the last five minutes; its
   base status; more than 50 jobs wait; all of its listed printers are online, only some, or none; it has
   told its version.
   */
  lemma ChecksMean(s: Snapshot, row: AgentRow, threshold: int, now: int, up: Lookups)
    ensures var health := AgentReport(s, row, threshold, now, up);
            var listed, online := ListedPrinters(s.printers, row.id), OnlinePrinters(s.printers, row.id, now, false);
            var checks := health.checks;
            && health.id == row.id && health.lastSeen == row.agent.lastSeen && health.version == row.version
            && |checks| == 5 && checks[0].name == Gateway && checks[1].name == HeartbeatCheck && checks[2].name == Queue
            && checks[3].name == Printers && checks[4].name == Version
            && checks[0].observed && !checks[1].observed && (checks[2].observed <==> up.queue)
            && (checks[3].observed <==> up.printers) && checks[4].observed
            && (checks[0].status == Ok <==>
                  Up(row.agent, threshold, now) && now - Ms(row.agent.lastSeen.value) <= 300_000)
            && (checks[0].status == Warn <==>
                  && row.agent.lifecycle == Active && row.agent.status == Online && row.agent.lastSeen.Some?
                  && !Up(row.agent, threshold, now) && 0 <= now - Ms(row.agent.lastSeen.value) <= 300_000)
            && (checks[1].status == Ok <==> Up(row.agent, threshold, now))
            && (checks[1].status == UnknownCheck <==> health.status == STARTING)
            && (checks[1].status == Warn <==> health.status == DEGRADED && !Up(row.agent, threshold, now))
            && (checks[2].status == Warn <==> up.queue && |WaitingJobs(s.jobs, row.id)| > 50)
            && (checks[2].status == UnknownCheck <==> !up.queue)
            && (checks[3].status == Ok <==> up.printers && listed != {} && online == listed)
            && (checks[3].status == Error <==> up.printers && listed != {} && online == {})
            && (checks[3].status == UnknownCheck <==> !up.printers)
            && (checks[4].status == Ok <==> row.version.Some?)
  {
    CountsAreRows(s, row, threshold, now, up);
    AllOnline(s.printers, row.id, now, false);
    hide WaitingJobs, ListedPrinters, OnlinePrinters;
  }
}
