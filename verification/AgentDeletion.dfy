/**
 Deleting an agent archives every print job it owns before the rows that the jobs refer to
 disappear (deleteAgent in src/app/actions.ts).
 */
module AgentDeletion {
  import opened Options

  /** Identifiers, keys and digests are only ever compared, so any type with equality will do. */
  type Id = nat

  datatype Status = Queued | Claimed | Printing | Success | Failed | Expired

  /** An error text, by the marker it starts with. */
  datatype Error =
    | AgentExecutionTimeout | AgentRestartDuringPrint | JobExpiredDuringPrint
    | UnknownPartialDelivery | UnknownSubmissionOutcome
    | AgentDeleted | DeliveryEvidencePending | OtherError(text: Id)

  /** The columns that the idempotency fingerprint is computed from. */
  datatype Document = Document(printer: Id, documentType: Option<Id>, destination: Option<Id>, payload: Id)

  datatype Job = Job(
    tenant: Id, agent: Id, document: Document, apiKey: Option<Id>, requestedBy: Option<Id>,
    key: Option<Id>, status: Status, error: Option<Error>,
    claimToken: Option<string>, closedClaimTokenHash: Option<Id>,
    deliveredAt: Option<int>, ackedAt: Option<int>, spoolerJob: Option<string>, attempt: Option<string>,
    createdAt: int, updatedAt: int)

  datatype Receipt = Receipt(
    tenant: Id, agent: Id, printer: Id, documentType: Option<Id>, destination: Option<Id>,
    apiKey: Option<Id>, requestedBy: Option<Id>, key: Option<Id>, fingerprint: Id,
    status: Status, error: Option<Error>, closedClaimTokenHash: Option<Id>,
    deliveredAt: Option<int>, ackedAt: Option<int>, createdAt: int, updatedAt: int)

  /** The digests, which the model leaves open, and the database clock of the transaction. */
  datatype Context = Context(fingerprint: Document -> Id, sha256: string -> Id, now: int)

  predicate Terminal(s: Status) { s.Success? || s.Failed? || s.Expired? }

  /** Could the job have reached the printer? */
  predicate Uncertain(j: Job) {
    || j.status.Printing? || j.error == Some(DeliveryEvidencePending)
    || j.deliveredAt.Some? || j.ackedAt.Some? || Truthy(j.spoolerJob) || Truthy(j.attempt)
  }

  function ReceiptOf(ctx: Context, j: Job): Receipt {
    var terminal := Terminal(j.status);
    Receipt(
      j.tenant, j.agent, j.document.printer, j.document.documentType, j.document.destination,
      j.apiKey, j.requestedBy, j.key, ctx.fingerprint(j.document),
      if terminal then j.status else Failed,
      if terminal then j.error else Some(if Uncertain(j) then UnknownPartialDelivery else AgentDeleted),
      if j.closedClaimTokenHash.Some? then j.closedClaimTokenHash
      else if Truthy(j.claimToken) then Some(ctx.sha256(j.claimToken.value)) else None,
      j.deliveredAt, j.ackedAt, j.createdAt, if terminal then j.updatedAt else ctx.now)
  }

  // ---------------------------------------------------------------------------
  // What a receipt says about paper
  // ---------------------------------------------------------------------------

  datatype PhysicalOutcome = NotPrinted | Unknown

  predicate UnknownMarker(error: Option<Error>) {
    error.Some? &&
    (|| error.value.AgentExecutionTimeout? || error.value.AgentRestartDuringPrint? || error.value.JobExpiredDuringPrint?
     || error.value.UnknownPartialDelivery? || error.value.UnknownSubmissionOutcome?)
  }

  function DerivePhysicalOutcome(status: Status, error: Option<Error>): PhysicalOutcome {
    if status.Success? || UnknownMarker(error) then Unknown else NotPrinted
  }

  /** The archived outcome keeps a terminal job's verdict, and calls an open job's paper unknown exactly when it
      may have printed: it was printing, or there is any sign of a delivery. */
  lemma ReceiptKeepsPhysicalOutcome(ctx: Context, j: Job)
    ensures var r := ReceiptOf(ctx, j);
            DerivePhysicalOutcome(r.status, r.error) == Unknown <==>
            if j.status in {Success, Failed, Expired} then
              j.status == Success
              || j.error in {Some(AgentExecutionTimeout), Some(AgentRestartDuringPrint), Some(JobExpiredDuringPrint),
                             Some(UnknownPartialDelivery), Some(UnknownSubmissionOutcome)}
            else
              || j.status == Printing || j.error == Some(DeliveryEvidencePending)
              || j.deliveredAt.Some? || j.ackedAt.Some? || Truthy(j.spoolerJob) || Truthy(j.attempt)
    ensures ReceiptOf(ctx, j).status.Success? <==> j.status.Success?
  {}

  /** What a receipt must say about its job. */
  ghost predicate Records(ctx: Context, r: Receipt, j: Job) {
    && r.tenant == j.tenant && r.agent == j.agent && r.printer == j.document.printer
    && r.documentType == j.document.documentType && r.destination == j.document.destination
    && r.apiKey == j.apiKey && r.requestedBy == j.requestedBy && r.key == j.key
    && r.deliveredAt == j.deliveredAt && r.ackedAt == j.ackedAt && r.createdAt == j.createdAt
    && r.fingerprint == ctx.fingerprint(j.document)
    && (j.closedClaimTokenHash.Some? ==> r.closedClaimTokenHash == j.closedClaimTokenHash)
    && (j.closedClaimTokenHash.None? ==>
          r.closedClaimTokenHash == if Truthy(j.claimToken) then Some(ctx.sha256(j.claimToken.value)) else None)
    && (j.status in {Success, Failed, Expired} ==>
          r.status == j.status && r.error == j.error && r.updatedAt == j.updatedAt)
    && (j.status in {Queued, Claimed, Printing} ==>
          && r.status == Failed && r.updatedAt == ctx.now
          && r.error in {Some(UnknownPartialDelivery), Some(AgentDeleted)})
  }

  lemma ReceiptRecords(ctx: Context, j: Job)
    ensures Records(ctx, ReceiptOf(ctx, j), j)
  {}

  // ---------------------------------------------------------------------------
  // The transaction
  // ---------------------------------------------------------------------------

  type Ref = (Id, Id)

  datatype Result = BadRequest | NotFound | Conflict | Blocked | Deleted(archivedJobs: nat)

  /** A discovered device, with the session that found it and the printer it became. */
  datatype Device = Device(tenant: Id, agent: Id, session: Id, printer: Option<Id>)

  /** Rows that each belong to an agent of their tenant: those that are not this agent's. */
  function Others(rows: map<Ref, Id>, tenant: Id, agent: Id): map<Ref, Id> {
    map r | r in rows && !(r.0 == tenant && rows[r] == agent) :: rows[r]
  }

  function OtherDevices(devices: map<Id, Device>, tenant: Id, agent: Id): map<Id, Device> {
    map id | id in devices && !(devices[id].tenant == tenant && devices[id].agent == agent) :: devices[id]
  }

  predicate BelongsTo(rows: map<Ref, Id>, r: Ref, tenant: Id, agent: Id) {
    r in rows && r.0 == tenant && rows[r] == agent
  }

  /** Does a device refer to a session or a printer of the agent? */
  predicate Leans(d: Device, sessions: map<Ref, Id>, printers: map<Ref, Id>, tenant: Id, agent: Id) {
    || BelongsTo(sessions, (d.tenant, d.session), tenant, agent)
    || (d.printer.Some? && BelongsTo(printers, (d.tenant, d.printer.value), tenant, agent))
  }

  /** Does a device of another agent?  Then its foreign key stops the deletion. */
  predicate Stranded(devices: map<Id, Device>, sessions: map<Ref, Id>, printers: map<Ref, Id>, tenant: Id, agent: Id) {
    exists id :: id in OtherDevices(devices, tenant, agent) && Leans(devices[id], sessions, printers, tenant, agent)
  }

  predicate Owned(j: Job, tenant: Id, agent: Id, printers: set<Id>) {
    j.tenant == tenant && (j.agent == agent || j.document.printer in printers)
  }

  function OwnedIds(jobs: map<Id, Job>, tenant: Id, agent: Id, printers: set<Id>): set<Id> {
    set id | id in jobs && Owned(jobs[id], tenant, agent, printers)
  }

  function PrintersOf(printers: map<Ref, Id>, tenant: Id, agent: Id): set<Id> {
    set p | p in printers.Keys && p.0 == tenant && printers[p] == agent :: p.1
  }

  function Archive(ctx: Context, jobs: map<Id, Job>, ids: set<Id>): map<Id, Receipt> {
    map id | id in ids && id in jobs :: ReceiptOf(ctx, jobs[id])
  }

  /** Inserting this receipt would break the primary key or the tenant's idempotency-key index. */
  predicate Collides(receipts: map<Id, Receipt>, id: Id, j: Job) {
    || id in receipts
    || (j.key.Some? && exists r :: r in receipts && receipts[r].tenant == j.tenant && receipts[r].key == j.key)
  }

  /** The unique index of print_jobs on tenant and idempotency key. */
  ghost predicate UniqueKeys(jobs: map<Id, Job>) {
    forall a, b :: a in jobs && b in jobs && a != b && jobs[a].tenant == jobs[b].tenant && jobs[a].key.Some? ==>
      jobs[a].key != jobs[b].key
  }

  const ID_BATCH := 100
  const RECEIPT_MATERIALIZE_BATCH_ROWS := 20

  /** Some ids of the set, at most `limit`, in no particular order: a LIMIT query without ORDER BY. */
  method SelectIds(ids: set<Id>, limit: nat) returns (r: seq<Id>)
    requires limit > 0
    ensures |r| <= limit && (forall i :: 0 <= i < |r| ==> r[i] in ids) && (ids != {} ==> r != [])
    ensures Distinct(r)
  {
    r := [];
    var left := ids;
    while left != {} && |r| < limit
      invariant |r| <= limit && left <= ids && (r == [] ==> left == ids)
      invariant forall i :: 0 <= i < |r| ==> r[i] in ids && r[i] !in left
      invariant forall i, j :: 0 <= i < j < |r| ==> r[i] != r[j]
      decreases left
    {
      var id :| id in left;
      r := r + [id];
      left := left - {id};
    }
  }

  /** The receipts are the old ones and those of the jobs archived so far, none of which was in the way. */
  ghost predicate Progress(ctx: Context, jobs: map<Id, Job>, before: map<Id, Receipt>, done: set<Id>,
                           receipts: map<Id, Receipt>)
  {
    && done <= jobs.Keys
    && receipts == before + Archive(ctx, jobs, done)
    && forall id :: id in done ==> !Collides(before, id, jobs[id])
  }

  lemma {:induction false} ProgressStep(ctx: Context, jobs: map<Id, Job>, before: map<Id, Receipt>, done: set<Id>,
                                        receipts: map<Id, Receipt>, id: Id)
    requires UniqueKeys(jobs) && Progress(ctx, jobs, before, done, receipts) && id in jobs && id !in done
    ensures Collides(receipts, id, jobs[id]) <==> Collides(before, id, jobs[id])
    ensures !Collides(before, id, jobs[id]) ==>
              Progress(ctx, jobs, before, done + {id}, receipts[id := ReceiptOf(ctx, jobs[id])])
  {
    CollidesSame(ctx, jobs, before, done, receipts, id);
    ArchiveOneMore(ctx, jobs, before, done, id);
    hide ReceiptOf, Collides, Archive, UniqueKeys;
  }

  lemma ArchiveOneMore(ctx: Context, jobs: map<Id, Job>, before: map<Id, Receipt>, done: set<Id>, id: Id)
    requires id in jobs
    ensures (before + Archive(ctx, jobs, done))[id := ReceiptOf(ctx, jobs[id])]
            == before + Archive(ctx, jobs, done + {id})
  {
    hide ReceiptOf;
  }

  lemma CollidesSame(ctx: Context, jobs: map<Id, Job>, before: map<Id, Receipt>, done: set<Id>,
                     receipts: map<Id, Receipt>, id: Id)
    requires UniqueKeys(jobs) && Progress(ctx, jobs, before, done, receipts) && id in jobs && id !in done
    ensures Collides(receipts, id, jobs[id]) <==> Collides(before, id, jobs[id])
  {
    if Collides(receipts, id, jobs[id]) && id !in receipts {
      var r :| r in receipts && receipts[r].tenant == jobs[id].tenant && receipts[r].key == jobs[id].key;
      assert r !in done;
      assert before[r] == receipts[r];
    }
    if Collides(before, id, jobs[id]) && id !in before {
      var r :| r in before && before[r].tenant == jobs[id].tenant && before[r].key == jobs[id].key;
      assert r !in done;
      assert receipts[r] == before[r];
    }
  }

  /** Inserts the receipts of one batch of at most 20 full rows; the first collision fails the statement. */
  method InsertReceipts(ctx: Context, rows: map<Id, Job>, receipts: map<Id, Receipt>, batch: seq<Id>,
                        ghost jobs: map<Id, Job>, ghost before: map<Id, Receipt>, ghost done: set<Id>)
    returns (ok: bool, after: map<Id, Receipt>)
    requires UniqueKeys(jobs) && Progress(ctx, jobs, before, done, receipts)
    requires forall i :: 0 <= i < |batch| ==>
      batch[i] in rows && batch[i] in jobs && rows[batch[i]] == jobs[batch[i]] && batch[i] !in done
    requires Distinct(batch) && |batch| <= 20
    ensures ok ==> Progress(ctx, jobs, before, done + Elements(batch), after)
    ensures !ok ==> AnyCollides(before, jobs, Elements(batch))
  {
    hide Progress, Collides, ReceiptOf, UniqueKeys;
    after := receipts;
    assert done + Elements(batch[..0]) == done;
    for i := 0 to |batch|
      invariant Progress(ctx, jobs, before, done + Elements(batch[..i]), after)
    {
      var id := batch[i];
      ProgressStep(ctx, jobs, before, done + Elements(batch[..i]), after, id);
      if Collides(after, id, rows[id]) { return false, receipts; }
      after := after[id := ReceiptOf(ctx, rows[id])];
      assert done + Elements(batch[..i + 1]) == done + Elements(batch[..i]) + {id};
    }
    assert batch[..|batch|] == batch;
    return true, after;
  }

  ghost predicate Distinct(s: seq<Id>) { forall i, j :: 0 <= i < j < |s| ==> s[i] != s[j] }

  ghost predicate AnyCollides(receipts: map<Id, Receipt>, jobs: map<Id, Job>, ids: set<Id>) {
    exists id :: id in ids && id in jobs && Collides(receipts, id, jobs[id])
  }

  lemma AnyCollidesGrows(receipts: map<Id, Receipt>, jobs: map<Id, Job>, ids: set<Id>, more: set<Id>)
    requires AnyCollides(receipts, jobs, ids) && ids <= more
    ensures AnyCollides(receipts, jobs, more)
  {}

  lemma MinusTwice(jobs: map<Id, Job>, a: set<Id>, b: set<Id>)
    ensures jobs - a - b == jobs - (a + b)
  {}

  ghost function Elements(s: seq<Id>): set<Id> { set id | id in s }

  lemma ElementsSize(s: seq<Id>)
    requires Distinct(s)
    ensures |Elements(s)| == |s|
  {
    if s != [] {
      var before, last := s[..|s| - 1], s[|s| - 1];
      ElementsSize(before);
      assert s == before + [last];
      assert Elements(s) == Elements(before) + {last};
    }
  }

  lemma ElementsAre(s: seq<Id>)
    ensures Elements(s) == set id | id in s
  {}

  lemma NoneYet(ids: seq<Id>, done: set<Id>)
    ensures done + Elements(ids[..0]) == done
  {}

  /** The next batch of the ids: each one new, and all of them together what is done afterwards. */
  lemma NextBatch(ids: seq<Id>, offset: nat, end: nat, done: set<Id>)
    requires Distinct(ids) && offset <= end <= |ids| && forall i :: 0 <= i < |ids| ==> ids[i] !in done
    ensures var batch, sofar := ids[offset..end], done + Elements(ids[..offset]);
            && Distinct(batch) && Elements(batch) <= Elements(ids)
            && sofar + Elements(batch) == done + Elements(ids[..end])
            && forall i :: 0 <= i < |batch| ==> batch[i] == ids[offset + i] && batch[i] !in sofar
  {
    assert ids[..end] == ids[..offset] + ids[offset..end];
  }

  // ---------------------------------------------------------------------------
  // What a deletion promises
  // ---------------------------------------------------------------------------

  /** The jobs that go: those of the agent in its tenant, and those for one of its printers. */
  ghost function AgentJobs(jobs: map<Id, Job>, printers: map<Ref, Id>, tenant: Id, agent: Id): set<Id> {
    set id | && id in jobs && jobs[id].tenant == tenant
             && var printer := (tenant, jobs[id].document.printer);
                jobs[id].agent == agent || (printer in printers && printers[printer] == agent)
  }

  /** Is a receipt in the way of one of the jobs? */
  ghost predicate InTheWay(receipts: map<Id, Receipt>, jobs: map<Id, Job>, ids: set<Id>) {
    exists id, r :: && id in ids && id in jobs && r in receipts
                    && (id == r || (&& jobs[id].key.Some? && receipts[r].key == jobs[id].key
                                    && receipts[r].tenant == jobs[id].tenant))
  }

  /** Does a device of another agent refer to a session or a printer that would go? */
  ghost predicate Referenced(devices: map<Id, Device>, sessions: map<Ref, Id>, printers: map<Ref, Id>,
                             tenant: Id, agent: Id)
  {
    exists id :: && id in devices && devices[id].tenant == tenant && devices[id].agent != agent
                 && var d := devices[id];
                    || ((tenant, d.session) in sessions && sessions[(tenant, d.session)] == agent)
                    || (d.printer.Some? && (tenant, d.printer.value) in printers
                        && printers[(tenant, d.printer.value)] == agent)
  }

  /** The idempotency keys that are taken, each in its tenant. */
  ghost function TakenKeys(jobs: map<Id, Job>, receipts: map<Id, Receipt>): set<(Id, Id)> {
    (set id | id in jobs && jobs[id].key.Some? :: (jobs[id].tenant, jobs[id].key.value))
    + set id | id in receipts && receipts[id].key.Some? :: (receipts[id].tenant, receipts[id].key.value)
  }

  /** The agent's own rows are gone, and no others. */
  ghost predicate Removed(before: map<Ref, Id>, after: map<Ref, Id>, tenant: Id, agent: Id) {
    && (forall r :: r in after <==> r in before && (r.0 != tenant || before[r] != agent))
    && (forall r :: r in after ==> after[r] == before[r])
  }

  ghost predicate DevicesRemoved(before: map<Id, Device>, after: map<Id, Device>, tenant: Id, agent: Id) {
    && (forall d :: d in after <==> d in before && (before[d].tenant != tenant || before[d].agent != agent))
    && (forall d :: d in after ==> after[d] == before[d])
  }

  lemma OthersAre(rows: map<Ref, Id>, tenant: Id, agent: Id)
    ensures Removed(rows, Others(rows, tenant, agent), tenant, agent)
  {}

  lemma OtherDevicesAre(devices: map<Id, Device>, tenant: Id, agent: Id)
    ensures DevicesRemoved(devices, OtherDevices(devices, tenant, agent), tenant, agent)
  {}

  lemma OwnedAre(jobs: map<Id, Job>, printers: map<Ref, Id>, tenant: Id, agent: Id)
    ensures OwnedIds(jobs, tenant, agent, PrintersOf(printers, tenant, agent))
            == AgentJobs(jobs, printers, tenant, agent)
  {
    forall p | p in printers && p.0 == tenant
      ensures p.1 in PrintersOf(printers, tenant, agent) <==> printers[p] == agent
    {
      PrinterOfAgent(printers, tenant, agent, p);
    }
    forall id | id in jobs && jobs[id].document.printer in PrintersOf(printers, tenant, agent)
      ensures (tenant, jobs[id].document.printer) in printers
    {}
  }

  lemma CollisionIs(receipts: map<Id, Receipt>, jobs: map<Id, Job>, ids: set<Id>)
    ensures AnyCollides(receipts, jobs, ids) <==> InTheWay(receipts, jobs, ids)
  {
    if AnyCollides(receipts, jobs, ids) {
      var id :| id in ids && id in jobs && Collides(receipts, id, jobs[id]);
      if id !in receipts {
        var r :| r in receipts && receipts[r].tenant == jobs[id].tenant && receipts[r].key == jobs[id].key;
        assert id in ids && id in jobs && r in receipts;
      } else {
        assert id in ids && id in jobs && id in receipts;
      }
    }
    if InTheWay(receipts, jobs, ids) {
      var id, r :| && id in ids && id in jobs && r in receipts
                   && (id == r || (&& jobs[id].key.Some? && receipts[r].key == jobs[id].key
                                   && receipts[r].tenant == jobs[id].tenant));
      assert Collides(receipts, id, jobs[id]);
    }
  }

  lemma StrandedIs(devices: map<Id, Device>, sessions: map<Ref, Id>, printers: map<Ref, Id>, tenant: Id, agent: Id)
    ensures Stranded(devices, sessions, printers, tenant, agent)
            <==> Referenced(devices, sessions, printers, tenant, agent)
  {
    if Referenced(devices, sessions, printers, tenant, agent) {
      var id :| && id in devices && devices[id].tenant == tenant && devices[id].agent != agent
                && Leans(devices[id], sessions, printers, tenant, agent);
      assert id in OtherDevices(devices, tenant, agent);
    }
  }

  /** The jobs have gone, each into a receipt beside the old ones, and no key is lost or added. */
  ghost predicate Archived(ctx: Context, ids: set<Id>, jobs: map<Id, Job>, receipts: map<Id, Receipt>,
                           jobs': map<Id, Job>, receipts': map<Id, Receipt>)
  {
    && jobs' == jobs - ids && ids <= jobs.Keys
    && receipts'.Keys == receipts.Keys + ids && receipts.Keys !! ids
    && (forall r :: r in receipts ==> receipts'[r] == receipts[r])
    && (forall id :: id in ids ==> Records(ctx, receipts'[id], jobs[id]))
    && TakenKeys(jobs', receipts') == TakenKeys(jobs, receipts)
  }

  lemma ArchiveMeans(ctx: Context, jobs: map<Id, Job>, receipts: map<Id, Receipt>, owned: set<Id>)
    requires owned <= jobs.Keys && receipts.Keys !! owned
    ensures Archived(ctx, owned, jobs, receipts, jobs - owned, receipts + Archive(ctx, jobs, owned))
  {
    var all := receipts + Archive(ctx, jobs, owned);
    forall id | id in owned ensures Records(ctx, all[id], jobs[id]) { ReceiptRecords(ctx, jobs[id]); }
    hide ReceiptOf, Records;
    KeysStay(jobs, receipts, owned, all);
  }

  lemma KeysStay(jobs: map<Id, Job>, receipts: map<Id, Receipt>, owned: set<Id>, all: map<Id, Receipt>)
    requires owned <= jobs.Keys && receipts.Keys !! owned && all.Keys == receipts.Keys + owned
    requires forall id :: id in receipts ==> all[id] == receipts[id]
    requires forall id :: id in owned ==> all[id].tenant == jobs[id].tenant && all[id].key == jobs[id].key
    ensures TakenKeys(jobs - owned, all) == TakenKeys(jobs, receipts)
  {
    forall k | k in TakenKeys(jobs, receipts) ensures k in TakenKeys(jobs - owned, all) {
      if id :| id in jobs && jobs[id].key.Some? && (jobs[id].tenant, jobs[id].key.value) == k {
        assert id in owned || id in jobs - owned;
      } else {
        var id :| id in receipts && receipts[id].key.Some? && (receipts[id].tenant, receipts[id].key.value) == k;
        assert id in all;
      }
    }
  }

  class GatewayStore {
    var jobs: map<Id, Job>
    var receipts: map<Id, Receipt>
    var printers: map<Ref, Id>
    var agents: set<Ref>
    var devices: map<Id, Device>
    var sessions: map<Ref, Id>

    /**
     One outer pass: the ids are archived in batches of full rows.  The jobs of each batch are
     deleted as soon as their receipts are in.
     */
    method ArchiveIds(ctx: Context, ids: seq<Id>,
                      ghost all: map<Id, Job>, ghost before: map<Id, Receipt>, ghost done: set<Id>)
      returns (ok: bool, archived: nat)
      requires UniqueKeys(all) && Progress(ctx, all, before, done, receipts) && jobs == all - done
      requires forall i :: 0 <= i < |ids| ==> ids[i] in all && ids[i] !in done
      requires Distinct(ids) && |ids| <= 100
      modifies this`jobs, this`receipts
      ensures ok ==> Progress(ctx, all, before, done + Elements(ids), receipts)
      ensures ok ==> jobs == all - (done + Elements(ids)) && archived == |ids|
      ensures !ok ==> AnyCollides(before, all, Elements(ids))
    {
      hide Progress, AnyCollides, UniqueKeys, Distinct, Elements;
      archived := 0;
      var offset := 0;
      NoneYet(ids, done);
      while offset < |ids|
        invariant 0 <= offset <= |ids| && archived == offset
        invariant Progress(ctx, all, before, done + Elements(ids[..offset]), receipts)
        invariant jobs == all - (done + Elements(ids[..offset]))
      {
        var end := offset + RECEIPT_MATERIALIZE_BATCH_ROWS;
        if end > |ids| { end := |ids|; }
        var batch := ids[offset..end];
        ghost var sofar := done + Elements(ids[..offset]);
        NextBatch(ids, offset, end, done);
        ok, receipts := InsertReceipts(ctx, jobs, receipts, batch, all, before, sofar);
        if !ok {
          AnyCollidesGrows(before, all, Elements(batch), Elements(ids));
          return false, archived;
        }
        MinusTwice(all, sofar, Elements(batch));
        ElementsAre(batch);
        jobs := jobs - (set id | id in batch);
        archived := archived + |batch|;
        offset := end;
      }
      assert ids[..|ids|] == ids;
      return true, archived;
    }

    /** One turn of the outer loop: up to a hundred of the open jobs. */
    method ArchivePass(ctx: Context, open: set<Id>,
                       ghost all: map<Id, Job>, ghost before: map<Id, Receipt>, ghost done: set<Id>)
      returns (ok: bool, archived: nat, ghost batch: set<Id>)
      requires UniqueKeys(all) && Progress(ctx, all, before, done, receipts)
      requires jobs == all - done && open <= all.Keys && open !! done
      modifies this`jobs, this`receipts
      ensures ok ==> Progress(ctx, all, before, done + batch, receipts) && jobs == all - (done + batch)
      ensures ok ==> batch <= open && archived == |batch| && (archived == 0 <==> open == {})
      ensures !ok ==> AnyCollides(before, all, open)
    {
      hide Progress, AnyCollides, UniqueKeys, Distinct;
      var ids := SelectIds(open, ID_BATCH);
      batch := Elements(ids);
      ElementsSize(ids);
      ok, archived := ArchiveIds(ctx, ids, all, before, done);
      if !ok { AnyCollidesGrows(before, all, batch, open); }
    }

    /**
     Every job that goes becomes exactly one receipt under its own id, no idempotency key is lost or added,
     nothing else is touched, and the agent, its printers and what it discovered are gone; or nothing has
     changed, because the id was blank, there is no such agent, a receipt was in the way, or another agent's
     device refers to what would go.  No id stands for a blank one.
     */
    method DeleteAgent(ctx: Context, tenant: Id, id: Option<Id>) returns (result: Result)
      requires UniqueKeys(jobs)
      modifies this
      ensures result.BadRequest? <==> id.None?
      ensures id.Some? ==>
                var agent := id.value;
                var owned := AgentJobs(old(jobs), old(printers), tenant, agent);
                var collides := InTheWay(old(receipts), old(jobs), owned);
                var referenced := Referenced(old(devices), old(sessions), old(printers), tenant, agent);
                && (result.NotFound? <==> (tenant, agent) !in old(agents))
                && (result.Conflict? <==> (tenant, agent) in old(agents) && collides)
                && (result.Blocked? <==> (tenant, agent) in old(agents) && !collides && referenced)
                && (result.Deleted? ==>
                      && result.archivedJobs == |owned|
                      && Archived(ctx, owned, old(jobs), old(receipts), jobs, receipts)
                      && Removed(old(printers), printers, tenant, agent)
                      && Removed(old(sessions), sessions, tenant, agent)
                      && DevicesRemoved(old(devices), devices, tenant, agent)
                      && agents == old(agents) - {(tenant, agent)})
      ensures !result.Deleted? ==>
                && jobs == old(jobs) && receipts == old(receipts) && printers == old(printers)
                && agents == old(agents) && devices == old(devices) && sessions == old(sessions)
    {
      hide AnyCollides, UniqueKeys, Archive, OwnedIds, PrintersOf, Stranded, Others, OtherDevices;
      hide AgentJobs, InTheWay, Referenced, Archived, Removed, DevicesRemoved;
      if id.None? { return BadRequest; }
      var agent := id.value;
      if (tenant, agent) !in agents { return NotFound; }
      var allJobs, allReceipts := jobs, receipts;
      OwnedAre(jobs, printers, tenant, agent);
      CollisionIs(receipts, jobs, AgentJobs(jobs, printers, tenant, agent));
      StrandedIs(devices, sessions, printers, tenant, agent);
      var ok, archivedJobs := ArchiveOwned(ctx, tenant, agent, PrintersOf(printers, tenant, agent));
      if !ok { return Conflict; }
      if Stranded(devices, sessions, printers, tenant, agent) {
        jobs, receipts := allJobs, allReceipts;
        return Blocked;
      }
      OwnedAreJobs(allJobs, tenant, agent, PrintersOf(printers, tenant, agent));
      ArchiveMeans(ctx, allJobs, allReceipts, AgentJobs(allJobs, printers, tenant, agent));
      OtherDevicesAre(devices, tenant, agent);
      OthersAre(sessions, tenant, agent);
      OthersAre(printers, tenant, agent);
      devices := OtherDevices(devices, tenant, agent);
      sessions := Others(sessions, tenant, agent);
      printers := Others(printers, tenant, agent);
      agents := agents - {(tenant, agent)};
      return Deleted(archivedJobs);
    }

    /** The archive loop, which either empties the owned jobs or rolls everything back. */
    method ArchiveOwned(ctx: Context, tenant: Id, agent: Id, printerIds: set<Id>) returns (ok: bool, archivedJobs: nat)
      requires UniqueKeys(jobs)
      modifies this`jobs, this`receipts
      ensures var owned := OwnedIds(old(jobs), tenant, agent, printerIds);
              && (!ok <==> AnyCollides(old(receipts), old(jobs), owned))
              && (!ok ==> jobs == old(jobs) && receipts == old(receipts) && archivedJobs == 0)
              && (ok ==> archivedJobs == |owned| && jobs == old(jobs) - owned && old(receipts).Keys !! owned
                         && receipts == old(receipts) + Archive(ctx, old(jobs), owned))
    {
      hide Progress, AnyCollides, UniqueKeys, OwnedIds, Archive, Distinct, Owned, ReceiptOf, Collides, Elements;
      var allJobs, allReceipts := jobs, receipts;
      ghost var owned := OwnedIds(jobs, tenant, agent, printerIds);
      ghost var done: set<Id> := {};
      archivedJobs := 0;
      ProgressBegins(ctx, allJobs, allReceipts);
      OwnedAreJobs(jobs, tenant, agent, printerIds);
      while true
        invariant done <= owned && archivedJobs == |done|
        invariant jobs == allJobs - done && Progress(ctx, allJobs, allReceipts, done, receipts)
        decreases owned - done
      {
        OwnedLeft(allJobs, done, tenant, agent, printerIds);
        ghost var batch;
        var fits, n;
        fits, n, batch := ArchivePass(ctx, OwnedIds(jobs, tenant, agent, printerIds), allJobs, allReceipts, done);
        if !fits {
          AnyCollidesGrows(allReceipts, allJobs, owned - done, owned);
          jobs, receipts := allJobs, allReceipts;
          return false, 0;
        }
        BatchAdvances(owned, done, batch);
        if n == 0 { break; }
        archivedJobs := archivedJobs + n;
        done := done + batch;
      }
      ProgressMeans(ctx, allJobs, allReceipts, done, receipts);
      return true, archivedJobs;
    }
  }

  /** A batch of what is left adds its own number, and nothing is left if it is empty only then. */
  lemma BatchAdvances(owned: set<Id>, done: set<Id>, batch: set<Id>)
    requires done <= owned && batch <= owned - done
    ensures done + batch <= owned && |done + batch| == |done| + |batch|
    ensures owned - done == {} ==> owned == done && done + batch == done
    ensures batch != {} ==> owned - (done + batch) < owned - done
  {
    assert |done + batch| == |done| + |batch| by { assert done !! batch; }
    if batch != {} {
      var id :| id in batch;
      assert id in owned - done && id !in owned - (done + batch);
    }
  }

  lemma OwnedAreJobs(jobs: map<Id, Job>, tenant: Id, agent: Id, printers: set<Id>)
    ensures OwnedIds(jobs, tenant, agent, printers) <= jobs.Keys
  {}

  lemma OwnedLeft(jobs: map<Id, Job>, done: set<Id>, tenant: Id, agent: Id, printers: set<Id>)
    ensures OwnedIds(jobs - done, tenant, agent, printers) == OwnedIds(jobs, tenant, agent, printers) - done
  {}

  lemma ProgressBegins(ctx: Context, jobs: map<Id, Job>, receipts: map<Id, Receipt>)
    ensures Progress(ctx, jobs, receipts, {}, receipts)
  {
    assert Archive(ctx, jobs, {}) == map[];
  }

  lemma ProgressMeans(ctx: Context, jobs: map<Id, Job>, before: map<Id, Receipt>, done: set<Id>,
                      receipts: map<Id, Receipt>)
    requires Progress(ctx, jobs, before, done, receipts)
    ensures receipts == before + Archive(ctx, jobs, done) && before.Keys !! done
    ensures !AnyCollides(before, jobs, done)
  {}

  // ---------------------------------------------------------------------------
  // References
  // ---------------------------------------------------------------------------

  /** The foreign keys of print_jobs, printers, discovery_sessions and discovered_devices. */
  ghost predicate References(jobs: map<Id, Job>, printers: map<Ref, Id>, agents: set<Ref>,
                             devices: map<Id, Device>, sessions: map<Ref, Id>)
  {
    && (forall id :: id in jobs ==>
          && (jobs[id].tenant, jobs[id].agent) in agents
          && (jobs[id].tenant, jobs[id].document.printer) in printers)
    && (forall p :: p in printers ==> (p.0, printers[p]) in agents)
    && (forall d :: d in sessions ==> (d.0, sessions[d]) in agents)
    && (forall id :: id in devices ==>
          && (devices[id].tenant, devices[id].agent) in agents
          && (devices[id].tenant, devices[id].session) in sessions
          && (devices[id].printer.Some? ==> (devices[id].tenant, devices[id].printer.value) in printers))
  }

  /** Removing the agent with all that is its own keeps every foreign key, if and only if no device of another
      agent refers to what goes; the archived jobs are what makes it hold of print_jobs. */
  lemma DeletionKeepsReferencesIff(jobs: map<Id, Job>, printers: map<Ref, Id>, agents: set<Ref>,
                                   devices: map<Id, Device>, sessions: map<Ref, Id>, tenant: Id, agent: Id)
    requires References(jobs, printers, agents, devices, sessions)
    ensures References(jobs - OwnedIds(jobs, tenant, agent, PrintersOf(printers, tenant, agent)),
                       Others(printers, tenant, agent), agents - {(tenant, agent)},
                       OtherDevices(devices, tenant, agent), Others(sessions, tenant, agent))
            <==> !Stranded(devices, sessions, printers, tenant, agent)
  {
    forall id | id in jobs - OwnedIds(jobs, tenant, agent, PrintersOf(printers, tenant, agent))
      ensures (jobs[id].tenant, jobs[id].document.printer) in Others(printers, tenant, agent)
    {
      var p := (jobs[id].tenant, jobs[id].document.printer);
      if p.0 == tenant { PrinterOfAgent(printers, tenant, agent, p); }
    }
  }

  lemma PrinterOfAgent(printers: map<Ref, Id>, tenant: Id, agent: Id, p: Ref)
    requires p in printers && p.0 == tenant
    ensures p.1 in PrintersOf(printers, tenant, agent) <==> printers[p] == agent
  {}
}
