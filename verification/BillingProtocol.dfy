/**
 Any number of gateway processes run cancel and resume against one subscription
 row and against Stripe, while webhooks rewrite the row.  A state is the row, the
 program counter of every process, what has been sent to Stripe and what Stripe
 has recorded under each idempotency key; the rest of the state is history that
 no process reads.

 Assumptions, each one an enabling condition or a definition below: operation
 ids are fresh; Stripe records one outcome per idempotency key and answers a
 replay of the same request with it, but rejects a different request under a
 used key; a subscription id that was bound once is never bound again after a
 replacement; no webhook revives a subscription that was reported as ended; and
 whatever writes the status writes the flag with it, or ends the subscription and
 clears the claim.
 */
module BillingProtocol {
  import opened Options
  import opened BillingRow

  type Process = nat

  datatype ProgramCounter =
    | Idle
    | Granted(op: Operation, grant: Grant, n: nat)
    | Waiting(op: Operation, grant: Grant, n: nat)
    | Confirmed(op: Operation, grant: Grant, n: nat)
    | Denied(op: Operation, grant: Grant, n: nat)

  /** A minted operation; `n` elsewhere is an index into the history of these. */
  datatype Minted = Minted(id: string, op: Operation, key: string, subscription: string, request: Request)

  datatype Sent = Sent(key: string, request: Request, n: nat)

  datatype Record = Record(request: Request, accepted: bool, n: nat)

  datatype Writer = Untouched | FinalizedBy(n: nat) | Snapshot(value: bool)

  datatype State = State(
    row: Option<Row>,
    processes: map<Process, ProgramCounter>,
    sent: set<Sent>,
    stripe: map<string, Record>,
    // history
    minted: seq<Minted>,
    rowClaim: Option<nat>,
    accepted: seq<nat>,
    bound: set<string>,
    ended: set<string>,
    writer: Writer)
  {
    function At(p: Process): ProgramCounter { if p in processes then processes[p] else Idle }

    predicate Settled(n: nat) requires n < |minted| { minted[n].key in stripe }

    predicate Current(subscription: string) { row.Some? && row.value.subscription == Some(subscription) }
  }

  datatype Event =
    | Begin(p: Process, op: Operation, uuid: string)
    | Send(p: Process)
    | Execute(request: Sent, accept: bool)
    | Answer(p: Process)
    | GiveUp(p: Process)
    | Settle(p: Process)
    | Adopt(subscription: string)
    | Lifecycle(subscription: string, status: string, flag: Option<bool>, clear: bool)

  function RequestOf(pc: ProgramCounter): Request
    requires !pc.Idle?
  {
    StripeMutation(pc.op, pc.grant.status, pc.grant.subscription)
  }

  // ---------------------------------------------------------------------------
  // Steps
  // ---------------------------------------------------------------------------

  /** A webhook keeps the bound subscription or binds one that was never bound before. */
  predicate Bindable(s: State, subscription: string) {
    s.row.Some? && subscription != "" && (s.Current(subscription) || subscription !in s.bound)
  }

  ghost predicate Enabled(s: State, e: Event) {
    match e
    case Begin(p, op, uuid) => s.At(p).Idle? && forall i :: 0 <= i < |s.minted| ==> s.minted[i].id != IdFor(uuid)
    case Send(p) => s.At(p).Granted?
    case Execute(request, _) => request in s.sent
    case Answer(p) => s.At(p).Waiting? && s.At(p).grant.key in s.stripe
    case GiveUp(p) => true
    case Settle(p) => s.At(p).Confirmed? || s.At(p).Denied?
    case Adopt(subscription) => Bindable(s, subscription)
    case Lifecycle(subscription, status, flag, clear) =>
      && Bindable(s, subscription) && (clear ==> Ended(status)) && (flag.None? ==> clear)
      && (subscription in s.ended ==> Ended(status))
  }

  /** Did this claim create a new operation, rather than take up the pending one? */
  function Mints(s: State, op: Operation, uuid: string): bool {
    var result := Claim(s.row, op, uuid).1;
    result.Proceed? && result.grant.id == IdFor(uuid)
  }

  function ApplyBegin(s: State, p: Process, op: Operation, uuid: string): State {
    var (row, result) := Claim(s.row, op, uuid);
    if !result.Proceed? then s.(row := row)
    else if Mints(s, op, uuid) then
      var g := result.grant;
      s.(row := row,
         rowClaim := Some(|s.minted|),
         minted := s.minted + [Minted(g.id, op, g.key, g.subscription, StripeMutation(op, g.status, g.subscription))],
         processes := s.processes[p := Granted(op, g, |s.minted|)])
    else
      s.(row := row, processes := s.processes[p := Granted(op, result.grant, s.rowClaim.GetOr(0))])
  }

  function ApplyExecute(s: State, request: Sent, accept: bool): State {
    if request.key in s.stripe then s
    else s.(stripe := s.stripe[request.key := Record(request.request, accept, request.n)],
            accepted := if accept then s.accepted + [request.n] else s.accepted)
  }

  /** Stripe's answer under a key: its recorded outcome, or a rejection if another request was recorded. */
  function ApplyAnswer(s: State, p: Process): State
    requires s.At(p).Waiting? && s.At(p).grant.key in s.stripe
  {
    var pc := s.At(p);
    var record := s.stripe[pc.grant.key];
    s.(processes := s.processes[p := if record.accepted && record.request == RequestOf(pc)
                                     then Confirmed(pc.op, pc.grant, pc.n) else Denied(pc.op, pc.grant, pc.n)])
  }

  function ApplySettle(s: State, p: Process): State
    requires s.At(p).Confirmed? || s.At(p).Denied?
  {
    var pc := s.At(p);
    var idle := s.(processes := s.processes[p := Idle]);
    if pc.Confirmed? then
      var (row, outcome) := Finalize(s.row, pc.op, pc.grant);
      idle.(row := row,
            rowClaim := if outcome.AlreadyFinalized? then s.rowClaim else None,
            writer := if outcome.Updated? then FinalizedBy(pc.n) else s.writer)
    else
      idle.(row := Release(s.row, pc.grant), rowClaim := if Owns(s.row, pc.grant) then None else s.rowClaim)
  }

  function ApplyLifecycle(s: State, subscription: string, status: string, flag: Option<bool>, clear: bool): State
    requires s.row.Some?
  {
    var kept := if clear then s.row.value.WithoutClaim() else s.row.value;
    s.(row := Some(kept.(subscription := Some(subscription), status := Some(status),
                         cancelAtPeriodEnd := flag.GetOr(kept.cancelAtPeriodEnd))),
       rowClaim := if clear then None else s.rowClaim,
       bound := s.bound + {subscription},
       ended := if Ended(status) then s.ended + {subscription} else s.ended,
       writer := if flag.Some? then Snapshot(flag.value) else s.writer)
  }

  function Apply(s: State, e: Event): State
    requires Enabled(s, e)
  {
    match e
    case Begin(p, op, uuid) => ApplyBegin(s, p, op, uuid)
    case Send(p) =>
      var pc := s.At(p);
      s.(sent := s.sent + {Sent(pc.grant.key, RequestOf(pc), pc.n)},
         processes := s.processes[p := Waiting(pc.op, pc.grant, pc.n)])
    case Execute(request, accept) => ApplyExecute(s, request, accept)
    case Answer(p) => ApplyAnswer(s, p)
    case GiveUp(p) => s.(processes := s.processes[p := Idle])
    case Settle(p) => ApplySettle(s, p)
    case Adopt(subscription) =>
      s.(row := Some(s.row.value.(subscription := Some(subscription))), bound := s.bound + {subscription})
    case Lifecycle(subscription, status, flag, clear) => ApplyLifecycle(s, subscription, status, flag, clear)
  }

  /** Before any operation: a row without a claim, or no row. */
  ghost predicate Initial(s: State) {
    && (s.row.Some? ==> s.row.value.Unclaimed())
    && (s.row.Some? && s.row.value.subscription.Some? ==> s.row.value.subscription.value in s.bound)
    && s.processes == map[] && s.sent == {} && s.stripe == map[] && s.minted == [] && s.rowClaim == None
    && s.accepted == [] && s.ended == {} && s.writer == Untouched
  }

  ghost predicate IsRun(s: State, es: seq<Event>)
    decreases |es|, 0
  {
    es == [] || (IsRun(s, es[..|es| - 1]) && Enabled(After(s, es[..|es| - 1]), es[|es| - 1]))
  }

  ghost function After(s: State, es: seq<Event>): State
    requires IsRun(s, es)
    decreases |es|, 1
  {
    if es == [] then s else Apply(After(s, es[..|es| - 1]), es[|es| - 1])
  }

  // ---------------------------------------------------------------------------
  // What every run keeps
  // ---------------------------------------------------------------------------

  ghost predicate WellMinted(s: State) {
    && (forall i :: 0 <= i < |s.minted| ==>
          && s.minted[i].id != "" && s.minted[i].subscription != "" && s.minted[i].subscription in s.bound
          && s.minted[i].key == KeyFor(s.minted[i].op, s.minted[i].id))
    && (forall i, j :: 0 <= i < j < |s.minted| ==> s.minted[i].id != s.minted[j].id)
  }

  /** The four claim columns are empty together, or all four describe one minted operation. */
  ghost predicate RowMatches(s: State) {
    && (s.rowClaim.None? ==> s.row.Some? ==> s.row.value.Unclaimed())
    && (s.rowClaim.Some? ==>
          && s.row.Some? && s.rowClaim.value < |s.minted|
          && var m, r := s.minted[s.rowClaim.value], s.row.value;
             && r.opId == Some(m.id) && r.opType == Some(m.op.Name())
             && r.opKey == Some(m.key) && r.opSubscription == Some(m.subscription))
    && (s.row.Some? && s.row.value.subscription.Some? ==> s.row.value.subscription.value in s.bound)
  }

  /** Every grant in flight repeats the id, key, type and subscription of one minted operation. */
  ghost predicate ProcessMatches(s: State, pc: ProgramCounter) {
    pc.Idle? ||
    (&& pc.n < |s.minted|
     && pc.grant.id == s.minted[pc.n].id && pc.grant.key == s.minted[pc.n].key
     && pc.grant.subscription == s.minted[pc.n].subscription && pc.op == s.minted[pc.n].op
     && (pc.Confirmed? || pc.Denied? ==> pc.grant.key in s.stripe)
     && (pc.Confirmed? ==> s.stripe[pc.grant.key].accepted))
  }

  ghost predicate StripeMatches(s: State) {
    && (forall q :: q in s.sent ==> q.n < |s.minted| && q.key == s.minted[q.n].key)
    && (forall k :: k in s.stripe ==> s.stripe[k].n < |s.minted| && k == s.minted[s.stripe[k].n].key)
    && (forall a :: 0 <= a < |s.accepted| ==>
          && s.accepted[a] < |s.minted| && s.minted[s.accepted[a]].key in s.stripe
          && s.stripe[s.minted[s.accepted[a]].key].accepted)
    && (forall k :: k in s.stripe && s.stripe[k].accepted ==> s.stripe[k].n in s.accepted)
    && (forall a, b :: 0 <= a < b < |s.accepted| ==> s.accepted[a] != s.accepted[b])
  }

  ghost predicate Ledger(s: State) {
    && WellMinted(s) && RowMatches(s) && StripeMatches(s)
    && (forall p :: p in s.processes ==> ProcessMatches(s, s.processes[p]))
  }

  lemma DistinctKeys(s: State, i: nat, j: nat)
    requires WellMinted(s) && i < |s.minted| && j < |s.minted| && s.minted[i].key == s.minted[j].key
    ensures i == j
  {
    KeyForInjective(s.minted[i].op, s.minted[i].id, s.minted[j].op, s.minted[j].id);
  }

  /** Either nothing moves, or the pending operation is taken up, or a fresh one is minted. */
  lemma BeginCases(s: State, p: Process, op: Operation, uuid: string)
    requires WellMinted(s) && RowMatches(s) && Enabled(s, Begin(p, op, uuid))
    ensures var s' := ApplyBegin(s, p, op, uuid);
            || s' == s
            || (&& s.rowClaim.Some? && s.row == s'.row
                && s'.At(p).Granted? && s'.At(p).n == s.rowClaim.value && s'.At(p).op == op
                && s' == s.(processes := s.processes[p := s'.At(p)])
                && s.Current(s.minted[s.rowClaim.value].subscription)
                && s.minted[s.rowClaim.value].op == op
                && var m := s.minted[s.rowClaim.value];
                   s'.At(p).grant == Grant(m.id, m.key, m.subscription, s.row.value.status.GetOr("unknown")))
            || MintStep(s, p, op, uuid, s')
  {
    ClaimWritesOnlyWhenMinting(s.row, op, uuid);
    assert IdFor(uuid)[0] == 'b';
  }

  ghost predicate MintStep(s: State, p: Process, op: Operation, uuid: string, s': State) {
    && s.row.Some? && Truthy(s.row.value.subscription)
    && var subscription, status, id := s.row.value.subscription.value, s.row.value.status.GetOr("unknown"), IdFor(uuid);
       var m := Minted(id, op, KeyFor(op, id), subscription, StripeMutation(op, status, subscription));
       && !Ended(status)
       && (s.rowClaim.Some? ==> s.rowClaim.value < |s.minted| && !s.Current(s.minted[s.rowClaim.value].subscription))
       && s' == s.(row := Some(s.row.value.(opId := Some(id), opType := Some(op.Name()),
                                            opKey := Some(m.key), opSubscription := Some(subscription))),
                   rowClaim := Some(|s.minted|), minted := s.minted + [m],
                   processes := s.processes[p := Granted(op, Grant(id, m.key, subscription, status), |s.minted|)])
  }

  lemma MintKeepsLedger(s: State, p: Process, op: Operation, uuid: string, s': State)
    requires Ledger(s) && Enabled(s, Begin(p, op, uuid)) && MintStep(s, p, op, uuid, s')
    ensures Ledger(s')
  {
    forall q | q in s'.processes ensures ProcessMatches(s', s'.processes[q]) {
      if q != p { assert ProcessMatches(s, s.processes[q]); }
    }
  }

  lemma BeginKeepsLedger(s: State, p: Process, op: Operation, uuid: string)
    requires Ledger(s) && Enabled(s, Begin(p, op, uuid))
    ensures Ledger(ApplyBegin(s, p, op, uuid))
  {
    var s' := ApplyBegin(s, p, op, uuid);
    BeginCases(s, p, op, uuid);
    hide ApplyBegin, Claim;
    if MintStep(s, p, op, uuid, s') { MintKeepsLedger(s, p, op, uuid, s'); }
  }

  lemma ExecuteKeepsStripe(s: State, request: Sent, accept: bool)
    requires StripeMatches(s) && request in s.sent
    ensures StripeMatches(ApplyExecute(s, request, accept))
  {
    var s' := ApplyExecute(s, request, accept);
    if request.key !in s.stripe {
      assert request.n !in s.accepted;
      assert accept ==> s'.accepted[|s.accepted|] == request.n;
      forall k | k in s'.stripe && s'.stripe[k].accepted ensures s'.stripe[k].n in s'.accepted {
        if k != request.key { assert s.stripe[k].n in s.accepted; }
      }
    }
  }

  lemma ExecuteKeepsRow(s: State, request: Sent, accept: bool)
    requires WellMinted(s) && RowMatches(s)
    ensures WellMinted(ApplyExecute(s, request, accept)) && RowMatches(ApplyExecute(s, request, accept))
  {
    hide KeyFor;
  }

  lemma ExecuteKeepsLedger(s: State, request: Sent, accept: bool)
    requires Ledger(s) && request in s.sent
    ensures Ledger(ApplyExecute(s, request, accept))
  {
    var s' := ApplyExecute(s, request, accept);
    ExecuteKeepsStripe(s, request, accept);
    ExecuteKeepsRow(s, request, accept);
    hide StripeMatches, WellMinted, RowMatches;
    forall q | q in s'.processes ensures ProcessMatches(s', s'.processes[q]) {
      assert ProcessMatches(s, s.processes[q]);
    }
  }

  lemma StepKeepsLedger(s: State, e: Event)
    requires Ledger(s) && Enabled(s, e)
    ensures Ledger(Apply(s, e))
  {
    hide Ledger, ApplyBegin, ApplySettle, ApplyExecute, ApplyLifecycle, ApplyAnswer;
    match e
    case Begin(p, op, uuid) => BeginKeepsLedger(s, p, op, uuid);
    case Execute(request, accept) => ExecuteKeepsLedger(s, request, accept);
    case Settle(p) => SettleKeepsLedger(s, p);
    case Send(p) => ProcessKeepsLedger(s, e, p);
    case Answer(p) => ProcessKeepsLedger(s, e, p);
    case GiveUp(p) => ProcessKeepsLedger(s, e, p);
    case _ => WebhookKeepsLedger(s, e);
  }

  lemma WebhookKeepsLedger(s: State, e: Event)
    requires Ledger(s) && Enabled(s, e) && (e.Adopt? || e.Lifecycle?)
    ensures Ledger(Apply(s, e))
  {
    hide KeyFor, StripeMatches;
    StripeFrame(s, Apply(s, e));
    assert forall pc :: ProcessMatches(s, pc) ==> ProcessMatches(Apply(s, e), pc);
  }

  lemma StripeFrame(s: State, s': State)
    requires StripeMatches(s)
    requires s'.sent == s.sent && s'.stripe == s.stripe && s'.accepted == s.accepted && s'.minted == s.minted
    ensures StripeMatches(s')
  {}

  lemma ProcessKeepsLedger(s: State, e: Event, p: Process)
    requires Ledger(s) && Enabled(s, e) && (e == Send(p) || e == Answer(p) || e == GiveUp(p))
    ensures Ledger(Apply(s, e))
  {
    var s' := Apply(s, e);
    assert p in s.processes || e.GiveUp?;
    forall q | q in s'.processes ensures ProcessMatches(s', s'.processes[q]) {
      if q != p { assert ProcessMatches(s, s.processes[q]); }
    }
  }

  /** A process that still finds its own id in the row holds the row's claim. */
  lemma HolderIsClaim(s: State, p: Process)
    requires Ledger(s) && !s.At(p).Idle?
    ensures ProcessMatches(s, s.At(p))
    ensures s.row.Some? && s.row.value.opId == Some(s.At(p).grant.id) ==> s.rowClaim == Some(s.At(p).n)
  {
    hide StripeMatches, KeyFor;
    assert p in s.processes;
  }

  lemma SettleKeepsLedger(s: State, p: Process)
    requires Ledger(s) && Enabled(s, Settle(p))
    ensures Ledger(ApplySettle(s, p))
  {
    var s' := ApplySettle(s, p);
    HolderIsClaim(s, p);
    forall q | q in s'.processes ensures ProcessMatches(s', s'.processes[q]) {
      if q != p { assert ProcessMatches(s, s.processes[q]); }
    }
  }

  /** In every interleaving each operation id keeps one type, one key and one subscription. */
  lemma {:induction false} RunKeepsLedger(s: State, es: seq<Event>)
    requires Initial(s) && IsRun(s, es)
    ensures Ledger(After(s, es))
    decreases |es|
  {
    if es != [] {
      RunKeepsLedger(s, es[..|es| - 1]);
      StepKeepsLedger(After(s, es[..|es| - 1]), es[|es| - 1]);
    }
  }

  lemma BeginExtendsHistory(s: State, p: Process, op: Operation, uuid: string)
    requires Ledger(s) && Enabled(s, Begin(p, op, uuid))
    ensures var s' := ApplyBegin(s, p, op, uuid);
            s.minted <= s'.minted && s.accepted == s'.accepted && s.stripe == s'.stripe
  {
    BeginCases(s, p, op, uuid);
    hide Ledger, StripeMutation, KeyFor, ApplyBegin;
  }

  /** History is only ever added to; in particular Stripe keeps what it recorded under a key. */
  lemma StepExtendsHistory(s: State, e: Event)
    requires Ledger(s) && Enabled(s, e)
    ensures s.minted <= Apply(s, e).minted && s.accepted <= Apply(s, e).accepted
    ensures forall k :: k in s.stripe ==> k in Apply(s, e).stripe && Apply(s, e).stripe[k] == s.stripe[k]
  {
    hide Ledger, ApplyBegin, Finalize, Release, RequestOf;
    if e.Begin? { BeginExtendsHistory(s, e.p, e.op, e.uuid); }
  }

  /**
   Apart from webhook snapshots, the local flag changes only when a process finalizes
   an operation that Stripe accepted, while that operation and its subscription are still the row's.
   */
  lemma FlagNeedsConfirmation(s: State, e: Event)
    requires Ledger(s) && Enabled(s, e) && s.row.Some? && Apply(s, e).row.Some?
    requires Apply(s, e).row.value.cancelAtPeriodEnd != s.row.value.cancelAtPeriodEnd && !e.Lifecycle?
    ensures e.Settle? && s.At(e.p).Confirmed?
    ensures var pc := s.At(e.p);
            && pc.grant.key in s.stripe && s.stripe[pc.grant.key].accepted
            && s.rowClaim == Some(pc.n) && s.Current(s.minted[pc.n].subscription)
            && Apply(s, e).row.value.cancelAtPeriodEnd == s.minted[pc.n].op.Flag()
            && Apply(s, e).row.value.Unclaimed()
  {
    if e.Begin? { ClaimWritesOnlyWhenMinting(s.row, e.op, e.uuid); }
    else if e.Settle? { HolderIsClaim(s, e.p); }
  }

  /** What settling does to the shared state: nothing, or it closes the row's claim, which is then the process's own. */
  ghost predicate SettleStep(s: State, pc: ProgramCounter, s': State) {
    && !pc.Idle? && s' == s.(row := s'.row, rowClaim := s'.rowClaim, writer := s'.writer, processes := s'.processes)
    && (|| (s'.row == s.row && s'.rowClaim == s.rowClaim && s'.writer == s.writer)
        || (&& s.rowClaim == Some(pc.n) && s'.rowClaim == None && s.row.Some? && s'.row.Some?
            && s'.row == Some(s.row.value.WithoutClaim().(cancelAtPeriodEnd := s'.row.value.cancelAtPeriodEnd))
            && var flag, flag' := s.row.value.cancelAtPeriodEnd, s'.row.value.cancelAtPeriodEnd;
               if pc.Confirmed? && s.Current(pc.grant.subscription)
               then s'.writer == FinalizedBy(pc.n) && flag' == pc.op.Flag()
               else (pc.Confirmed? || pc.Denied?) && s'.writer == s.writer && flag' == flag))
  }

  lemma SettleCases(s: State, p: Process)
    requires Ledger(s) && Enabled(s, Settle(p))
    ensures ProcessMatches(s, s.At(p)) && SettleStep(s, s.At(p), ApplySettle(s, p))
    ensures ApplySettle(s, p).processes == s.processes[p := Idle]
  {
    HolderIsClaim(s, p);
  }

  /** Stripe performs at most one mutation per operation, whatever is replayed. */
  lemma OneMutationPerOperation(s: State, es: seq<Event>, a: nat, b: nat)
    requires Initial(s) && IsRun(s, es) && a < |After(s, es).accepted| && b < |After(s, es).accepted|
    ensures var t := After(s, es);
            && t.accepted[a] < |t.minted| && t.accepted[b] < |t.minted|
            && (t.minted[t.accepted[a]].key == t.minted[t.accepted[b]].key ==> a == b)
  {
    RunKeepsLedger(s, es);
    var t := After(s, es);
    if t.minted[t.accepted[a]].key == t.minted[t.accepted[b]].key { DistinctKeys(t, t.accepted[a], t.accepted[b]); }
  }
}
