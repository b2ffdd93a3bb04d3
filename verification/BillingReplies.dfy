/**
 What Stripe records and answers in a run: which requests are made under a key, which process is
 turned away, and when that loses an operation which Stripe had accepted.
 */
module BillingReplies {
  import opened Options
  import opened BillingRow
  import opened BillingProtocol

  /** One of the two requests an operation can make: for a paused subscription, or for any other. */
  ghost predicate Shaped(m: Minted, r: Request) {
    r == StripeMutation(m.op, "paused", m.subscription) || r == StripeMutation(m.op, "active", m.subscription)
  }

  /** What a process was told fits what is recorded under its key. */
  ghost predicate Answered(s: State, pc: ProgramCounter) {
    (pc.Denied? || pc.Confirmed?) ==>
      && pc.grant.key in s.stripe
      && (pc.Confirmed? <==> s.stripe[pc.grant.key].accepted && s.stripe[pc.grant.key].request == RequestOf(pc))
  }

  ghost predicate RequestsShaped(s: State) {
    && (forall q :: q in s.sent ==> q.n < |s.minted| && Shaped(s.minted[q.n], q.request))
    && (forall k :: k in s.stripe ==>
          s.stripe[k].n < |s.minted| && Shaped(s.minted[s.stripe[k].n], s.stripe[k].request))
  }

  ghost predicate AllAnswered(s: State) { forall p :: p in s.processes ==> Answered(s, s.processes[p]) }

  lemma AnyStatusIsShaped(m: Minted, status: string)
    ensures Shaped(m, StripeMutation(m.op, status, m.subscription))
  {
    SameRequestIff(m.op, status, "paused", m.subscription);
    SameRequestIff(m.op, status, "active", m.subscription);
  }

  lemma BeginKeepsShapes(s: State, p: Process, op: Operation, uuid: string)
    requires Ledger(s) && RequestsShaped(s) && Enabled(s, Begin(p, op, uuid))
    ensures RequestsShaped(ApplyBegin(s, p, op, uuid))
  {
    BeginCases(s, p, op, uuid);
    hide ApplyBegin, Ledger, Shaped, StripeMutation, KeyFor;
  }

  lemma SendKeepsShapes(s: State, p: Process)
    requires Ledger(s) && RequestsShaped(s) && Enabled(s, Send(p))
    ensures RequestsShaped(Apply(s, Send(p)))
  {
    HolderIsClaim(s, p);
    AnyStatusIsShaped(s.minted[s.At(p).n], s.At(p).grant.status);
    hide Ledger, Shaped, StripeMutation;
  }

  lemma StepKeepsShapes(s: State, e: Event)
    requires Ledger(s) && RequestsShaped(s) && Enabled(s, e)
    ensures RequestsShaped(Apply(s, e))
  {
    hide Ledger, Shaped, RequestOf, StripeMutation, ApplyBegin, Finalize, Release;
    match e
    case Begin(p, op, uuid) => BeginKeepsShapes(s, p, op, uuid);
    case Send(p) => SendKeepsShapes(s, p);
    case _ =>
  }

  /** A step that leaves all processes but one alone, and only adds to what Stripe has recorded. */
  lemma AnswersFrame(s: State, s': State, p: Process)
    requires AllAnswered(s) && forall k :: k in s.stripe ==> k in s'.stripe && s'.stripe[k] == s.stripe[k]
    requires forall q :: q in s'.processes && q != p ==> q in s.processes && s'.processes[q] == s.processes[q]
    requires Answered(s', s'.At(p))
    ensures AllAnswered(s')
  {
    hide RequestOf;
    forall q | q in s'.processes ensures Answered(s', s'.processes[q]) {
      if q != p { assert Answered(s, s.processes[q]); }
    }
  }

  lemma BeginKeepsAnswers(s: State, p: Process, op: Operation, uuid: string)
    requires Ledger(s) && AllAnswered(s) && Enabled(s, Begin(p, op, uuid))
    ensures AllAnswered(ApplyBegin(s, p, op, uuid))
  {
    BeginCases(s, p, op, uuid);
    hide ApplyBegin, Ledger, AllAnswered, StripeMutation, KeyFor;
    if ApplyBegin(s, p, op, uuid) != s { AnswersFrame(s, ApplyBegin(s, p, op, uuid), p); }
  }

  lemma StepKeepsAnswers(s: State, e: Event)
    requires Ledger(s) && AllAnswered(s) && Enabled(s, e)
    ensures AllAnswered(Apply(s, e))
  {
    hide Ledger, AllAnswered, StripeMutation, ApplyBegin, Finalize, Release;
    match e
    case Begin(p, op, uuid) => BeginKeepsAnswers(s, p, op, uuid);
    case Send(p) => AnswersFrame(s, Apply(s, e), p);
    case Answer(p) => AnswersFrame(s, Apply(s, e), p);
    case GiveUp(p) => AnswersFrame(s, Apply(s, e), p);
    case Settle(p) => AnswersFrame(s, Apply(s, e), p);
    case _ => OthersKeepAnswers(s, e);
  }

  lemma OthersKeepAnswers(s: State, e: Event)
    requires AllAnswered(s) && Enabled(s, e) && (e.Execute? || e.Adopt? || e.Lifecycle?)
    ensures AllAnswered(Apply(s, e))
  {
    var s' := Apply(s, e);
    forall q | q in s'.processes ensures Answered(s', s'.processes[q]) { assert Answered(s, s.processes[q]); }
  }

  lemma {:induction false} RunKeepsAnswers(s: State, es: seq<Event>)
    requires Initial(s) && IsRun(s, es)
    ensures RequestsShaped(After(s, es)) && AllAnswered(After(s, es))
    decreases |es|
  {
    hide Ledger, Shaped, Answered, Apply, Enabled;
    if es != [] {
      var before := es[..|es| - 1];
      RunKeepsLedger(s, before);
      RunKeepsAnswers(s, before);
      StepKeepsShapes(After(s, before), es[|es| - 1]);
      StepKeepsAnswers(After(s, before), es[|es| - 1]);
    }
  }

  /** Is the request that resumes a paused subscription the one recorded under this key? */
  ghost predicate RecordedPaused(s: State, key: string, subscription: string) {
    key in s.stripe && s.stripe[key].request == StripeMutation(Resume, "paused", subscription)
  }

  /** Does the process resume, while the subscription was paused or unpaused since the recorded request? */
  ghost predicate PauseChanged(s: State, pc: ProgramCounter) {
    && !pc.Idle? && pc.op.Resume?
    && RecordedPaused(s, pc.grant.key, pc.grant.subscription) != (pc.grant.status == "paused")
  }

  lemma RepeatsIff(s: State, p: Process)
    requires Ledger(s) && RequestsShaped(s) && !s.At(p).Idle? && s.At(p).grant.key in s.stripe
    ensures s.stripe[s.At(p).grant.key].request == RequestOf(s.At(p)) <==> !PauseChanged(s, s.At(p))
  {
    var pc := s.At(p);
    HolderIsClaim(s, p);
    DistinctKeys(s, s.stripe[pc.grant.key].n, pc.n);
    hide Ledger, StripeMutation;
    SameRequestIff(pc.op, pc.grant.status, "paused", pc.grant.subscription);
    SameRequestIff(pc.op, pc.grant.status, "active", pc.grant.subscription);
    SameRequestIff(pc.op, "paused", "active", pc.grant.subscription);
  }

  /** In every run, a process that replays an accepted operation is turned away exactly when it
      resumes and the subscription was paused or unpaused since the recorded request. */
  lemma ReplayDeniedIff(s: State, es: seq<Event>, p: Process)
    requires Initial(s) && IsRun(s, es) && Enabled(After(s, es), Answer(p))
    requires After(s, es).stripe[After(s, es).At(p).grant.key].accepted
    ensures ApplyAnswer(After(s, es), p).At(p).Denied? <==> PauseChanged(After(s, es), After(s, es).At(p))
  {
    RunKeepsLedger(s, es);
    RunKeepsAnswers(s, es);
    RepeatsIff(After(s, es), p);
    hide Ledger, PauseChanged;
  }

  /** The step in which an operation that Stripe accepted gives up the row as if it had been rejected. */
  ghost predicate Loses(s: State, e: Event) {
    && e.Settle? && s.At(e.p).Denied?
    && s.rowClaim == Some(s.At(e.p).n) && s.Current(s.At(e.p).grant.subscription)
    && s.At(e.p).grant.key in s.stripe && s.stripe[s.At(e.p).grant.key].accepted
  }

  /** In every run, exactly this loses an operation: a process settles that still owns the row, for an
      operation that Stripe accepted, having resumed across a pause or its end. */
  lemma LossIff(s: State, es: seq<Event>, p: Process)
    requires Initial(s) && IsRun(s, es) && Enabled(After(s, es), Settle(p))
    ensures var t := After(s, es);
            var pc := t.At(p);
            && pc.grant.key in t.stripe
            && (Loses(t, Settle(p)) <==>
                  Owns(t.row, pc.grant) && t.stripe[pc.grant.key].accepted && PauseChanged(t, pc))
  {
    var t := After(s, es);
    RunKeepsLedger(s, es);
    RunKeepsAnswers(s, es);
    assert Answered(t, t.processes[p]);
    RepeatsIff(t, p);
    HolderIsClaim(t, p);
    hide PauseChanged, RequestsShaped, AllAnswered, StripeMutation, StripeMatches, KeyFor, After, IsRun;
  }

  // ---------------------------------------------------------------------------
  // Requests keep step with the row
  // ---------------------------------------------------------------------------

  /** Every process, sent request and record of an operation has one request. */
  ghost predicate AllMake(s: State, n: nat, r: Request) {
    && (forall p :: p in s.processes && !s.processes[p].Idle? && s.processes[p].n == n ==>
          RequestOf(s.processes[p]) == r)
    && (forall q :: q in s.sent && q.n == n ==> q.request == r)
    && (forall k :: k in s.stripe && s.stripe[k].n == n ==> s.stripe[k].request == r)
  }

  /**
   While an operation holds the row of its subscription and no webhook snapshot was the last to
   write the flag, all its requests are the one for the row's status: a webhook that changes
   the status writes the flag too, and so leaves a snapshot.
   */
  ghost predicate InStep(s: State) {
    s.rowClaim.Some? && s.row.Some? && s.rowClaim.value < |s.minted| && !s.writer.Snapshot? ==>
      var m := s.minted[s.rowClaim.value];
      s.Current(m.subscription) ==>
        AllMake(s, s.rowClaim.value, StripeMutation(m.op, s.row.value.status.GetOr("unknown"), m.subscription))
  }

  lemma MintKeepsStep(s: State, p: Process, op: Operation, uuid: string, s': State)
    requires Ledger(s) && MintStep(s, p, op, uuid, s')
    ensures InStep(s')
  {
    hide StripeMutation, KeyFor, IdFor, WellMinted, RowMatches;
    assert forall q :: q in s.processes ==> ProcessMatches(s, s.processes[q]);
  }

  lemma BeginKeepsStep(s: State, p: Process, op: Operation, uuid: string)
    requires Ledger(s) && InStep(s) && Enabled(s, Begin(p, op, uuid))
    ensures InStep(ApplyBegin(s, p, op, uuid))
  {
    BeginCases(s, p, op, uuid);
    var s' := ApplyBegin(s, p, op, uuid);
    if MintStep(s, p, op, uuid, s') { MintKeepsStep(s, p, op, uuid, s'); }
    hide ApplyBegin, Ledger, StripeMutation, KeyFor, MintStep;
  }

  lemma SettleKeepsStep(s: State, p: Process)
    requires Ledger(s) && InStep(s) && Enabled(s, Settle(p))
    ensures InStep(ApplySettle(s, p))
  {
    SettleCases(s, p);
    hide ApplySettle, Ledger, StripeMutation, ProcessMatches;
  }

  lemma WebhookKeepsStep(s: State, e: Event)
    requires WellMinted(s) && InStep(s) && Enabled(s, e) && (e.Adopt? || e.Lifecycle?)
    ensures InStep(Apply(s, e))
  {
    hide StripeMutation, KeyFor;
  }

  lemma StepKeepsStep(s: State, e: Event)
    requires Ledger(s) && InStep(s) && Enabled(s, e)
    ensures InStep(Apply(s, e))
  {
    hide Ledger, StripeMutation, ApplyBegin, ApplySettle, ApplyLifecycle;
    match e
    case Begin(p, op, uuid) => BeginKeepsStep(s, p, op, uuid);
    case Settle(p) => SettleKeepsStep(s, p);
    case Adopt(_) => LedgerMinted(s); WebhookKeepsStep(s, e);
    case Lifecycle(_, _, _, _) => LedgerMinted(s); WebhookKeepsStep(s, e);
    case _ =>
  }

  lemma LedgerMinted(s: State)
    requires Ledger(s)
    ensures WellMinted(s)
  {}

  lemma {:induction false} RunKeepsStep(s: State, es: seq<Event>)
    requires Initial(s) && IsRun(s, es)
    ensures InStep(After(s, es))
    decreases |es|
  {
    hide Ledger, Apply, Enabled;
    if es != [] {
      var before := es[..|es| - 1];
      RunKeepsLedger(s, before);
      RunKeepsStep(s, before);
      StepKeepsStep(After(s, before), es[|es| - 1]);
    }
  }

  /** In every run, an operation is lost only while a webhook snapshot is the flag's last writer. */
  lemma LossNeedsSnapshot(s: State, es: seq<Event>, e: Event)
    requires Initial(s) && IsRun(s, es) && Enabled(After(s, es), e) && Loses(After(s, es), e)
    ensures After(s, es).writer.Snapshot?
  {
    var t := After(s, es);
    var pc := t.At(e.p);
    RunKeepsLedger(s, es);
    RunKeepsAnswers(s, es);
    RunKeepsStep(s, es);
    HolderIsClaim(t, e.p);
    DistinctKeys(t, t.stripe[pc.grant.key].n, pc.n);
    assert Answered(t, t.processes[e.p]);
    hide Ledger, StripeMutation, RequestsShaped, AllAnswered;
  }
}
