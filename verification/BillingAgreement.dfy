/**
 The local flag over every run: whose value it is once no claim is pending, and when it is the flag
 that the accepted operations leave at Stripe.
 */
module BillingAgreement {
  import opened Options
  import opened BillingRow
  import opened BillingProtocol
  import opened BillingOrder
  import opened BillingReplies

  /** The a-th acceptance is the latest one for its subscription, and that subscription is bound. */
  ghost predicate Latest(s: State, a: nat) {
    && a < |s.accepted| && s.accepted[a] < |s.minted|
    && var subscription := s.minted[s.accepted[a]].subscription;
       && s.Current(subscription)
       && forall b :: a < b < |s.accepted| ==>
            s.accepted[b] < |s.minted| && s.minted[s.accepted[b]].subscription != subscription
  }

  lemma LatestBefore(s: State, s': State, a: nat)
    requires s'.minted == s.minted && s'.row == s.row && s.accepted <= s'.accepted
    requires a < |s.accepted| && Latest(s', a)
    ensures Latest(s, a)
  {
    forall b | a < b < |s.accepted|
      ensures s.accepted[b] < |s.minted| && s.minted[s.accepted[b]].subscription != s.minted[s.accepted[a]].subscription
    {
      assert s'.accepted[b] == s.accepted[b];
    }
  }

  /** Finalizing an accepted operation that still holds the row: it is the latest one accepted there. */
  lemma FinalizedIsLatest(s: State, n: nat, a: nat)
    requires Ledger(s) && OneAtATime(s) && s.rowClaim == Some(n) && n < |s.minted| && n in s.accepted
    requires Latest(s, a) && s.minted[s.accepted[a]].subscription == s.minted[n].subscription
    ensures s.accepted[a] == n
  {
    hide ProcessMatches, WellMinted, StripeMatches;
    var b :| 0 <= b < |s.accepted| && s.accepted[b] == n;
  }

  // ---------------------------------------------------------------------------
  // Who wrote the flag
  // ---------------------------------------------------------------------------

  /**
   The operation, if any, whose claim an event takes away without writing the flag: the reconciliation of
   an ended subscription does that.
   */
  ghost function DroppedBy(s: State, e: Event): set<nat> {
    if e.Lifecycle? && e.flag.None? && s.rowClaim.Some? then {s.rowClaim.value} else {}
  }

  /** The operations whose claim a run has so taken away. */
  ghost function Dropped(s: State, es: seq<Event>): set<nat>
    requires IsRun(s, es)
    decreases |es|
  {
    if es == [] then {}
    else
      var before := es[..|es| - 1];
      Dropped(s, before) + DroppedBy(After(s, before), es[|es| - 1])
  }

  /** An operation that holds the row, was dropped, or was the last to write the flag, webhook snapshots aside. */
  ghost predicate Tracked(s: State, n: nat, dropped: set<nat>) {
    s.rowClaim == Some(n) || n in dropped || s.writer == FinalizedBy(n) || s.writer.Snapshot?
  }

  ghost predicate FlagFollows(s: State, dropped: set<nat>) {
    forall a :: 0 <= a < |s.accepted| && Latest(s, a) ==> Tracked(s, s.accepted[a], dropped)
  }

  /** A webhook has ended the bound subscription: it wrote the flag, and no claim there can follow. */
  ghost predicate Told(s: State) {
    && s.writer.Snapshot? && s.row.Some? && s.row.value.subscription.Some? && s.row.value.subscription.value in s.ended
    && (s.rowClaim.Some? && s.rowClaim.value < |s.minted| ==> !s.Current(s.minted[s.rowClaim.value].subscription))
  }

  /** On the bound subscription, ended or not, an operation without an outcome holds the row, was dropped, or
      comes after a webhook that ended the subscription. */
  ghost predicate OpenOrTold(s: State, dropped: set<nat>) {
    forall i :: 0 <= i < |s.minted| && s.Current(s.minted[i].subscription) ==>
      s.Settled(i) || s.rowClaim == Some(i) || i in dropped || Told(s)
  }

  // The open operations.

  lemma OpenFrame(s: State, s': State, dropped: set<nat>)
    requires OpenOrTold(s, dropped) && s' == s.(processes := s'.processes, sent := s'.sent)
    ensures OpenOrTold(s', dropped)
  {}

  lemma MintKeepsOpen(s: State, p: Process, op: Operation, uuid: string, s': State, dropped: set<nat>)
    requires EndedStaysEnded(s) && OpenOrTold(s, dropped) && MintStep(s, p, op, uuid, s')
    ensures OpenOrTold(s', dropped)
  {
    hide StripeMutation, KeyFor, IdFor;
    assert !Told(s);
  }

  lemma BeginKeepsOpen(s: State, p: Process, op: Operation, uuid: string, dropped: set<nat>)
    requires Ledger(s) && OneAtATime(s) && OpenOrTold(s, dropped) && Enabled(s, Begin(p, op, uuid))
    ensures OpenOrTold(ApplyBegin(s, p, op, uuid), dropped)
  {
    var s' := ApplyBegin(s, p, op, uuid);
    BeginCases(s, p, op, uuid);
    assert EndedStaysEnded(s);
    hide ApplyBegin, OneAtATime, Ledger, MintStep, OpenOrTold, EndedStaysEnded;
    if MintStep(s, p, op, uuid, s') {
      MintKeepsOpen(s, p, op, uuid, s', dropped);
    } else {
      OpenFrame(s, s', dropped);
    }
  }

  lemma SettleKeepsOpen(s: State, p: Process, dropped: set<nat>)
    requires Ledger(s) && OpenOrTold(s, dropped) && Enabled(s, Settle(p))
    ensures OpenOrTold(ApplySettle(s, p), dropped)
  {
    SettleCases(s, p);
    hide ApplySettle, Ledger;
  }

  lemma WebhookKeepsOpen(s: State, e: Event, dropped: set<nat>)
    requires WellMinted(s) && RowMatches(s) && OpenOrTold(s, dropped) && Enabled(s, e) && (e.Adopt? || e.Lifecycle?)
    ensures OpenOrTold(Apply(s, e), dropped + DroppedBy(s, e))
  {
    hide KeyFor;
    var s' := Apply(s, e);
    if !s.Current(e.subscription) {
      assert forall i :: 0 <= i < |s.minted| ==> !s'.Current(s.minted[i].subscription);
    } else {
      assert forall i :: 0 <= i < |s.minted| ==>
        s'.Current(s.minted[i].subscription) == s.Current(s.minted[i].subscription);
    }
  }

  lemma StepKeepsOpen(s: State, e: Event, dropped: set<nat>)
    requires Ledger(s) && OneAtATime(s) && OpenOrTold(s, dropped) && Enabled(s, e)
    ensures OpenOrTold(Apply(s, e), dropped + DroppedBy(s, e))
  {
    assert !e.Lifecycle? ==> dropped + DroppedBy(s, e) == dropped;
    hide OneAtATime, OpenOrTold, DroppedBy, WellMinted, RowMatches, StripeMatches, ProcessMatches;
    hide ApplyBegin, ApplySettle, ApplyExecute, ApplyLifecycle;
    match e
    case Begin(p, op, uuid) => BeginKeepsOpen(s, p, op, uuid, dropped);
    case Execute(request, accept) => ExecuteKeepsOpen(s, request, accept, dropped);
    case Settle(p) => SettleKeepsOpen(s, p, dropped);
    case Send(_) => OpenFrame(s, Apply(s, e), dropped);
    case Answer(_) => OpenFrame(s, Apply(s, e), dropped);
    case GiveUp(_) => OpenFrame(s, Apply(s, e), dropped);
    case _ => WebhookKeepsOpen(s, e, dropped);
  }

  lemma ExecuteKeepsOpen(s: State, request: Sent, accept: bool, dropped: set<nat>)
    requires OpenOrTold(s, dropped)
    ensures OpenOrTold(ApplyExecute(s, request, accept), dropped)
  {}

  // The flag.

  lemma FlagFrame(s: State, s': State, dropped: set<nat>)
    requires FlagFollows(s, dropped) && s' == s.(processes := s'.processes, sent := s'.sent)
    ensures FlagFollows(s', dropped)
  {
    assert forall a :: Latest(s', a) ==> Latest(s, a);
  }

  lemma MintKeepsFlag(s: State, p: Process, op: Operation, uuid: string, s': State, dropped: set<nat>)
    requires Ledger(s) && OneAtATime(s) && FlagFollows(s, dropped)
    requires Enabled(s, Begin(p, op, uuid)) && MintStep(s, p, op, uuid, s')
    ensures FlagFollows(s', dropped)
  {
    hide ProcessMatches, Claim, StripeMutation, KeyFor;
    forall a | 0 <= a < |s'.accepted| && Latest(s', a) ensures Tracked(s', s'.accepted[a], dropped) {
      assert Latest(s, a);
    }
  }

  lemma BeginKeepsFlag(s: State, p: Process, op: Operation, uuid: string, dropped: set<nat>)
    requires Ledger(s) && OneAtATime(s) && FlagFollows(s, dropped) && Enabled(s, Begin(p, op, uuid))
    ensures FlagFollows(ApplyBegin(s, p, op, uuid), dropped)
  {
    var s' := ApplyBegin(s, p, op, uuid);
    BeginCases(s, p, op, uuid);
    hide ApplyBegin, OneAtATime, Ledger, MintStep, FlagFollows;
    if MintStep(s, p, op, uuid, s') {
      MintKeepsFlag(s, p, op, uuid, s', dropped);
    } else {
      FlagFrame(s, s', dropped);
    }
  }

  lemma ExecuteKeepsFlag(s: State, request: Sent, accept: bool, dropped: set<nat>)
    requires OpenOrTold(s, dropped) && FlagFollows(s, dropped) && StripeMatches(s) && request in s.sent
    ensures FlagFollows(ApplyExecute(s, request, accept), dropped)
  {
    var s' := ApplyExecute(s, request, accept);
    if request.key !in s.stripe {
      assert s.Current(s.minted[request.n].subscription) ==> Tracked(s, request.n, dropped) by {
        assert !s.Settled(request.n);
      }
      hide StripeMatches, OpenOrTold;
      forall a | 0 <= a < |s'.accepted| && Latest(s', a) ensures Tracked(s', s'.accepted[a], dropped) {
        if a < |s.accepted| { LatestBefore(s, s', a); }
      }
    }
  }

  lemma CloseKeepsFlag(s: State, pc: ProgramCounter, s': State, a: nat, dropped: set<nat>)
    requires Ledger(s) && OneAtATime(s) && FlagFollows(s, dropped) && SettleStep(s, pc, s') && Latest(s', a)
    requires ProcessMatches(s, pc) && s.Settled(pc.n) && s.stripe[pc.grant.key].n == pc.n
    requires s.stripe[pc.grant.key].accepted == pc.Confirmed? || s'.rowClaim == s.rowClaim || s.writer.Snapshot?
    ensures Tracked(s', s'.accepted[a], dropped)
  {
    assert Latest(s, a);
    var n := s.accepted[a];
    assert s.stripe[s.minted[n].key].accepted;
    if pc.Confirmed? && s.rowClaim == Some(pc.n) && s.minted[n].subscription == s.minted[pc.n].subscription {
      assert pc.n in s.accepted;
      FinalizedIsLatest(s, pc.n, a);
    }
    hide OneAtATime, Ledger;
  }

  lemma SettleKeepsFlag(s: State, p: Process, dropped: set<nat>)
    requires Ledger(s) && OneAtATime(s) && FlagFollows(s, dropped) && Enabled(s, Settle(p))
    requires Loses(s, Settle(p)) ==> s.writer.Snapshot?
    ensures FlagFollows(ApplySettle(s, p), dropped)
  {
    var s' := ApplySettle(s, p);
    var pc := s.At(p);
    SettleCases(s, p);
    DistinctKeys(s, s.stripe[pc.grant.key].n, pc.n);
    hide Ledger, OneAtATime, ApplySettle, ProcessMatches, Latest;
    forall a | 0 <= a < |s'.accepted| && Latest(s', a) ensures Tracked(s', s'.accepted[a], dropped) {
      CloseKeepsFlag(s, pc, s', a, dropped);
    }
  }

  lemma WebhookKeepsFlag(s: State, e: Event, dropped: set<nat>)
    requires WellMinted(s) && FlagFollows(s, dropped) && Enabled(s, e) && (e.Adopt? || e.Lifecycle?)
    ensures FlagFollows(Apply(s, e), dropped + DroppedBy(s, e))
  {
    var s' := Apply(s, e);
    forall a | 0 <= a < |s'.accepted| && Latest(s', a)
      ensures Tracked(s', s'.accepted[a], dropped + DroppedBy(s, e))
    {
      assert s.minted[s.accepted[a]].subscription in s.bound;
      assert Latest(s, a);
    }
  }

  lemma StepKeepsFlag(s: State, e: Event, dropped: set<nat>)
    requires Ledger(s) && OneAtATime(s) && OpenOrTold(s, dropped) && FlagFollows(s, dropped) && Enabled(s, e)
    requires Loses(s, e) ==> s.writer.Snapshot?
    ensures FlagFollows(Apply(s, e), dropped + DroppedBy(s, e))
  {
    assert !e.Lifecycle? ==> dropped + DroppedBy(s, e) == dropped;
    hide OneAtATime, FlagFollows, OpenOrTold, DroppedBy, Loses, WellMinted, RowMatches, StripeMatches, ProcessMatches;
    hide ApplyBegin, ApplySettle, ApplyExecute, ApplyLifecycle;
    match e
    case Begin(p, op, uuid) => BeginKeepsFlag(s, p, op, uuid, dropped);
    case Execute(request, accept) => ExecuteKeepsFlag(s, request, accept, dropped);
    case Settle(p) => SettleKeepsFlag(s, p, dropped);
    case Send(_) => FlagFrame(s, Apply(s, e), dropped);
    case Answer(_) => FlagFrame(s, Apply(s, e), dropped);
    case GiveUp(_) => FlagFrame(s, Apply(s, e), dropped);
    case _ => WebhookKeepsFlag(s, e, dropped);
  }

  /** In every run the latest accepted operation on the bound subscription, ended or not, still holds the row,
      was dropped, or was the last to write the flag, unless a webhook snapshot was. */
  lemma {:induction false} RunKeepsFlag(s: State, es: seq<Event>)
    requires Initial(s) && IsRun(s, es)
    ensures OpenOrTold(After(s, es), Dropped(s, es)) && FlagFollows(After(s, es), Dropped(s, es))
    decreases |es|
  {
    hide Ledger, OneAtATime, Loses, OpenOrTold, DroppedBy;
    if es == [] {
      NoneOpen(s);
    } else {
      var before, last := es[..|es| - 1], es[|es| - 1];
      RunKeepsOrder(s, before);
      RunKeepsFlag(s, before);
      if Loses(After(s, before), last) { LossNeedsSnapshot(s, before, last); }
      StepKeepsOpen(After(s, before), last, Dropped(s, before));
      StepKeepsFlag(After(s, before), last, Dropped(s, before));
    }
  }

  lemma NoneOpen(s: State)
    requires Initial(s)
    ensures OpenOrTold(s, {})
  {}

  /** The value the last write of the flag carried. */
  ghost function LastWritten(initial: State, s: State): bool
    requires initial.row.Some? && (s.writer.FinalizedBy? ==> s.writer.n < |s.minted|)
  {
    match s.writer
    case Untouched => initial.row.value.cancelAtPeriodEnd
    case FinalizedBy(n) => s.minted[n].op.Flag()
    case Snapshot(value) => value
  }

  ghost predicate WriterTells(initial: State, s: State) {
    && initial.row.Some? == s.row.Some?
    && (s.writer.FinalizedBy? ==> s.writer.n < |s.minted| && s.rowClaim != Some(s.writer.n))
    && (s.row.Some? ==> s.row.value.cancelAtPeriodEnd == LastWritten(initial, s))
  }

  lemma BeginKeepsWriter(initial: State, s: State, p: Process, op: Operation, uuid: string)
    requires Ledger(s) && WriterTells(initial, s) && Enabled(s, Begin(p, op, uuid))
    ensures WriterTells(initial, ApplyBegin(s, p, op, uuid))
  {
    BeginCases(s, p, op, uuid);
    hide ApplyBegin, Ledger, StripeMutation, KeyFor;
  }

  lemma SettleKeepsWriter(initial: State, s: State, p: Process)
    requires Ledger(s) && WriterTells(initial, s) && Enabled(s, Settle(p))
    ensures WriterTells(initial, ApplySettle(s, p))
  {
    SettleCases(s, p);
    hide ApplySettle, Ledger;
  }

  lemma StepKeepsWriter(initial: State, s: State, e: Event)
    requires Ledger(s) && WriterTells(initial, s) && Enabled(s, e)
    ensures WriterTells(initial, Apply(s, e))
  {
    hide Ledger, ApplyBegin, ApplySettle;
    match e
    case Begin(p, op, uuid) => BeginKeepsWriter(initial, s, p, op, uuid);
    case Settle(p) => SettleKeepsWriter(initial, s, p);
    case _ =>
  }

  /** In every run the flag is what its last writer carried. */
  lemma {:induction false} RunKeepsWriter(s: State, es: seq<Event>)
    requires Initial(s) && IsRun(s, es)
    ensures WriterTells(s, After(s, es))
    decreases |es|
  {
    hide Ledger, Apply, Enabled;
    if es != [] {
      var before := es[..|es| - 1];
      RunKeepsLedger(s, before);
      RunKeepsWriter(s, before);
      StepKeepsWriter(s, After(s, before), es[|es| - 1]);
    }
  }

  // ---------------------------------------------------------------------------
  // Lost and dropped operations
  // ---------------------------------------------------------------------------

  ghost function LostBy(s: State, e: Event): set<nat> { if Loses(s, e) then {s.At(e.p).n} else {} }

  /** The operations a run has lost. */
  ghost function Lost(s: State, es: seq<Event>): set<nat>
    requires IsRun(s, es)
    decreases |es|
  {
    if es == [] then {}
    else
      var before := es[..|es| - 1];
      Lost(s, before) + LostBy(After(s, before), es[|es| - 1])
  }

  /** An operation that was lost or dropped neither holds the row nor has written the flag. */
  ghost predicate Closed(s: State, lost: set<nat>) {
    forall n :: n in lost ==> n < |s.minted| && s.rowClaim != Some(n) && s.writer != FinalizedBy(n)
  }

  lemma BeginKeepsClosed(s: State, p: Process, op: Operation, uuid: string, lost: set<nat>)
    requires Ledger(s) && Closed(s, lost) && Enabled(s, Begin(p, op, uuid))
    ensures Closed(ApplyBegin(s, p, op, uuid), lost)
  {
    BeginCases(s, p, op, uuid);
    hide ApplyBegin, Ledger, StripeMutation, KeyFor;
  }

  lemma SettleKeepsClosed(initial: State, s: State, p: Process, lost: set<nat>)
    requires Ledger(s) && WriterTells(initial, s) && Closed(s, lost) && Enabled(s, Settle(p))
    ensures Closed(ApplySettle(s, p), lost + LostBy(s, Settle(p)))
  {
    SettleCases(s, p);
    if Loses(s, Settle(p)) { DeniedClaimCloses(s, p); }
    hide ApplySettle, Ledger;
  }

  /** A process that was turned away and holds the row gives it up, and leaves the flag as it is. */
  lemma DeniedClaimCloses(s: State, p: Process)
    requires Ledger(s) && s.At(p).Denied? && s.rowClaim == Some(s.At(p).n) && s.Current(s.At(p).grant.subscription)
    ensures ApplySettle(s, p).rowClaim.None? && ApplySettle(s, p).writer == s.writer
  {
    HolderIsClaim(s, p);
  }

  lemma WebhookKeepsClosed(initial: State, s: State, e: Event, lost: set<nat>)
    requires RowMatches(s) && WriterTells(initial, s) && Closed(s, lost) && Enabled(s, e) && e.Lifecycle?
    ensures Closed(Apply(s, e), lost + DroppedBy(s, e))
  {
    hide KeyFor;
  }

  lemma StepKeepsClosed(initial: State, s: State, e: Event, lost: set<nat>)
    requires Ledger(s) && WriterTells(initial, s) && Closed(s, lost) && Enabled(s, e)
    ensures Closed(Apply(s, e), lost + LostBy(s, e) + DroppedBy(s, e))
  {
    hide ApplyBegin, ApplySettle, WellMinted, StripeMatches, ProcessMatches, RowMatches;
    match e
    case Begin(p, op, uuid) =>
      assert lost + LostBy(s, e) + DroppedBy(s, e) == lost;
      BeginKeepsClosed(s, p, op, uuid, lost);
    case Settle(p) =>
      assert lost + LostBy(s, e) + DroppedBy(s, e) == lost + LostBy(s, e);
      SettleKeepsClosed(initial, s, p, lost);
    case Lifecycle(_, _, _, _) =>
      assert lost + LostBy(s, e) + DroppedBy(s, e) == lost + DroppedBy(s, e);
      WebhookKeepsClosed(initial, s, e, lost);
    case _ =>
  }

  /** In every run, once lost or dropped an operation stays so. */
  lemma {:induction false} RunKeepsClosed(s: State, es: seq<Event>)
    requires Initial(s) && IsRun(s, es)
    ensures Closed(After(s, es), Lost(s, es) + Dropped(s, es))
    decreases |es|
  {
    hide Ledger, LostBy, DroppedBy, WriterTells, Apply, Enabled;
    if es != [] {
      var before, last := es[..|es| - 1], es[|es| - 1];
      var lost := Lost(s, before) + Dropped(s, before);
      RunKeepsLedger(s, before);
      RunKeepsWriter(s, before);
      RunKeepsClosed(s, before);
      StepKeepsClosed(s, After(s, before), last, lost);
      assert Lost(s, es) + Dropped(s, es) == lost + LostBy(After(s, before), last) + DroppedBy(After(s, before), last);
    }
  }

  /** A losing step leaves the row without a claim, and with the flag and the last writer it had. */
  lemma LossKeepsOldFlag(s: State, es: seq<Event>, e: Event, a: nat)
    requires Initial(s) && IsRun(s, es) && Enabled(After(s, es), e) && Loses(After(s, es), e)
    requires Latest(After(s, es), a)
    requires var t := After(s, es); t.minted[t.accepted[a]].subscription == t.At(e.p).grant.subscription
    ensures var t, t' := After(s, es), Apply(After(s, es), e);
            && t.accepted[a] == t.At(e.p).n && Latest(t', a)
            && t'.row.value.Unclaimed() && t'.row.value.cancelAtPeriodEnd == t.row.value.cancelAtPeriodEnd
            && t'.writer == t.writer
  {
    RunKeepsOrder(s, es);
    var t := After(s, es);
    SettleCases(t, e.p);
    DistinctKeys(t, t.stripe[t.At(e.p).grant.key].n, t.At(e.p).n);
    FinalizedIsLatest(t, t.At(e.p).n, a);
  }

  /** Only a resume can be lost. */
  lemma {:induction false} OnlyResumesAreLost(s: State, es: seq<Event>, n: nat)
    requires Initial(s) && IsRun(s, es) && n in Lost(s, es)
    ensures n < |After(s, es).minted| && After(s, es).minted[n].op.Resume?
    decreases |es|
  {
    var before, last := es[..|es| - 1], es[|es| - 1];
    RunKeepsLedger(s, before);
    if n in Lost(s, before) {
      OnlyResumesAreLost(s, before, n);
    } else {
      LossIff(s, before, last.p);
      HolderIsClaim(After(s, before), last.p);
    }
    StepExtendsHistory(After(s, before), last);
    hide Ledger, Apply;
  }

  // ---------------------------------------------------------------------------
  // The flag at rest
  // ---------------------------------------------------------------------------

  /**
   At rest, in every run: unless a webhook snapshot was the last to write the flag, the operation that Stripe
   accepted last for the bound subscription wrote it if and only if it was not dropped.  The flag is the
   value that operation carries, unless a snapshot of the other value came last, or the operation was
   dropped and the last write before carried the other value; and in those two cases it is not.
   */
  lemma FlagFollowsLastAcceptance(s: State, es: seq<Event>, a: nat)
    requires Initial(s) && IsRun(s, es)
    requires Latest(After(s, es), a) && After(s, es).row.value.Unclaimed()
    ensures var t, dropped := After(s, es), Dropped(s, es);
            var n, value := t.accepted[a], t.minted[t.accepted[a]].op.Flag();
            && WriterTells(s, t)
            && (!t.writer.Snapshot? ==> (t.writer == FinalizedBy(n) <==> n !in dropped))
            && (t.row.value.cancelAtPeriodEnd == value <==>
                  !((t.writer.Snapshot? && t.writer.value != value)
                    || (!t.writer.Snapshot? && n in dropped && LastWritten(s, t) != value)))
  {
    var t := After(s, es);
    RunKeepsLedger(s, es);
    RunKeepsFlag(s, es);
    RunKeepsWriter(s, es);
    RunKeepsClosed(s, es);
    assert Tracked(t, t.accepted[a], Dropped(s, es));
    assert t.rowClaim.None?;
    hide Ledger, After, IsRun, OpenOrTold;
  }

  /** Unless a webhook snapshot was the last to write it or its claim was dropped, the last accepted operation
      has written the flag, and the flag at rest is the value it carries. */
  lemma QuiescentAgreement(s: State, es: seq<Event>, a: nat)
    requires Initial(s) && IsRun(s, es) && !After(s, es).writer.Snapshot?
    requires Latest(After(s, es), a) && After(s, es).row.value.Unclaimed()
    requires After(s, es).accepted[a] !in Dropped(s, es)
    ensures var t := After(s, es);
            && t.writer == FinalizedBy(t.accepted[a])
            && t.row.value.cancelAtPeriodEnd == t.minted[t.accepted[a]].op.Flag()
  {
    FlagFollowsLastAcceptance(s, es, a);
  }
}
