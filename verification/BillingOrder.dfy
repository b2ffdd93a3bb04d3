/**
 Operations on one subscription follow one another: in every run, whatever the interleaving,
 a new one is minted only when the earlier ones have their outcome at Stripe.
 */
module BillingOrder {
  import opened Options
  import opened BillingRow
  import opened BillingProtocol

  /** A new operation on a subscription is minted only once the earlier ones have an outcome at Stripe. */
  ghost predicate MintedAfterSettled(s: State) {
    forall i, j :: 0 <= i < j < |s.minted| && s.minted[i].subscription == s.minted[j].subscription ==> s.Settled(i)
  }

  /** On the bound subscription only the row's own claim, which is the newest one, can be without an outcome. */
  ghost predicate OnlyClaimOpen(s: State) {
    && (forall i :: 0 <= i < |s.minted| && s.Current(s.minted[i].subscription)
                    && s.minted[i].subscription !in s.ended ==>
          s.Settled(i) || s.rowClaim == Some(i))
    && (s.rowClaim.Some? ==> s.rowClaim.value < |s.minted|)
    && (s.rowClaim.Some? && s.Current(s.minted[s.rowClaim.value].subscription) ==>
          forall j :: s.rowClaim.value < j < |s.minted| ==>
            s.minted[j].subscription != s.minted[s.rowClaim.value].subscription)
  }

  /** Stripe accepts operations on one subscription in the order they were minted. */
  ghost predicate AcceptedInOrder(s: State) {
    && (forall a :: 0 <= a < |s.accepted| ==> s.accepted[a] < |s.minted|)
    && (forall a, b :: 0 <= a < b < |s.accepted|
                       && s.minted[s.accepted[a]].subscription == s.minted[s.accepted[b]].subscription ==>
          s.accepted[a] < s.accepted[b])
  }

  ghost predicate EndedStaysEnded(s: State) {
    && s.ended <= s.bound
    && (s.row.Some? && s.row.value.subscription.Some? && s.row.value.subscription.value in s.ended ==>
          Ended(s.row.value.status.GetOr("unknown")))
  }

  ghost predicate OneAtATime(s: State) {
    MintedAfterSettled(s) && OnlyClaimOpen(s) && AcceptedInOrder(s) && EndedStaysEnded(s)
  }

  /** Steps of a process that write neither the row nor Stripe cannot disturb the order. */
  lemma OrderFrame(s: State, s': State)
    requires OneAtATime(s) && s' == s.(processes := s'.processes, sent := s'.sent)
    ensures OneAtATime(s')
  {}

  lemma MintKeepsOrder(s: State, p: Process, op: Operation, uuid: string, s': State)
    requires Ledger(s) && OneAtATime(s) && Enabled(s, Begin(p, op, uuid)) && MintStep(s, p, op, uuid, s')
    ensures OneAtATime(s')
  {
    hide ProcessMatches, Claim, StripeMutation, KeyFor;
  }

  lemma BeginKeepsOrder(s: State, p: Process, op: Operation, uuid: string)
    requires Ledger(s) && OneAtATime(s) && Enabled(s, Begin(p, op, uuid))
    ensures OneAtATime(ApplyBegin(s, p, op, uuid))
  {
    var s' := ApplyBegin(s, p, op, uuid);
    BeginCases(s, p, op, uuid);
    hide ApplyBegin, OneAtATime, Ledger, MintStep;
    if MintStep(s, p, op, uuid, s') {
      MintKeepsOrder(s, p, op, uuid, s');
    } else {
      OrderFrame(s, s');
    }
  }

  lemma ExecuteKeepsOrder(s: State, request: Sent, accept: bool)
    requires OneAtATime(s) && StripeMatches(s) && request in s.sent
    ensures OneAtATime(ApplyExecute(s, request, accept))
  {
    var s' := ApplyExecute(s, request, accept);
    if request.key !in s.stripe {
      assert !s.Settled(request.n);
      forall a | 0 <= a < |s.accepted| && s.minted[s.accepted[a]].subscription == s.minted[request.n].subscription
        ensures s.accepted[a] < request.n
      {
        assert s.Settled(s.accepted[a]);
      }
    }
  }

  lemma CloseKeepsOrder(s: State, pc: ProgramCounter, s': State)
    requires OneAtATime(s) && SettleStep(s, pc, s') && pc.n < |s.minted| && s.Settled(pc.n)
    ensures OneAtATime(s')
  {}

  lemma SettleKeepsOrder(s: State, p: Process)
    requires Ledger(s) && OneAtATime(s) && Enabled(s, Settle(p))
    ensures OneAtATime(ApplySettle(s, p))
  {
    SettleCases(s, p);
    hide Ledger, OneAtATime, ApplySettle;
    CloseKeepsOrder(s, s.At(p), ApplySettle(s, p));
  }

  lemma WebhookKeepsOrder(s: State, e: Event)
    requires WellMinted(s) && OneAtATime(s) && Enabled(s, e) && (e.Adopt? || e.Lifecycle?)
    ensures OneAtATime(Apply(s, e))
  {
    WebhookKeepsClaimOpen(s, e);
    HistoryFrame(s, Apply(s, e));
    hide WellMinted, OnlyClaimOpen, MintedAfterSettled, AcceptedInOrder;
  }

  lemma HistoryFrame(s: State, s': State)
    requires MintedAfterSettled(s) && AcceptedInOrder(s)
    requires s'.minted == s.minted && s'.stripe == s.stripe && s'.accepted == s.accepted
    ensures MintedAfterSettled(s') && AcceptedInOrder(s')
  {}

  lemma WebhookKeepsClaimOpen(s: State, e: Event)
    requires WellMinted(s) && OnlyClaimOpen(s) && Enabled(s, e) && (e.Adopt? || e.Lifecycle?)
    ensures OnlyClaimOpen(Apply(s, e))
  {
    var s' := Apply(s, e);
    if !s.Current(e.subscription) {
      assert forall i :: 0 <= i < |s.minted| ==> !s'.Current(s.minted[i].subscription);
    } else {
      assert forall i :: 0 <= i < |s.minted| ==>
        s'.Current(s.minted[i].subscription) == s.Current(s.minted[i].subscription);
    }
  }

  lemma StepKeepsOrder(s: State, e: Event)
    requires Ledger(s) && OneAtATime(s) && Enabled(s, e)
    ensures OneAtATime(Apply(s, e))
  {
    hide OneAtATime, WellMinted, RowMatches, StripeMatches, ProcessMatches;
    hide ApplyBegin, ApplySettle, ApplyExecute, ApplyLifecycle;
    match e
    case Begin(p, op, uuid) => BeginKeepsOrder(s, p, op, uuid);
    case Execute(request, accept) => ExecuteKeepsOrder(s, request, accept);
    case Settle(p) => SettleKeepsOrder(s, p);
    case Send(_) => OrderFrame(s, Apply(s, e));
    case Answer(_) => OrderFrame(s, Apply(s, e));
    case GiveUp(_) => OrderFrame(s, Apply(s, e));
    case _ => WebhookKeepsOrder(s, e);
  }

  /** In every interleaving, operations on one subscription are minted, executed and accepted one at a time. */
  lemma {:induction false} RunKeepsOrder(s: State, es: seq<Event>)
    requires Initial(s) && IsRun(s, es)
    ensures Ledger(After(s, es)) && OneAtATime(After(s, es))
    decreases |es|
  {
    hide Ledger;
    RunKeepsLedger(s, es);
    if es != [] {
      var before := es[..|es| - 1];
      RunKeepsOrder(s, before);
      StepKeepsOrder(After(s, before), es[|es| - 1]);
    }
  }

  /** No new operation is minted on a subscription while an earlier one there has no outcome at Stripe. */
  lemma MintWaitsForOutcomes(s: State, es: seq<Event>, p: Process, op: Operation, uuid: string, i: nat)
    requires Initial(s) && IsRun(s, es)
    requires Enabled(After(s, es), Begin(p, op, uuid)) && Mints(After(s, es), op, uuid)
    requires i < |After(s, es).minted| && After(s, es).Current(After(s, es).minted[i].subscription)
    ensures After(s, es).Settled(i)
  {
    RunKeepsOrder(s, es);
    var t := After(s, es);
    BeginCases(t, p, op, uuid);
    ClaimWritesOnlyWhenMinting(t.row, op, uuid);
    hide StripeMatches, ProcessMatches, StripeMutation;
  }
}
