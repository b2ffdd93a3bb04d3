/**
 The flag at Stripe: what the accepted requests make of it, what a webhook has seen of it, and exactly
 when the row at rest has it too.
 */
module BillingStripe {
  import opened Options
  import opened BillingRow
  import opened BillingProtocol
  import opened BillingReplies
  import opened BillingAgreement

  /** The request recorded for the k-th acceptance. */
  ghost function RequestAt(s: State, k: nat): Option<Request>
    requires k < |s.accepted|
  {
    var n := s.accepted[k];
    if n < |s.minted| && s.minted[n].key in s.stripe then Some(s.stripe[s.minted[n].key].request) else None
  }

  /** Does the request of the k-th acceptance set the flag of the subscription? */
  ghost predicate Sets(s: State, subscription: string, k: nat)
    requires k < |s.accepted|
  {
    RequestAt(s, k).Some? && FlagSet(RequestAt(s, k).value, subscription).Some?
  }

  /** The flag of a subscription after the first k acceptances, as the text of their requests sets it. */
  ghost function StripeFlag(s: State, start: string -> bool, subscription: string, k: nat): bool
    requires k <= |s.accepted|
  {
    if k == 0 then start(subscription)
    else if Sets(s, subscription, k - 1) then FlagSet(RequestAt(s, k - 1).value, subscription).value
    else StripeFlag(s, start, subscription, k - 1)
  }

  /** The flag now. */
  ghost function FlagNow(s: State, start: string -> bool, subscription: string): bool {
    StripeFlag(s, start, subscription, |s.accepted|)
  }

  lemma {:induction false} OthersLeaveFlag(s: State, start: string -> bool, subscription: string, i: nat, k: nat)
    requires i <= k <= |s.accepted| && forall b :: i <= b < k ==> !Sets(s, subscription, b)
    ensures StripeFlag(s, start, subscription, k) == StripeFlag(s, start, subscription, i)
    decreases k
  {
    hide Sets;
    if i < k { OthersLeaveFlag(s, start, subscription, i, k - 1); }
  }

  /**
   What is recorded for an acceptance carries the flag of its operation, or is a resume and carries none; it
   says nothing about any other subscription.
   */
  lemma RecordCarries(s: State, k: nat, subscription: string)
    requires Ledger(s) && RequestsShaped(s) && k < |s.accepted|
    ensures s.accepted[k] < |s.minted| && RequestAt(s, k).Some?
    ensures var m, flag := s.minted[s.accepted[k]], FlagSet(RequestAt(s, k).value, subscription);
            if subscription != m.subscription then flag == None
            else flag == Some(m.op.Flag()) || (flag == None && m.op.Resume?)
  {
    var m := s.minted[s.accepted[k]];
    DistinctKeys(s, s.stripe[m.key].n, s.accepted[k]);
    assert Shaped(m, s.stripe[m.key].request);
    hide Ledger, RequestsShaped, StripeMutation, FlagSet;
    RequestMeans(m.op, "paused", m.subscription, subscription);
    RequestMeans(m.op, "active", m.subscription, subscription);
  }

  lemma FlagAtLatest(s: State, start: string -> bool, a: nat)
    requires Ledger(s) && RequestsShaped(s) && Latest(s, a)
    ensures var m := s.minted[s.accepted[a]];
            && (!Sets(s, m.subscription, a) ==> m.op.Resume?)
            && FlagNow(s, start, m.subscription) ==
               if Sets(s, m.subscription, a) then m.op.Flag() else StripeFlag(s, start, m.subscription, a)
  {
    hide Ledger, RequestsShaped, FlagSet, RequestAt;
    var m := s.minted[s.accepted[a]];
    RecordCarries(s, a, m.subscription);
    forall b | a + 1 <= b < |s.accepted| ensures !Sets(s, m.subscription, b) {
      RecordCarries(s, b, m.subscription);
    }
    OthersLeaveFlag(s, start, m.subscription, a + 1, |s.accepted|);
  }

  // ---------------------------------------------------------------------------
  // What webhooks have seen
  // ---------------------------------------------------------------------------

  /** A snapshot of a subscription, taken when Stripe had made its first k acceptances. */
  datatype View = View(subscription: string, k: nat)

  /**
   A webhook reads the subscription first and writes the row later, and meanwhile Stripe may have accepted
   more: `seen` tells, for each event of the run that writes a snapshot, how many acceptances it had seen.
   */
  ghost predicate Honest(s: State, es: seq<Event>, seen: seq<nat>, start: string -> bool)
    requires IsRun(s, es)
    decreases |es|
  {
    && |seen| == |es|
    && (es != [] ==>
          var before, last, k := es[..|es| - 1], es[|es| - 1], seen[|es| - 1];
          && Honest(s, before, seen[..|es| - 1], start)
          && (last.Lifecycle? && last.flag.Some? ==>
                && k <= |After(s, before).accepted|
                && last.flag.value == StripeFlag(After(s, before), start, last.subscription, k)))
  }

  /** The last snapshot that was written. */
  ghost function LastView(es: seq<Event>, seen: seq<nat>): Option<View>
    requires |seen| == |es|
    decreases |es|
  {
    if es == [] then None
    else
      var last := es[|es| - 1];
      if last.Lifecycle? && last.flag.Some? then Some(View(last.subscription, seen[|es| - 1]))
      else LastView(es[..|es| - 1], seen[..|es| - 1])
  }

  /** Nothing that Stripe has recorded is withdrawn. */
  ghost predicate Extends(s: State, s': State) {
    && s.minted <= s'.minted && s.accepted <= s'.accepted
    && forall k :: k in s.stripe ==> k in s'.stripe && s'.stripe[k] == s.stripe[k]
  }

  lemma SetsIsStable(s: State, s': State, subscription: string, k: nat)
    requires StripeMatches(s) && Extends(s, s') && k < |s.accepted|
    ensures Sets(s', subscription, k) == Sets(s, subscription, k) && RequestAt(s', k) == RequestAt(s, k)
  {
    hide FlagSet;
    var n := s.accepted[k];
    assert n < |s.minted| && s.minted[n].key in s.stripe;
  }

  lemma FlagStep(s: State, start: string -> bool, subscription: string, k: nat)
    requires k < |s.accepted|
    ensures StripeFlag(s, start, subscription, k + 1) ==
            if Sets(s, subscription, k) then FlagSet(RequestAt(s, k).value, subscription).value
            else StripeFlag(s, start, subscription, k)
  {
    hide FlagSet, RequestAt;
  }

  lemma {:induction false} FlagIsStable(s: State, s': State, start: string -> bool, subscription: string, k: nat)
    requires StripeMatches(s) && Extends(s, s') && k <= |s.accepted|
    ensures k <= |s'.accepted| && StripeFlag(s', start, subscription, k) == StripeFlag(s, start, subscription, k)
    decreases k
  {
    assert |s.accepted| <= |s'.accepted| by { assert Extends(s, s'); }
    hide StripeMatches, Extends, Sets, RequestAt, FlagSet;
    if k > 0 {
      hide StripeFlag;
      FlagIsStable(s, s', start, subscription, k - 1);
      SetsIsStable(s, s', subscription, k - 1);
      FlagStep(s, start, subscription, k - 1);
      FlagStep(s', start, subscription, k - 1);
    }
  }

  lemma LedgerRecords(s: State)
    requires Ledger(s)
    ensures StripeMatches(s)
  {}

  lemma WriterAfter(s: State, e: Event)
    requires Enabled(s, e) && Apply(s, e).writer.Snapshot?
    ensures if e.Lifecycle? && e.flag.Some? then Apply(s, e).writer == Snapshot(e.flag.value)
            else Apply(s, e).writer == s.writer
  {
    hide Claim, Finalize, Release, RequestOf, StripeMutation, IdFor, KeyFor;
  }

  /** In every run, a snapshot that was the last to write the flag wrote what its webhook had seen. */
  lemma {:induction false} RunKeepsView(s: State, es: seq<Event>, seen: seq<nat>, start: string -> bool)
    requires Initial(s) && IsRun(s, es) && Honest(s, es, seen, start) && After(s, es).writer.Snapshot?
    ensures var t, view := After(s, es), LastView(es, seen);
            view.Some? && view.value.k <= |t.accepted|
            && t.writer.value == StripeFlag(t, start, view.value.subscription, view.value.k)
    decreases |es|
  {
    hide Apply, Enabled, StripeFlag, Ledger, StripeMatches;
    var before, last := es[..|es| - 1], es[|es| - 1];
    var t := After(s, before);
    RunKeepsLedger(s, before);
    LedgerRecords(t);
    WriterAfter(t, last);
    StepExtendsHistory(t, last);
    if last.Lifecycle? && last.flag.Some? {
      FlagIsStable(t, After(s, es), start, last.subscription, seen[|es| - 1]);
    } else {
      RunKeepsView(s, before, seen[..|es| - 1], start);
      var view := LastView(before, seen[..|es| - 1]).value;
      FlagIsStable(t, After(s, es), start, view.subscription, view.k);
    }
  }

  // ---------------------------------------------------------------------------
  // The row and Stripe
  // ---------------------------------------------------------------------------

  /**
   At rest, in every run, the local flag is the one at Stripe if and only if: where a snapshot was the last
   to write it, Stripe's flag is still what that webhook saw; where the last accepted operation was
   dropped, it is still what was written before; and otherwise that operation is not the resume of a
   paused subscription that was set to be cancelled, whose request leaves the flag as it is.
   */
  lemma RowMatchesStripeIff(s: State, es: seq<Event>, seen: seq<nat>, start: string -> bool, a: nat)
    requires Initial(s) && IsRun(s, es) && Honest(s, es, seen, start)
    requires Latest(After(s, es), a) && After(s, es).row.value.Unclaimed()
    ensures var t, view := After(s, es), LastView(es, seen);
            && (t.writer.Snapshot? ==> view.Some? && view.value.k <= |t.accepted|)
            && WriterTells(s, t)
            && var m := t.minted[t.accepted[a]];
               var now := FlagNow(t, start, m.subscription);
               t.row.value.cancelAtPeriodEnd == now <==>
               if t.writer.Snapshot? then StripeFlag(t, start, view.value.subscription, view.value.k) == now
               else if t.accepted[a] in Dropped(s, es) then LastWritten(s, t) == now
               else !(m.op.Resume? && !Sets(t, m.subscription, a) && StripeFlag(t, start, m.subscription, a))
  {
    var t := After(s, es);
    FlagFollowsLastAcceptance(s, es, a);
    if t.writer.Snapshot? {
      RunKeepsView(s, es, seen, start);
    } else if t.accepted[a] !in Dropped(s, es) {
      QuiescentAgreement(s, es, a);
      RunKeepsLedger(s, es);
      RunKeepsAnswers(s, es);
      FlagAtLatest(t, start, a);
    }
    hide Ledger, AllAnswered, RequestsShaped, StripeFlag, Sets, After, IsRun, Latest, Honest, LastView;
  }

  /** So a snapshot of the bound subscription agrees as long as Stripe has since accepted nothing there that
      sets the flag. */
  lemma FreshSnapshotAgrees(s: State, es: seq<Event>, seen: seq<nat>, start: string -> bool, a: nat)
    requires Initial(s) && IsRun(s, es) && Honest(s, es, seen, start) && After(s, es).writer.Snapshot?
    requires Latest(After(s, es), a) && After(s, es).row.value.Unclaimed() && LastView(es, seen).Some?
    requires var t, view := After(s, es), LastView(es, seen).value;
             && view.subscription == t.minted[t.accepted[a]].subscription
             && forall b :: view.k <= b < |t.accepted| ==> !Sets(t, view.subscription, b)
    ensures var t := After(s, es);
            t.row.value.cancelAtPeriodEnd == FlagNow(t, start, t.minted[t.accepted[a]].subscription)
  {
    var t, view := After(s, es), LastView(es, seen).value;
    RowMatchesStripeIff(s, es, seen, start, a);
    OthersLeaveFlag(t, start, view.subscription, view.k, |t.accepted|);
  }
}
