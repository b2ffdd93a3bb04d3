/**
 The subscription row of a workspace and the three transactions that cancel and
 resume run on it (src/lib/billing-operation.ts): claim, release after a
 definitive rejection, finalize.
 */
module BillingRow {
  import opened Options

  datatype Operation = Cancel | Resume {
    function Name(): string { if Cancel? then "cancel" else "resume" }

    /** The local flag applied once Stripe has confirmed. */
    function Flag(): bool { Cancel? }

    function Params(): string { if Cancel? then "cancel_at_period_end=true" else "cancel_at_period_end=false" }
  }

  datatype Row = Row(
    subscription: Option<string>,
    status: Option<string>,
    cancelAtPeriodEnd: bool,
    opId: Option<string>,
    opType: Option<string>,
    opKey: Option<string>,
    opSubscription: Option<string>)
  {
    function WithoutClaim(): Row {
      this.(opId := None, opType := None, opKey := None, opSubscription := None)
    }

    ghost predicate Unclaimed() {
      opId.None? && opType.None? && opKey.None? && opSubscription.None?
    }
  }

  /** What a process carries from its claim into the Stripe call and the finalization. */
  datatype Grant = Grant(id: string, key: string, subscription: string, status: string)

  datatype Refusal = NothingToCancel | PausedCannotCancel | EndedCannotResume

  datatype ClaimResult = Proceed(grant: Grant) | InProgress | Refused(reason: Refusal) | Missing

  datatype Finalization = AlreadyFinalized | StaleIdentity | Updated

  predicate Ended(status: string) { status == "cancelled" || status == "incomplete_expired" }

  function IdFor(uuid: string): string { "billop_" + uuid }

  function KeyFor(op: Operation, id: string): string { "billing-" + op.Name() + "-" + id }

  /** One idempotency key belongs to one operation type and one operation id. */
  lemma KeyForInjective(op: Operation, id: string, op': Operation, id': string)
    requires KeyFor(op, id) == KeyFor(op', id')
    ensures op == op' && id == id'
  {
    var a, b := KeyFor(op, id), KeyFor(op', id');
    assert a[8] == op.Name()[0] && b[8] == op'.Name()[0];
    assert a[15..] == id && b[15..] == id';
  }

  // ---------------------------------------------------------------------------
  // The transactions as functions of the row
  // ---------------------------------------------------------------------------

  function StatusRefusal(op: Operation, status: string): Option<Refusal> {
    if op.Cancel? && Ended(status) then Some(NothingToCancel)
    else if op.Cancel? && status == "paused" then Some(PausedCannotCancel)
    else if op.Resume? && Ended(status) then Some(EndedCannotResume)
    else None
  }

  /** A pending operation that targets another subscription than the bound one. */
  predicate StaleClaim(r: Row) {
    Truthy(r.opId) && Truthy(r.opSubscription) && r.opSubscription != r.subscription
  }

  function Claim(row: Option<Row>, op: Operation, uuid: string): (Option<Row>, ClaimResult) {
    if row.None? || !Truthy(row.value.subscription) then (row, Missing)
    else
      var status := row.value.status.GetOr("unknown");
      var refusal := StatusRefusal(op, status);
      if refusal.Some? then (row, Refused(refusal.value))
      else
        var r := if StaleClaim(row.value) then row.value.WithoutClaim() else row.value;
        if Truthy(r.opId) then
          if r.opType != Some(op.Name()) || !Truthy(r.opKey) || !Truthy(r.opSubscription) then (Some(r), InProgress)
          else (Some(r), Proceed(Grant(r.opId.value, r.opKey.value, r.opSubscription.value, status)))
        else
          var id := IdFor(uuid);
          var key := KeyFor(op, id);
          (Some(r.(opId := Some(id), opType := Some(op.Name()), opKey := Some(key), opSubscription := r.subscription)),
           Proceed(Grant(id, key, r.subscription.value, status)))
  }

  /** Does the grant still own both the claim and the subscription identity of the row? */
  predicate Owns(row: Option<Row>, g: Grant) {
    row.Some? && row.value.opId == Some(g.id) && row.value.subscription == Some(g.subscription)
  }

  function Release(row: Option<Row>, g: Grant): Option<Row> {
    if Owns(row, g) then Some(row.value.WithoutClaim()) else row
  }

  function Finalize(row: Option<Row>, op: Operation, g: Grant): (Option<Row>, Finalization) {
    if row.None? || row.value.opId != Some(g.id) then (row, AlreadyFinalized)
    else if row.value.subscription != Some(g.subscription) then (Some(row.value.WithoutClaim()), StaleIdentity)
    else (Some(row.value.WithoutClaim().(cancelAtPeriodEnd := op.Flag())), Updated)
  }

  datatype Request = Request(path: string, params: string)

  function StripeMutation(op: Operation, status: string, subscription: string): Request {
    var pausedResume := op.Resume? && status == "paused";
    Request("subscriptions/" + subscription + (if pausedResume then "/resume" else ""),
            if pausedResume then "" else op.Params())
  }

  /** What a request does to the flag of a subscription, read from its text alone. */
  function FlagSet(r: Request, subscription: string): Option<bool> {
    if r.path != "subscriptions/" + subscription then None
    else if r.params == "cancel_at_period_end=true" then Some(true)
    else if r.params == "cancel_at_period_end=false" then Some(false)
    else None
  }

  /** The parameters of a cancel and of a resume are the two texts that Stripe tells apart. */
  lemma ParamsDiffer()
    ensures Cancel.Params() == "cancel_at_period_end=true" && Resume.Params() == "cancel_at_period_end=false"
    ensures Cancel.Params() != Resume.Params() && Cancel.Params() != "" && Resume.Params() != ""
  {
    assert Cancel.Params()[21] == 't' && Resume.Params()[21] == 'f';
  }

  /**
   A cancel sets the flag of its own subscription and a resume clears it, except that the resume of a
   paused subscription goes to another path and sets nothing; no other subscription is touched.
   */
  lemma RequestMeans(op: Operation, status: string, subscription: string, other: string)
    ensures var r := StripeMutation(op, status, subscription);
            && FlagSet(r, other) == (if other == subscription && !(op.Resume? && status == "paused")
                                     then Some(op.Cancel?) else None)
            && r.path == "subscriptions/" + subscription + (if op.Resume? && status == "paused" then "/resume" else "")
  {
    var r := StripeMutation(op, status, subscription);
    ParamsDiffer();
    if r.path == "subscriptions/" + other && r.params != "" {
      assert r.path == "subscriptions/" + subscription;
      SamePath(subscription, other);
    }
    hide Operation.Params;
  }

  lemma SamePath(subscription: string, other: string)
    requires "subscriptions/" + subscription == "subscriptions/" + other
    ensures subscription == other
  {
    var path := "subscriptions/" + subscription;
    assert |"subscriptions/"| == 14;
    assert path[14..] == subscription;
    assert ("subscriptions/" + other)[14..] == other;
  }

  /**
   Two requests of one operation for one subscription are the same request exactly
   when they agree on whether a paused subscription is being resumed.
   */
  lemma SameRequestIff(op: Operation, status: string, status': string, subscription: string)
    ensures StripeMutation(op, status, subscription) == StripeMutation(op, status', subscription)
      <==> (op.Resume? ==> (status == "paused" <==> status' == "paused"))
  {
    if op.Resume? {
      assert StripeMutation(op, "paused", subscription).params == "";
    }
  }

  /** The claim transaction writes only when it mints: every other answer leaves the row alone. */
  lemma ClaimWritesOnlyWhenMinting(row: Option<Row>, op: Operation, uuid: string)
    ensures var (row', result) := Claim(row, op, uuid);
            && (!result.Proceed? ==> row' == row)
            && (result.Proceed? ==>
                 && row.Some? && Truthy(row.value.subscription) && StatusRefusal(op, result.grant.status).None?
                 && result.grant.status == row.value.status.GetOr("unknown")
                 && (row' == row ==>
                       result.grant == Grant(row.value.opId.GetOr(""), row.value.opKey.GetOr(""),
                                             row.value.opSubscription.GetOr(""), result.grant.status))
                 && (row' != row ==>
                       && (!Truthy(row.value.opId) || StaleClaim(row.value))
                       && result.grant == Grant(IdFor(uuid), KeyFor(op, IdFor(uuid)),
                                                row.value.subscription.value, result.grant.status)))
  {
    assert IdFor(uuid) != "" && KeyFor(op, IdFor(uuid)) != "";
  }

  /**
   What a claim answers: nothing is bound; the status forbids the operation; another operation is pending, or one
   that is not recorded completely; and otherwise it proceeds.
   */
  lemma ClaimAnswers(row: Option<Row>, op: Operation, uuid: string)
    ensures var result := Claim(row, op, uuid).1;
            && (result.Missing? <==> !(row.Some? && Truthy(row.value.subscription)))
            && (!result.Missing? ==>
                  var r, status := row.value, row.value.status.GetOr("unknown");
                  && (result == Refused(PausedCannotCancel) <==> op.Cancel? && status == "paused")
                  && (result == Refused(NothingToCancel) <==>
                        op.Cancel? && (status == "cancelled" || status == "incomplete_expired"))
                  && (result == Refused(EndedCannotResume) <==>
                        op.Resume? && (status == "cancelled" || status == "incomplete_expired"))
                  && (result.InProgress? <==>
                        && !result.Refused? && Truthy(r.opId) && (!Truthy(r.opSubscription)
                                                                  || r.opSubscription == r.subscription)
                        && (r.opType != Some(if op.Cancel? then "cancel" else "resume")
                            || !Truthy(r.opKey) || !Truthy(r.opSubscription))))
  {
    StatusRefusalIff(op, if row.Some? then row.value.status.GetOr("unknown") else "");
    hide StatusRefusal, IdFor, KeyFor;
  }

  lemma StatusRefusalIff(op: Operation, status: string)
    ensures var refusal := StatusRefusal(op, status);
            && (refusal == Some(PausedCannotCancel) <==> op.Cancel? && status == "paused")
            && (refusal == Some(NothingToCancel) <==>
                  op.Cancel? && (status == "cancelled" || status == "incomplete_expired"))
            && (refusal == Some(EndedCannotResume) <==>
                  op.Resume? && (status == "cancelled" || status == "incomplete_expired"))
  {
    assert status == "paused" ==> status[0] == 'p';
  }

  /** A pending claim on the bound subscription lets a retry through exactly when type and status allow it. */
  lemma PendingClaimAdmits(row: Row, op: Operation, uuid: string)
    requires Truthy(row.subscription) && Truthy(row.opId) && Truthy(row.opKey) && row.opSubscription == row.subscription
    ensures var (row', result) := Claim(Some(row), op, uuid);
            && row' == Some(row)
            && (result.Proceed? <==>
                  row.opType == Some(op.Name()) && StatusRefusal(op, row.status.GetOr("unknown")).None?)
            && (result.Proceed? ==> result.grant.id == row.opId.value && result.grant.key == row.opKey.value
                                    && result.grant.subscription == row.subscription.value)
  {}

  /** So a pending cancel on a subscription that has since been paused can be neither retried nor undone. */
  lemma PausedPendingCancelBlocksBoth(row: Row, op: Operation, uuid: string)
    requires Truthy(row.subscription) && Truthy(row.opId) && Truthy(row.opKey) && row.opSubscription == row.subscription
    requires row.opType == Some("cancel") && row.status == Some("paused")
    ensures Claim(Some(row), op, uuid).0 == Some(row) && !Claim(Some(row), op, uuid).1.Proceed?
  {}

  // ---------------------------------------------------------------------------
  // The transactions as the store runs them
  // ---------------------------------------------------------------------------

  class SubscriptionStore {
    var row: Option<Row>

    method ClaimOperation(op: Operation, uuid: string) returns (result: ClaimResult)
      modifies this
      ensures (row, result) == Claim(old(row), op, uuid)
      ensures row.Some? == old(row).Some?
      ensures row.Some? ==> row.value.WithoutClaim() == old(row).value.WithoutClaim()
      ensures result.Proceed? ==> row.Some?
      ensures result.Proceed? ==> row.value.opId == Some(result.grant.id) && row.value.opKey == Some(result.grant.key)
    {
      if row.None? || !Truthy(row.value.subscription) { return Missing; }
      var current := row.value;
      var status := current.status.GetOr("unknown");
      if op.Cancel? && Ended(status) { return Refused(NothingToCancel); }
      if op.Cancel? && status == "paused" { return Refused(PausedCannotCancel); }
      if op.Resume? && Ended(status) { return Refused(EndedCannotResume); }
      if Truthy(current.opId) && Truthy(current.opSubscription) && current.opSubscription != current.subscription {
        current := current.WithoutClaim();
        row := Some(current);
      }
      if Truthy(current.opId) {
        if current.opType != Some(op.Name()) || !Truthy(current.opKey) || !Truthy(current.opSubscription) {
          return InProgress;
        }
        return Proceed(Grant(current.opId.value, current.opKey.value, current.opSubscription.value, status));
      }
      var id := IdFor(uuid);
      var key := KeyFor(op, id);
      row := Some(current.(opId := Some(id), opType := Some(op.Name()), opKey := Some(key),
                           opSubscription := current.subscription));
      return Proceed(Grant(id, key, current.subscription.value, status));
    }

    method ReleaseRejected(g: Grant)
      modifies this
      ensures row == Release(old(row), g)
    {
      if row.Some? && row.value.opId == Some(g.id) && row.value.subscription == Some(g.subscription) {
        row := Some(row.value.WithoutClaim());
      }
    }

    method FinalizeConfirmed(op: Operation, g: Grant) returns (outcome: Finalization)
      modifies this
      ensures (row, outcome) == Finalize(old(row), op, g)
      ensures outcome.Updated? <==> Owns(old(row), g)
      ensures outcome.AlreadyFinalized? ==> row == old(row)
      ensures !outcome.Updated? && row.Some? ==> row.value.cancelAtPeriodEnd == old(row).value.cancelAtPeriodEnd
    {
      if row.None? || row.value.opId != Some(g.id) { return AlreadyFinalized; }
      if row.value.subscription != Some(g.subscription) {
        row := Some(row.value.WithoutClaim());
        return StaleIdentity;
      }
      row := Some(row.value.WithoutClaim().(cancelAtPeriodEnd := op.Flag()));
      return Updated;
    }
  }
}
