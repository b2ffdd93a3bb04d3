/** Runs that show where the row and Stripe part. */
module BillingWitnesses {
  import opened Options
  import opened BillingRow
  import opened BillingProtocol
  import opened BillingReplies
  import opened BillingAgreement
  import opened BillingStripe

  lemma FirstClaim(row: Row, op: Operation, status: string, uuid: string)
    requires row.WithoutClaim() == row && row.subscription == Some("sub") && row.status == Some(status)
    requires StatusRefusal(op, status).None?
    ensures var id, key := IdFor(uuid), KeyFor(op, IdFor(uuid));
            Claim(Some(row), op, uuid) ==
            (Some(row.(opId := Some(id), opType := Some(op.Name()), opKey := Some(key), opSubscription := Some("sub"))),
             Proceed(Grant(id, key, "sub", status)))
  {
    hide IdFor, KeyFor;
  }

  // ---------------------------------------------------------------------------
  // One operation, from its claim to its settlement
  // ---------------------------------------------------------------------------

  ghost function PathEvent(op: Operation, status: string, k: nat): Event
    requires k < 5
  {
    if k == 0 then Begin(0, op, "u")
    else if k == 1 then Send(0)
    else if k == 2 then Execute(Sent(KeyFor(op, IdFor("u")), StripeMutation(op, status, "sub"), 0), true)
    else if k == 3 then Answer(0)
    else Settle(0)
  }

  /** The states on the way: claimed, sent, accepted, confirmed, settled. */
  ghost function PathState(op: Operation, status: string, flag: bool, k: nat): State
    requires k <= 5
  {
    var id, key := IdFor("u"), KeyFor(op, IdFor("u"));
    var grant, request := Grant(id, key, "sub", status), StripeMutation(op, status, "sub");
    var bare := Row(Some("sub"), Some(status), if k == 5 then op.Flag() else flag, None, None, None, None);
    State(
      Some(if k == 0 || k == 5 then bare
           else bare.(opId := Some(id), opType := Some(op.Name()), opKey := Some(key), opSubscription := Some("sub"))),
      if k == 0 then map[]
      else map[0 := if k == 1 then Granted(op, grant, 0) else if k <= 3 then Waiting(op, grant, 0)
                    else if k == 4 then Confirmed(op, grant, 0) else Idle],
      if k <= 1 then {} else {Sent(key, request, 0)},
      if k <= 2 then map[] else map[key := Record(request, true, 0)],
      if k == 0 then [] else [Minted(id, op, key, "sub", request)],
      if k == 0 || k == 5 then None else Some(0),
      if k <= 2 then [] else [0],
      {"sub"}, {}, if k == 5 then FinalizedBy(0) else Untouched)
  }

  lemma PathClaim(op: Operation, status: string, flag: bool)
    requires StatusRefusal(op, status).None?
    ensures var s := PathState(op, status, flag, 0);
            Enabled(s, PathEvent(op, status, 0)) && Apply(s, PathEvent(op, status, 0)) == PathState(op, status, flag, 1)
  {
    hide StripeMutation, Claim;
    FirstClaim(PathState(op, status, flag, 0).row.value, op, status, "u");
    hide IdFor, KeyFor, StatusRefusal;
  }

  lemma PathCall(op: Operation, status: string, flag: bool, k: nat)
    requires 1 <= k < 5
    ensures var s := PathState(op, status, flag, k);
            && Enabled(s, PathEvent(op, status, k))
            && Apply(s, PathEvent(op, status, k)) == PathState(op, status, flag, k + 1)
  {
    hide IdFor, KeyFor, StripeMutation, Claim, Release;
  }

  ghost function Path(op: Operation, status: string, k: nat): (es: seq<Event>)
    requires k <= 5
    ensures |es| == k && forall i :: 0 <= i < k ==> es[i] == PathEvent(op, status, i)
  {
    seq(k, i requires 0 <= i < k => PathEvent(op, status, i))
  }

  lemma {:induction false} PathRuns(op: Operation, status: string, flag: bool, k: nat)
    requires StatusRefusal(op, status).None? && k <= 5
    ensures var s := PathState(op, status, flag, 0);
            && Initial(s) && IsRun(s, Path(op, status, k))
            && After(s, Path(op, status, k)) == PathState(op, status, flag, k)
    decreases k
  {
    PathBegins(op, status, flag);
    hide PathState, PathEvent, Enabled, Apply, Initial, StatusRefusal;
    if k > 0 {
      PathRuns(op, status, flag, k - 1);
      assert Path(op, status, k)[..k - 1] == Path(op, status, k - 1);
      if k == 1 { PathClaim(op, status, flag); } else { PathCall(op, status, flag, k - 1); }
    }
  }

  lemma PathBegins(op: Operation, status: string, flag: bool)
    ensures Initial(PathState(op, status, flag, 0))
  {
    hide IdFor, KeyFor, StripeMutation;
  }

  /** A run extended by one event. */
  lemma Extended(s: State, es: seq<Event>, e: Event)
    requires IsRun(s, es) && Enabled(After(s, es), e)
    ensures IsRun(s, es + [e]) && After(s, es + [e]) == Apply(After(s, es), e)
  {
    hide Apply, Enabled;
    assert (es + [e])[..|es + [e]| - 1] == es;
  }

  /** Nothing a run without webhooks could have seen. */
  lemma {:induction false} HonestWithout(s: State, es: seq<Event>, seen: seq<nat>, start: string -> bool)
    requires IsRun(s, es) && |seen| == |es| && forall i :: 0 <= i < |es| ==> !es[i].Lifecycle?
    ensures Honest(s, es, seen, start)
    decreases |es|
  {
    hide Apply, Enabled;
    if es != [] { HonestWithout(s, es[..|es| - 1], seen[..|es| - 1], start); }
  }

  // ---------------------------------------------------------------------------
  // Where the row and Stripe part
  // ---------------------------------------------------------------------------

  /** A paused subscription set to be cancelled is resumed: the row says it will go on, Stripe that it will not. */
  lemma PausedResumeParts() returns (s: State, es: seq<Event>, seen: seq<nat>, start: string -> bool)
    ensures Initial(s) && IsRun(s, es) && Honest(s, es, seen, start)
    ensures var t := After(s, es);
            && Latest(t, 0) && t.row.value.Unclaimed() && t.writer == FinalizedBy(0)
            && !t.row.value.cancelAtPeriodEnd && FlagNow(t, start, "sub")
  {
    s, es, seen, start := PathState(Resume, "paused", true, 0), Path(Resume, "paused", 5), seq(5, _ => 0), (_ => true);
    PathRuns(Resume, "paused", true, 5);
    HonestWithout(s, es, seen, start);
    PathEnds(Resume, "paused", true, start);
    hide PathState, After, IsRun, Honest, StripeFlag;
  }

  lemma PathEnds(op: Operation, status: string, flag: bool, start: string -> bool)
    ensures var t := PathState(op, status, flag, 5);
            && Latest(t, 0) && t.row.value.Unclaimed() && t.writer == FinalizedBy(0)
            && t.row.value.cancelAtPeriodEnd == op.Flag()
            && FlagNow(t, start, "sub") ==
               if op.Resume? && status == "paused" then start("sub") else op.Flag()
  {
    hide IdFor, KeyFor, StripeMutation, FlagSet;
    RequestMeans(op, status, "sub", "sub");
    assert StripeFlag(PathState(op, status, flag, 5), start, "sub", 0) == start("sub");
  }

  /** A webhook that read the subscription before a cancel was accepted writes the row after it was finalized. */
  lemma StaleSnapshotParts() returns (s: State, es: seq<Event>, seen: seq<nat>, start: string -> bool)
    ensures Initial(s) && IsRun(s, es) && Honest(s, es, seen, start)
    ensures var t := After(s, es);
            && Latest(t, 0) && t.row.value.Unclaimed() && t.writer == Snapshot(false)
            && !t.row.value.cancelAtPeriodEnd && FlagNow(t, start, "sub")
  {
    hide PathState, PathEvent, After, IsRun, StripeFlag, Apply, Enabled, Latest, FlagNow, Initial;
    var path, e := Path(Cancel, "active", 5), Lifecycle("sub", "active", Some(false), false);
    s, es, start := PathState(Cancel, "active", false, 0), path + [e], (_ => false);
    var t := PathState(Cancel, "active", false, 5);
    PathRuns(Cancel, "active", false, 5);
    CancelEnds(t, start);
    SnapshotLands(t, e, start);
    Extended(s, path, e);
    PathIsQuiet(Cancel, "active", 5);
    var none: seq<nat> := [0, 0, 0, 0, 0];
    HonestWithout(s, path, none, start);
    HonestExtended(s, path, none, e, 0, start);
    seen := none + [0];
  }

  lemma CancelEnds(t: State, start: string -> bool)
    requires t == PathState(Cancel, "active", false, 5)
    ensures t.Current("sub") && t.ended == {} && t.accepted == [0]
    ensures |t.minted| == 1 && t.minted[0].subscription == "sub"
    ensures Latest(t, 0) && t.row.value.Unclaimed() && FlagNow(t, start, "sub")
  {
    PathEnds(Cancel, "active", false, start);
    hide IdFor, KeyFor, StripeMutation, StripeFlag;
  }

  lemma PathIsQuiet(op: Operation, status: string, k: nat)
    requires k <= 5
    ensures forall i :: 0 <= i < k ==> !Path(op, status, k)[i].Lifecycle?
  {
    hide IdFor, KeyFor, StripeMutation;
  }

  lemma HonestExtended(s: State, es: seq<Event>, seen: seq<nat>, e: Event, k: nat, start: string -> bool)
    requires IsRun(s, es) && IsRun(s, es + [e]) && Honest(s, es, seen, start)
    requires e.Lifecycle? && k <= |After(s, es).accepted|
    requires e.flag == Some(StripeFlag(After(s, es), start, e.subscription, k))
    ensures Honest(s, es + [e], seen + [k], start)
  {
    hide After, IsRun, StripeFlag;
    assert (es + [e])[..|es|] == es && (seen + [k])[..|es|] == seen;
  }

  lemma SnapshotLands(t: State, e: Event, start: string -> bool)
    requires e == Lifecycle("sub", "active", Some(false), false) && t.Current("sub") && t.ended == {}
    requires Latest(t, 0) && t.row.value.Unclaimed() && t.accepted == [0]
    requires |t.minted| == 1 && t.minted[0].subscription == "sub"
    ensures Enabled(t, e)
    ensures var t' := Apply(t, e);
            && Latest(t', 0) && t'.row.value.Unclaimed() && t'.writer == Snapshot(false)
            && !t'.row.value.cancelAtPeriodEnd && FlagNow(t', start, "sub") == FlagNow(t, start, "sub")
            && StripeFlag(t, start, "sub", 0) == start("sub")
  {
    OneAcceptance(t, start);
    OneAcceptance(Apply(t, e), start);
    hide FlagSet;
  }

  lemma OneAcceptance(t: State, start: string -> bool)
    requires |t.accepted| == 1
    ensures FlagNow(t, start, "sub") ==
            if Sets(t, "sub", 0) then FlagSet(RequestAt(t, 0).value, "sub").value else start("sub")
  {
    hide FlagSet;
    assert StripeFlag(t, start, "sub", 0) == start("sub");
  }

  /** A cancel is accepted, and before it is settled the ended subscription is reconciled without its flag:
      the claim is gone and the row never says that the subscription was cancelled. */
  lemma AcceptedCancelCanBeDropped() returns (s: State, es: seq<Event>)
    ensures Initial(s) && IsRun(s, es)
    ensures var t := After(s, es);
            && Latest(t, 0) && t.row.value.Unclaimed() && t.writer == Untouched
            && t.minted[t.accepted[0]].op == Cancel && !t.row.value.cancelAtPeriodEnd
            && t.accepted[0] in Dropped(s, es)
  {
    var path, e := Path(Cancel, "active", 3), Lifecycle("sub", "cancelled", None, true);
    s, es := PathState(Cancel, "active", false, 0), path + [e];
    PathRuns(Cancel, "active", false, 3);
    DropLands(PathState(Cancel, "active", false, 3), e);
    Extended(s, path, e);
    assert es[..3] == path;
    hide PathState, After, IsRun, Apply;
  }

  lemma DropLands(t: State, e: Event)
    requires t == PathState(Cancel, "active", false, 3) && e == Lifecycle("sub", "cancelled", None, true)
    ensures Enabled(t, e) && DroppedBy(t, e) == {0}
    ensures var t' := Apply(t, e);
            && Latest(t', 0) && t'.row.value.Unclaimed() && t'.writer == Untouched && t'.accepted == [0]
            && t'.minted[0].op == Cancel && !t'.row.value.cancelAtPeriodEnd
  {
    hide IdFor, KeyFor, StripeMutation;
  }

  // ---------------------------------------------------------------------------
  // A run that loses one
  // ---------------------------------------------------------------------------

  /** The schedule of the lemma below, and the states it passes through. */
  ghost function LostEvent(k: nat): Event
    requires k < 9
  {
    if k == 0 then Begin(0, Resume, "u")
    else if k == 1 then Lifecycle("sub", "paused", Some(true), false)
    else if k == 2 then Send(0)
    else if k == 3 then Execute(Sent(KeyFor(Resume, IdFor("u")), StripeMutation(Resume, "active", "sub"), 0), true)
    else if k == 4 then GiveUp(0)
    else if k == 5 then Begin(1, Resume, "v")
    else if k == 6 then Send(1)
    else if k == 7 then Answer(1)
    else Settle(1)
  }

  ghost function LostState(k: nat): State
    requires k <= 9
  {
    var id, key := IdFor("u"), KeyFor(Resume, IdFor("u"));
    var before, after := Grant(id, key, "sub", "active"), Grant(id, key, "sub", "paused");
    var first, second := StripeMutation(Resume, "active", "sub"), StripeMutation(Resume, "paused", "sub");
    var bare := Row(Some("sub"), Some(if k <= 1 then "active" else "paused"), true, None, None, None, None);
    State(
      Some(if k == 0 || k == 9 then bare
           else bare.(opId := Some(id), opType := Some("resume"), opKey := Some(key), opSubscription := Some("sub"))),
      (if k == 0 then map[]
       else map[0 := if k <= 2 then Granted(Resume, before, 0)
                     else if k <= 4 then Waiting(Resume, before, 0) else Idle])
      + (if k <= 5 then map[]
         else map[1 := if k == 6 then Granted(Resume, after, 0) else if k == 7 then Waiting(Resume, after, 0)
                       else if k == 8 then Denied(Resume, after, 0) else Idle]),
      if k <= 2 then {} else if k <= 6 then {Sent(key, first, 0)} else {Sent(key, first, 0), Sent(key, second, 0)},
      if k <= 3 then map[] else map[key := Record(first, true, 0)],
      if k == 0 then [] else [Minted(id, Resume, key, "sub", first)],
      if k == 0 || k == 9 then None else Some(0),
      if k <= 3 then [] else [0],
      {"sub"}, {}, if k <= 1 then Untouched else Snapshot(true))
  }

  lemma LostClaim()
    ensures Enabled(LostState(0), LostEvent(0)) && Apply(LostState(0), LostEvent(0)) == LostState(1)
  {
    hide StripeMutation, Claim;
    FirstClaim(LostState(0).row.value, Resume, "active", "u");
    hide IdFor, KeyFor;
  }

  lemma LostRetry()
    ensures Enabled(LostState(5), LostEvent(5)) && Apply(LostState(5), LostEvent(5)) == LostState(6)
  {
    hide StripeMutation, Claim;
    assert IdFor("u")[0] == 'b' && KeyFor(Resume, IdFor("u"))[0] == 'b';
    assert IdFor("u")[7] == 'u' && IdFor("v")[7] == 'v';
    var row := LostState(5).row.value;
    PendingClaimAdmits(row, Resume, "v");
    ClaimWritesOnlyWhenMinting(Some(row), Resume, "v");
    hide IdFor, KeyFor;
  }

  lemma LostCall(k: nat)
    requires 1 <= k <= 4
    ensures Enabled(LostState(k), LostEvent(k)) && Apply(LostState(k), LostEvent(k)) == LostState(k + 1)
  {
    hide IdFor, KeyFor, StripeMutation, Claim, Finalize, Release;
  }

  lemma LostSecondCall()
    ensures Enabled(LostState(6), LostEvent(6)) && Apply(LostState(6), LostEvent(6)) == LostState(7)
  {
    hide IdFor, KeyFor, StripeMutation, Claim, Finalize, Release;
  }

  lemma LostAnswer()
    ensures Enabled(LostState(7), LostEvent(7)) && Apply(LostState(7), LostEvent(7)) == LostState(8)
  {
    hide IdFor, KeyFor, StripeMutation, Claim, Finalize, Release;
    SameRequestIff(Resume, "active", "paused", "sub");
  }

  lemma LostSettlement()
    ensures Enabled(LostState(8), LostEvent(8)) && Apply(LostState(8), LostEvent(8)) == LostState(9)
  {
    hide IdFor, KeyFor, StripeMutation, Claim, Finalize;
  }

  lemma LostStep(k: nat)
    requires k < 9
    ensures Enabled(LostState(k), LostEvent(k)) && Apply(LostState(k), LostEvent(k)) == LostState(k + 1)
  {
    hide *;
    if k == 0 { LostClaim(); } else if k <= 4 { LostCall(k); } else if k == 5 { LostRetry(); }
    else if k == 6 { LostSecondCall(); } else if k == 7 { LostAnswer(); } else { LostSettlement(); }
  }

  lemma {:induction false} LostRun(k: nat)
    requires k <= 9
    ensures var es := seq(k, i requires 0 <= i < k => LostEvent(i));
            IsRun(LostState(0), es) && After(LostState(0), es) == LostState(k)
  {
    hide LostState, LostEvent, Enabled, Apply;
    if k > 0 {
      var es := seq(k, i requires 0 <= i < k => LostEvent(i));
      LostRun(k - 1);
      assert es[..k - 1] == seq(k - 1, i requires 0 <= i < k - 1 => LostEvent(i));
      LostStep(k - 1);
    }
  }

  /**
   Operations really are lost, beneath a snapshot.  The subscription is paused after a resume was
   claimed, and the webhook writes the flag as it then is; Stripe accepts the resume, its answer
   is lost, and the retry, with the request for a paused subscription, is taken for a rejection:
   the claim is gone and the flag says that the subscription will be cancelled.
   */
  lemma AcceptedResumeCanBeLost() returns (s: State, es: seq<Event>)
    ensures Initial(s) && IsRun(s, es)
    ensures var t := After(s, es);
            && Latest(t, 0) && t.row.value.Unclaimed() && t.writer == Snapshot(true)
            && t.minted[t.accepted[0]].op == Resume && t.row.value.cancelAtPeriodEnd
            && t.accepted[0] in Lost(s, es)
  {
    hide IdFor, KeyFor, StripeMutation, Enabled, Apply;
    s := LostState(0);
    es := seq(9, i requires 0 <= i < 9 => LostEvent(i));
    LostRun(9);
    var before := es[..8];
    LostRun(8);
    assert before == seq(8, i requires 0 <= i < 8 => LostEvent(i));
    LostAtTheEnd();
  }

  lemma LostAtTheEnd()
    ensures Loses(LostState(8), LostEvent(8)) && LostState(8).At(1).n == 0
    ensures Initial(LostState(0)) && Latest(LostState(9), 0)
  {
    hide IdFor, KeyFor, StripeMutation;
  }
}
