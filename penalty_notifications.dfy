/** The penalty notification stage: one `penalty_incurred` notification per penalty fetched
    for the processed date, with an up-to-date balance where one is available. */
module PenaltyNotifications {
  import opened Records
  import opened Store

  /** A row of the penalties query (the joined owner identity is only logged). */
  datatype Penalty = Penalty(id: PenaltyId, userId: UserId, amount: int, dateIncurred: string)

  /** The store's answers while handling one penalty: its owner's balance lookup and the
      outcome of the queue insert. */
  datatype PenaltyReply = PenaltyReply(balance: BalanceLookup, insertOk: bool)

  /** How the stage ended: normally, or by rethrowing the error of the penalties query. */
  datatype StageOutcome = Completed | Threw

  const PenaltyAppliedTitle: string := "Penalty Applied"

  /** `balanceData?.total_balance || penalty.amount`: a truthy total (present and non-zero)
      is shown; otherwise the penalty's own amount. */
  function DisplayedBalance(lookup: BalanceLookup, amount: int): (shown: int)
    ensures lookup.BalanceRow? && lookup.total.Some? && lookup.total.value != 0 ==> shown == lookup.total.value
    ensures lookup.NoBalance? || lookup.total.None? || lookup.total.value == 0 ==> shown == amount
  {
    match lookup
    case BalanceRow(Some(total)) => if total != 0 then total else amount
    case _ => amount
  }

  /** The record queued for one penalty. */
  function PenaltyNotice(p: Penalty, balance: int): (n: NotificationRecord)
    ensures n.userId == p.userId && n.kind == PenaltyIncurred && n.status == Pending
    ensures n.title == PenaltyAppliedTitle && n.body == PenaltyAppliedText(p.amount, balance)
    ensures n.data == PenaltyPayload(p.id, p.amount, balance, p.dateIncurred, OpenPaymentScreen)
  {
    NotificationRecord(
      p.userId, PenaltyIncurred, PenaltyAppliedTitle, PenaltyAppliedText(p.amount, balance),
      PenaltyPayload(p.id, p.amount, balance, p.dateIncurred, OpenPaymentScreen), Pending)
  }

  /** One insert attempt per penalty, in fetch order. */
  function PenaltyAttempts(ps: seq<Penalty>, rs: seq<PenaltyReply>): (a: seq<Attempt>)
    requires |rs| == |ps|
  {
    seq(|ps|, i requires 0 <= i < |ps| =>
      Insert(PenaltyNotice(ps[i], DisplayedBalance(rs[i].balance, ps[i].amount)), rs[i].insertOk))
  }

  /** The attempts of the whole stage: none when the query fails. */
  function StageAttempts(fetch: Fetch<Penalty>, rs: seq<PenaltyReply>): (a: seq<Attempt>)
    requires fetch.Fetched? ==> |rs| == |fetch.rows|
  {
    if fetch.FetchFailed? then [] else PenaltyAttempts(fetch.rows, rs)
  }

  /** sendPenaltyNotifications: queue a notification per fetched penalty; a failed insert is
      logged and the loop goes on; a failed query is rethrown to the caller. */
  method SendPenaltyNotifications(db: Database, fetch: Fetch<Penalty>, replies: seq<PenaltyReply>)
    returns (outcome: StageOutcome)
    requires fetch.Fetched? ==> |replies| == |fetch.rows|
    modifies db
    ensures outcome == if fetch.FetchFailed? then Threw else Completed
    ensures db.users == old(db.users)
    ensures db.queue == old(db.queue) + Delivered(StageAttempts(fetch, replies))
  {
    if fetch.FetchFailed? {
      return Threw;
    }
    var penalties := fetch.rows;
    if |penalties| == 0 {
      return Completed;
    }
    ghost var attempts := PenaltyAttempts(penalties, replies);
    for i := 0 to |penalties|
      invariant db.users == old(db.users)
      invariant db.queue == old(db.queue) + Delivered(attempts[..i])
    {
      var penalty := penalties[i];
      var currentBalance := DisplayedBalance(replies[i].balance, penalty.amount);
      var notification := PenaltyNotice(penalty, currentBalance);
      assert attempts[i] == Insert(notification, replies[i].insertOk);
      var _ := db.Insert(notification, replies[i].insertOk);
      QueueSnoc(old(db.queue), attempts, i);
    }
    assert attempts[..|penalties|] == attempts;
    outcome := Completed;
  }

  /** A total of 0 is falsy, so the notice shows the penalty amount instead. */
  lemma ZeroBalanceFallsBack(p: Penalty)
    ensures PenaltyNotice(p, DisplayedBalance(BalanceRow(Some(0)), p.amount)).data.balance == p.amount
  {
  }

  /** An empty fetch result, or a failed query, inserts nothing. */
  lemma NothingFetchedNothingQueued(fetch: Fetch<Penalty>, rs: seq<PenaltyReply>)
    requires fetch == FetchFailed || (fetch == Fetched([]) && rs == [])
    ensures Delivered(StageAttempts(fetch, rs)) == []
  {
  }

  /** Every attempt is an insert of the notice of the penalty at the same position. */
  lemma OneAttemptPerPenalty(ps: seq<Penalty>, rs: seq<PenaltyReply>)
    requires |rs| == |ps|
    ensures |PenaltyAttempts(ps, rs)| == |ps|
    ensures forall i :: 0 <= i < |ps| ==>
      (PenaltyAttempts(ps, rs)[i].Insert? &&
       PenaltyAttempts(ps, rs)[i].notice.data.penaltyId == ps[i].id &&
       PenaltyAttempts(ps, rs)[i].notice.userId == ps[i].userId &&
       PenaltyAttempts(ps, rs)[i].ok == rs[i].insertOk)
  {
  }

  /** A penalty whose insert succeeds is queued, in fetch order among the successful ones,
      whatever happened to the other penalties. */
  lemma PenaltyNoticeLands(ps: seq<Penalty>, rs: seq<PenaltyReply>, i: nat)
    requires |rs| == |ps| && i < |ps| && rs[i].insertOk
    ensures var d := Delivered(PenaltyAttempts(ps, rs));
      var k := |Delivered(PenaltyAttempts(ps, rs)[..i])|;
      k < |d| && d[k] == PenaltyNotice(ps[i], DisplayedBalance(rs[i].balance, ps[i].amount))
  {
    DeliveredAt(PenaltyAttempts(ps, rs), i);
  }

  /** Every queued record is the `penalty_incurred` notice of a fetched penalty whose insert
      succeeded. */
  lemma PenaltyQueueShape(ps: seq<Penalty>, rs: seq<PenaltyReply>, k: nat)
    requires |rs| == |ps| && k < |Delivered(PenaltyAttempts(ps, rs))|
    ensures var n := Delivered(PenaltyAttempts(ps, rs))[k];
      n.kind == PenaltyIncurred && n.status == Pending && n.data.action == OpenPaymentScreen &&
      exists i :: 0 <= i < |ps| && rs[i].insertOk &&
        n == PenaltyNotice(ps[i], DisplayedBalance(rs[i].balance, ps[i].amount))
  {
    var a := PenaltyAttempts(ps, rs);
    DeliveredFrom(a, k);
    var i :| 0 <= i < |a| && a[i] == Insert(Delivered(a)[k], true);
    assert rs[i].insertOk;
  }

  /** When every insert succeeds, the queue gains one notice per penalty, in fetch order. */
  lemma AllInsertsSucceed(ps: seq<Penalty>, rs: seq<PenaltyReply>)
    requires |rs| == |ps| && forall i :: 0 <= i < |rs| ==> rs[i].insertOk
    ensures |Delivered(PenaltyAttempts(ps, rs))| == |ps|
    ensures forall i :: 0 <= i < |ps| ==>
      Delivered(PenaltyAttempts(ps, rs))[i] == PenaltyNotice(ps[i], DisplayedBalance(rs[i].balance, ps[i].amount))
  {
    DeliveredAllSucceed(PenaltyAttempts(ps, rs));
  }

  /** A failed insert for penalty `j` drops exactly that penalty's notice; the notices of the
      penalties before and after it are queued as before. */
  lemma PenaltyFailureIsolated(ps: seq<Penalty>, rs: seq<PenaltyReply>, j: nat)
    requires |rs| == |ps| && j < |ps| && rs[j].insertOk
    ensures var before := Delivered(PenaltyAttempts(ps, rs)[..j]);
      var after := Delivered(PenaltyAttempts(ps, rs)[j + 1..]);
      Delivered(PenaltyAttempts(ps, rs)) ==
        before + [PenaltyNotice(ps[j], DisplayedBalance(rs[j].balance, ps[j].amount))] + after &&
      Delivered(PenaltyAttempts(ps, rs[j := rs[j].(insertOk := false)])) == before + after
  {
    var a := PenaltyAttempts(ps, rs);
    DeliveredSplit(a, j);
    DeliveredFailureIsolated(a, j);
    assert PenaltyAttempts(ps, rs[j := rs[j].(insertOk := false)]) == a[j := a[j].(ok := false)];
  }
}
