/** The deactivation escalation stage: scan the active exclusive and legacy users, sort each
    one's balance into a band, warn, or deactivate and notify. */
module Escalation {
  import opened Records
  import opened Store

  const WarningThreshold1: int := 400000
  const WarningThreshold2: int := 450000
  const DeactivationThreshold: int := 500000

  const DeactivatedTitle: string := "Account Deactivated"
  const WarningTitle: string := "Payment Warning"

  /** The four outcomes of classifying a balance. */
  datatype Band = NoAction | Warning | FinalWarning | Deactivation

  /** The if/else-if chain, checked from the top: each threshold itself belongs to the higher
      band. */
  function Classify(balance: int): (b: Band)
    ensures b == Deactivation <==> balance >= DeactivationThreshold
    ensures b == FinalWarning <==> WarningThreshold2 <= balance < DeactivationThreshold
    ensures b == Warning <==> WarningThreshold1 <= balance < WarningThreshold2
    ensures b == NoAction <==> balance < WarningThreshold1
  {
    if balance >= DeactivationThreshold then Deactivation
    else if balance >= WarningThreshold2 then FinalWarning
    else if balance >= WarningThreshold1 then Warning
    else NoAction
  }

  /** Severity order of the bands. */
  function Severity(b: Band): nat
  {
    match b
    case NoAction => 0
    case Warning => 1
    case FinalWarning => 2
    case Deactivation => 3
  }

  /** The store's answers while handling one scanned user: the balance lookup, the outcome of
      the status update (consulted only when one is made) and of the queue insert. */
  datatype UserReply = UserReply(balance: BalanceLookup, updateOk: bool, insertOk: bool)

  /** `warningMessage`, kept as the kind of message and the balance it states. */
  function WarningBody(kind: NotificationType, balance: int): Body
  {
    match kind
    case AccountDeactivated => DeactivatedText(balance)
    case DeactivationWarningFinal => FinalWarningText(balance)
    case _ => WarningText(balance)
  }

  /** The record queued for one escalation notice. */
  function EscalationNotice(id: UserId, balance: int, kind: NotificationType): (n: NotificationRecord)
    requires kind != PenaltyIncurred
    ensures n.userId == id && n.kind == kind && n.status == Pending
    ensures n.title == DeactivatedTitle <==> kind == AccountDeactivated
    ensures n.title == WarningTitle <==> kind != AccountDeactivated
    ensures n.data == EscalationPayload(balance, DeactivationThreshold, OpenPaymentScreen)
  {
    NotificationRecord(
      id, kind,
      if kind == AccountDeactivated then DeactivatedTitle else WarningTitle,
      WarningBody(kind, balance),
      EscalationPayload(balance, DeactivationThreshold, OpenPaymentScreen),
      Pending)
  }

  /** The status write is made and succeeds: a known balance at or above the deactivation
      threshold and an update that returned no error. */
  predicate WriteSucceeds(r: UserReply)
  {
    r.balance.BalanceRow? && r.balance.total.Some? &&
    Classify(r.balance.total.value) == Deactivation && r.updateOk
  }

  /** The insert made for one scanned user, if any. A missing balance row and a missing
      total both lead to no action; a deactivation is announced only after its write. */
  function EscalationAttempt(id: UserId, r: UserReply): (a: Attempt)
    ensures a.Insert? <==>
      r.balance.BalanceRow? && r.balance.total.Some? && Classify(r.balance.total.value) != NoAction &&
      (Classify(r.balance.total.value) == Deactivation ==> r.updateOk)
    ensures a.Insert? ==> a.ok == r.insertOk && a.notice.userId == id
    ensures a.Insert? ==> (a.notice.kind == AccountDeactivated <==> WriteSucceeds(r))
    ensures a.Insert? ==>
      r.balance.BalanceRow? && r.balance.total.Some? &&
      a.notice.data == EscalationPayload(r.balance.total.value, DeactivationThreshold, OpenPaymentScreen)
    ensures a.Insert? && r.balance.BalanceRow? && r.balance.total.Some? ==>
      (Classify(r.balance.total.value) == FinalWarning ==> a.notice.kind == DeactivationWarningFinal) &&
      (Classify(r.balance.total.value) == Warning ==> a.notice.kind == DeactivationWarning)
  {
    match r.balance
    case NoBalance => NoInsert
    case BalanceRow(None) => NoInsert
    case BalanceRow(Some(balance)) =>
      match Classify(balance)
      case Deactivation =>
        if r.updateOk then Insert(EscalationNotice(id, balance, AccountDeactivated), r.insertOk) else NoInsert
      case FinalWarning => Insert(EscalationNotice(id, balance, DeactivationWarningFinal), r.insertOk)
      case Warning => Insert(EscalationNotice(id, balance, DeactivationWarning), r.insertOk)
      case NoAction => NoInsert
  }

  function EscalationAttempts(ids: seq<UserId>, rs: seq<UserReply>): (a: seq<Attempt>)
    requires |rs| == |ids|
  {
    seq(|ids|, i requires 0 <= i < |ids| => EscalationAttempt(ids[i], rs[i]))
  }

  /** The scanned users whose status write succeeded. */
  function DeactivatedIds(ids: seq<UserId>, rs: seq<UserReply>): set<UserId>
    requires |rs| == |ids|
  {
    set i | 0 <= i < |ids| && WriteSucceeds(rs[i]) :: ids[i]
  }

  function StageAttempts(scan: Fetch<UserId>, rs: seq<UserReply>): seq<Attempt>
    requires scan.Fetched? ==> |rs| == |scan.rows|
  {
    if scan.FetchFailed? then [] else EscalationAttempts(scan.rows, rs)
  }

  function StageDeactivated(scan: Fetch<UserId>, rs: seq<UserReply>): set<UserId>
    requires scan.Fetched? ==> |rs| == |scan.rows|
  {
    if scan.FetchFailed? then {} else DeactivatedIds(scan.rows, rs)
  }

  /** The scan lists only users that its filter admits in the given table. */
  predicate ScanSound(users: map<UserId, UserAccount>, ids: seq<UserId>)
  {
    forall i :: 0 <= i < |ids| ==> ids[i] in users && InScope(users[ids[i]])
  }

  /** The table keeps its keys, and every entry that differs was in scope and became
      `auto_deactivated` with its membership kept. */
  predicate OnlyInScopeDeactivated(before: map<UserId, UserAccount>, after: map<UserId, UserAccount>)
  {
    after.Keys == before.Keys &&
    forall u :: u in before && after[u] != before[u] ==>
      InScope(before[u]) && after[u] == UserAccount(AutoDeactivated, before[u].membership)
  }

  /** The body of the loop of checkDeactivationWarnings for one scanned user. */
  method CheckUser(db: Database, id: UserId, reply: UserReply) returns (issued: bool)
    modifies db
    ensures db.users == if WriteSucceeds(reply) then Deactivate(old(db.users), {id}) else old(db.users)
    ensures db.queue == old(db.queue) + Landed(EscalationAttempt(id, reply))
    ensures issued == (Landed(EscalationAttempt(id, reply)) != [])
  {
    issued := false;
    if reply.balance.NoBalance? {
      return;
    }
    var balance := reply.balance.total;
    var warningType: Option<NotificationType> := None;
    if balance.Some? && balance.value >= DeactivationThreshold {
      var updated := db.MarkAutoDeactivated(id, reply.updateOk);
      if updated {
        warningType := Some(AccountDeactivated);
      }
    } else if balance.Some? && balance.value >= WarningThreshold2 {
      warningType := Some(DeactivationWarningFinal);
    } else if balance.Some? && balance.value >= WarningThreshold1 {
      warningType := Some(DeactivationWarning);
    }
    if warningType.Some? {
      issued := db.Insert(EscalationNotice(id, balance.value, warningType.value), reply.insertOk);
    }
  }

  /** checkDeactivationWarnings: the users table gains exactly the successful deactivations,
      the queue exactly the successful notices, and the counter counts those notices. */
  method CheckDeactivationWarnings(db: Database, scan: Fetch<UserId>, replies: seq<UserReply>)
    returns (warningsIssued: nat)
    requires scan.Fetched? ==> |replies| == |scan.rows|
    requires scan.Fetched? ==> ScanSound(db.users, scan.rows)
    modifies db
    ensures db.users == Deactivate(old(db.users), StageDeactivated(scan, replies))
    ensures OnlyInScopeDeactivated(old(db.users), db.users)
    ensures db.queue == old(db.queue) + Delivered(StageAttempts(scan, replies))
    ensures warningsIssued == |Delivered(StageAttempts(scan, replies))|
  {
    if scan.FetchFailed? {
      assert Deactivate(db.users, {}) == db.users;
      StageChangesOnlyInScope(db.users, scan, replies);
      return 0;
    }
    var highBalanceUsers := scan.rows;
    if |highBalanceUsers| == 0 {
      assert Deactivate(db.users, {}) == db.users;
      StageChangesOnlyInScope(db.users, scan, replies);
      return 0;
    }
    warningsIssued := 0;
    ghost var attempts := EscalationAttempts(highBalanceUsers, replies);
    assert Deactivate(db.users, DeactivatedIds([], [])) == db.users;
    for i := 0 to |highBalanceUsers|
      invariant db.users == Deactivate(old(db.users), DeactivatedIds(highBalanceUsers[..i], replies[..i]))
      invariant db.queue == old(db.queue) + Delivered(attempts[..i])
      invariant warningsIssued == |Delivered(attempts[..i])|
    {
      DeliveredSnoc(attempts, i);
      QueueSnoc(old(db.queue), attempts, i);
      DeactivateStep(old(db.users), highBalanceUsers, replies, i);
      assert attempts[i] == EscalationAttempt(highBalanceUsers[i], replies[i]);
      var issued := CheckUser(db, highBalanceUsers[i], replies[i]);
      if issued {
        warningsIssued := warningsIssued + 1;
      }
    }
    assert attempts[..|highBalanceUsers|] == attempts;
    assert highBalanceUsers[..|highBalanceUsers|] == highBalanceUsers;
    assert replies[..|highBalanceUsers|] == replies;
    StageChangesOnlyInScope(old(db.users), scan, replies);
  }

  /** Under a sound scan, the stage's status writes change only in-scope entries, and only to
      `auto_deactivated`. */
  lemma StageChangesOnlyInScope(users: map<UserId, UserAccount>, scan: Fetch<UserId>, rs: seq<UserReply>)
    requires scan.Fetched? ==> |rs| == |scan.rows| && ScanSound(users, scan.rows)
    ensures OnlyInScopeDeactivated(users, Deactivate(users, StageDeactivated(scan, rs)))
  {
    if scan.Fetched? {
      StatusChangeScope(users, scan.rows, rs);
    }
  }

  /** One step of the loop on the users table: the scanned user's own write, when it
      succeeds, extends the deactivations of the users before it. */
  lemma DeactivateStep(users: map<UserId, UserAccount>, ids: seq<UserId>, rs: seq<UserReply>, i: nat)
    requires |rs| == |ids| && i < |ids|
    ensures var before := Deactivate(users, DeactivatedIds(ids[..i], rs[..i]));
      (if WriteSucceeds(rs[i]) then Deactivate(before, {ids[i]}) else before) ==
      Deactivate(users, DeactivatedIds(ids[..i + 1], rs[..i + 1]))
  {
    DeactivatedIdsSnoc(ids, rs, i);
    DeactivateTwice(users, DeactivatedIds(ids[..i], rs[..i]), {ids[i]});
  }

  /** Extending the scan by one user adds that user to the deactivated set exactly when its
      write succeeds. */
  lemma DeactivatedIdsSnoc(ids: seq<UserId>, rs: seq<UserReply>, i: nat)
    requires |rs| == |ids| && i < |ids|
    ensures DeactivatedIds(ids[..i + 1], rs[..i + 1]) ==
      DeactivatedIds(ids[..i], rs[..i]) + (if WriteSucceeds(rs[i]) then {ids[i]} else {})
  {
  }

  /** Each threshold lands in the higher band; one unit below it does not. */
  lemma ClassifyBoundaries()
    ensures Classify(399999) == NoAction
    ensures Classify(400000) == Warning && Classify(449999) == Warning
    ensures Classify(450000) == FinalWarning && Classify(499999) == FinalWarning
    ensures Classify(500000) == Deactivation
  {
  }

  /** A larger balance never gets a milder band. */
  lemma ClassifyMonotone(b1: int, b2: int)
    requires b1 <= b2
    ensures Severity(Classify(b1)) <= Severity(Classify(b2))
  {
  }

  /** Every queued escalation record is the successful insert of some scanned user's attempt. */
  lemma NoticeFrom(ids: seq<UserId>, rs: seq<UserReply>, k: nat)
    requires |rs| == |ids| && k < |Delivered(EscalationAttempts(ids, rs))|
    ensures exists i ::
      0 <= i < |ids| && EscalationAttempt(ids[i], rs[i]) == Insert(Delivered(EscalationAttempts(ids, rs))[k], true)
  {
    var a := EscalationAttempts(ids, rs);
    DeliveredFrom(a, k);
    var i :| 0 <= i < |a| && a[i] == Insert(Delivered(a)[k], true);
    assert EscalationAttempt(ids[i], rs[i]) == a[i];
  }

  /** Shape of the queued escalation records: pending, addressed to a scanned user, titled
      `Account Deactivated` exactly for deactivation notices, carrying the balance, the
      deactivation threshold and the payment-screen action, and of the kind the balance's
      band calls for. */
  lemma EscalationQueueShape(ids: seq<UserId>, rs: seq<UserReply>, k: nat)
    requires |rs| == |ids| && k < |Delivered(EscalationAttempts(ids, rs))|
    ensures var n := Delivered(EscalationAttempts(ids, rs))[k];
      n.status == Pending && n.userId in ids && n.kind != PenaltyIncurred &&
      (n.title == DeactivatedTitle <==> n.kind == AccountDeactivated) &&
      (n.title == WarningTitle <==> n.kind != AccountDeactivated) &&
      n.data.EscalationPayload? && n.data.threshold == DeactivationThreshold &&
      n.data.action == OpenPaymentScreen &&
      (n.kind == AccountDeactivated ==> n.body == DeactivatedText(n.data.balance)) &&
      (n.kind == DeactivationWarningFinal ==> n.body == FinalWarningText(n.data.balance)) &&
      (n.kind == DeactivationWarning ==> n.body == WarningText(n.data.balance)) &&
      (n.kind == AccountDeactivated ==> Classify(n.data.balance) == Deactivation) &&
      (n.kind == DeactivationWarningFinal ==> Classify(n.data.balance) == FinalWarning) &&
      (n.kind == DeactivationWarning ==> Classify(n.data.balance) == Warning) &&
      exists i :: 0 <= i < |ids| && ids[i] == n.userId && rs[i].insertOk &&
        rs[i].balance == BalanceRow(Some(n.data.balance))
  {
    NoticeFrom(ids, rs, k);
  }

  /** A scanned user whose balance calls for a notice, and whose write (for a deactivation)
      and insert succeed, is notified in scan order among the notified users, with the type
      its band calls for and the looked-up balance in the payload. */
  lemma EscalationNoticeLands(ids: seq<UserId>, rs: seq<UserReply>, i: nat, b: int)
    requires |rs| == |ids| && i < |ids| && rs[i].balance == BalanceRow(Some(b)) && rs[i].insertOk
    requires Classify(b) != NoAction && (Classify(b) == Deactivation ==> rs[i].updateOk)
    ensures var d := Delivered(EscalationAttempts(ids, rs));
      var k := |Delivered(EscalationAttempts(ids, rs)[..i])|;
      k < |d| && d[k].userId == ids[i] &&
      d[k].data == EscalationPayload(b, DeactivationThreshold, OpenPaymentScreen) &&
      (Classify(b) == Deactivation ==> d[k].kind == AccountDeactivated) &&
      (Classify(b) == FinalWarning ==> d[k].kind == DeactivationWarningFinal) &&
      (Classify(b) == Warning ==> d[k].kind == DeactivationWarning)
  {
    var a := EscalationAttempts(ids, rs);
    assert a[i] == EscalationAttempt(ids[i], rs[i]);
    DeliveredAt(a, i);
  }

  /** A scanned user gets an `account_deactivated` notice if and only if its status write and
      then the insert of the notice both succeeded. */
  lemma DeactivationNoticeIff(ids: seq<UserId>, rs: seq<UserReply>, u: UserId)
    requires |rs| == |ids|
    ensures (exists k :: 0 <= k < |Delivered(EscalationAttempts(ids, rs))| &&
               Delivered(EscalationAttempts(ids, rs))[k].kind == AccountDeactivated &&
               Delivered(EscalationAttempts(ids, rs))[k].userId == u)
        <==> (exists i :: 0 <= i < |ids| && ids[i] == u && WriteSucceeds(rs[i]) && rs[i].insertOk)
  {
    var a := EscalationAttempts(ids, rs);
    var d := Delivered(a);
    if k :| 0 <= k < |d| && d[k].kind == AccountDeactivated && d[k].userId == u {
      NoticeFrom(ids, rs, k);
      var i :| 0 <= i < |ids| && EscalationAttempt(ids[i], rs[i]) == Insert(d[k], true);
      assert ids[i] == u && WriteSucceeds(rs[i]) && rs[i].insertOk;
    }
    if i :| 0 <= i < |ids| && ids[i] == u && WriteSucceeds(rs[i]) && rs[i].insertOk {
      DeliveredAt(a, i);
      var k := |Delivered(a[..i])|;
      assert d[k].kind == AccountDeactivated && d[k].userId == u;
    }
  }

  /** No orphan deactivation notices: when the scan lists only existing users, every
      `account_deactivated` notice the stage queues is for a user whose entry the stage left
      `auto_deactivated`. */
  lemma NoOrphanDeactivationNotice(users: map<UserId, UserAccount>, ids: seq<UserId>, rs: seq<UserReply>, k: nat)
    requires |rs| == |ids| && forall i :: 0 <= i < |ids| ==> ids[i] in users
    requires k < |Delivered(EscalationAttempts(ids, rs))|
    requires Delivered(EscalationAttempts(ids, rs))[k].kind == AccountDeactivated
    ensures var u := Delivered(EscalationAttempts(ids, rs))[k].userId;
      u in DeactivatedIds(ids, rs) && u in users &&
      Deactivate(users, DeactivatedIds(ids, rs))[u].account == AutoDeactivated
  {
    NoticeFrom(ids, rs, k);
  }

  /** The only status change is active to auto_deactivated, for scanned users whose write
      succeeded and whom the scan's filter admitted; membership never changes and every other
      entry is left alone. */
  lemma StatusChangeScope(users: map<UserId, UserAccount>, ids: seq<UserId>, rs: seq<UserReply>)
    requires |rs| == |ids| && ScanSound(users, ids)
    ensures var after := Deactivate(users, DeactivatedIds(ids, rs));
      after.Keys == users.Keys &&
      forall u :: u in users ==>
        (after[u] == users[u] ||
         (u in ids && InScope(users[u]) && after[u] == UserAccount(AutoDeactivated, users[u].membership)))
  {
  }

  /** A user skipped for a missing balance, or whose status write failed, leaves no trace:
      the stage's outcome is the one of the same scan without that user. */
  lemma UserWithoutEffect(ids: seq<UserId>, rs: seq<UserReply>, i: nat)
    requires |rs| == |ids| && i < |ids|
    requires rs[i].balance.NoBalance? ||
      (rs[i].balance.total.Some? && rs[i].balance.total.value >= DeactivationThreshold && !rs[i].updateOk)
    ensures var ids', rs' := ids[..i] + ids[i + 1..], rs[..i] + rs[i + 1..];
      Delivered(EscalationAttempts(ids', rs')) == Delivered(EscalationAttempts(ids, rs)) &&
      DeactivatedIds(ids', rs') == DeactivatedIds(ids, rs)
  {
    WithoutUserQueue(ids, rs, i);
    WithoutUserDeactivated(ids, rs, i);
  }

  lemma WithoutUserQueue(ids: seq<UserId>, rs: seq<UserReply>, i: nat)
    requires |rs| == |ids| && i < |ids| && EscalationAttempt(ids[i], rs[i]) == NoInsert
    ensures Delivered(EscalationAttempts(ids[..i] + ids[i + 1..], rs[..i] + rs[i + 1..])) ==
      Delivered(EscalationAttempts(ids, rs))
  {
    var a := EscalationAttempts(ids, rs);
    assert EscalationAttempts(ids[..i] + ids[i + 1..], rs[..i] + rs[i + 1..]) == a[..i] + a[i + 1..];
    DeliveredAppend(a[..i], a[i + 1..]);
    DeliveredSplit(a, i);
  }

  lemma WithoutUserDeactivated(ids: seq<UserId>, rs: seq<UserReply>, i: nat)
    requires |rs| == |ids| && i < |ids| && !WriteSucceeds(rs[i])
    ensures DeactivatedIds(ids[..i] + ids[i + 1..], rs[..i] + rs[i + 1..]) == DeactivatedIds(ids, rs)
  {
    var ids', rs' := ids[..i] + ids[i + 1..], rs[..i] + rs[i + 1..];
    forall u ensures u in DeactivatedIds(ids', rs') <==> u in DeactivatedIds(ids, rs) {
      if u in DeactivatedIds(ids', rs') {
        var j :| 0 <= j < |ids'| && WriteSucceeds(rs'[j]) && ids'[j] == u;
        var j0 := if j < i then j else j + 1;
        assert ids[j0] == u && rs[j0] == rs'[j];
      }
      if u in DeactivatedIds(ids, rs) {
        var j :| 0 <= j < |ids| && WriteSucceeds(rs[j]) && ids[j] == u;
        var j' := if j < i then j else j - 1;
        assert ids'[j'] == u && rs'[j'] == rs[j];
      }
    }
  }

  /** Running the stage again: a user deactivated by the first run is not admitted by a sound
      second scan, so the second run neither writes nor notifies for it. */
  lemma SecondRunSkipsDeactivated(
    users: map<UserId, UserAccount>, ids1: seq<UserId>, rs1: seq<UserReply>,
    ids2: seq<UserId>, rs2: seq<UserReply>, u: UserId)
    requires |rs1| == |ids1| && |rs2| == |ids2|
    requires u in users && u in DeactivatedIds(ids1, rs1)
    requires ScanSound(Deactivate(users, DeactivatedIds(ids1, rs1)), ids2)
    ensures u !in ids2 && u !in DeactivatedIds(ids2, rs2)
    ensures forall k :: 0 <= k < |Delivered(EscalationAttempts(ids2, rs2))| ==>
      Delivered(EscalationAttempts(ids2, rs2))[k].userId != u
  {
    var after := Deactivate(users, DeactivatedIds(ids1, rs1));
    assert after[u].account == AutoDeactivated;
    forall k | 0 <= k < |Delivered(EscalationAttempts(ids2, rs2))|
      ensures Delivered(EscalationAttempts(ids2, rs2))[k].userId != u
    {
      EscalationQueueShape(ids2, rs2, k);
    }
  }

  /** A batch of users who all call for a notice, where exactly one insert fails: every other
      notice is queued, and the counter is one less than the number of users. */
  lemma OneFailedInsertCounted(ids: seq<UserId>, rs: seq<UserReply>, j: nat)
    requires |rs| == |ids| && j < |ids|
    requires forall i :: 0 <= i < |ids| ==> EscalationAttempt(ids[i], rs[i]).Insert?
    requires forall i :: 0 <= i < |ids| && i != j ==> rs[i].insertOk
    requires !rs[j].insertOk
    ensures var d := Delivered(EscalationAttempts(ids, rs));
      |d| == |ids| - 1 &&
      (forall i :: 0 <= i < j ==> d[i] == EscalationAttempt(ids[i], rs[i]).notice) &&
      (forall i :: j < i < |ids| ==> d[i - 1] == EscalationAttempt(ids[i], rs[i]).notice)
  {
    var a := EscalationAttempts(ids, rs);
    forall i | 0 <= i < |a| ensures a[i].Insert? && (i != j ==> a[i].ok) && (i == j ==> !a[i].ok) {
      assert a[i] == EscalationAttempt(ids[i], rs[i]);
    }
    DeliveredOneFailure(a, j);
    forall i | j < i < |ids|
      ensures Delivered(a)[i - 1] == EscalationAttempt(ids[i], rs[i]).notice
    {
      assert a[i] == EscalationAttempt(ids[i], rs[i]);
    }
  }
}
