/** The two tables the job changes, held in memory, and the algebra of insert attempts:
    which records end up in `notification_queue` when some inserts fail. */
module Store {
  import opened Records

  /** One intended insert into `notification_queue`: none at all, or a record together with
      the store's answer (`ok` is true when the insert returned no error). */
  datatype Attempt = NoInsert | Insert(notice: NotificationRecord, ok: bool)

  /** The records one attempt leaves in the queue. */
  function Landed(a: Attempt): seq<NotificationRecord>
  {
    if a.Insert? && a.ok then [a.notice] else []
  }

  /** The records a sequence of attempts adds to the queue, in attempt order. */
  function Delivered(attempts: seq<Attempt>): (d: seq<NotificationRecord>)
    ensures |d| <= |attempts|
    decreases |attempts|
  {
    if |attempts| == 0 then []
    else Delivered(attempts[..|attempts| - 1]) + Landed(attempts[|attempts| - 1])
  }

  /** Marking a set of users `auto_deactivated`: the keys and every membership stay, the ids
      in `ids` get the new status, every other entry is untouched. */
  function Deactivate(users: map<UserId, UserAccount>, ids: set<UserId>): (r: map<UserId, UserAccount>)
    ensures r.Keys == users.Keys
    ensures forall u :: u in users && u !in ids ==> r[u] == users[u]
    ensures forall u :: u in users && u in ids ==>
      r[u].account == AutoDeactivated && r[u].membership == users[u].membership
  {
    map u | u in users :: if u in ids then users[u].(account := AutoDeactivated) else users[u]
  }

  /** The `users` and `notification_queue` tables. Every call into the store takes the
      store's answer as a parameter. */
  class Database {
    var users: map<UserId, UserAccount>
    var queue: seq<NotificationRecord>

    constructor (users0: map<UserId, UserAccount>, queue0: seq<NotificationRecord>)
      ensures users == users0 && queue == queue0
    {
      users := users0;
      queue := queue0;
    }

    /** `from('notification_queue').insert(rec)`: exactly one attempt, no retry; `ok` is
        whether the store accepted it. */
    method Insert(rec: NotificationRecord, ok: bool) returns (inserted: bool)
      modifies this
      ensures inserted == ok
      ensures users == old(users)
      ensures queue == old(queue) + Landed(Attempt.Insert(rec, ok))
    {
      inserted := ok;
      if ok {
        queue := queue + [rec];
      }
    }

    /** `from('users').update({account_status: 'auto_deactivated'}).eq('id', id)`; an id
        with no row matches nothing and still reports success. */
    method MarkAutoDeactivated(id: UserId, ok: bool) returns (updated: bool)
      modifies this
      ensures updated == ok
      ensures queue == old(queue)
      ensures users == if ok then Deactivate(old(users), {id}) else old(users)
    {
      updated := ok;
      if ok {
        if id in users {
          users := users[id := users[id].(account := AutoDeactivated)];
        }
        assert users == Deactivate(old(users), {id});
      }
    }
  }

  /** Deactivating in two steps is deactivating the union. */
  lemma DeactivateTwice(users: map<UserId, UserAccount>, a: set<UserId>, b: set<UserId>)
    ensures Deactivate(Deactivate(users, a), b) == Deactivate(users, a + b)
  {
  }

  /** Appending one attempt appends what it lands. */
  lemma DeliveredSnoc(attempts: seq<Attempt>, i: nat)
    requires i < |attempts|
    ensures Delivered(attempts[..i + 1]) == Delivered(attempts[..i]) + Landed(attempts[i])
  {
    assert attempts[..i + 1][..i] == attempts[..i];
  }

  /** A queue extended by the records of a prefix and then by those of the next attempt holds
      the records of the longer prefix. */
  lemma QueueSnoc(queue: seq<NotificationRecord>, attempts: seq<Attempt>, i: nat)
    requires i < |attempts|
    ensures queue + Delivered(attempts[..i]) + Landed(attempts[i]) == queue + Delivered(attempts[..i + 1])
  {
    DeliveredSnoc(attempts, i);
    var d, l := Delivered(attempts[..i]), Landed(attempts[i]);
    assert queue + d + l == queue + (d + l);
  }

  /** Attempts are independent: the records of a concatenation are the concatenation. */
  lemma {:induction false} DeliveredAppend(a: seq<Attempt>, b: seq<Attempt>)
    ensures Delivered(a + b) == Delivered(a) + Delivered(b)
    decreases |b|
  {
    if |b| == 0 {
      assert a + b == a;
    } else {
      var b' := b[..|b| - 1];
      assert (a + b)[..|a + b| - 1] == a + b';
      assert (a + b)[|a + b| - 1] == b[|b| - 1];
      DeliveredAppend(a, b');
    }
  }

  /** A successful attempt lands, at the position given by the successes before it, whatever
      became of every other attempt. */
  lemma DeliveredAt(attempts: seq<Attempt>, i: nat)
    requires i < |attempts| && attempts[i].Insert? && attempts[i].ok
    ensures |Delivered(attempts[..i])| < |Delivered(attempts)|
    ensures Delivered(attempts)[|Delivered(attempts[..i])|] == attempts[i].notice
  {
    assert attempts == attempts[..i] + ([attempts[i]] + attempts[i + 1..]);
    DeliveredAppend(attempts[..i], [attempts[i]] + attempts[i + 1..]);
    DeliveredAppend([attempts[i]], attempts[i + 1..]);
    assert [attempts[i]][..0] == [];
  }

  /** Every delivered record comes from a successful attempt. */
  lemma {:induction false} DeliveredFrom(attempts: seq<Attempt>, k: nat)
    requires k < |Delivered(attempts)|
    ensures exists i :: 0 <= i < |attempts| && attempts[i] == Insert(Delivered(attempts)[k], true)
    decreases |attempts|
  {
    var n := |attempts| - 1;
    var init := attempts[..n];
    if k < |Delivered(init)| {
      DeliveredFrom(init, k);
      var i :| 0 <= i < |init| && init[i] == Insert(Delivered(init)[k], true);
      assert attempts[i] == init[i];
    } else {
      assert attempts[n] == Insert(Delivered(attempts)[k], true);
    }
  }

  /** When every attempt is an insert that succeeds, the queue gains exactly those records. */
  lemma {:induction false} DeliveredAllSucceed(attempts: seq<Attempt>)
    requires forall i :: 0 <= i < |attempts| ==> attempts[i].Insert? && attempts[i].ok
    ensures |Delivered(attempts)| == |attempts|
    ensures forall i :: 0 <= i < |attempts| ==> Delivered(attempts)[i] == attempts[i].notice
    decreases |attempts|
  {
    if |attempts| > 0 {
      var n := |attempts| - 1;
      DeliveredAllSucceed(attempts[..n]);
    }
  }

  /** The records of a sequence split around any one attempt. */
  lemma DeliveredSplit(attempts: seq<Attempt>, j: nat)
    requires j < |attempts|
    ensures Delivered(attempts) == Delivered(attempts[..j]) + Landed(attempts[j]) + Delivered(attempts[j + 1..])
  {
    DeliveredTakeDrop(attempts, j);
    DeliveredAtDrop(attempts, j);
    var p, l, q := Delivered(attempts[..j]), Landed(attempts[j]), Delivered(attempts[j + 1..]);
    assert p + (l + q) == p + l + q;
  }

  lemma DeliveredTakeDrop(attempts: seq<Attempt>, j: nat)
    requires j <= |attempts|
    ensures Delivered(attempts) == Delivered(attempts[..j]) + Delivered(attempts[j..])
  {
    assert attempts == attempts[..j] + attempts[j..];
    DeliveredAppend(attempts[..j], attempts[j..]);
  }

  lemma DeliveredAtDrop(attempts: seq<Attempt>, j: nat)
    requires j < |attempts|
    ensures Delivered(attempts[j..]) == Landed(attempts[j]) + Delivered(attempts[j + 1..])
  {
    assert attempts[j..] == [attempts[j]] + attempts[j + 1..];
    DeliveredCons(attempts[j], attempts[j + 1..]);
  }

  lemma DeliveredCons(a: Attempt, rest: seq<Attempt>)
    ensures Delivered([a] + rest) == Landed(a) + Delivered(rest)
  {
    DeliveredAppend([a], rest);
    assert [a][..0] == [];
  }

  /** A failed insert removes exactly its own record and leaves every other record, in
      order: item failures are isolated. */
  lemma DeliveredFailureIsolated(attempts: seq<Attempt>, j: nat)
    requires j < |attempts| && attempts[j].Insert?
    ensures Delivered(attempts[j := attempts[j].(ok := false)]) == Delivered(attempts[..j]) + Delivered(attempts[j + 1..])
  {
    var failed := attempts[j := attempts[j].(ok := false)];
    assert failed[..j] == attempts[..j];
    assert failed[j + 1..] == attempts[j + 1..];
    DeliveredSplit(failed, j);
  }

  /** When every attempt inserts and exactly one insert fails, every other record lands, in
      order: one record fewer than the number of attempts. */
  lemma DeliveredOneFailure(attempts: seq<Attempt>, j: nat)
    requires j < |attempts| && forall i :: 0 <= i < |attempts| ==> attempts[i].Insert?
    requires forall i :: 0 <= i < |attempts| && i != j ==> attempts[i].ok
    requires !attempts[j].ok
    ensures |Delivered(attempts)| == |attempts| - 1
    ensures forall i :: 0 <= i < j ==> Delivered(attempts)[i] == attempts[i].notice
    ensures forall i :: j < i < |attempts| ==> Delivered(attempts)[i - 1] == attempts[i].notice
  {
    DeliveredSplit(attempts, j);
    var before, after := attempts[..j], attempts[j + 1..];
    DeliveredAllSucceed(before);
    DeliveredAllSucceed(after);
    forall i | j < i < |attempts|
      ensures Delivered(attempts)[i - 1] == attempts[i].notice
    {
      assert after[i - j - 1] == attempts[i];
    }
  }
}
