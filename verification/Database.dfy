/**
 The Postgres-backed operations as the services call them: each is one transaction over the tables,
 run here without interference, with the environment choosing where (if anywhere) it fails.
 */
module Database {
  import opened Sums
  import opened Tables

  /** A plain error means nobody answered; a *pq.Error means Postgres answered with an error. */
  datatype Failure = Connectivity | Postgres

  datatype Reply = Answered(answer: Answer) | Failed(failure: Failure)

  /** The statement at which the environment makes the transaction fail, and how. */
  datatype Fault =
    | NoFault
    | AtBegin(f: Failure)
    | AtFirst(f: Failure)   // SELECT ... FOR NO KEY UPDATE, or the expiring UPDATE
    | AtInsert(f: Failure)
    | AtLookup(f: Failure)
    | AtUpdate(f: Failure)  // UPDATE items
    | AtCommit(f: Failure)
    | AckLost               // COMMIT took effect but its reply never arrived

  /** Whether a decision gets as far as the statement that the fault strikes. */
  ghost predicate DecisionHits(db: Db, a: Attempt, freshId: ResId, fault: Fault) {
    var valid := a.qty > 0;
    var found := valid && a.item in db.items;
    var conflict := found && a.qty <= INT_MAX && (a.item, a.key) in db.byKey;
    var replays := conflict && db.byKey[(a.item, a.key)] in db.rows;
    var inserted := found && a.qty <= INT_MAX && !conflict && freshId !in db.rows;
    match fault
    case NoFault => false
    case AtBegin(_) => valid
    case AtFirst(_) => valid
    case AtInsert(_) => found
    case AtLookup(_) => conflict
    case AtUpdate(_) => inserted && db.items[a.item].available >= a.qty
    case AtCommit(_) => replays || inserted
    case AckLost => replays || inserted
  }

  ghost predicate ExpiryHits(db: Db, id: ResId, now: Time, fault: Fault) {
    match fault
    case NoFault => false
    case AtBegin(_) => true
    case AtFirst(_) => true
    case AtInsert(_) => false
    case AtLookup(_) => false
    case AtUpdate(_) => Expirable(db, id, now)
    case AtCommit(_) => !Expire(db, id, now).1.PgError?
    case AckLost => !Expire(db, id, now).1.PgError?
  }

  /**
   All or nothing: a transaction that the fault misses has its whole effect and its answer; one that it
   hits has no effect and fails, except that a lost acknowledgement fails after the whole effect.
   */
  function Suffer(db: Db, done: (Db, Answer), fault: Fault, hit: bool): (Db, Reply)
    requires hit ==> !fault.NoFault?
  {
    (if hit && !fault.AckLost? then db else done.0,
     if !hit then Answered(done.1) else Failed(if fault.AckLost? then Connectivity else fault.f))
  }

  /** A call that fails has changed nothing, unless all that was lost is the acknowledgement of its COMMIT. */
  lemma SufferIsAllOrNothing(db: Db, done: (Db, Answer), fault: Fault, hit: bool)
    requires hit ==> !fault.NoFault?
    ensures var (d, reply) := Suffer(db, done, fault, hit);
      && (!hit ==> d == done.0 && reply == Answered(done.1))
      && (hit && fault == AckLost ==> d == done.0 && reply == Failed(Connectivity))
      && (hit && fault != AckLost ==> d == db && reply == Failed(fault.f))
  {
  }

  /** A fault strikes exactly if the decision runs the statement it waits at; judged by the answer without it. */
  lemma DecisionFaultsStrike(db: Db, a: Attempt, freshId: ResId, deadline: Time, f: Failure)
    requires Wf(db)
    ensures var answer := Decide(db, a, freshId, deadline).1;
      && !DecisionHits(db, a, freshId, NoFault)
      && (DecisionHits(db, a, freshId, AtBegin(f)) <==> !answer.InvalidQuantity?)
      && (DecisionHits(db, a, freshId, AtFirst(f)) <==> !answer.InvalidQuantity?)
      && (DecisionHits(db, a, freshId, AtInsert(f)) <==> !answer.InvalidQuantity? && !answer.ItemNotFound?)
      && (DecisionHits(db, a, freshId, AtLookup(f)) <==> answer.Decision? && answer.replayed)
      && (DecisionHits(db, a, freshId, AtUpdate(f)) <==>
            answer.Decision? && !answer.replayed && answer.status == Reserved)
      && (DecisionHits(db, a, freshId, AtCommit(f)) <==> answer.Decision?)
      && (DecisionHits(db, a, freshId, AckLost) <==> answer.Decision?)
  {
  }

  lemma ExpiryFaultsStrike(db: Db, id: ResId, now: Time, f: Failure)
    requires Sound(db)
    ensures var answer := Expire(db, id, now).1;
      && !ExpiryHits(db, id, now, NoFault)
      && ExpiryHits(db, id, now, AtBegin(f)) && ExpiryHits(db, id, now, AtFirst(f))
      && (ExpiryHits(db, id, now, AtUpdate(f)) <==> answer.Released?)
      && ExpiryHits(db, id, now, AtCommit(f)) && ExpiryHits(db, id, now, AckLost)
  {
    if Expirable(db, id, now) {
      ReleaseFits(db, id);
    }
  }

  /** What FindExpiredReservations promises of its result: the `limit` earliest-expiring rows, oldest first. */
  ghost predicate IsScan(db: Db, now: Time, limit: int, ids: seq<ResId>) {
    && |ids| <= limit
    && (forall k | 0 <= k < |ids| :: Expirable(db, ids[k], now))
    && (forall j, k | 0 <= j < k < |ids| ::
          ids[j] != ids[k] && Due(db, ids[j]) <= Due(db, ids[k]))
    && (forall id | Expirable(db, id, now) && id !in ids ::
          && |ids| == limit
          && forall k | 0 <= k < |ids| :: Due(db, ids[k]) <= Due(db, id))
  }

  class Postgres {
    var items: map<ItemId, Item>
    var rows: map<ResId, Row>
    var byKey: map<(ItemId, Key), ResId>

    function View(): Db
      reads this
    {
      Db(items, rows, byKey)
    }

    constructor (db: Db)
      ensures View() == db
    {
      items, rows, byKey := db.items, db.rows, db.byKey;
    }

    /** decision.ProcessAttempt */
    method ProcessAttempt(a: Attempt, now: Time, ttl: Time, freshId: ResId, fault: Fault) returns (reply: Reply)
      modifies this
      ensures reply == Answered(Decision(freshId, Reserved, false)) ==>
                freshId in rows && rows[freshId] == Row(a.item, a.user, a.qty, Reserved, a.key, Some(now + ttl))
      ensures (View(), reply) == Suffer(old(View()), Decide(old(View()), a, freshId, now + ttl), fault,
                                        DecisionHits(old(View()), a, freshId, fault))
    {
      if a.qty <= 0 {
        return Answered(InvalidQuantity);
      }
      if fault.AtBegin? || fault.AtFirst? {
        return Failed(fault.f);
      }
      if a.item !in items {
        return Answered(ItemNotFound);
      }
      var available := items[a.item].available;
      var status, expiresAt := Rejected, None;
      if available >= a.qty {
        status, expiresAt := Reserved, Some(now + ttl);
      }

      if fault.AtInsert? {
        return Failed(fault.f);
      }
      if a.qty > INT_MAX {
        return Answered(PgError);
      }
      if (a.item, a.key) in byKey {
        if fault.AtLookup? {
          return Failed(fault.f);
        }
        var existing := byKey[(a.item, a.key)];
        if existing !in rows {
          return Answered(PgError);
        }
        var outcome := Decision(existing, rows[existing].status, true);
        if fault.AtCommit? {
          return Failed(fault.f);
        }
        return if fault.AckLost? then Failed(Connectivity) else Answered(outcome);
      }
      if freshId in rows {
        return Answered(PgError);
      }

      // The transaction's own view of the tables; COMMIT publishes it.
      var items', rows', byKey' := items, rows, byKey;
      rows' := rows'[freshId := Row(a.item, a.user, a.qty, status, a.key, expiresAt)];
      byKey' := byKey'[(a.item, a.key) := freshId];
      if status == Reserved {
        if fault.AtUpdate? {
          return Failed(fault.f);
        }
        items' := items'[a.item := items'[a.item].(available := items'[a.item].available - a.qty)];
      }
      if fault.AtCommit? {
        return Failed(fault.f);
      }
      items, rows, byKey := items', rows', byKey';
      return if fault.AckLost? then Failed(Connectivity) else Answered(Decision(freshId, status, false));
    }

    /** expiry.ExpireReservation */
    method ExpireReservation(id: ResId, now: Time, fault: Fault) returns (reply: Reply)
      modifies this
      ensures reply.Answered? && reply.answer.Released? ==>
                && id in old(rows) && old(rows)[id].status == Reserved
                && old(rows)[id].expiresAt.Some? && old(rows)[id].expiresAt.value < now
      ensures (View(), reply) == Suffer(old(View()), Expire(old(View()), id, now), fault,
                                        ExpiryHits(old(View()), id, now, fault))
    {
      if fault.AtBegin? || fault.AtFirst? {
        return Failed(fault.f);
      }
      if !(id in rows && rows[id].status == Reserved && rows[id].expiresAt.Some? && rows[id].expiresAt.value < now) {
        if fault.AtCommit? {
          return Failed(fault.f);
        }
        return if fault.AckLost? then Failed(Connectivity) else Answered(NotReleased(id));
      }
      var item, qty := rows[id].item, rows[id].qty;
      var rows' := rows[id := rows[id].(status := Expired)];

      if fault.AtUpdate? {
        return Failed(fault.f);
      }
      var items' := items;
      if item in items {
        var n := items[item].available + qty;
        if n > items[item].total {
          return Answered(PgError);
        }
        items' := items[item := items[item].(available := n)];
      }
      if fault.AtCommit? {
        return Failed(fault.f);
      }
      rows, items := rows', items';
      return if fault.AckLost? then Failed(Connectivity) else Answered(Released(id, item, qty));
    }

    /** expiry.FindExpiredReservations; None is its error: a non-positive limit, or a query or a row that fails. */
    method FindExpiredReservations(now: Time, limit: int, fails: bool) returns (found: Option<seq<ResId>>)
      ensures found.None? <==> limit <= 0 || fails
      ensures found.Some? ==> IsScan(View(), now, limit, found.value)
    {
      if limit <= 0 || fails {
        return None;
      }
      var db := View();
      var ids := [];
      var left := set id | id in rows && Expirable(db, id, now);
      while left != {} && |ids| < limit
        invariant |ids| <= limit
        invariant Scanning(db, now, ids, left)
        decreases left
      {
        EarliestExists(db, left);
        assert exists id :: id in left && forall o | o in left :: Due(db, id) <= Due(db, o) by {
          var id :| id in left && NoneEarlier(db, left, id);
        }
        var id :| id in left && forall o | o in left :: Due(db, id) <= Due(db, o);
        ScanStep(db, now, ids, left, id);
        ids := ids + [id];
        left := left - {id};
      }
      return Some(ids);
    }
  }

  /** ids are the earliest-expiring rows, in order, and left are the others. */
  ghost predicate Scanning(db: Db, now: Time, ids: seq<ResId>, left: set<ResId>) {
    && (forall id | Expirable(db, id, now) :: id in left || id in ids)
    && (forall id | id in left ::
          Expirable(db, id, now) && id !in ids && forall o | o in ids :: Due(db, o) <= Due(db, id))
    && (forall k | 0 <= k < |ids| :: Expirable(db, ids[k], now))
    && (forall j, k | 0 <= j < k < |ids| :: ids[j] != ids[k] && Due(db, ids[j]) <= Due(db, ids[k]))
  }

  lemma ScanStep(db: Db, now: Time, ids: seq<ResId>, left: set<ResId>, id: ResId)
    requires Scanning(db, now, ids, left) && id in left && NoneEarlier(db, left, id)
    ensures Scanning(db, now, ids + [id], left - {id})
  {
  }

  ghost predicate NoneEarlier(db: Db, s: set<ResId>, id: ResId) {
    forall o | o in s :: Due(db, id) <= Due(db, o)
  }

  lemma {:induction false} EarliestExists(db: Db, s: set<ResId>)
    requires s != {}
    ensures exists id :: id in s && NoneEarlier(db, s, id)
    decreases s
  {
    var id :| id in s;
    var rest := s - {id};
    if rest == {} {
      assert s == {id};
      assert NoneEarlier(db, s, id);
    } else {
      EarliestExists(db, rest);
      var m :| m in rest && NoneEarlier(db, rest, m);
      assert NoneEarlier(db, s, if Due(db, id) < Due(db, m) then id else m);
    }
  }
}
