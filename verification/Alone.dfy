/** One transaction's statements, with nothing in between, do what the operation says: no step is ever stuck. */
module Alone {
  import opened Tables
  import opened Transactions

  function Ends(answer: Answer): Reply {
    if answer.PgError? then Failed else Answered(answer)
  }

  /** How a transaction is to end: the tables, its operation and answer, and the books kept until then. */
  datatype Goal = Goal(db: Db, op: Op, answer: Answer, requests: map<TxId, Request>, past: seq<Entry>)

  /** No transaction is live, and t, the last to end, ended like this. */
  ghost predicate HasEnded(s: System, t: TxId, e: Goal) {
    && s.txs == map[] && s.db == e.db && s.requests == e.requests
    && t in s.replies && s.replies[t] == Ends(e.answer)
    && if e.answer.PgError? then s.history == e.past else
       s.history == e.past + [Entry(t, e.op, e.answer)]
  }

  ghost predicate EndsBy(s: System, steps: seq<Step>, t: TxId, e: Goal) {
    Valid(s, steps) && HasEnded(Run(s, steps), t, e)
  }

  /** From s, some statements of transaction t lead to that end. */
  ghost predicate CanEnd(s: System, t: TxId, e: Goal) {
    exists steps :: EndsBy(s, steps, t, e)
  }

  lemma Ended(s: System, t: TxId, e: Goal)
    requires HasEnded(s, t, e)
    ensures CanEnd(s, t, e)
  {
    assert EndsBy(s, [], t, e);
  }

  lemma Precede(s: System, step: Step, t: TxId, e: Goal)
    requires Enabled(s, step) && CanEnd(Next(s, step), t, e)
    ensures CanEnd(s, t, e)
  {
    var steps :| EndsBy(Next(s, step), steps, t, e);
    assert ([step] + steps)[1..] == steps;
    assert EndsBy(s, [step] + steps, t, e);
  }

  /** The only live transaction is t. */
  predicate Alone(s: System, t: TxId, tx: Tx) {
    s.txs == map[t := tx]
  }

  /** t's end, with nothing recorded in between. */
  function EndOf(s: System, op: Op, r: (Db, Answer)): Goal {
    Goal(r.0, op, r.1, s.requests, s.history)
  }

  /** A decision as the history records it: one that is refused before its INSERT has no id or deadline. */
  function Entered(a: Attempt, id: ResId, deadline: Time, answer: Answer): Op {
    if answer.InvalidQuantity? || answer.ItemNotFound? then DecideOp(a, 0, 0) else DecideOp(a, id, deadline)
  }

  function DecisionEnd(s: System, a: Attempt, id: ResId, deadline: Time): Goal {
    var r := Decide(s.db, a, id, deadline);
    EndOf(s, Entered(a, id, deadline, r.1), r)
  }

  function ExpiryEnd(s: System, id: ResId, now: Time): Goal {
    EndOf(s, ExpireOp(id, now), Expire(s.db, id, now))
  }

  lemma Commits(s: System, t: TxId, tx: Tx)
    requires Alone(s, t, tx) && CanCommit(tx)
    ensures CanEnd(s, t, EndOf(s, OpOf(tx), (Install(s.db, tx), AnswerOf(tx))))
  {
    var e := EndOf(s, OpOf(tx), (Install(s.db, tx), AnswerOf(tx)));
    Ended(Next(s, Commit(t, true)), t, e);
    Precede(s, Commit(t, true), t, e);
  }

  lemma InsertedEnds(s: System, t: TxId, a: Attempt, id: ResId, deadline: Time)
    requires Wf(s.db) && a.qty > 0 && a.item in s.db.items && (a.item, a.key) !in s.db.byKey && id !in s.db.rows
    requires a.qty <= INT_MAX
    requires var status := if Available(s.db, a.item) >= a.qty then Reserved else Rejected;
      Alone(s, t, Deciding(a, Inserted(id, deadline, status)))
    ensures CanEnd(s, t, DecisionEnd(s, a, id, deadline))
  {
    if Available(s.db, a.item) >= a.qty {
      Commits(Next(s, Decrement(t)), t, Deciding(a, Decremented(id, deadline, Available(s.db, a.item) - a.qty)));
      Precede(s, Decrement(t), t, DecisionEnd(s, a, id, deadline));
    } else {
      Commits(s, t, Deciding(a, Inserted(id, deadline, Rejected)));
    }
  }

  lemma ConflictedEnds(s: System, t: TxId, a: Attempt, id: ResId, deadline: Time)
    requires Wf(s.db) && a.qty > 0 && a.item in s.db.items && (a.item, a.key) in s.db.byKey && a.qty <= INT_MAX
    requires Alone(s, t, Deciding(a, Conflicted(id, deadline)))
    ensures CanEnd(s, t, DecisionEnd(s, a, id, deadline))
  {
    var existing := s.db.byKey[(a.item, a.key)];
    Commits(Next(s, Lookup(t)), t, Deciding(a, LookedUp(id, deadline, existing, s.db.rows[existing].status)));
    Precede(s, Lookup(t), t, DecisionEnd(s, a, id, deadline));
  }

  lemma LockedEnds(s: System, t: TxId, a: Attempt, id: ResId, deadline: Time)
    requires Wf(s.db) && a.qty > 0 && a.item in s.db.items && id !in s.db.rows
    requires Alone(s, t, Deciding(a, Locked(s.db.items[a.item].available)))
    ensures CanEnd(s, t, DecisionEnd(s, a, id, deadline))
  {
    var s' := Next(s, Insert(t, id, deadline));
    if a.qty > INT_MAX {
      Ended(s', t, DecisionEnd(s, a, id, deadline));
    } else if (a.item, a.key) in s.db.byKey {
      ConflictedEnds(s', t, a, id, deadline);
    } else {
      InsertedEnds(s', t, a, id, deadline);
    }
    Precede(s, Insert(t, id, deadline), t, DecisionEnd(s, a, id, deadline));
  }

  lemma OpenEnds(s: System, t: TxId, a: Attempt, id: ResId, deadline: Time)
    requires Wf(s.db) && a.qty > 0 && id !in s.db.rows && Alone(s, t, Deciding(a, Open))
    ensures CanEnd(s, t, DecisionEnd(s, a, id, deadline))
  {
    var s' := Next(s, LockItem(t));
    if a.item in s.db.items {
      LockedEnds(s', t, a, id, deadline);
    } else {
      Ended(s', t, DecisionEnd(s, a, id, deadline));
    }
    Precede(s, LockItem(t), t, DecisionEnd(s, a, id, deadline));
  }

  /** Nothing is live, whatever has ended before. */
  ghost predicate Quiet(s: System, t: TxId) {
    Wf(s.db) && s.txs == map[] && t !in s.requests
  }

  /** ProcessAttempt on its own always reaches its end, with Decide's tables, answer and entry. */
  lemma DecideAlone(s: System, t: TxId, a: Attempt, id: ResId, deadline: Time)
    requires Quiet(s, t) && id !in s.db.rows
    ensures CanEnd(s, t, DecisionEnd(s, a, id, deadline).(requests := s.requests[t := DecideReq(a)]))
  {
    var e := DecisionEnd(s, a, id, deadline).(requests := s.requests[t := DecideReq(a)]);
    var s' := Next(s, Begin(t, DecideReq(a)));
    if a.qty <= 0 {
      Ended(s', t, e);
    } else {
      OpenEnds(s', t, a, id, deadline);
    }
    Precede(s, Begin(t, DecideReq(a)), t, e);
  }

  lemma MarkedEnds(s: System, t: TxId, id: ResId, now: Time)
    requires Wf(s.db) && Expirable(s.db, id, now)
    requires Alone(s, t, Expiring(id, now, Marked(s.db.rows[id].item, s.db.rows[id].qty)))
    ensures CanEnd(s, t, ExpiryEnd(s, id, now))
  {
    assert RowOk(s.db, id);
    var i, q := s.db.rows[id].item, s.db.rows[id].qty;
    var s' := Next(s, Restock(t));
    if s.db.items[i].available + q <= s.db.items[i].total {
      Commits(s', t, Expiring(id, now, Restocked(i, q, s.db.items[i].available + q)));
    } else {
      Ended(s', t, ExpiryEnd(s, id, now));
    }
    Precede(s, Restock(t), t, ExpiryEnd(s, id, now));
  }

  lemma UnmarkedEnds(s: System, t: TxId, id: ResId, now: Time)
    requires Wf(s.db) && Alone(s, t, Expiring(id, now, Unmarked))
    ensures CanEnd(s, t, ExpiryEnd(s, id, now))
  {
    var s' := Next(s, Mark(t));
    if Expirable(s.db, id, now) {
      MarkedEnds(s', t, id, now);
    } else {
      Commits(s', t, Expiring(id, now, Missed));
    }
    Precede(s, Mark(t), t, ExpiryEnd(s, id, now));
  }

  /** So does ExpireReservation, with Expire's. */
  lemma ExpireAlone(s: System, t: TxId, id: ResId, now: Time)
    requires Quiet(s, t)
    ensures CanEnd(s, t, ExpiryEnd(s, id, now).(requests := s.requests[t := ExpireReq(id, now)]))
  {
    var e := ExpiryEnd(s, id, now).(requests := s.requests[t := ExpireReq(id, now)]);
    UnmarkedEnds(Next(s, Begin(t, ExpireReq(id, now))), t, id, now);
    Precede(s, Begin(t, ExpireReq(id, now)), t, e);
  }
}
