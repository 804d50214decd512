/**
 From the waiting room to the reservations table: the attempts that any interleaving of checkouts writes to
 the log, delivered in any order and any number of times to any interleaving of transactions, or by a consumer
 that may crash anywhere.
 */
module EndToEnd {
  import opened Tables
  import B = Broker
  import C = Checkouts
  import Consume
  import Retry
  import T = Transactions

  /** A record of the log, without the idempotency key that the environment drew for it. */
  datatype Purchase = Purchase(item: ItemId, user: UserId, qty: int)

  ghost function WrittenBy(s: C.State, step: C.Step): seq<Purchase>
    requires C.Enabled(s, step)
  {
    match step
    case Command(h, e) =>
      if C.Writes(s.handlers[h], e) then [Purchase(s.handlers[h].item, s.handlers[h].user, s.handlers[h].qty)] else []
    case _ => []
  }

  /** What the checkouts write to the log, in order. */
  ghost function Written(s: C.State, steps: seq<C.Step>): seq<Purchase>
    requires C.Valid(s, steps)
    decreases |steps|
  {
    if steps == [] then [] else WrittenBy(s, steps[0]) + Written(C.Next(s, steps[0]), steps[1..])
  }

  function CountOf(ps: seq<Purchase>, i: ItemId, u: UserId): nat {
    if ps == [] then 0 else
      CountOf(ps[..|ps| - 1], i, u) + if ps[|ps| - 1].item == i && ps[|ps| - 1].user == u then 1 else 0
  }

  lemma {:induction false} CountOfConcat(xs: seq<Purchase>, ys: seq<Purchase>, i: ItemId, u: UserId)
    ensures CountOf(xs + ys, i, u) == CountOf(xs, i, u) + CountOf(ys, i, u)
    decreases |ys|
  {
    if ys == [] {
      assert xs + ys == xs;
    } else {
      CountOfConcat(xs, ys[..|ys| - 1], i, u);
      assert (xs + ys)[..|xs + ys| - 1] == xs + ys[..|ys| - 1];
    }
  }

  lemma StepCounts(s: C.State, step: C.Step, i: ItemId, u: UserId)
    requires C.Enabled(s, step)
    ensures C.Get(C.Next(s, step).ledger.attempts, (i, u))
         == C.Get(s.ledger.attempts, (i, u)) + CountOf(WrittenBy(s, step), i, u)
  {
    if WrittenBy(s, step) != [] {
      assert WrittenBy(s, step)[..0] == [];
    }
  }

  /** The ledger counts what is written. */
  lemma {:induction false} WrittenIsCounted(s: C.State, steps: seq<C.Step>, i: ItemId, u: UserId)
    requires C.Valid(s, steps)
    ensures C.Get(C.Run(s, steps).ledger.attempts, (i, u))
         == C.Get(s.ledger.attempts, (i, u)) + CountOf(Written(s, steps), i, u)
    decreases |steps|
  {
    if steps != [] {
      StepCounts(s, steps[0], i, u);
      WrittenIsCounted(C.Next(s, steps[0]), steps[1..], i, u);
      CountOfConcat(WrittenBy(s, steps[0]), Written(C.Next(s, steps[0]), steps[1..]), i, u);
    }
  }

  function Content(a: Attempt): Purchase {
    Purchase(a.item, a.user, a.qty)
  }

  function Contents(log: seq<Attempt>): seq<Purchase> {
    if log == [] then [] else Contents(log[..|log| - 1]) + [Content(log[|log| - 1])]
  }

  /** Row r is the record of some attempt in the log. */
  ghost predicate InLog(log: seq<Attempt>, r: Row) {
    Attempt(r.item, r.user, r.qty, r.key) in log
  }

  ghost predicate AllInLog(log: seq<Attempt>, rows: map<ResId, Row>) {
    forall id | id in rows :: InLog(log, rows[id])
  }

  lemma ApplyRecords(db: Db, op: Op, log: seq<Attempt>)
    requires AllInLog(log, db.rows) && (op.DecideOp? ==> op.a in log)
    ensures AllInLog(log, Apply(db, op).0.rows)
  {
    forall id | id in Apply(db, op).0.rows
      ensures InLog(log, Apply(db, op).0.rows[id])
    {
      if id in db.rows {
        assert InLog(log, db.rows[id]);
      }
    }
  }

  lemma {:induction false} UptoRecords(db: Db, ops: seq<Op>, n: nat, log: seq<Attempt>)
    requires n <= |ops| && AllInLog(log, db.rows) && forall k | 0 <= k < n :: ops[k].DecideOp? ==> ops[k].a in log
    ensures AllInLog(log, Upto(db, ops, n).rows)
  {
    if n != 0 {
      UptoRecords(db, ops, n - 1, log);
      ApplyRecords(Upto(db, ops, n - 1), ops[n - 1], log);
    }
  }

  /** decision-service asks only for attempts in the log, whatever the order and however often. */
  ghost predicate Consumes(s: T.System, log: seq<Attempt>) {
    forall t | t in s.requests && s.requests[t].DecideReq? :: s.requests[t].a in log
  }

  lemma RowsComeFromLog(db0: Db, steps: seq<T.Step>, log: seq<Attempt>)
    requires Wf(db0) && db0.rows == map[] && T.Valid(T.Init(db0), steps) && Consumes(T.Run(T.Init(db0), steps), log)
    ensures AllInLog(log, T.Run(T.Init(db0), steps).db.rows)
  {
    var s := T.Run(T.Init(db0), steps);
    T.Serializable(db0, steps);
    T.AnswersAreRecorded(db0, steps);
    forall k | 0 <= k < |s.history|
      ensures T.OpsOf(s.history)[k].DecideOp? ==> T.OpsOf(s.history)[k].a in log
    {
      assert T.Asks(s.requests[s.history[k].tx], s.history[k].op);
    }
    UptoRecords(db0, T.OpsOf(s.history), |s.history|, log);
  }

  /** The reservations, of whatever status, of user u for item i. */
  ghost function RowsOf(db: Db, i: ItemId, u: UserId): set<ResId> {
    set id | id in db.rows && db.rows[id].item == i && db.rows[id].user == u
  }

  /** Rows with distinct keys, all recorded in the log. */
  ghost predicate Recorded(db: Db, ids: set<ResId>, log: seq<Attempt>, i: ItemId, u: UserId) {
    && (forall id | id in ids ::
          id in db.rows && db.rows[id].item == i && db.rows[id].user == u && InLog(log, db.rows[id]))
    && (forall x, y | x in ids && y in ids && x != y :: db.rows[x].key != db.rows[y].key)
  }

  /** Each such row takes a record of the log for itself. */
  lemma {:induction false} RowsAtMostRecords(db: Db, ids: set<ResId>, log: seq<Attempt>, i: ItemId, u: UserId)
    requires Recorded(db, ids, log, i, u)
    ensures |ids| <= CountOf(Contents(log), i, u)
    decreases |log|
  {
    if log == [] {
      assert forall id | id in ids :: InLog(log, db.rows[id]);
      assert ids == {};
    } else {
      var last, rest := log[|log| - 1], log[..|log| - 1];
      assert log == rest + [last];
      assert Contents(log)[..|Contents(log)| - 1] == Contents(rest);
      if id :| id in ids && Attempt(i, u, db.rows[id].qty, db.rows[id].key) == last {
        RowsAtMostRecords(db, ids - {id}, rest, i, u);
      } else {
        RowsAtMostRecords(db, ids, rest, i, u);
      }
    }
  }

  /**
   No admission, no reservation. Whatever checkouts, reseeds, deliveries, duplicates, aborts and expiries
   interleave, a user's reservations for an item, rejected ones included, are at most the tokens the waiting
   room granted for it, plus the writes that were reported as failed.
   */
  lemma ReservationsWithinAdmissions(checkouts: seq<C.Step>, log: seq<Attempt>, db0: Db, steps: seq<T.Step>,
                                     i: ItemId, u: UserId)
    requires C.Valid(C.START, checkouts) && Contents(log) == Written(C.START, checkouts)
    requires Wf(db0) && db0.rows == map[] && T.Valid(T.Init(db0), steps) && Consumes(T.Run(T.Init(db0), steps), log)
    ensures var ledger := C.Run(C.START, checkouts).ledger;
      |RowsOf(T.Run(T.Init(db0), steps).db, i, u)| <= C.Get(ledger.grants, (i, u)) + C.Get(ledger.ghosts, (i, u))
  {
    var db := T.Run(T.Init(db0), steps).db;
    T.Reached(db0, steps);
    RowsComeFromLog(db0, steps, log);
    KeysDiffer(db, log, i, u);
    RowsAtMostRecords(db, RowsOf(db, i, u), log, i, u);
    WrittenIsCounted(C.START, checkouts, i, u);
    C.AdmissionEnforced(checkouts, i, u);
  }

  lemma KeysDiffer(db: Db, log: seq<Attempt>, i: ItemId, u: UserId)
    requires Wf(db) && AllInLog(log, db.rows)
    ensures Recorded(db, RowsOf(db, i, u), log, i, u)
  {
    forall id | id in RowsOf(db, i, u)
      ensures RowOk(db, id) && InLog(log, db.rows[id])
    {
    }
  }

  // ----- no attempt that was written is lost -----

  /** What a step does to the tables is what some operation does, or nothing. */
  lemma StepApplies(s: B.State, step: B.Step, p: Retry.Policy, ttl: Time) returns (op: Op)
    requires B.Enabled(s, step)
    ensures B.Next(s, step, p, ttl).db == s.db || B.Next(s, step, p, ttl).db == Apply(s.db, op).0
  {
    op := ExpireOp(0, 0);
    match step
    case Elsewhere(o) => op := o;
    case Try(c, _) =>
      var a := s.log[s.consumer.at].a;
      op := DecideOp(a, c.freshId, c.now + ttl);
      Consume.PerformOnce(s.db, a, ttl, c);
    case _ =>
  }

  lemma StepKeepsWf(s: B.State, step: B.Step, p: Retry.Policy, ttl: Time)
    requires B.Enabled(s, step) && Wf(s.db)
    ensures Wf(B.Next(s, step, p, ttl).db)
  {
    var op := StepApplies(s, step, p, ttl);
    ApplyKeepsWf(s.db, op);
  }

  lemma {:induction false} BrokerKeepsWf(s: B.State, steps: seq<B.Step>, p: Retry.Policy, ttl: Time)
    requires B.Valid(s, steps, p, ttl) && Wf(s.db)
    ensures Wf(B.Run(s, steps, p, ttl).db)
    decreases |steps|
  {
    if steps != [] {
      StepKeepsWf(s, steps[0], p, ttl);
      BrokerKeepsWf(B.Next(s, steps[0], p, ttl), steps[1..], p, ttl);
    }
  }

  /** A reservation, of whatever status, records the attempt's item and key. */
  ghost predicate HasRow(db: Db, a: Attempt) {
    exists id :: id in db.rows && db.rows[id].item == a.item && db.rows[id].key == a.key
  }

  /**
   No attempt is lost. Every attempt that a checkout wrote, at whatever offset of its partition, has its row or was
   handed to the dead-letter queue once that offset is below the committed one, whatever crashes, restarts, failed
   offset commits, other transactions and expiries there were.
   */
  lemma WrittenAttemptsAreAnswered(checkouts: seq<C.Step>, log: seq<Attempt>, k: nat, messages: seq<B.Message>,
                                   db0: Db, steps: seq<B.Step>, p: Retry.Policy, ttl: Time, o: nat)
    requires C.Valid(C.START, checkouts) && Contents(log) == Written(C.START, checkouts) && k < |log|
    requires Wf(db0) && B.Valid(B.State(messages, 0, db0, map[], B.Down), steps, p, ttl)
    requires var s := B.Run(B.State(messages, 0, db0, map[], B.Down), steps, p, ttl);
      o < s.committed && o < |s.log| && s.log[o] == B.Purchase(log[k])
    ensures var s := B.Run(B.State(messages, 0, db0, map[], B.Down), steps, p, ttl);
      && k < |Written(C.START, checkouts)| && Written(C.START, checkouts)[k] == Content(log[k])
      && (o in s.dead || HasRow(s.db, log[k]))
  {
    var start := B.State(messages, 0, db0, map[], B.Down);
    var s := B.Run(start, steps, p, ttl);
    ContentsAt(log, k);
    B.NoMessageLost(messages, db0, steps, p, ttl);
    BrokerKeepsWf(start, steps, p, ttl);
    assert B.Handled(s.db, s.log, s.dead.Keys, o);
    if o !in s.dead {
      assert (log[k].item, log[k].key) in s.db.byKey;
    }
  }

  lemma {:induction false} ContentsAt(log: seq<Attempt>, k: nat)
    requires k < |log|
    ensures |Contents(log)| == |log| && Contents(log)[k] == Content(log[k])
  {
    var n := |log| - 1;
    if k < n {
      ContentsAt(log[..n], k);
    } else if n > 0 {
      ContentsAt(log[..n], 0);
    }
  }
}
