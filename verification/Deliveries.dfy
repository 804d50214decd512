/**
 At-least-once delivery has an exactly-once effect: dropping every redelivery of an attempt whose
 decision is already recorded changes neither the tables nor any other answer.
 */
module Deliveries {
  import opened Sums
  import opened Tables
  import opened Transactions
  import opened Alone

  /** ops[k] asks again for a decision that some earlier op already recorded. */
  ghost predicate IsRedelivery(db: Db, ops: seq<Op>, k: nat)
    requires k < |ops|
  {
    ops[k].DecideOp? && exists j :: 0 <= j < k && Decides(db, ops, j, ops[k].a.item, ops[k].a.key)
  }

  /** The j-th op records (or finds recorded) the decision for this item and key. */
  ghost predicate Decides(db: Db, ops: seq<Op>, j: nat, item: ItemId, key: Key)
    requires j < |ops|
  {
    ops[j].DecideOp? && ops[j].a.item == item && ops[j].a.key == key && AnswerAt(db, ops, j).Decision?
  }

  /** The first n of ops without the redeliveries. */
  ghost function KeepFirst(db: Db, ops: seq<Op>, n: nat): seq<Op>
    requires n <= |ops|
  {
    if n == 0 then []
    else if IsRedelivery(db, ops, n - 1) then KeepFirst(db, ops, n - 1)
    else KeepFirst(db, ops, n - 1) + [ops[n - 1]]
  }

  /** The answers, in order, to the ops that KeepFirst keeps. */
  ghost function KeptAnswers(db: Db, ops: seq<Op>, n: nat): seq<Answer>
    requires n <= |ops|
  {
    if n == 0 then []
    else if IsRedelivery(db, ops, n - 1) then KeptAnswers(db, ops, n - 1)
    else KeptAnswers(db, ops, n - 1) + [AnswerAt(db, ops, n - 1)]
  }

  ghost function Answers(db: Db, ops: seq<Op>): seq<Answer>
  {
    seq(|ops|, k requires 0 <= k < |ops| => AnswerAt(db, ops, k))
  }

  /** Once an attempt is decided, its row keeps its id for ever. */
  lemma {:induction false} DecisionStays(db: Db, ops: seq<Op>, j: nat, n: nat)
    requires j < n <= |ops| && ops[j].DecideOp? && AnswerAt(db, ops, j).Decision?
    ensures var d := Upto(db, ops, n); var k := (ops[j].a.item, ops[j].a.key);
      k.0 in d.items && k in d.byKey && d.byKey[k] == AnswerAt(db, ops, j).id && d.byKey[k] in d.rows
    decreases n
  {
    if j < n - 1 {
      DecisionStays(db, ops, j, n - 1);
      KeysStay(Upto(db, ops, n - 1), ops[n - 1], (ops[j].a.item, ops[j].a.key));
    } else {
      DecisionRecorded(Upto(db, ops, j), ops[j]);
    }
  }

  lemma KeysStay(db: Db, op: Op, k: (ItemId, Key))
    requires k.0 in db.items && k in db.byKey && db.byKey[k] in db.rows
    ensures var d := Apply(db, op).0;
      k.0 in d.items && k in d.byKey && d.byKey[k] == db.byKey[k] && d.byKey[k] in d.rows
  {
  }

  lemma DecisionRecorded(db: Db, op: Op)
    requires op.DecideOp? && Apply(db, op).1.Decision?
    ensures var d := Apply(db, op).0; var k := (op.a.item, op.a.key);
      k.0 in d.items && k in d.byKey && d.byKey[k] == Apply(db, op).1.id && d.byKey[k] in d.rows
      && d.rows[d.byKey[k]].status == Apply(db, op).1.status
  {
  }

  /** A redelivery changes nothing, and finds the recorded id with that row's current status. */
  lemma RedeliveryIsReplay(db: Db, ops: seq<Op>, j: nat, k: nat)
    requires j < k < |ops| && ops[j].DecideOp? && AnswerAt(db, ops, j).Decision?
    requires ops[k].DecideOp? && ops[k].a.item == ops[j].a.item && ops[k].a.key == ops[j].a.key
    ensures Upto(db, ops, k + 1) == Upto(db, ops, k)
    ensures 0 < ops[k].a.qty <= INT_MAX ==>
              var id := AnswerAt(db, ops, j).id;
              id in Upto(db, ops, k).rows
              && AnswerAt(db, ops, k) == Decision(id, Upto(db, ops, k).rows[id].status, true)
  {
    DecisionStays(db, ops, j, k);
    ReplayChangesNothing(Upto(db, ops, k), ops[k]);
  }

  lemma ReplayChangesNothing(db: Db, op: Op)
    requires op.DecideOp? && (op.a.item, op.a.key) in db.byKey
    ensures Apply(db, op).0 == db
  {
  }

  /** Between the j-th op and the n-th, an expiry released row id. */
  ghost predicate ReleasedBetween(db: Db, ops: seq<Op>, j: nat, n: nat, id: ResId)
    requires n <= |ops|
  {
    exists m :: j < m < n && ReleasedAt(db, ops, m, id)
  }

  ghost predicate ReleasedAt(db: Db, ops: seq<Op>, m: nat, id: ResId)
    requires m < |ops|
  {
    AnswerAt(db, ops, m).Released? && AnswerAt(db, ops, m).id == id
  }

  /** Of the operations, only the release of a row changes its status. */
  lemma StatusStays(db: Db, op: Op, id: ResId)
    requires id in db.rows
    ensures var r := Apply(db, op);
      id in r.0.rows
      && r.0.rows[id].status == if r.1.Released? && r.1.id == id then Expired else db.rows[id].status
  {
  }

  /** A decided row has the status it was given, until an expiry releases it. */
  lemma {:induction false} StatusSince(db: Db, ops: seq<Op>, j: nat, n: nat)
    requires j < n <= |ops| && ops[j].DecideOp? && AnswerAt(db, ops, j).Decision?
    ensures var first, d := AnswerAt(db, ops, j), Upto(db, ops, n);
      first.id in d.rows
      && d.rows[first.id].status == if ReleasedBetween(db, ops, j, n, first.id) then Expired else first.status
    decreases n
  {
    var id := AnswerAt(db, ops, j).id;
    if j < n - 1 {
      StatusSince(db, ops, j, n - 1);
      StatusStays(Upto(db, ops, n - 1), ops[n - 1], id);
      if ReleasedAt(db, ops, n - 1, id) {
        assert ReleasedBetween(db, ops, j, n, id);
      }
    } else {
      DecisionRecorded(Upto(db, ops, j), ops[j]);
    }
  }

  lemma RedeliveryChangesNothing(db: Db, ops: seq<Op>, k: nat)
    requires k < |ops| && IsRedelivery(db, ops, k)
    ensures Upto(db, ops, k + 1) == Upto(db, ops, k)
  {
    var j :| 0 <= j < k && Decides(db, ops, j, ops[k].a.item, ops[k].a.key);
    RedeliveryIsReplay(db, ops, j, k);
  }

  lemma {:induction false} KeepFirstAgrees(db: Db, ops: seq<Op>, n: nat)
    requires n <= |ops|
    ensures After(db, KeepFirst(db, ops, n)) == Upto(db, ops, n)
  {
    if n != 0 {
      KeepFirstAgrees(db, ops, n - 1);
      if IsRedelivery(db, ops, n - 1) {
        RedeliveryChangesNothing(db, ops, n - 1);
      } else {
        AfterSnoc(db, KeepFirst(db, ops, n - 1), ops[n - 1]);
      }
    }
  }

  lemma {:induction false} KeptAnswersAgree(db: Db, ops: seq<Op>, n: nat)
    requires n <= |ops|
    ensures Answers(db, KeepFirst(db, ops, n)) == KeptAnswers(db, ops, n)
  {
    if n != 0 {
      KeptAnswersAgree(db, ops, n - 1);
      if !IsRedelivery(db, ops, n - 1) {
        KeepFirstAgrees(db, ops, n - 1);
        AnswersSnoc(db, KeepFirst(db, ops, n - 1), ops[n - 1]);
      }
    }
  }

  lemma AnswersSnoc(db: Db, ops: seq<Op>, op: Op)
    ensures Answers(db, ops + [op]) == Answers(db, ops) + [Apply(After(db, ops), op).1]
  {
    forall k | 0 <= k <= |ops|
      ensures Answers(db, ops + [op])[k] == (Answers(db, ops) + [Apply(After(db, ops), op).1])[k]
    {
      AnswerAtSnoc(db, ops, op, k);
    }
  }

  // ----- main results -----

  /**
   Exactly-once effect, over every interleaving with any duplicated deliveries, lost acknowledgements,
   aborts and expiries: tables and answers are those of the run with each attempt delivered once.
   */
  lemma ExactlyOnce(db0: Db, steps: seq<Step>)
    requires Wf(db0) && Valid(Init(db0), steps)
    ensures var s := Run(Init(db0), steps);
      var ops, n := OpsOf(s.history), |s.history|;
      && s.db == After(db0, KeepFirst(db0, ops, n))
      && KeptAnswers(db0, ops, n) == Answers(db0, KeepFirst(db0, ops, n))
  {
    Serializable(db0, steps);
    var h := Run(Init(db0), steps).history;
    KeepFirstAgrees(db0, OpsOf(h), |h|);
    KeptAnswersAgree(db0, OpsOf(h), |h|);
  }

  /** The answer to a redelivery, from the answers before it. */
  lemma ReplayAnswers(db: Db, ops: seq<Op>, j: nat, k: nat)
    requires j < k < |ops| && ops[j].DecideOp? && AnswerAt(db, ops, j).Decision?
    requires ops[k].DecideOp? && ops[k].a.item == ops[j].a.item && ops[k].a.key == ops[j].a.key
    requires 0 < ops[k].a.qty <= INT_MAX
    ensures var first := AnswerAt(db, ops, j);
      AnswerAt(db, ops, k)
      == Decision(first.id, if ReleasedBetween(db, ops, j, k, first.id) then Expired else first.status, true)
  {
    RedeliveryIsReplay(db, ops, j, k);
    StatusSince(db, ops, j, k);
  }

  /** Between the j-th and the k-th transaction to end, one released reservation id. */
  ghost predicate ReleasedMeanwhile(h: seq<Entry>, j: nat, k: nat, id: ResId)
    requires k <= |h|
  {
    exists m :: j < m < k && h[m].answer.Released? && h[m].answer.id == id
  }

  /**
   Every later delivery is told the reservation id of the first, with the status the first was told, or with
   'expired' exactly if an expiry released that reservation between them.
   */
  lemma LaterDeliveriesReplay(db0: Db, steps: seq<Step>, j: nat, k: nat)
    requires Wf(db0) && Valid(Init(db0), steps)
    requires var h := Run(Init(db0), steps).history;
      && j < k < |h| && h[j].op.DecideOp? && h[j].answer.Decision? && h[k].op.DecideOp?
      && h[k].op.a.item == h[j].op.a.item && h[k].op.a.key == h[j].op.a.key && 0 < h[k].op.a.qty <= INT_MAX
    ensures var h := Run(Init(db0), steps).history;
      var first := h[j].answer;
      h[k].answer == Decision(first.id, if ReleasedMeanwhile(h, j, k, first.id) then Expired else first.status, true)
  {
    AnswersAreSerial(db0, steps);
    var h := Run(Init(db0), steps).history;
    var ops := OpsOf(h);
    ReplayAnswers(db0, ops, j, k);
    assert forall m | j < m < k :: ReleasedAt(db0, ops, m, h[j].answer.id)
                                   <==> h[m].answer.Released? && h[m].answer.id == h[j].answer.id;
  }

  // ----- a run in which the status changes -----

  const ATTEMPT := Attempt(1, "ann", 2, "k")
  const EMPTY := Db(map[1 := Item(5, 5, OnSale)], map[], map[])
  const ROW := Row(1, "ann", 2, Reserved, "k", Some(100))
  const HELD := Db(map[1 := Item(5, 3, OnSale)], map[7 := ROW], map[(1, "k") := 7])
  const FREED := Db(map[1 := Item(5, 5, OnSale)], map[7 := ROW.(status := Expired)], map[(1, "k") := 7])

  lemma AnnReserves()
    ensures Decide(EMPTY, ATTEMPT, 7, 100) == (HELD, Decision(7, Reserved, false))
  {
    var d := Decide(EMPTY, ATTEMPT, 7, 100).0;
    assert d.items == HELD.items && d.rows == HELD.rows && d.byKey == HELD.byKey;
  }

  lemma AnnExpires()
    ensures Expire(HELD, 7, 101) == (FREED, Released(7, 1, 2))
  {
    assert Expirable(HELD, 7, 101);
    var d := Expire(HELD, 7, 101).0;
    assert d.items == FREED.items && d.rows == FREED.rows;
  }

  lemma AnnReplays()
    ensures Decide(FREED, ATTEMPT, 8, 200) == (FREED, Decision(7, Expired, true))
  {
  }

  lemma {:induction false} RunConcat(s: System, xs: seq<Step>, ys: seq<Step>)
    requires Valid(s, xs) && Valid(Run(s, xs), ys)
    ensures Valid(s, xs + ys) && Run(s, xs + ys) == Run(Run(s, xs), ys)
    decreases |xs|
  {
    if xs == [] {
      assert xs + ys == ys;
    } else {
      RunConcat(Next(s, xs[0]), xs[1..], ys);
      assert (xs + ys)[1..] == xs[1..] + ys;
    }
  }

  /** The run so far has answered a reservation, and then its release if `freed`. */
  ghost predicate Told(s: System, freed: bool) {
    && s.txs == map[] && 2 !in s.requests && (freed || 1 !in s.requests)
    && s.db == (if freed then FREED else HELD)
    && |s.history| == (if freed then 2 else 1)
    && s.history[0].tx == 0 && s.history[0].answer == Decision(7, Reserved, false)
    && 0 in s.requests && s.requests[0] == DecideReq(ATTEMPT)
  }

  lemma Reserving() returns (steps: seq<Step>)
    ensures Valid(Init(EMPTY), steps) && Told(Run(Init(EMPTY), steps), false)
  {
    AnnReserves();
    DecideAlone(Init(EMPTY), 0, ATTEMPT, 7, 100);
    var goal := Goal(HELD, DecideOp(ATTEMPT, 7, 100), Decision(7, Reserved, false), map[0 := DecideReq(ATTEMPT)], []);
    steps :| EndsBy(Init(EMPTY), steps, 0, goal);
  }

  lemma Freeing(s: System) returns (steps: seq<Step>)
    requires Told(s, false)
    ensures Valid(s, steps) && Told(Run(s, steps), true)
  {
    AnnExpires();
    ExpireAlone(s, 1, 7, 101);
    var goal := Goal(FREED, ExpireOp(7, 101), Released(7, 1, 2), s.requests[1 := ExpireReq(7, 101)], s.history);
    steps :| EndsBy(s, steps, 1, goal);
  }

  lemma Replaying(s: System) returns (steps: seq<Step>)
    requires Told(s, true)
    ensures Valid(s, steps)
    ensures var q := Run(s, steps);
      && |q.history| == 3 && q.history[0] == s.history[0]
      && q.history[2].tx == 2 && q.history[2].answer == Decision(7, Expired, true)
      && q.requests == s.requests[2 := DecideReq(ATTEMPT)]
  {
    AnnReplays();
    DecideAlone(s, 2, ATTEMPT, 8, 200);
    var requests := s.requests[2 := DecideReq(ATTEMPT)];
    var goal := Goal(FREED, DecideOp(ATTEMPT, 8, 200), Decision(7, Expired, true), requests, s.history);
    steps :| EndsBy(s, steps, 2, goal);
  }

  /** A run in which a redelivery is told 'expired' where the first delivery was told 'reserved'. */
  lemma ReplayedStatusCanChange()
    ensures exists steps :: Valid(Init(EMPTY), steps) && StatusChanges(Run(Init(EMPTY), steps))
  {
    var first := Reserving();
    var s := Run(Init(EMPTY), first);
    var second := Freeing(s);
    RunConcat(Init(EMPTY), first, second);
    var third := Replaying(Run(s, second));
    RunConcat(Init(EMPTY), first + second, third);
    var q := Run(Init(EMPTY), first + second + third);
    assert DiffersAt(q, 0, 2);
  }

  /** Two deliveries of one attempt got different statuses. */
  ghost predicate StatusChanges(s: System) {
    exists j, k :: 0 <= j < k < |s.history| && DiffersAt(s, j, k)
  }

  ghost predicate DiffersAt(s: System, j: nat, k: nat)
    requires j < k < |s.history|
  {
    var x, y := s.history[j], s.history[k];
    && x.tx in s.requests && y.tx in s.requests && s.requests[x.tx] == s.requests[y.tx]
    && x.answer.Decision? && y.answer.Decision? && x.answer.id == y.answer.id && x.answer.status != y.answer.status
  }
}
