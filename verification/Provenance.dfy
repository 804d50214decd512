/**
 Where every row and every release of an interleaved run comes from: a row carries the attempt and the deadline
 of the decision that wrote it, and a release comes strictly after that deadline.
 */
module Provenance {
  import opened Sums
  import opened Tables
  import opened Database
  import opened Transactions

  /** What a reservation keeps for ever. */
  predicate SameTerms(r: Row, s: Row) {
    r.item == s.item && r.user == s.user && r.qty == s.qty && r.key == s.key && r.expiresAt == s.expiresAt
  }

  /** This operation, with this answer, decided row r under this id. */
  predicate Wrote(op: Op, answer: Answer, id: ResId, r: Row) {
    && op.DecideOp? && answer.Decision? && answer.id == id && !answer.replayed
    && r.item == op.a.item && r.user == op.a.user && r.qty == op.a.qty && r.key == op.a.key
    && (answer.status == Reserved ==> r.expiresAt == Some(op.deadline))
    && (answer.status != Reserved ==> answer.status == Rejected && r.expiresAt == None)
  }

  ghost predicate WroteAt(db: Db, ops: seq<Op>, k: nat, id: ResId, r: Row)
    requires k < |ops|
  {
    Wrote(ops[k], AnswerAt(db, ops, k), id, r)
  }

  /** One operation keeps every row's terms, and a row it adds is the one it decides. */
  lemma ApplyWrites(db: Db, op: Op, id: ResId)
    requires id in Apply(db, op).0.rows
    ensures var r := Apply(db, op).0.rows[id];
      if id in db.rows then SameTerms(db.rows[id], r) else Wrote(op, Apply(db, op).1, id, r)
  {
  }

  /** Every row was there at first, or one of the operations decided it. */
  lemma {:induction false} RowOrigin(db: Db, ops: seq<Op>, n: nat, id: ResId)
    requires n <= |ops| && id in Upto(db, ops, n).rows
    ensures var r := Upto(db, ops, n).rows[id];
      if id in db.rows then SameTerms(db.rows[id], r) else exists k :: 0 <= k < n && WroteAt(db, ops, k, id, r)
  {
    if n != 0 {
      var before, r := Upto(db, ops, n - 1), Upto(db, ops, n).rows[id];
      ApplyWrites(before, ops[n - 1], id);
      if id in before.rows {
        RowOrigin(db, ops, n - 1, id);
        if id !in db.rows {
          var k :| 0 <= k < n - 1 && WroteAt(db, ops, k, id, before.rows[id]);
          assert WroteAt(db, ops, k, id, r);
        }
      } else {
        UptoOnlyAdds(db, ops, n - 1, id);
        assert WroteAt(db, ops, n - 1, id, r);
      }
    }
  }

  lemma {:induction false} UptoOnlyAdds(db: Db, ops: seq<Op>, n: nat, id: ResId)
    requires n <= |ops| && id !in Upto(db, ops, n).rows
    ensures id !in db.rows
  {
    if n != 0 {
      UptoOnlyAdds(db, ops, n - 1, id);
    }
  }

  // ----- over every interleaving -----

  ghost predicate EntryWrote(e: Entry, id: ResId, r: Row) {
    Wrote(e.op, e.answer, id, r)
  }

  /** Every row that a run adds carries the attempt and the deadline of the decision recorded for it. */
  lemma RowsCarryTheirDecision(db0: Db, steps: seq<Step>, id: ResId)
    requires Wf(db0) && Valid(Init(db0), steps)
    requires id in Run(Init(db0), steps).db.rows && id !in db0.rows
    ensures var s := Run(Init(db0), steps);
      exists k :: 0 <= k < |s.history| && EntryWrote(s.history[k], id, s.db.rows[id])
  {
    Serializable(db0, steps);
    AnswersAreSerial(db0, steps);
    var s := Run(Init(db0), steps);
    var ops := OpsOf(s.history);
    RowOrigin(db0, ops, |ops|, id);
    var k :| 0 <= k < |ops| && WroteAt(db0, ops, k, id, s.db.rows[id]);
    assert EntryWrote(s.history[k], id, s.db.rows[id]);
  }

  /** The j-th entry reserved what the k-th released, with a deadline that had passed. */
  ghost predicate Reserves(h: seq<Entry>, j: nat, k: nat)
    requires j < |h| && k < |h| && h[k].op.ExpireOp?
  {
    && h[j].op.DecideOp? && h[j].answer == Decision(h[k].op.id, Reserved, false)
    && h[j].op.deadline < h[k].op.now
    && h[k].answer == Released(h[k].op.id, h[j].op.a.item, h[j].op.a.qty)
  }

  /** Row id was there at first, and is what the release gives back. */
  predicate OverdueAtFirst(db: Db, e: Entry)
    requires e.op.ExpireOp?
  {
    && e.op.id in db.rows && db.rows[e.op.id].expiresAt.Some? && db.rows[e.op.id].expiresAt.value < e.op.now
    && e.answer == Released(e.op.id, db.rows[e.op.id].item, db.rows[e.op.id].qty)
  }

  lemma ReleaseOrigin(db: Db, ops: seq<Op>, k: nat)
    requires k < |ops| && AnswerAt(db, ops, k).Released?
    ensures ops[k].ExpireOp?
    ensures ops[k].id in db.rows ==> OverdueAtFirst(db, Entry(0, ops[k], AnswerAt(db, ops, k)))
    ensures ops[k].id !in db.rows ==>
              exists j :: 0 <= j < k && ops[j].DecideOp? && AnswerAt(db, ops, j) == Decision(ops[k].id, Reserved, false)
                          && ops[j].deadline < ops[k].now
                          && AnswerAt(db, ops, k) == Released(ops[k].id, ops[j].a.item, ops[j].a.qty)
  {
    var before := Upto(db, ops, k);
    OnlyOverdueReleased(before, ops[k]);
    RowOrigin(db, ops, k, ops[k].id);
    if ops[k].id !in db.rows {
      var j :| 0 <= j < k && WroteAt(db, ops, j, ops[k].id, before.rows[ops[k].id]);
      assert AnswerAt(db, ops, j) == Decision(ops[k].id, Reserved, false);
    }
  }

  /**
   No reservation expires early. Every release that a run answers gives back the item and quantity of the decision
   that reserved it, at a time strictly after the deadline recorded there.
   */
  lemma ReleasesAreOverdue(db0: Db, steps: seq<Step>, k: nat)
    requires Wf(db0) && Valid(Init(db0), steps)
    requires k < |Run(Init(db0), steps).history| && Run(Init(db0), steps).history[k].answer.Released?
    ensures var h := Run(Init(db0), steps).history;
      && h[k].op.ExpireOp?
      && if h[k].op.id in db0.rows then OverdueAtFirst(db0, h[k]) else exists j :: 0 <= j < k && Reserves(h, j, k)
  {
    AnswersAreSerial(db0, steps);
    var h := Run(Init(db0), steps).history;
    var ops := OpsOf(h);
    ReleaseOrigin(db0, ops, k);
    if h[k].op.id !in db0.rows {
      var j :| 0 <= j < k && ops[j].DecideOp? && AnswerAt(db0, ops, j) == Decision(ops[k].id, Reserved, false)
               && ops[j].deadline < ops[k].now
               && AnswerAt(db0, ops, k) == Released(ops[k].id, ops[j].a.item, ops[j].a.qty);
      assert Reserves(h, j, k);
    }
  }

  /** And none is missed: an expiry answered with 'not released' found no row that was reserved and overdue. */
  lemma NotReleasedWasNotOverdue(db0: Db, steps: seq<Step>, k: nat)
    requires Sound(db0) && Valid(Init(db0), steps)
    requires k < |Run(Init(db0), steps).history| && Run(Init(db0), steps).history[k].answer.NotReleased?
    ensures var h := Run(Init(db0), steps).history;
      var d := Upto(db0, OpsOf(h), k);
      && h[k].op.ExpireOp?
      && (h[k].op.id in d.rows && d.rows[h[k].op.id].status == Reserved ==>
            d.rows[h[k].op.id].expiresAt.Some? && d.rows[h[k].op.id].expiresAt.value >= h[k].op.now)
  {
    AnswersAreSerial(db0, steps);
    var h := Run(Init(db0), steps).history;
    UptoSound(db0, OpsOf(h), k);
    var d, op := Upto(db0, OpsOf(h), k), h[k].op;
    assert Apply(d, op).1.NotReleased?;
    assert op.id in d.rows ==> RowOk(d, op.id);
    ExpireWrites(d, op.id, op.now);
  }

  /** A scan's ids are overdue, oldest first; if it leaves out an overdue row, it is full, and of rows no younger. */
  lemma ScanIsOverdue(db: Db, now: Time, limit: int, ids: seq<ResId>)
    requires IsScan(db, now, limit, ids)
    ensures |ids| <= limit
    ensures forall k | 0 <= k < |ids| ::
              && ids[k] in db.rows && db.rows[ids[k]].status == Reserved
              && db.rows[ids[k]].expiresAt.Some? && db.rows[ids[k]].expiresAt.value < now
    ensures forall j, k | 0 <= j < k < |ids| ::
              ids[j] != ids[k] && db.rows[ids[j]].expiresAt.value <= db.rows[ids[k]].expiresAt.value
    ensures forall id | id in db.rows && id !in ids && db.rows[id].status == Reserved
                        && db.rows[id].expiresAt.Some? && db.rows[id].expiresAt.value < now ::
              && |ids| == limit
              && forall k | 0 <= k < |ids| :: db.rows[ids[k]].expiresAt.value <= db.rows[id].expiresAt.value
  {
    forall k | 0 <= k < |ids|
      ensures ids[k] in db.rows && db.rows[ids[k]].expiresAt.Some? && Due(db, ids[k]) == db.rows[ids[k]].expiresAt.value
    {
      assert Expirable(db, ids[k], now);
    }
    forall id | id in db.rows && id !in ids && db.rows[id].status == Reserved
                && db.rows[id].expiresAt.Some? && db.rows[id].expiresAt.value < now
      ensures |ids| == limit
      ensures forall k | 0 <= k < |ids| :: db.rows[ids[k]].expiresAt.value <= db.rows[id].expiresAt.value
    {
      assert Expirable(db, id, now);
    }
  }
}
