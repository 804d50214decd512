/**
 Any number of ProcessAttempt and ExpireReservation transactions, statement by statement, over one
 committed database. A transaction's writes are private until COMMIT; the locks it holds follow from
 the statements it has run, and are released when it ends. Any transaction may abort at any point
 (a deadlock victim, a serialization failure, a lost connection), and a COMMIT may take effect while
 its acknowledgement is lost.
 */
module Transactions {
  import opened Tables

  type TxId = nat

  datatype Request =
    | DecideReq(a: Attempt)
    | ExpireReq(target: ResId, now: Time)  // now() is fixed when the transaction starts

  /** How far ProcessAttempt has got: what it has read, and what it will write. */
  datatype DecidePhase =
    | Open
    | Locked(read: int)
    | Inserted(id: ResId, deadline: Time, status: Status)
    | Decremented(id: ResId, deadline: Time, left: int)
    | Conflicted(id: ResId, deadline: Time)
    | LookedUp(id: ResId, deadline: Time, existing: ResId, found: Status)

  /** How far ExpireReservation has got. */
  datatype ExpirePhase =
    | Unmarked
    | Missed
    | Marked(item: ItemId, qty: int)
    | Restocked(item: ItemId, qty: int, left: int)

  datatype Tx =
    | Deciding(a: Attempt, d: DecidePhase)
    | Expiring(target: ResId, now: Time, e: ExpirePhase)

  /** What the caller learns when a transaction ends. */
  datatype Reply = Answered(answer: Answer) | Failed

  /** One transaction that ended with an effect or an answer; entries stand in the order they ended. */
  datatype Entry = Entry(tx: TxId, op: Op, answer: Answer)

  datatype System = System(
    db: Db,                        // committed tables
    txs: map<TxId, Tx>,            // live transactions
    requests: map<TxId, Request>,  // every transaction ever begun
    replies: map<TxId, Reply>,     // every transaction that ended
    history: seq<Entry>)

  function Init(db: Db): System {
    System(db, map[], map[], map[], [])
  }

  // ----- locks -----

  /** The row lock on items, taken by SELECT ... FOR NO KEY UPDATE or by UPDATE items. */
  predicate LocksItem(tx: Tx, i: ItemId) {
    match tx
    case Deciding(a, d) => !d.Open? && a.item == i
    case Expiring(_, _, e) => e.Restocked? && e.item == i
  }

  /** The row lock on reservations, taken by the expiring UPDATE. */
  predicate LocksRow(tx: Tx, id: ResId) {
    tx.Expiring? && tx.target == id && (tx.e.Marked? || tx.e.Restocked?)
  }

  /** The transaction has inserted row id and not yet committed. */
  predicate Inserting(tx: Tx, id: ResId) {
    tx.Deciding? && (tx.d.Inserted? || tx.d.Decremented?) && tx.d.id == id
  }

  predicate Mentions(tx: Tx, id: ResId) {
    Inserting(tx, id) || (tx.Expiring? && tx.target == id)
  }

  ghost predicate ItemFree(s: System, i: ItemId) {
    forall u | u in s.txs :: !LocksItem(s.txs[u], i)
  }

  ghost predicate RowFree(s: System, id: ResId) {
    forall u | u in s.txs :: !LocksRow(s.txs[u], id)
  }

  /** gen_random_uuid: unlike any id stored or in use. */
  ghost predicate FreshId(s: System, id: ResId) {
    id !in s.db.rows && forall u | u in s.txs :: !Mentions(s.txs[u], id)
  }

  // ----- steps -----

  datatype Step =
    | Begin(t: TxId, req: Request)
    | LockItem(t: TxId)
    | Insert(t: TxId, id: ResId, deadline: Time)
    | Lookup(t: TxId)
    | Decrement(t: TxId)
    | Mark(t: TxId)
    | Restock(t: TxId)
    | Commit(t: TxId, acked: bool)
    | Abort(t: TxId)

  predicate CanCommit(tx: Tx) {
    match tx
    case Deciding(_, d) => d.Decremented? || d.LookedUp? || (d.Inserted? && d.status == Rejected)
    case Expiring(_, _, e) => e.Missed? || e.Restocked?
  }

  ghost predicate Enabled(s: System, step: Step) {
    match step
    case Begin(t, req) =>
      // An id that is inserted but not committed is known to no one but its own transaction.
      t !in s.requests && (req.ExpireReq? ==> forall u | u in s.txs :: !Inserting(s.txs[u], req.target))
    case LockItem(t) =>
      t in s.txs && s.txs[t].Deciding? && s.txs[t].d.Open? && ItemFree(s, s.txs[t].a.item)
    case Insert(t, id, _) =>
      t in s.txs && s.txs[t].Deciding? && s.txs[t].d.Locked? && FreshId(s, id)
    case Lookup(t) =>
      t in s.txs && s.txs[t].Deciding? && s.txs[t].d.Conflicted?
    case Decrement(t) =>
      t in s.txs && s.txs[t].Deciding? && s.txs[t].d.Inserted? && s.txs[t].d.status == Reserved
    case Mark(t) =>
      // A row that does not match is skipped without waiting; one that matches is waited for.
      t in s.txs && s.txs[t].Expiring? && s.txs[t].e.Unmarked?
      && (Expirable(s.db, s.txs[t].target, s.txs[t].now) ==> RowFree(s, s.txs[t].target))
    case Restock(t) =>
      t in s.txs && s.txs[t].Expiring? && s.txs[t].e.Marked? && ItemFree(s, s.txs[t].e.item)
    case Commit(t, _) => t in s.txs && CanCommit(s.txs[t])
    case Abort(t) => t in s.txs
  }

  function Advance(s: System, t: TxId, tx: Tx): System {
    s.(txs := s.txs[t := tx])
  }

  function End(s: System, t: TxId, reply: Reply): System {
    s.(txs := s.txs - {t}, replies := s.replies[t := reply])
  }

  function Record(s: System, t: TxId, op: Op, answer: Answer): System {
    s.(history := s.history + [Entry(t, op, answer)])
  }

  /** Makes a transaction's private writes part of the committed tables. */
  function Install(db: Db, tx: Tx): Db
    requires CanCommit(tx)
  {
    match tx
    case Deciding(a, Inserted(id, deadline, status)) => WithRow(db, id, NewRow(a, status, deadline))
    case Deciding(a, Decremented(id, deadline, left)) =>
      WithAvailable(WithRow(db, id, NewRow(a, Reserved, deadline)), a.item, left)
    case Deciding(_, LookedUp(_, _, _, _)) => db
    case Expiring(id, _, Restocked(item, _, left)) => WithAvailable(WithExpired(db, id), item, left)
    case Expiring(_, _, Missed) => db
  }

  function OpOf(tx: Tx): Op
    requires CanCommit(tx)
  {
    match tx
    case Deciding(a, d) => DecideOp(a, d.id, d.deadline)
    case Expiring(id, now, _) => ExpireOp(id, now)
  }

  function AnswerOf(tx: Tx): Answer
    requires CanCommit(tx)
  {
    match tx
    case Deciding(_, Inserted(id, _, status)) => Decision(id, status, false)
    case Deciding(_, Decremented(id, _, _)) => Decision(id, Reserved, false)
    case Deciding(_, LookedUp(_, _, existing, found)) => Decision(existing, found, true)
    case Expiring(id, _, Restocked(item, qty, _)) => Released(id, item, qty)
    case Expiring(id, _, Missed) => NotReleased(id)
  }

  /** The system after one step; a statement that Postgres refuses ends its transaction. */
  ghost function Next(s: System, step: Step): System
    requires Enabled(s, step)
  {
    match step
    case Begin(t, req) =>
      var s1 := s.(requests := s.requests[t := req]);
      (match req
       case DecideReq(a) =>
         if a.qty <= 0 then Record(End(s1, t, Answered(InvalidQuantity)), t, DecideOp(a, 0, 0), InvalidQuantity)
         else Advance(s1, t, Deciding(a, Open))
       case ExpireReq(id, now) => Advance(s1, t, Expiring(id, now, Unmarked)))
    case LockItem(t) =>
      var a := s.txs[t].a;
      if a.item in s.db.items then Advance(s, t, Deciding(a, Locked(s.db.items[a.item].available)))
      else Record(End(s, t, Answered(ItemNotFound)), t, DecideOp(a, 0, 0), ItemNotFound)
    case Insert(t, id, deadline) =>
      var a := s.txs[t].a;
      if a.qty > INT_MAX then End(s, t, Failed)
      else if (a.item, a.key) in s.db.byKey then Advance(s, t, Deciding(a, Conflicted(id, deadline)))
      else
        var status := if s.txs[t].d.read >= a.qty then Reserved else Rejected;
        Advance(s, t, Deciding(a, Inserted(id, deadline, status)))
    case Lookup(t) =>
      var a, d := s.txs[t].a, s.txs[t].d;
      if (a.item, a.key) in s.db.byKey && s.db.byKey[(a.item, a.key)] in s.db.rows then
        var existing := s.db.byKey[(a.item, a.key)];
        Advance(s, t, Deciding(a, LookedUp(d.id, d.deadline, existing, s.db.rows[existing].status)))
      else End(s, t, Failed)
    case Decrement(t) =>
      var a, d := s.txs[t].a, s.txs[t].d;
      if a.item in s.db.items && DecrementFits(s, t) then
        Advance(s, t, Deciding(a, Decremented(d.id, d.deadline, s.db.items[a.item].available - a.qty)))
      else End(s, t, Failed)
    case Mark(t) =>
      var id, now := s.txs[t].target, s.txs[t].now;
      if Expirable(s.db, id, now) then
        Advance(s, t, Expiring(id, now, Marked(s.db.rows[id].item, s.db.rows[id].qty)))
      else Advance(s, t, Expiring(id, now, Missed))
    case Restock(t) =>
      var id, now, e := s.txs[t].target, s.txs[t].now, s.txs[t].e;
      if e.item in s.db.items && RestockFits(s, t) then
        Advance(s, t, Expiring(id, now, Restocked(e.item, e.qty, s.db.items[e.item].available + e.qty)))
      else End(s, t, Failed)
    case Commit(t, acked) =>
      var tx := s.txs[t];
      var reply := if acked then Answered(AnswerOf(tx)) else Failed;
      Record(End(s.(db := Install(s.db, tx)), t, reply), t, OpOf(tx), AnswerOf(tx))
    case Abort(t) => End(s, t, Failed)
  }

  /** CHECK (available_inventory >= 0). */
  predicate DecrementFits(s: System, t: TxId) {
    t in s.txs && s.txs[t].Deciding?
    && (s.txs[t].a.item in s.db.items ==> s.txs[t].a.qty <= s.db.items[s.txs[t].a.item].available)
  }

  /** CHECK (available_inventory <= total_inventory). */
  predicate RestockFits(s: System, t: TxId) {
    t in s.txs && s.txs[t].Expiring? && s.txs[t].e.Marked?
    && var e := s.txs[t].e;
       e.item in s.db.items ==> s.db.items[e.item].available + e.qty <= s.db.items[e.item].total
  }

  ghost predicate Valid(s: System, steps: seq<Step>)
    decreases |steps|
  {
    steps == [] || (Enabled(s, steps[0]) && Valid(Next(s, steps[0]), steps[1..]))
  }

  ghost function Run(s: System, steps: seq<Step>): System
    requires Valid(s, steps)
    decreases |steps|
  {
    if steps == [] then s else Run(Next(s, steps[0]), steps[1..])
  }

  // ----- the invariant -----

  /** What a live transaction has read or will write still agrees with the committed tables. */
  ghost predicate TxOk(db: Db, tx: Tx) {
    match tx
    case Deciding(a, d) =>
      && a.qty > 0
      && (!d.Open? ==> a.item in db.items)
      && (!d.Open? && !d.Locked? ==> a.qty <= INT_MAX)
      && (match d
          case Open => true
          case Locked(read) => read == db.items[a.item].available
          case Inserted(id, _, status) =>
            && id !in db.rows && (a.item, a.key) !in db.byKey
            && status == (if db.items[a.item].available >= a.qty then Reserved else Rejected)
          case Decremented(id, _, left) =>
            && id !in db.rows && (a.item, a.key) !in db.byKey
            && left == db.items[a.item].available - a.qty >= 0
          case Conflicted(_, _) => (a.item, a.key) in db.byKey
          case LookedUp(_, _, existing, found) =>
            && (a.item, a.key) in db.byKey && db.byKey[(a.item, a.key)] == existing
            && existing in db.rows && db.rows[existing].status == found)
    case Expiring(id, now, e) =>
      match e
      case Unmarked => true
      case Missed => !Expirable(db, id, now)
      case Marked(item, qty) => Expirable(db, id, now) && db.rows[id].item == item && db.rows[id].qty == qty
      case Restocked(item, qty, left) =>
        && Expirable(db, id, now) && db.rows[id].item == item && db.rows[id].qty == qty
        && item in db.items && left == db.items[item].available + qty <= db.items[item].total
  }

  /** Two live transactions share no lock, and neither knows the id the other is inserting. */
  ghost predicate Apart(x: Tx, y: Tx) {
    && (forall i :: !(LocksItem(x, i) && LocksItem(y, i)))
    && (forall id :: !(LocksRow(x, id) && LocksRow(y, id)))
    && (forall id :: !(Inserting(x, id) && Mentions(y, id)))
  }

  function OpsOf(h: seq<Entry>): seq<Op> {
    seq(|h|, k requires 0 <= k < |h| => h[k].op)
  }

  /** Running the recorded transactions one at a time gives db and the recorded answers. */
  ghost predicate Explains(db0: Db, h: seq<Entry>, db: Db) {
    && db == After(db0, OpsOf(h))
    && forall k | 0 <= k < |h| :: h[k].answer == AnswerAt(db0, OpsOf(h), k)
  }

  predicate Asks(req: Request, op: Op) {
    match req
    case DecideReq(a) => op.DecideOp? && op.a == a
    case ExpireReq(id, now) => op == ExpireOp(id, now)
  }

  function RequestOf(tx: Tx): Request {
    match tx
    case Deciding(a, _) => DecideReq(a)
    case Expiring(id, now, _) => ExpireReq(id, now)
  }

  ghost predicate Recorded(h: seq<Entry>, t: TxId, answer: Answer) {
    exists k :: 0 <= k < |h| && h[k].tx == t && h[k].answer == answer
  }

  /** Who asked what, and who was told what. */
  ghost predicate Books(s: System) {
    && (forall t | t in s.txs :: t in s.requests && s.requests[t] == RequestOf(s.txs[t]) && t !in s.replies)
    && (forall t | t in s.replies :: t in s.requests)
    && (forall k | 0 <= k < |s.history| ::
          var e := s.history[k]; e.tx in s.replies && Asks(s.requests[e.tx], e.op))
    && (forall j, k | 0 <= j < k < |s.history| :: s.history[j].tx != s.history[k].tx)
    && (forall t | t in s.replies && s.replies[t].Answered? :: Recorded(s.history, t, s.replies[t].answer))
  }

  /** The live transactions agree with the committed tables and keep apart from each other. */
  ghost predicate Consistent(s: System) {
    && (forall t | t in s.txs :: TxOk(s.db, s.txs[t]))
    && (forall t, u | t in s.txs && u in s.txs && t != u :: Apart(s.txs[t], s.txs[u]))
  }

  ghost predicate Inv(db0: Db, s: System) {
    && Wf(db0) && Wf(s.db)
    && Explains(db0, s.history, s.db)
    && Books(s)
    && Consistent(s)
  }

  // ----- every step keeps it -----

  lemma ExplainsSnoc(db0: Db, h: seq<Entry>, db: Db, e: Entry)
    requires Explains(db0, h, db) && Apply(db, e.op).1 == e.answer
    ensures Explains(db0, h + [e], Apply(db, e.op).0)
  {
    var ops, ops' := OpsOf(h), OpsOf(h + [e]);
    assert ops' == ops + [e.op];
    AfterSnoc(db0, ops, e.op);
    forall k | 0 <= k <= |h|
      ensures (h + [e])[k].answer == AnswerAt(db0, ops', k)
    {
      AnswerAtSnoc(db0, ops, e.op, k);
    }
  }

  lemma BooksRecord(s: System, t: TxId, op: Op, answer: Answer, reply: Reply, db: Db)
    requires Books(s) && t in s.txs && Asks(s.requests[t], op)
    requires reply == Failed || reply == Answered(answer)
    ensures Books(Record(End(s.(db := db), t, reply), t, op, answer))
  {
    var s' := Record(End(s.(db := db), t, reply), t, op, answer);
    forall u | u in s'.replies && s'.replies[u].Answered?
      ensures Recorded(s'.history, u, s'.replies[u].answer)
    {
      RecordedGrows(s.history, Entry(t, op, answer), u, s'.replies[u].answer);
    }
  }

  lemma RecordedGrows(h: seq<Entry>, e: Entry, t: TxId, answer: Answer)
    requires Recorded(h, t, answer) || (e.tx == t && e.answer == answer)
    ensures Recorded(h + [e], t, answer)
  {
    if e.tx == t && e.answer == answer {
      assert (h + [e])[|h|] == e;
    } else {
      var k :| 0 <= k < |h| && h[k].tx == t && h[k].answer == answer;
      assert (h + [e])[k] == h[k];
    }
  }

  /** A commit does exactly what the same operation does alone on the tables as they are at that moment. */
  lemma CommitIsAtomic(db: Db, tx: Tx)
    requires Wf(db) && TxOk(db, tx) && CanCommit(tx)
    ensures Apply(db, OpOf(tx)) == (Install(db, tx), AnswerOf(tx))
  {
  }

  /** A commit invalidates nothing that another live transaction has read. */
  lemma CommitSpares(db: Db, tx: Tx, other: Tx)
    requires Wf(db) && TxOk(db, tx) && CanCommit(tx) && TxOk(db, other)
    requires Apart(tx, other) && Apart(other, tx)
    ensures TxOk(Install(db, tx), other)
  {
    assert tx.Deciding? ==> LocksItem(tx, tx.a.item);
    assert other.Deciding? && !other.d.Open? ==> LocksItem(other, other.a.item);
    assert tx.Expiring? && tx.e.Restocked? ==> LocksItem(tx, tx.e.item) && LocksRow(tx, tx.target);
    assert other.Expiring? && other.e.Restocked? ==> LocksItem(other, other.e.item);
    assert other.Expiring? && (other.e.Marked? || other.e.Restocked?) ==> LocksRow(other, other.target);
    assert other.Expiring? ==> Mentions(other, other.target);
    assert tx.Deciding? && !tx.d.LookedUp? ==> Inserting(tx, tx.d.id);
    assert other.Deciding? && (other.d.Inserted? || other.d.Decremented?) ==> Mentions(other, other.d.id);
    if other.Deciding? && other.d.LookedUp? {
      assert RowOk(db, other.d.existing);
    }
  }

  lemma InitInv(db: Db)
    requires Wf(db)
    ensures Inv(db, Init(db))
  {
    assert OpsOf([]) == [];
  }

  lemma CommitKeepsInv(db0: Db, s: System, t: TxId, acked: bool)
    requires Inv(db0, s) && Enabled(s, Commit(t, acked))
    ensures Inv(db0, Next(s, Commit(t, acked)))
  {
    var tx := s.txs[t];
    var s' := Next(s, Commit(t, acked));
    CommitIsAtomic(s.db, tx);
    ApplyKeepsWf(s.db, OpOf(tx));
    ExplainsSnoc(db0, s.history, s.db, Entry(t, OpOf(tx), AnswerOf(tx)));
    BooksRecord(s, t, OpOf(tx), AnswerOf(tx), if acked then Answered(AnswerOf(tx)) else Failed, s'.db);
    forall u | u in s'.txs
      ensures TxOk(s'.db, s'.txs[u])
    {
      CommitSpares(s.db, tx, s.txs[u]);
    }
  }

  /** A statement inside a transaction changes neither the committed tables nor the books. */
  lemma AdvanceKeepsInv(db0: Db, s: System, t: TxId, tx: Tx)
    requires Inv(db0, s) && t in s.txs && Steps(s, t, tx)
    ensures Inv(db0, Advance(s, t, tx))
  {
  }

  lemma AbortKeepsInv(db0: Db, s: System, t: TxId)
    requires Inv(db0, s) && t in s.txs
    ensures Inv(db0, End(s, t, Failed))
  {
  }

  lemma BeginKeepsInv(db0: Db, s: System, t: TxId, req: Request)
    requires Inv(db0, s) && Enabled(s, Begin(t, req))
    ensures Inv(db0, Next(s, Begin(t, req)))
  {
    if req.DecideReq? && req.a.qty <= 0 {
      RefusalKeepsInv(db0, s, t, req.a);
    } else {
      var tx := if req.DecideReq? then Deciding(req.a, Open) else Expiring(req.target, req.now, Unmarked);
      OpeningIsApart(s, t, tx);
    }
  }

  lemma OpeningIsApart(s: System, t: TxId, tx: Tx)
    requires Consistent(s) && t !in s.txs && TxOk(s.db, tx)
    requires (tx.Deciding? && tx.d.Open?)
             || (tx.Expiring? && tx.e.Unmarked? && forall u | u in s.txs :: !Inserting(s.txs[u], tx.target))
    ensures Consistent(Advance(s, t, tx))
  {
    forall u | u in s.txs
      ensures Apart(tx, s.txs[u]) && Apart(s.txs[u], tx)
    {
    }
  }

  lemma RefusalKeepsInv(db0: Db, s: System, t: TxId, a: Attempt)
    requires Inv(db0, s) && Enabled(s, Begin(t, DecideReq(a))) && a.qty <= 0
    ensures Inv(db0, Next(s, Begin(t, DecideReq(a))))
  {
    var e := Entry(t, DecideOp(a, 0, 0), InvalidQuantity);
    ExplainsSnoc(db0, s.history, s.db, e);
    BooksRefusal(s, t, a);
    assert Next(s, Begin(t, DecideReq(a))).txs == s.txs;
  }

  lemma BooksRefusal(s: System, t: TxId, a: Attempt)
    requires Books(s) && t !in s.requests && a.qty <= 0
    ensures Books(Next(s, Begin(t, DecideReq(a))))
  {
    var s' := Next(s, Begin(t, DecideReq(a)));
    var e := Entry(t, DecideOp(a, 0, 0), InvalidQuantity);
    assert s'.history == s.history + [e];
    forall u | u in s'.replies && s'.replies[u].Answered?
      ensures Recorded(s'.history, u, s'.replies[u].answer)
    {
      RecordedGrows(s.history, e, u, s'.replies[u].answer);
    }
  }

  lemma LockItemKeepsInv(db0: Db, s: System, t: TxId)
    requires Inv(db0, s) && Enabled(s, LockItem(t))
    ensures Inv(db0, Next(s, LockItem(t)))
  {
    var a := s.txs[t].a;
    if a.item in s.db.items {
      var tx := Deciding(a, Locked(s.db.items[a.item].available));
      forall u | u in s.txs && u != t
        ensures Apart(tx, s.txs[u]) && Apart(s.txs[u], tx)
      {
        ApartStays(s.txs[t], tx, s.txs[u]);
      }
      AdvanceKeepsInv(db0, s, t, tx);
    } else {
      NotFoundKeepsInv(db0, s, t);
    }
  }

  lemma NotFoundKeepsInv(db0: Db, s: System, t: TxId)
    requires Inv(db0, s) && Enabled(s, LockItem(t)) && s.txs[t].a.item !in s.db.items
    ensures Inv(db0, Next(s, LockItem(t)))
  {
    var op := DecideOp(s.txs[t].a, 0, 0);
    ExplainsSnoc(db0, s.history, s.db, Entry(t, op, ItemNotFound));
    BooksRecord(s, t, op, ItemNotFound, Answered(ItemNotFound), s.db);
  }

  ghost predicate Steps(s: System, t: TxId, tx: Tx)
    requires t in s.txs
  {
    && RequestOf(tx) == RequestOf(s.txs[t])
    && TxOk(s.db, tx)
    && forall u | u in s.txs && u != t :: Apart(tx, s.txs[u]) && Apart(s.txs[u], tx)
  }

  /** A statement reads the committed tables as they are. */
  lemma StatementReads(s: System, step: Step)
    requires Wf(s.db) && Enabled(s, step) && IsStatement(step) && TxOk(s.db, s.txs[step.t])
    ensures var s' := Next(s, step);
      s' == End(s, step.t, Failed)
      || (step.t in s'.txs && s' == Advance(s, step.t, s'.txs[step.t])
          && RequestOf(s'.txs[step.t]) == RequestOf(s.txs[step.t]) && TxOk(s.db, s'.txs[step.t]))
  {
  }

  /** A statement takes only locks and ids that are free. */
  lemma StatementTakes(s: System, step: Step, u: TxId)
    requires Enabled(s, step) && IsStatement(step) && step.t in Next(s, step).txs
    requires u in s.txs && u != step.t && Apart(s.txs[step.t], s.txs[u]) && Apart(s.txs[u], s.txs[step.t])
    ensures var tx := Next(s, step).txs[step.t]; Apart(tx, s.txs[u]) && Apart(s.txs[u], tx)
  {
    var tx := Next(s, step).txs[step.t];
    assert step.Insert? ==> !Mentions(s.txs[u], step.id);
    assert step.Mark? && tx.e.Marked? ==> !LocksRow(s.txs[u], tx.target);
    assert step.Restock? ==> !LocksItem(s.txs[u], tx.e.item);
    ApartStays(s.txs[step.t], tx, s.txs[u]);
  }

  predicate IsStatement(step: Step) {
    step.Insert? || step.Lookup? || step.Decrement? || step.Mark? || step.Restock?
  }

  /** A transaction that gains only what the other does not hold stays apart from it. */
  lemma ApartStays(was: Tx, tx: Tx, other: Tx)
    requires Apart(was, other) && Apart(other, was) && RequestOf(tx) == RequestOf(was)
    requires forall i | LocksItem(tx, i) :: LocksItem(was, i) || !LocksItem(other, i)
    requires forall id | LocksRow(tx, id) :: LocksRow(was, id) || !LocksRow(other, id)
    requires forall id | Inserting(tx, id) :: Inserting(was, id) || !Mentions(other, id)
    ensures Apart(tx, other) && Apart(other, tx)
  {
    assert forall id | Mentions(tx, id) :: Mentions(was, id) || Inserting(tx, id);
  }

  lemma StatementKeepsInv(db0: Db, s: System, step: Step)
    requires Inv(db0, s) && Enabled(s, step) && IsStatement(step)
    ensures Inv(db0, Next(s, step))
  {
    var t, s' := step.t, Next(s, step);
    StatementReads(s, step);
    if s' == End(s, t, Failed) {
      AbortKeepsInv(db0, s, t);
    } else {
      forall u | u in s.txs && u != t
        ensures Apart(s'.txs[t], s.txs[u]) && Apart(s.txs[u], s'.txs[t])
      {
        StatementTakes(s, step, u);
      }
      AdvanceKeepsInv(db0, s, t, s'.txs[t]);
    }
  }

  lemma NextKeepsInv(db0: Db, s: System, step: Step)
    requires Inv(db0, s) && Enabled(s, step)
    ensures Inv(db0, Next(s, step))
  {
    match step
    case Begin(t, req) => BeginKeepsInv(db0, s, t, req);
    case LockItem(t) => LockItemKeepsInv(db0, s, t);
    case Commit(t, acked) => CommitKeepsInv(db0, s, t, acked);
    case Abort(t) => AbortKeepsInv(db0, s, t);
    case _ => StatementKeepsInv(db0, s, step);
  }

  lemma {:induction false} RunKeepsInv(db0: Db, s: System, steps: seq<Step>)
    requires Inv(db0, s) && Valid(s, steps)
    ensures Inv(db0, Run(s, steps))
    decreases |steps|
  {
    if steps != [] {
      NextKeepsInv(db0, s, steps[0]);
      RunKeepsInv(db0, Next(s, steps[0]), steps[1..]);
    }
  }

  lemma Reached(db0: Db, steps: seq<Step>)
    requires Wf(db0) && Valid(Init(db0), steps)
    ensures Inv(db0, Run(Init(db0), steps))
  {
    InitInv(db0);
    RunKeepsInv(db0, Init(db0), steps);
  }

  // ----- main results -----

  /**
   Serializability. Whatever the interleaving, the committed tables are those of running the recorded
   transactions one at a time in the order they ended.
   */
  lemma Serializable(db0: Db, steps: seq<Step>)
    requires Wf(db0) && Valid(Init(db0), steps)
    ensures Run(Init(db0), steps).db == After(db0, OpsOf(Run(Init(db0), steps).history))
  {
    Reached(db0, steps);
  }

  /** ... and every recorded answer is the one given then. */
  lemma AnswersAreSerial(db0: Db, steps: seq<Step>)
    requires Wf(db0) && Valid(Init(db0), steps)
    ensures var h := Run(Init(db0), steps).history;
      forall k | 0 <= k < |h| :: h[k].answer == AnswerAt(db0, OpsOf(h), k)
  {
    Reached(db0, steps);
  }

  /** ... and every answer a caller received is recorded, once, for what that caller asked. */
  lemma AnswersAreRecorded(db0: Db, steps: seq<Step>)
    requires Wf(db0) && Valid(Init(db0), steps)
    ensures Books(Run(Init(db0), steps))
  {
    Reached(db0, steps);
  }

  /** In every reachable state no unit is created, lost or sold twice, and the schema's bounds hold. */
  lemma NeverOversold(db0: Db, steps: seq<Step>, i: ItemId)
    requires Sound(db0) && Valid(Init(db0), steps) && i in db0.items
    ensures var db := Run(Init(db0), steps).db;
      && i in db.items
      && Stock(db, i) == Stock(db0, i)
      && 0 <= db.items[i].available <= db.items[i].total == db0.items[i].total
      && 0 <= Held(db, i) <= db0.items[i].total
  {
    Reached(db0, steps);
    var s := Run(Init(db0), steps);
    UptoConserves(db0, OpsOf(s.history), |s.history|, i);
    HeldBounds(s.db, i);
  }

  /** In no reachable state would either UPDATE items trip a CHECK constraint. */
  lemma ChecksNeverTrip(db0: Db, steps: seq<Step>, t: TxId)
    requires Sound(db0) && Valid(Init(db0), steps)
    ensures var s := Run(Init(db0), steps);
      && (Enabled(s, Decrement(t)) ==> DecrementFits(s, t))
      && (Enabled(s, Restock(t)) ==> RestockFits(s, t))
  {
    Reached(db0, steps);
    var s := Run(Init(db0), steps);
    UptoSound(db0, OpsOf(s.history), |s.history|);
    LiveTransactionFits(s, t);
  }

  lemma LiveTransactionFits(s: System, t: TxId)
    requires Sound(s.db) && Consistent(s)
    ensures Enabled(s, Decrement(t)) ==> DecrementFits(s, t)
    ensures Enabled(s, Restock(t)) ==> RestockFits(s, t)
  {
    if Enabled(s, Restock(t)) {
      ReleaseFits(s.db, s.txs[t].target);
    }
  }

  /**
   The unique index never makes an INSERT wait for another transaction's uncommitted row: two live
   decisions on one item are never both past the item lock.
   */
  lemma InsertNeverWaits(db0: Db, steps: seq<Step>, t: TxId, u: TxId)
    requires Wf(db0) && Valid(Init(db0), steps)
    ensures var s := Run(Init(db0), steps);
      (t in s.txs && u in s.txs && t != u && s.txs[t].Deciding? && s.txs[u].Deciding?
       && !s.txs[t].d.Open? && !s.txs[u].d.Open?) ==> s.txs[t].a.item != s.txs[u].a.item
  {
    Reached(db0, steps);
    var s := Run(Init(db0), steps);
    if t in s.txs && u in s.txs && t != u && s.txs[t].Deciding? && s.txs[u].Deciding? {
      var i := s.txs[t].a.item;
      assert !(LocksItem(s.txs[t], i) && LocksItem(s.txs[u], i));
    }
  }
}
