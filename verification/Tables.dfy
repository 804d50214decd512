/**
 The items and reservations tables with their constraints, and what one committed transaction of
 decision-service (Decide) or expiry-worker (Expire) does to them when it runs alone.
 */
module Tables {
  import opened Sums

  type ItemId = nat
  type ResId = nat
  type UserId = string
  type Key = string
  type Time = int

  /** The upper bound of Postgres's INTEGER, the type of quantity and available_inventory. */
  const INT_MAX := 0x7fff_ffff

  datatype Sale = Draft | Scheduled | OnSale | SoldOut | Closed

  datatype Item = Item(total: int, available: int, sale: Sale)

  datatype Status = Pending | Reserved | Completed | Expired | Cancelled | Rejected

  datatype Row = Row(item: ItemId, user: UserId, qty: int, status: Status, key: Key, expiresAt: Option<Time>)

  /** byKey is the unique index on (item_id, idempotency_key). */
  datatype Db = Db(items: map<ItemId, Item>, rows: map<ResId, Row>, byKey: map<(ItemId, Key), ResId>)

  /** The schema's constraints: CHECKs, the foreign key, and the unique index. */
  ghost predicate Wf(db: Db) {
    && (forall i | i in db.items :: 0 <= db.items[i].available <= db.items[i].total <= INT_MAX)
    && (forall id | id in db.rows :: RowOk(db, id))
    && (forall k | k in db.byKey :: var id := db.byKey[k];
                                    id in db.rows && (db.rows[id].item, db.rows[id].key) == k)
  }

  ghost predicate RowOk(db: Db, id: ResId)
    requires id in db.rows
  {
    var r := db.rows[id];
    && r.item in db.items
    && 0 < r.qty <= INT_MAX
    && (r.status.Reserved? ==> r.expiresAt.Some?)
    && (r.item, r.key) in db.byKey && db.byKey[(r.item, r.key)] == id
  }

  datatype Attempt = Attempt(item: ItemId, user: UserId, qty: int, key: Key)

  /** What a transaction tells its caller. PgError is a statement that Postgres itself refuses. */
  datatype Answer =
    | Decision(id: ResId, status: Status, replayed: bool)
    | ItemNotFound
    | InvalidQuantity
    | Released(id: ResId, item: ItemId, qty: int)
    | NotReleased(id: ResId)
    | PgError

  /** A transaction, with the values it takes from outside: a fresh UUID, a deadline, now(). */
  datatype Op =
    | DecideOp(a: Attempt, freshId: ResId, deadline: Time)
    | ExpireOp(id: ResId, now: Time)

  function NewRow(a: Attempt, status: Status, deadline: Time): Row {
    Row(a.item, a.user, a.qty, status, a.key, if status.Reserved? then Some(deadline) else None)
  }

  /** INSERT INTO reservations, once no conflict was found. */
  function WithRow(db: Db, id: ResId, r: Row): Db {
    db.(rows := db.rows[id := r], byKey := db.byKey[(r.item, r.key) := id])
  }

  /** UPDATE items SET available_inventory = n WHERE id = i: no row, no change. */
  function WithAvailable(db: Db, i: ItemId, n: int): Db {
    if i in db.items then db.(items := db.items[i := db.items[i].(available := n)]) else db
  }

  /** UPDATE reservations SET status = 'expired' WHERE id = id: no row, no change. */
  function WithExpired(db: Db, id: ResId): Db {
    if id in db.rows then db.(rows := db.rows[id := db.rows[id].(status := Expired)]) else db
  }

  /** The WHERE clause of the expiring UPDATE. */
  predicate Expirable(db: Db, id: ResId, now: Time) {
    id in db.rows && db.rows[id].status.Reserved? && db.rows[id].expiresAt.Some? && db.rows[id].expiresAt.value < now
  }

  /** expires_at, where it is set. */
  function Due(db: Db, id: ResId): Time {
    if id in db.rows && db.rows[id].expiresAt.Some? then db.rows[id].expiresAt.value else 0
  }

  function Available(db: Db, i: ItemId): int {
    if i in db.items then db.items[i].available else 0
  }

  /** decision.ProcessAttempt as one step. */
  function Decide(db: Db, a: Attempt, freshId: ResId, deadline: Time): (Db, Answer) {
    if a.qty <= 0 then (db, InvalidQuantity)
    else if a.item !in db.items then (db, ItemNotFound)
    else if a.qty > INT_MAX then (db, PgError)
    else if (a.item, a.key) in db.byKey then
      var id := db.byKey[(a.item, a.key)];
      (db, if id in db.rows then Decision(id, db.rows[id].status, true) else PgError)
    else if freshId in db.rows then (db, PgError)
    else if Available(db, a.item) >= a.qty then
      (WithAvailable(WithRow(db, freshId, NewRow(a, Reserved, deadline)), a.item, Available(db, a.item) - a.qty),
       Decision(freshId, Reserved, false))
    else
      (WithRow(db, freshId, NewRow(a, Rejected, deadline)), Decision(freshId, Rejected, false))
  }

  /** expiry.ExpireReservation as one step. */
  function Expire(db: Db, id: ResId, now: Time): (Db, Answer) {
    if !Expirable(db, id, now) then (db, NotReleased(id))
    else
      var i, q := db.rows[id].item, db.rows[id].qty;
      var n := Available(db, i) + q;
      if i in db.items && n > db.items[i].total then (db, PgError)
      else (WithAvailable(WithExpired(db, id), i, n), Released(id, i, q))
  }

  function Apply(db: Db, op: Op): (Db, Answer) {
    match op
    case DecideOp(a, id, deadline) => Decide(db, a, id, deadline)
    case ExpireOp(id, now) => Expire(db, id, now)
  }

  /** The database after running the first n of ops one at a time. */
  function Upto(db: Db, ops: seq<Op>, n: nat): Db
    requires n <= |ops|
  {
    if n == 0 then db else Apply(Upto(db, ops, n - 1), ops[n - 1]).0
  }

  function After(db: Db, ops: seq<Op>): Db {
    Upto(db, ops, |ops|)
  }

  /** What the k-th of ops answers when they run one at a time. */
  function AnswerAt(db: Db, ops: seq<Op>, k: nat): Answer
    requires k < |ops|
  {
    Apply(Upto(db, ops, k), ops[k]).1
  }

  // ----- what the two operations answer and write, row by row -----

  /** Nothing in the tables stands in the way of deciding the attempt under this id. */
  predicate Decidable(db: Db, a: Attempt, id: ResId) {
    0 < a.qty <= INT_MAX && a.item in db.items && (a.item, a.key) !in db.byKey && id !in db.rows
  }

  /**
   A new attempt is reserved exactly if there are units enough, until exactly its deadline, and its units are
   taken; it is rejected exactly if there are not, and nothing is taken.
   */
  lemma DecideWrites(db: Db, a: Attempt, id: ResId, deadline: Time)
    requires Decidable(db, a, id)
    ensures var (d, answer) := Decide(db, a, id, deadline);
      var item := db.items[a.item];
      if item.available >= a.qty then
        && answer == Decision(id, Reserved, false)
        && d.rows == db.rows[id := Row(a.item, a.user, a.qty, Reserved, a.key, Some(deadline))]
        && d.items == db.items[a.item := Item(item.total, item.available - a.qty, item.sale)]
        && d.byKey == db.byKey[(a.item, a.key) := id]
      else
        && answer == Decision(id, Rejected, false)
        && d.rows == db.rows[id := Row(a.item, a.user, a.qty, Rejected, a.key, None)]
        && d.items == db.items
        && d.byKey == db.byKey[(a.item, a.key) := id]
  {
    var d := Decide(db, a, id, deadline).0;
    assert d.items.Keys == db.items.Keys && d.rows.Keys == db.rows.Keys + {id};
  }

  /** Any other attempt changes nothing, and is told why; a repeated one is told its row's status. */
  lemma DecideRefuses(db: Db, a: Attempt, id: ResId, deadline: Time)
    requires !Decidable(db, a, id) && Wf(db)
    ensures var (d, answer) := Decide(db, a, id, deadline);
      && d == db
      && (answer == InvalidQuantity <==> a.qty <= 0)
      && (answer == ItemNotFound <==> a.qty > 0 && a.item !in db.items)
      && (answer.Decision? <==> 0 < a.qty <= INT_MAX && a.item in db.items && (a.item, a.key) in db.byKey)
      && (answer.Decision? ==>
            answer == Decision(db.byKey[(a.item, a.key)], db.rows[db.byKey[(a.item, a.key)]].status, true))
      && (answer.InvalidQuantity? || answer.ItemNotFound? || answer.Decision? || answer.PgError?)
  {
  }

  /** A reservation expires exactly if it is overdue: its status changes, its units go back, and nothing else does. */
  lemma ExpireWrites(db: Db, id: ResId, now: Time)
    requires Sound(db)
    ensures var (d, answer) := Expire(db, id, now);
      if id in db.rows && db.rows[id].status == Reserved
         && db.rows[id].expiresAt.Some? && db.rows[id].expiresAt.value < now then
        var row := db.rows[id];
        var item := db.items[row.item];
        && answer == Released(id, row.item, row.qty)
        && d.rows == db.rows[id := Row(row.item, row.user, row.qty, Expired, row.key, row.expiresAt)]
        && d.items == db.items[row.item := Item(item.total, item.available + row.qty, item.sale)]
        && d.byKey == db.byKey
      else d == db && answer == NotReleased(id)
  {
    if Expirable(db, id, now) {
      ReleaseFits(db, id);
    }
  }

  /** Even on tables that are not sound, only what is overdue is ever released. */
  lemma OnlyOverdueReleased(db: Db, op: Op)
    requires Apply(db, op).1.Released?
    ensures op.ExpireOp? && op.id in db.rows && db.rows[op.id].status == Reserved
    ensures db.rows[op.id].expiresAt.Some? && db.rows[op.id].expiresAt.value < op.now
    ensures Apply(db, op).1 == Released(op.id, db.rows[op.id].item, db.rows[op.id].qty)
  {
  }

  /** Every operation keeps the schema's constraints, and no operation adds or removes an item. */
  lemma ApplyKeepsWf(db: Db, op: Op)
    requires Wf(db)
    ensures Wf(Apply(db, op).0) && Apply(db, op).0.items.Keys == db.items.Keys
  {
    match op
    case DecideOp(a, id, deadline) => DecideKeepsWf(db, a, id, deadline);
    case ExpireOp(id, now) => ExpireKeepsWf(db, id, now);
  }

  lemma DecideKeepsWf(db: Db, a: Attempt, id: ResId, deadline: Time)
    requires Wf(db)
    ensures Wf(Decide(db, a, id, deadline).0) && Decide(db, a, id, deadline).0.items.Keys == db.items.Keys
  {
  }

  lemma ExpireKeepsWf(db: Db, id: ResId, now: Time)
    requires Wf(db)
    ensures Wf(Expire(db, id, now).0) && Expire(db, id, now).0.items.Keys == db.items.Keys
  {
    assert id in db.rows ==> RowOk(db, id);
  }

  lemma {:induction false} UptoKeepsWf(db: Db, ops: seq<Op>, n: nat)
    requires Wf(db) && n <= |ops|
    ensures Wf(Upto(db, ops, n)) && Upto(db, ops, n).items.Keys == db.items.Keys
  {
    if n != 0 {
      UptoKeepsWf(db, ops, n - 1);
      ApplyKeepsWf(Upto(db, ops, n - 1), ops[n - 1]);
    }
  }

  lemma {:induction false} UptoPrefix(db: Db, xs: seq<Op>, ys: seq<Op>, n: nat)
    requires n <= |xs|
    ensures Upto(db, xs + ys, n) == Upto(db, xs, n)
  {
    if n != 0 {
      UptoPrefix(db, xs, ys, n - 1);
    }
  }

  lemma AfterSnoc(db: Db, ops: seq<Op>, op: Op)
    ensures After(db, ops + [op]) == Apply(After(db, ops), op).0
  {
    UptoPrefix(db, ops, [op], |ops|);
  }

  lemma AnswerAtSnoc(db: Db, ops: seq<Op>, op: Op, k: nat)
    requires k <= |ops|
    ensures AnswerAt(db, ops + [op], k) == if k < |ops| then AnswerAt(db, ops, k) else Apply(After(db, ops), op).1
  {
    UptoPrefix(db, ops, [op], k);
  }

  // ----- conservation -----

  function HeldWeight(i: ItemId): Row -> int {
    (r: Row) => if r.item == i && r.status.Reserved? then r.qty else 0
  }

  /** The quantity held by reservations of item i that are still 'reserved'. */
  ghost function Held(db: Db, i: ItemId): int {
    Sum(db.rows, HeldWeight(i))
  }

  /** Units of item i that are unsold or only provisionally sold. */
  ghost function Stock(db: Db, i: ItemId): int
    requires i in db.items
  {
    db.items[i].available + Held(db, i)
  }

  /** A database in which no item has more units provisionally out than it ever had. */
  ghost predicate Sound(db: Db) {
    Wf(db) && forall i | i in db.items :: Stock(db, i) <= db.items[i].total
  }

  lemma HeldBounds(db: Db, i: ItemId)
    requires Wf(db)
    ensures Held(db, i) >= 0
    ensures forall id | id in db.rows && db.rows[id].item == i && db.rows[id].status.Reserved? ::
              db.rows[id].qty <= Held(db, i)
  {
    assert forall id | id in db.rows :: RowOk(db, id);
    SumNonNegative(db.rows, HeldWeight(i));
    forall id | id in db.rows && db.rows[id].item == i && db.rows[id].status.Reserved?
      ensures db.rows[id].qty <= Held(db, i)
    {
      SumDominates(db.rows, id, HeldWeight(i));
    }
  }

  /** A decision moves units from available to reserved, an expiry moves them back; nothing else moves. */
  lemma ApplyConserves(db: Db, op: Op, i: ItemId)
    requires Wf(db) && i in db.items
    ensures var d := Apply(db, op).0;
      i in d.items && Stock(d, i) == Stock(db, i) && d.items[i].total == db.items[i].total
  {
    match op
    case DecideOp(a, id, deadline) => DecideConserves(db, a, id, deadline, i);
    case ExpireOp(id, now) => ExpireConserves(db, id, now, i);
  }

  lemma DecideConserves(db: Db, a: Attempt, id: ResId, deadline: Time, i: ItemId)
    requires i in db.items
    ensures var d := Decide(db, a, id, deadline).0;
      i in d.items && Stock(d, i) == Stock(db, i) && d.items[i].total == db.items[i].total
  {
    SumUpdate(db.rows, id, NewRow(a, Reserved, deadline), HeldWeight(i));
    SumUpdate(db.rows, id, NewRow(a, Rejected, deadline), HeldWeight(i));
  }

  lemma ExpireConserves(db: Db, id: ResId, now: Time, i: ItemId)
    requires i in db.items
    ensures var d := Expire(db, id, now).0;
      i in d.items && Stock(d, i) == Stock(db, i) && d.items[i].total == db.items[i].total
  {
    if Expirable(db, id, now) {
      SumUpdate(db.rows, id, db.rows[id].(status := Expired), HeldWeight(i));
    }
  }

  lemma {:induction false} UptoConserves(db: Db, ops: seq<Op>, n: nat, i: ItemId)
    requires Wf(db) && n <= |ops| && i in db.items
    ensures i in Upto(db, ops, n).items && Stock(Upto(db, ops, n), i) == Stock(db, i)
    ensures Upto(db, ops, n).items[i].total == db.items[i].total
  {
    if n != 0 {
      UptoKeepsWf(db, ops, n - 1);
      UptoConserves(db, ops, n - 1, i);
      ApplyConserves(Upto(db, ops, n - 1), ops[n - 1], i);
    }
  }

  lemma ApplySound(db: Db, op: Op)
    requires Sound(db)
    ensures Sound(Apply(db, op).0)
  {
    ApplyKeepsWf(db, op);
    forall i | i in db.items
      ensures Stock(Apply(db, op).0, i) <= Apply(db, op).0.items[i].total
    {
      ApplyConserves(db, op, i);
    }
  }

  lemma {:induction false} UptoSound(db: Db, ops: seq<Op>, n: nat)
    requires Sound(db) && n <= |ops|
    ensures Sound(Upto(db, ops, n))
  {
    if n != 0 {
      UptoSound(db, ops, n - 1);
      ApplySound(Upto(db, ops, n - 1), ops[n - 1]);
    }
  }

  /** Giving a reserved row's units back never trips CHECK (available_inventory <= total_inventory). */
  lemma ReleaseFits(db: Db, id: ResId)
    requires Sound(db) && id in db.rows && db.rows[id].status.Reserved?
    ensures var r := db.rows[id]; r.item in db.items && db.items[r.item].available + r.qty <= db.items[r.item].total
  {
    assert RowOk(db, id);
    HeldBounds(db, db.rows[id].item);
    assert Stock(db, db.rows[id].item) <= db.items[db.rows[id].item].total;
  }
}
