/** internal/reconcile: overwriting the fast path's counters with what Postgres says. */
module Reconcile {
  import opened Sums
  import opened Tables
  import opened Database
  import opened FastPath

  /** What goes wrong with one item: reading it from Postgres, or the SET in Redis. */
  datatype ItemFault = ReadFails | SetSuffers(net: Net)

  datatype Failing = ItemMissing | ReadError | SeedError

  datatype Outcome = Outcome(item: ItemId, available: int, err: Option<Failing>)

  /** reconcile.Item: what it leaves in Redis, and what it returns. */
  function ReconcileItem(db: Db, r: Redis, id: ItemId, f: ItemFault): (Redis, Outcome) {
    if f.ReadFails? then (r, Outcome(id, 0, Some(ReadError)))
    else if id !in db.items then (r, Outcome(id, 0, Some(ItemMissing)))
    else
      var n := db.items[id].available;
      if n < 0 || f.net.LostBefore? then (r, Outcome(id, 0, Some(SeedError)))
      else (Seed(r, id, n), if f.net.Ok? then Outcome(id, n, None) else Outcome(id, 0, Some(SeedError)))
  }

  /** Redis after the first n of ids. */
  function Reconciled(db: Db, r: Redis, ids: seq<ItemId>, faults: ItemId -> ItemFault, n: nat): Redis
    requires n <= |ids|
  {
    if n == 0 then r else ReconcileItem(db, Reconciled(db, r, ids, faults, n - 1), ids[n - 1], faults(ids[n - 1])).0
  }

  function OutcomeAt(db: Db, r: Redis, ids: seq<ItemId>, faults: ItemId -> ItemFault, k: nat): Outcome
    requires k < |ids|
  {
    ReconcileItem(db, Reconciled(db, r, ids, faults, k), ids[k], faults(ids[k])).1
  }

  predicate Active(db: Db, id: ItemId) {
    id in db.items && (db.items[id].sale.Scheduled? || db.items[id].sale.OnSale?)
  }

  ghost predicate Ascending(ids: seq<ItemId>) {
    forall j, k | 0 <= j < k < |ids| :: ids[j] < ids[k]
  }

  /** SELECT id ... WHERE status IN ('scheduled', 'on_sale') ORDER BY id. */
  ghost predicate IsListing(db: Db, ids: seq<ItemId>) {
    Ascending(ids) && forall id :: id in ids <==> Active(db, id)
  }

  method ActiveItemIDs(db: Postgres) returns (ids: seq<ItemId>)
    ensures IsListing(db.View(), ids)
  {
    ids := [];
    var left := set id | id in db.items && Active(db.View(), id);
    while left != {}
      invariant Listing(db.View(), ids, left)
      decreases left
    {
      LeastExists(left);
      assert exists id :: id in left && forall o | o in left :: id <= o by {
        var id :| id in left && IsLeast(left, id);
      }
      var id :| id in left && forall o | o in left :: id <= o;
      ListStep(db.View(), ids, left, id);
      ids := ids + [id];
      left := left - {id};
    }
  }

  /** ids are the lowest active items, in order, and left are the others. */
  ghost predicate Listing(db: Db, ids: seq<ItemId>, left: set<ItemId>) {
    && Ascending(ids)
    && (forall id :: Active(db, id) <==> id in left || id in ids)
    && (forall id, o | id in left && o in ids :: o < id)
  }

  lemma ListStep(db: Db, ids: seq<ItemId>, left: set<ItemId>, id: ItemId)
    requires Listing(db, ids, left) && id in left && IsLeast(left, id)
    ensures Listing(db, ids + [id], left - {id})
  {
    assert forall o :: o in ids + [id] <==> o in ids || o == id;
    forall x, o | x in left - {id} && o in ids + [id]
      ensures o < x
    {
      assert x in left && (o in ids || o == id);
    }
    forall k | 0 <= k < |ids|
      ensures ids[k] < id
    {
      assert ids[k] in ids;
    }
  }

  ghost predicate IsLeast(s: set<ItemId>, m: ItemId) {
    forall o | o in s :: m <= o
  }

  lemma {:induction false} LeastExists(s: set<ItemId>)
    requires s != {}
    ensures exists m :: m in s && IsLeast(s, m)
    decreases s
  {
    var id :| id in s;
    var rest := s - {id};
    if rest == {} {
      assert s == {id};
      assert IsLeast(s, id);
    } else {
      LeastExists(rest);
      var m :| m in rest && IsLeast(rest, m);
      var w := if id < m then id else m;
      assert IsLeast(s, w) by {
        forall o | o in s
          ensures w <= o
        {
          assert o == id || o in rest;
        }
      }
    }
  }

  method Item(db: Postgres, redis: RedisStore, id: ItemId, f: ItemFault) returns (out: Outcome)
    modifies redis
    ensures (redis.View(), out) == ReconcileItem(db.View(), old(redis.View()), id, f)
  {
    if f.ReadFails? {
      return Outcome(id, 0, Some(ReadError));
    }
    if id !in db.items {
      return Outcome(id, 0, Some(ItemMissing));
    }
    var available := db.items[id].available;
    var ok := redis.SeedInventory(id, available, f.net);
    if !ok {
      return Outcome(id, 0, Some(SeedError));
    }
    return Outcome(id, available, None);
  }

  /** reconcile.All; faults says what strikes each item, and None is a failure to list the items at all. */
  method All(db: Postgres, redis: RedisStore, listFails: bool, faults: ItemId -> ItemFault)
      returns (outcomes: Option<seq<Outcome>>, ghost ids: seq<ItemId>)
    modifies redis
    ensures IsListing(db.View(), ids)
    ensures listFails ==> outcomes.None? && redis.View() == old(redis.View())
    ensures !listFails ==> outcomes.Some? && |outcomes.value| == |ids|
    ensures !listFails ==> redis.View() == Reconciled(db.View(), old(redis.View()), ids, faults, |ids|)
    ensures !listFails ==>
              forall k | 0 <= k < |ids| :: outcomes.value[k] == OutcomeAt(db.View(), old(redis.View()), ids, faults, k)
  {
    var active := ActiveItemIDs(db);
    ids := active;
    if listFails {
      return None, ids;
    }
    var outs := [];
    var k := 0;
    while k < |active|
      invariant 0 <= k == |outs| <= |ids|
      invariant redis.View() == Reconciled(db.View(), old(redis.View()), ids, faults, k)
      invariant forall j | 0 <= j < k :: outs[j] == OutcomeAt(db.View(), old(redis.View()), ids, faults, j)
    {
      var out := Item(db, redis, active[k], faults(active[k]));
      outs := outs + [out];
      k := k + 1;
    }
    return Some(outs), ids;
  }

  // ----- what a pass achieves -----

  /** Items outside the first n are untouched; those inside whose outcome has no error agree with Postgres. */
  lemma {:induction false} PassAgrees(db: Db, r: Redis, ids: seq<ItemId>, faults: ItemId -> ItemFault,
                                      n: nat, i: ItemId)
    requires n <= |ids| && Ascending(ids)
    ensures var r' := Reconciled(db, r, ids, faults, n);
      && r'.tokens == r.tokens
      && (i !in ids[..n] ==> (i in r'.counters <==> i in r.counters) && Counter(r', i) == Counter(r, i))
      && (forall k | 0 <= k < n && ids[k] == i && OutcomeAt(db, r, ids, faults, k).err.None? ::
            i in db.items && i in r'.counters && r'.counters[i] == db.items[i].available
            && OutcomeAt(db, r, ids, faults, k).available == db.items[i].available)
  {
    if n != 0 {
      PassAgrees(db, r, ids, faults, n - 1, i);
      assert ids[..n] == ids[..n - 1] + [ids[n - 1]];
    }
  }

  /**
   One pass from any drifted Redis: one outcome per active item, in order; every item whose outcome has
   no error is now in Redis what it is in Postgres; every other item's counter is untouched.
   */
  lemma PassReconciles(db: Db, r: Redis, ids: seq<ItemId>, faults: ItemId -> ItemFault, i: ItemId)
    requires IsListing(db, ids)
    ensures var r' := Reconciled(db, r, ids, faults, |ids|);
      && (forall k | 0 <= k < |ids| :: OutcomeAt(db, r, ids, faults, k).item == ids[k])
      && (!Active(db, i) ==> (i in r'.counters <==> i in r.counters) && Counter(r', i) == Counter(r, i))
      && (forall k | 0 <= k < |ids| && ids[k] == i && OutcomeAt(db, r, ids, faults, k).err.None? ::
            i in r'.counters && r'.counters[i] == db.items[i].available)
  {
    PassAgrees(db, r, ids, faults, |ids|, i);
    assert ids[..|ids|] == ids;
  }

  /** A pass without errors leaves nothing for another pass to change. */
  lemma PassIsIdempotent(db: Db, r: Redis, ids: seq<ItemId>, faults: ItemId -> ItemFault, more: ItemId -> ItemFault)
    requires IsListing(db, ids)
    requires forall k | 0 <= k < |ids| :: OutcomeAt(db, r, ids, faults, k).err.None?
    ensures var r' := Reconciled(db, r, ids, faults, |ids|);
      Reconciled(db, r', ids, more, |ids|) == r'
  {
    var r' := Reconciled(db, r, ids, faults, |ids|);
    forall k | 0 <= k < |ids|
      ensures ids[k] in db.items && ids[k] in r'.counters && r'.counters[ids[k]] == db.items[ids[k]].available
    {
      PassAgrees(db, r, ids, faults, |ids|, ids[k]);
    }
    SettledStays(db, r', ids, more, |ids|);
  }

  lemma {:induction false} SettledStays(db: Db, r: Redis, ids: seq<ItemId>, faults: ItemId -> ItemFault, n: nat)
    requires n <= |ids|
    requires forall k | 0 <= k < |ids| ::
               ids[k] in db.items && ids[k] in r.counters && r.counters[ids[k]] == db.items[ids[k]].available
    ensures Reconciled(db, r, ids, faults, n) == r
  {
    if n != 0 {
      SettledStays(db, r, ids, faults, n - 1);
      assert r.counters[ids[n - 1] := r.counters[ids[n - 1]]] == r.counters;
    }
  }

  // ----- when an outcome has no error -----

  /** One item, exactly: which fault gives which error, and when the counter is overwritten nevertheless. */
  lemma ItemExactly(db: Db, r: Redis, id: ItemId, f: ItemFault)
    requires Wf(db)
    ensures var (r', out) := ReconcileItem(db, r, id, f);
      && out.item == id
      && (out.err == None <==> id in db.items && f == SetSuffers(Net.Ok))
      && (out.err == Some(ReadError) <==> f == ReadFails)
      && (out.err == Some(ItemMissing) <==> f != ReadFails && id !in db.items)
      && (out.err == None ==> out.available == db.items[id].available)
      && r'.tokens == r.tokens
      && r'.counters == if id in db.items && (f == SetSuffers(Net.Ok) || f == SetSuffers(LostAfter))
                        then r.counters[id := db.items[id].available] else r.counters
  {
  }

  /** In a pass, an item's outcome has no error exactly if it exists, its read works and its SET is answered. */
  lemma OutcomeExactly(db: Db, r: Redis, ids: seq<ItemId>, faults: ItemId -> ItemFault, k: nat)
    requires Wf(db) && k < |ids|
    ensures var out := OutcomeAt(db, r, ids, faults, k);
      && out.item == ids[k]
      && (out.err == None <==> ids[k] in db.items && faults(ids[k]) == SetSuffers(Net.Ok))
      && (out.err == None ==> out.available == db.items[ids[k]].available)
  {
    ItemExactly(db, Reconciled(db, r, ids, faults, k), ids[k], faults(ids[k]));
  }

  /** After a pass, exactly the items whose SET reached Redis have Postgres's count; no other counter has changed. */
  lemma {:induction false} PassExactly(db: Db, r: Redis, ids: seq<ItemId>, faults: ItemId -> ItemFault,
                                       n: nat, i: ItemId)
    requires Wf(db) && n <= |ids|
    ensures var r' := Reconciled(db, r, ids, faults, n);
      var reached := i in ids[..n] && i in db.items
                     && (faults(i) == SetSuffers(Net.Ok) || faults(i) == SetSuffers(LostAfter));
      && (i in r'.counters <==> reached || i in r.counters)
      && (i in r'.counters ==> r'.counters[i] == if reached then db.items[i].available else r.counters[i])
  {
    if n != 0 {
      PassExactly(db, r, ids, faults, n - 1, i);
      ItemExactly(db, Reconciled(db, r, ids, faults, n - 1), ids[n - 1], faults(ids[n - 1]));
      assert ids[..n] == ids[..n - 1] + [ids[n - 1]];
    }
  }

  /** A pass that nothing disturbs makes every scheduled or on-sale item's counter Postgres's count, zero included. */
  lemma UndisturbedPassAgrees(db: Db, r: Redis, ids: seq<ItemId>, faults: ItemId -> ItemFault, i: ItemId)
    requires Wf(db) && IsListing(db, ids) && forall id :: faults(id) == SetSuffers(Net.Ok)
    requires i in db.items && (db.items[i].sale == Scheduled || db.items[i].sale == OnSale)
    ensures var r' := Reconciled(db, r, ids, faults, |ids|);
      i in r'.counters && r'.counters[i] == db.items[i].available
    ensures forall k | 0 <= k < |ids| :: OutcomeAt(db, r, ids, faults, k).err == None
  {
    PassExactly(db, r, ids, faults, |ids|, i);
    assert Active(db, i) && ids[..|ids|] == ids;
    forall k | 0 <= k < |ids|
      ensures OutcomeAt(db, r, ids, faults, k).err == None
    {
      assert Active(db, ids[k]);
      OutcomeExactly(db, r, ids, faults, k);
    }
  }

  /** The listing is the items whose sale is scheduled or on, by ascending id. */
  lemma ListingExactly(db: Db, ids: seq<ItemId>)
    requires IsListing(db, ids)
    ensures forall id ::
              id in ids <==> id in db.items && (db.items[id].sale == Scheduled || db.items[id].sale == OnSale)
    ensures forall j, k | 0 <= j < k < |ids| :: ids[j] < ids[k]
  {
    forall id
      ensures id in ids <==> id in db.items && (db.items[id].sale == Scheduled || db.items[id].sale == OnSale)
    {
      assert id in ids <==> Active(db, id);
    }
  }
}
