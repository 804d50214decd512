/** What a sweep does to the tables, and how many rounds empty the backlog. */
module Draining {
  import opened Sums
  import opened Tables
  import opened Database
  import opened Sweep

  lemma SweptByNone(db: Db)
    ensures Swept(db, {}) == db
  {
    assert Among(db.rows, {}) == map[];
    assert Swept(db, {}).items == db.items;
  }

  lemma QtyOneMore(db: Db, s: set<ResId>, id: ResId, i: ItemId)
    requires id in db.rows && id !in s
    ensures QtyIn(db, s + {id}, i) == QtyIn(db, s, i) + HeldWeight(i)(db.rows[id])
  {
    assert Among(db.rows, s + {id}) == Among(db.rows, s)[id := db.rows[id]];
    SumUpdate(Among(db.rows, s), id, db.rows[id], HeldWeight(i));
  }

  /** Both UPDATEs of one expiry, on top of a sweep, are the sweep with that row added. */
  lemma ReleaseExtends(db: Db, s: set<ResId>, id: ResId)
    requires id in db.rows && id !in s && db.rows[id].status.Reserved?
    ensures var d, i := Swept(db, s), db.rows[id].item;
      WithAvailable(WithExpired(d, id), i, Available(d, i) + db.rows[id].qty) == Swept(db, s + {id})
  {
    var d, i := Swept(db, s), db.rows[id].item;
    RowsExtend(db.rows, s, id);
    assert WithExpired(d, id) == d.(rows := Swept(db, s + {id}).rows);
    ItemsExtend(db, s, id);
  }

  lemma RowsExtend(rows: map<ResId, Row>, s: set<ResId>, id: ResId)
    requires id in rows && id !in s
    ensures SweptRows(rows, s)[id := rows[id].(status := Expired)] == SweptRows(rows, s + {id})
  {
  }

  /** Item j with qty more units available. */
  function Restocked(items: map<ItemId, Item>, j: ItemId, qty: int): map<ItemId, Item> {
    if j in items then items[j := items[j].(available := items[j].available + qty)] else items
  }

  lemma ItemExtends(db: Db, s: set<ResId>, id: ResId, j: ItemId)
    requires id in db.rows && id !in s && db.rows[id].status.Reserved? && j in db.items
    ensures SweptItems(db, s + {id})[j] == Restocked(SweptItems(db, s), db.rows[id].item, db.rows[id].qty)[j]
  {
    QtyOneMore(db, s, id, j);
  }

  lemma ItemsExtend(db: Db, s: set<ResId>, id: ResId)
    requires id in db.rows && id !in s && db.rows[id].status.Reserved?
    ensures SweptItems(db, s + {id}) == Restocked(SweptItems(db, s), db.rows[id].item, db.rows[id].qty)
  {
    forall j | j in db.items
      ensures SweptItems(db, s + {id})[j] == Restocked(SweptItems(db, s), db.rows[id].item, db.rows[id].qty)[j]
    {
      ItemExtends(db, s, id, j);
    }
  }

  lemma {:induction false} PartWeighsLess(rows: map<ResId, Row>, s: set<ResId>, f: Row -> int)
    requires forall id | id in rows :: f(rows[id]) >= 0
    ensures Sum(Among(rows, s), f) <= Sum(rows, f)
    decreases |rows|
  {
    if rows == map[] {
      assert Among(rows, s) == map[];
    } else {
      var id :| id in rows;
      PartWeighsLess(rows - {id}, s, f);
      SumSplit(rows, id, f);
      if id in s {
        SumSplit(Among(rows, s), id, f);
        assert Among(rows, s) - {id} == Among(rows - {id}, s);
      } else {
        assert Among(rows, s) == Among(rows - {id}, s);
      }
    }
  }

  /** CHECK (available_inventory <= total_inventory) allows the units of row id back. */
  ghost predicate Fits(db: Db, d: Db, id: ResId) {
    id in db.rows && var i := db.rows[id].item;
    i in d.items && d.items[i].available + db.rows[id].qty <= d.items[i].total
  }

  lemma SoundFits(db: Db, s: set<ResId>, id: ResId)
    requires Sound(db) && id in db.rows && db.rows[id].status.Reserved? && id !in s
    ensures Fits(db, Swept(db, s), id)
  {
    assert RowOk(db, id);
    assert forall r | r in db.rows :: RowOk(db, r);
    var i := db.rows[id].item;
    QtyOneMore(db, s, id, i);
    PartWeighsLess(db.rows, s + {id}, HeldWeight(i));
    assert Stock(db, i) <= db.items[i].total;
  }

  /** Expiring one more row extends the sweep by that row; expiring a row again changes nothing. */
  lemma SweepStep(db: Db, s: set<ResId>, id: ResId, now: Time, at: Time)
    requires Expirable(db, id, now) && at >= now
    requires id !in s ==> Fits(db, Swept(db, s), id)
    ensures Expire(Swept(db, s), id, at).0 == Swept(db, s + {id})
  {
    var d := Swept(db, s);
    if id in s {
      assert d.rows[id].status == Expired;
      assert s + {id} == s;
    } else {
      assert d.rows[id] == db.rows[id];
      ReleaseExtends(db, s, id);
    }
  }

  /** Each of the first n of ops that releases a row finds room for its units. */
  ghost predicate Fitting(db: Db, s: set<ResId>, ops: seq<Op>, n: nat)
    requires n <= |ops|
  {
    n == 0
    || (Fitting(db, s, ops, n - 1)
        && (ops[n - 1].ExpireOp? && ops[n - 1].id !in Named(s, ops, n - 1) ==>
              Fits(db, Swept(db, Named(s, ops, n - 1)), ops[n - 1].id)))
  }

  lemma {:induction false} SoundIsFitting(db: Db, s: set<ResId>, now: Time, ops: seq<Op>, n: nat)
    requires Sound(db) && n <= |ops| && Sweeps(db, now, ops, n)
    ensures Fitting(db, s, ops, n)
  {
    if n != 0 {
      SoundIsFitting(db, s, now, ops, n - 1);
      if ops[n - 1].id !in Named(s, ops, n - 1) {
        SoundFits(db, Named(s, ops, n - 1), ops[n - 1].id);
      }
    }
  }

  lemma {:induction false} FittingSweeps(db: Db, s: set<ResId>, now: Time, ops: seq<Op>, n: nat)
    requires n <= |ops| && Sweeps(db, now, ops, n) && Fitting(db, s, ops, n)
    ensures Upto(Swept(db, s), ops, n) == Swept(db, Named(s, ops, n))
  {
    if n != 0 {
      FittingSweeps(db, s, now, ops, n - 1);
      SweepStep(db, Named(s, ops, n - 1), ops[n - 1].id, now, ops[n - 1].now);
    }
  }

  /**
   Order and duplicates do not matter: on top of an earlier sweep, after any prefix of the workers'
   transactions the tables are exactly those with the rows named so far expired as well.
   */
  lemma SweepIsNamed(db: Db, s: set<ResId>, now: Time, ops: seq<Op>, n: nat)
    requires Sound(db) && n <= |ops| && Sweeps(db, now, ops, n)
    ensures Upto(Swept(db, s), ops, n) == Swept(db, Named(s, ops, n))
  {
    SoundIsFitting(db, s, now, ops, n);
    FittingSweeps(db, s, now, ops, n);
  }

  lemma {:induction false} NamedAdds(s: set<ResId>, ops: seq<Op>, n: nat)
    requires n <= |ops|
    ensures Named(s, ops, n) == s + Named({}, ops, n)
  {
    if n != 0 {
      NamedAdds(s, ops, n - 1);
    }
  }

  lemma {:induction false} DistinctSize(ids: seq<ResId>)
    requires forall j, k | 0 <= j < k < |ids| :: ids[j] != ids[k]
    ensures |AsSet(ids)| == |ids|
  {
    if ids != [] {
      var n := |ids| - 1;
      DistinctSize(ids[..n]);
      assert AsSet(ids) == AsSet(ids[..n]) + {ids[n]};
    }
  }

  /** A scan returns all expired rows, or the limit of them. */
  lemma ScanSize(db: Db, now: Time, limit: int, ids: seq<ResId>)
    requires IsScan(db, now, limit, ids)
    ensures AsSet(ids) <= ExpiredRows(db, now)
    ensures |AsSet(ids)| == if |ExpiredRows(db, now)| <= limit then |ExpiredRows(db, now)| else limit
  {
    DistinctSize(ids);
    var rest := ExpiredRows(db, now) - AsSet(ids);
    assert |AsSet(ids)| + |rest| == |ExpiredRows(db, now)| by {
      assert AsSet(ids) + rest == ExpiredRows(db, now);
    }
    if rest == {} {
      assert AsSet(ids) == ExpiredRows(db, now);
    } else {
      var id :| id in rest;
      assert Expirable(db, id, now) && id !in ids;
    }
  }

  /** What is left to expire after a sweep, seen at any time at which nothing new has fallen due. */
  lemma LeftToExpire(db: Db, now: Time, at: Time, s: set<ResId>)
    requires NoNewlyDue(db, now, at)
    ensures ExpiredRows(Swept(db, s), at) == ExpiredRows(db, now) - s
  {
    forall id
      ensures Expirable(Swept(db, s), id, at) <==> Expirable(db, id, now) && id !in s
    {
      assert Expirable(db, id, now) ==> Expirable(db, id, at);
    }
  }

  /** Rows due after a sweep were due before it. */
  lemma {:induction false} SweepsBefore(db: Db, s: set<ResId>, now: Time, at: Time, ops: seq<Op>, n: nat)
    requires NoNewlyDue(db, now, at) && n <= |ops| && Sweeps(Swept(db, s), at, ops, n)
    ensures Sweeps(db, now, ops, n)
  {
    if n != 0 {
      SweepsBefore(db, s, now, at, ops, n - 1);
      assert Expirable(db, ops[n - 1].id, at);
    }
  }

  lemma RoundEffect(db: Db, now: Time, limit: int, r: Round, gone: set<ResId>)
    requires Sound(db) && IsRound(Swept(db, gone), limit, r) && NoNewlyDue(db, now, r.at)
    ensures After(Swept(db, gone), r.ops) == Swept(db, gone + Hit(r))
  {
    SweepsBefore(db, gone, now, r.at, r.ops, |r.ops|);
    SweepIsNamed(db, gone, now, r.ops, |r.ops|);
    NamedAdds(gone, r.ops, |r.ops|);
  }

  lemma RoundCounts(d: Db, at: Time, limit: int, ids: seq<ResId>, gone: set<ResId>, all: set<ResId>, quota: int)
    requires limit > 0 && IsScan(d, at, limit, ids) && ExpiredRows(d, at) == all - gone
    requires gone <= all && |gone| == Least(|all|, quota)
    ensures gone + AsSet(ids) <= all && |gone + AsSet(ids)| == Least(|all|, quota + limit)
  {
    ScanSize(d, at, limit, ids);
    assert |all - gone| == |all| - |gone|;
    assert |gone + AsSet(ids)| == |gone| + |AsSet(ids)|;
  }

  /** A scan of what is left takes the earliest of it. */
  lemma RoundTakesEarliest(db: Db, at: Time, limit: int, ids: seq<ResId>, gone: set<ResId>, x: ResId, y: ResId)
    requires IsScan(Swept(db, gone), at, limit, ids) && x in ids && y !in ids
    requires Expirable(Swept(db, gone), y, at)
    ensures Due(db, x) <= Due(db, y)
  {
    var k :| 0 <= k < |ids| && ids[k] == x;
    assert Expirable(Swept(db, gone), ids[k], at);
    assert Due(Swept(db, gone), ids[k]) <= Due(Swept(db, gone), y);
  }

  /** A scan takes the earliest of what is left, as many as its limit. */
  lemma ScanDrains(db: Db, now: Time, limit: int, at: Time, ids: seq<ResId>, gone: set<ResId>, quota: int)
    requires limit > 0 && NoNewlyDue(db, now, at) && IsScan(Swept(db, gone), at, limit, ids)
    requires Drained(db, ExpiredRows(db, now), gone, quota)
    ensures Drained(db, ExpiredRows(db, now), gone + AsSet(ids), quota + limit)
  {
    var all := ExpiredRows(db, now);
    LeftToExpire(db, now, at, gone);
    RoundCounts(Swept(db, gone), at, limit, ids, gone, all, quota);
    forall x, y | x in gone + AsSet(ids) && y in all - (gone + AsSet(ids))
      ensures Due(db, x) <= Due(db, y)
    {
      if x !in gone {
        assert y in ExpiredRows(Swept(db, gone), at);
        RoundTakesEarliest(db, at, limit, ids, gone, x, y);
      }
    }
  }

  /** A round, clean or not, expires only rows of the backlog; a clean one as many as its limit allows. */
  lemma RoundProgress(db: Db, now: Time, limit: int, r: Round, gone: set<ResId>, quota: int)
    requires limit > 0 && NoNewlyDue(db, now, r.at) && IsRound(Swept(db, gone), limit, r)
    requires Progress(ExpiredRows(db, now), gone, quota)
    ensures Progress(ExpiredRows(db, now), gone + Hit(r), quota + if Clean(r) then limit else 0)
  {
    var all := ExpiredRows(db, now);
    LeftToExpire(db, now, r.at, gone);
    ScanSize(Swept(db, gone), r.at, limit, r.found);
    assert |all - gone| == |all| - |gone|;
    assert |gone + Hit(r)| == |gone| + |Hit(r)|;
  }

  /** The limits of all the clean rounds together. */
  ghost function Allowance(rounds: seq<Round>, limit: int): int {
    if rounds == [] then 0 else (if Clean(rounds[0]) then limit else 0) + Allowance(rounds[1..], limit)
  }

  lemma {:induction false} AllowanceIsProduct(rounds: seq<Round>, limit: int)
    ensures Allowance(rounds, limit) == CleanRounds(rounds) * limit
  {
    if rounds != [] {
      AllowanceIsProduct(rounds[1..], limit);
      var n := CleanRounds(rounds[1..]);
      assert (n + 1) * limit == n * limit + limit;
    }
  }

  /** The same rounds, each starting from the sweep that those before it amount to. */
  ghost predicate Follow(db: Db, now: Time, limit: int, gone: set<ResId>, rounds: seq<Round>)
    decreases |rounds|
  {
    rounds == [] || (IsRound(Swept(db, gone), limit, rounds[0]) && NoNewlyDue(db, now, rounds[0].at)
                     && Follow(db, now, limit, gone + Hit(rounds[0]), rounds[1..]))
  }

  lemma {:induction false} RoundsSweep(db: Db, now: Time, limit: int, rounds: seq<Round>, gone: set<ResId>)
    requires Sound(db) && AreRounds(limit, Swept(db, gone), rounds) && NothingNew(db, now, rounds)
    ensures AfterRounds(Swept(db, gone), rounds) == Swept(db, Gone(gone, rounds))
    ensures Follow(db, now, limit, gone, rounds)
    decreases |rounds|
  {
    if rounds != [] {
      RoundEffect(db, now, limit, rounds[0], gone);
      RoundsSweep(db, now, limit, rounds[1..], gone + Hit(rounds[0]));
    }
  }

  /** gone is part of the backlog, and at least as much of it as the quota. */
  ghost predicate Progress(all: set<ResId>, gone: set<ResId>, quota: int) {
    gone <= all && |gone| >= Least(|all|, quota)
  }

  lemma {:induction false} RoundsProgress(db: Db, now: Time, limit: int, rounds: seq<Round>,
                                          gone: set<ResId>, quota: int)
    requires limit > 0 && Follow(db, now, limit, gone, rounds) && Progress(ExpiredRows(db, now), gone, quota)
    ensures Progress(ExpiredRows(db, now), Gone(gone, rounds), quota + Allowance(rounds, limit))
    decreases |rounds|
  {
    if rounds != [] {
      var r := rounds[0];
      RoundProgress(db, now, limit, r, gone, quota);
      RoundsProgress(db, now, limit, rounds[1..], gone + Hit(r), quota + if Clean(r) then limit else 0);
    }
  }

  lemma {:induction false} CleanRoundsDrain(db: Db, now: Time, limit: int, rounds: seq<Round>,
                                            gone: set<ResId>, quota: int)
    requires limit > 0 && Follow(db, now, limit, gone, rounds) && CleanRounds(rounds) == |rounds|
    requires Drained(db, ExpiredRows(db, now), gone, quota)
    ensures Drained(db, ExpiredRows(db, now), Gone(gone, rounds), quota + Allowance(rounds, limit))
    decreases |rounds|
  {
    if rounds != [] {
      var r := rounds[0];
      FirstIsClean(rounds);
      ScanDrains(db, now, limit, r.at, r.found, gone, quota);
      CleanRoundsDrain(db, now, limit, rounds[1..], gone + Hit(r), quota + limit);
    }
  }

  lemma {:induction false} CleanAtMost(rounds: seq<Round>)
    ensures CleanRounds(rounds) <= |rounds|
  {
    if rounds != [] {
      CleanAtMost(rounds[1..]);
    }
  }

  lemma FirstIsClean(rounds: seq<Round>)
    requires rounds != [] && CleanRounds(rounds) == |rounds|
    ensures Clean(rounds[0]) && CleanRounds(rounds[1..]) == |rounds[1..]|
  {
    CleanAtMost(rounds[1..]);
  }

  // ----- main results -----

  /** Whatever calls fail, rounds leave the tables as if the rows they hit had expired at once: nothing else changes. */
  lemma RoundsHitRows(db: Db, now: Time, limit: int, rounds: seq<Round>)
    requires Sound(db) && AreRounds(limit, db, rounds) && NothingNew(db, now, rounds)
    ensures AfterRounds(db, rounds) == Swept(db, Gone({}, rounds))
  {
    SweptByNone(db);
    RoundsSweep(db, now, limit, rounds, {});
  }

  /**
   With n expired rows, k rounds without failures expire exactly min(n, k * limit) of them, the
   earliest-expiring ones.
   */
  lemma RoundsExpireOldest(db: Db, now: Time, limit: int, rounds: seq<Round>)
    requires Sound(db) && limit > 0 && AreRounds(limit, db, rounds) && NothingNew(db, now, rounds)
    requires CleanRounds(rounds) == |rounds|
    ensures Drained(db, ExpiredRows(db, now), Gone({}, rounds), |rounds| * limit)
  {
    SweptByNone(db);
    RoundsSweep(db, now, limit, rounds, {});
    CleanBacklogDrains(db, now, limit, rounds);
  }

  lemma CleanBacklogDrains(db: Db, now: Time, limit: int, rounds: seq<Round>)
    requires limit > 0 && Follow(db, now, limit, {}, rounds) && CleanRounds(rounds) == |rounds|
    ensures Drained(db, ExpiredRows(db, now), Gone({}, rounds), |rounds| * limit)
  {
    CleanRoundsDrain(db, now, limit, rounds, {}, 0);
    AllowanceIsProduct(rounds, limit);
  }

  /**
   Expiry drains: once ceil(n / limit) rounds were without failures, among any number of others, no
   expired row is left, and the tables are as if all n had expired at once.
   */
  lemma ExpiryDrains(db: Db, now: Time, limit: int, rounds: seq<Round>)
    requires Sound(db) && limit > 0 && AreRounds(limit, db, rounds) && NothingNew(db, now, rounds)
    requires CleanRounds(rounds) * limit >= |ExpiredRows(db, now)|
    ensures ExpiredRows(AfterRounds(db, rounds), now) == {}
    ensures AfterRounds(db, rounds) == Swept(db, ExpiredRows(db, now))
  {
    SweptByNone(db);
    RoundsSweep(db, now, limit, rounds, {});
    BacklogShrinks(db, now, limit, rounds);
    AllGone(db, now, Gone({}, rounds), CleanRounds(rounds) * limit);
  }

  lemma BacklogShrinks(db: Db, now: Time, limit: int, rounds: seq<Round>)
    requires limit > 0 && Follow(db, now, limit, {}, rounds)
    ensures Progress(ExpiredRows(db, now), Gone({}, rounds), CleanRounds(rounds) * limit)
  {
    RoundsProgress(db, now, limit, rounds, {}, 0);
    AllowanceIsProduct(rounds, limit);
  }

  lemma AllGone(db: Db, now: Time, gone: set<ResId>, quota: int)
    requires Progress(ExpiredRows(db, now), gone, quota) && quota >= |ExpiredRows(db, now)|
    ensures gone == ExpiredRows(db, now) && ExpiredRows(Swept(db, gone), now) == {}
  {
    LeftToExpire(db, now, now, gone);
    assert |ExpiredRows(db, now) - gone| == |ExpiredRows(db, now)| - |gone|;
    assert ExpiredRows(db, now) == gone + (ExpiredRows(db, now) - gone);
  }

  // ----- the loops themselves, with one worker -----

  /** The environment of one tick: its time, whether its scan fails, and the fault each expiry meets. */
  datatype Tick = Tick(at: Time, scanFails: bool, faults: ResId -> Fault)

  ghost predicate TookEffect(db: Db, op: Op, fault: Fault)
    requires op.ExpireOp?
  {
    ExpiryHits(db, op.id, op.now, fault) ==> fault.AckLost?
  }

  /** Of the expiries of the first n ids, one after another, those that took effect. */
  ghost function Effects(db: Db, ids: seq<ResId>, t: Tick, n: nat): seq<Op>
    requires n <= |ids|
  {
    if n == 0 then [] else
      var ops := Effects(db, ids, t, n - 1);
      var op := ExpireOp(ids[n - 1], t.at);
      if TookEffect(After(db, ops), op, t.faults(ids[n - 1])) then ops + [op] else ops
  }

  lemma {:induction false} EffectsSweep(db: Db, d: Db, ids: seq<ResId>, t: Tick, n: nat)
    requires n <= |ids| && forall k | 0 <= k < n :: Expirable(db, ids[k], t.at)
    ensures Sweeps(db, t.at, Effects(d, ids, t, n), |Effects(d, ids, t, n)|)
  {
    if n != 0 {
      EffectsSweep(db, d, ids, t, n - 1);
      var ops := Effects(d, ids, t, n - 1);
      SweepsSnoc(db, t.at, ops, ExpireOp(ids[n - 1], t.at), |ops|);
    }
  }

  lemma {:induction false} EffectsHit(d: Db, ids: seq<ResId>, t: Tick, n: nat)
    requires n <= |ids|
    ensures var hit := Named({}, Effects(d, ids, t, n), |Effects(d, ids, t, n)|);
      hit <= AsSet(ids[..n]) && ((forall id :: t.faults(id).NoFault?) ==> hit == AsSet(ids[..n]))
  {
    if n != 0 {
      EffectsHit(d, ids, t, n - 1);
      var ops, op := Effects(d, ids, t, n - 1), ExpireOp(ids[n - 1], t.at);
      NamedSnoc(ops, op, |ops|);
      assert Named({}, ops + [op], |ops + [op]|) == Named({}, ops, |ops|) + {ids[n - 1]};
      assert ids[..n] == ids[..n - 1] + [ids[n - 1]];
      assert AsSet(ids[..n]) == AsSet(ids[..n - 1]) + {ids[n - 1]};
    }
  }

  lemma {:induction false} SweepsSnoc(db: Db, now: Time, ops: seq<Op>, op: Op, n: nat)
    requires n <= |ops|
    ensures Sweeps(db, now, ops + [op], n) == Sweeps(db, now, ops, n)
  {
    if n != 0 {
      SweepsSnoc(db, now, ops, op, n - 1);
    }
  }

  lemma {:induction false} NamedSnoc(ops: seq<Op>, op: Op, n: nat)
    requires n <= |ops|
    ensures Named({}, ops + [op], n) == Named({}, ops, n)
  {
    if n != 0 {
      NamedSnoc(ops, op, n - 1);
    }
  }

  lemma {:induction false} RoundsSnoc(limit: int, d: Db, rounds: seq<Round>, r: Round)
    requires AreRounds(limit, d, rounds) && IsRound(AfterRounds(d, rounds), limit, r)
    ensures AreRounds(limit, d, rounds + [r])
    ensures AfterRounds(d, rounds + [r]) == After(AfterRounds(d, rounds), r.ops)
    decreases |rounds|
  {
    if rounds != [] {
      RoundsSnoc(limit, After(d, rounds[0].ops), rounds[1..], r);
      assert (rounds + [r])[1..] == rounds[1..] + [r];
    } else {
      assert AfterRounds(After(d, r.ops), []) == After(d, r.ops);
    }
  }

  ghost function RoundOf(d: Db, t: Tick, ids: seq<ResId>): Round {
    Round(t.at, ids, Effects(d, ids, t, |ids|))
  }

  lemma TickIsRound(limit: int, d: Db, rounds: seq<Round>, t: Tick, ids: seq<ResId>)
    requires AreRounds(limit, d, rounds) && IsScan(AfterRounds(d, rounds), t.at, limit, ids)
    ensures var r := RoundOf(AfterRounds(d, rounds), t, ids);
      && AreRounds(limit, d, rounds + [r])
      && AfterRounds(d, rounds + [r]) == After(AfterRounds(d, rounds), r.ops)
      && ((forall id :: t.faults(id).NoFault?) ==> Clean(r))
  {
    var d' := AfterRounds(d, rounds);
    EffectsSweep(d', d', ids, t, |ids|);
    EffectsHit(d', ids, t, |ids|);
    assert ids[..|ids|] == ids;
    RoundsSnoc(limit, d, rounds, RoundOf(d', t, ids));
  }

  /** The worker's loop over one batch: a call that fails is logged, and the next id is taken. */
  method ExpireAll(pg: Postgres, ids: seq<ResId>, t: Tick)
    modifies pg
    ensures pg.View() == After(old(pg.View()), Effects(old(pg.View()), ids, t, |ids|))
  {
    ghost var db := pg.View();
    var k := 0;
    while k < |ids|
      invariant 0 <= k <= |ids|
      invariant pg.View() == After(db, Effects(db, ids, t, k))
    {
      AfterSnoc(db, Effects(db, ids, t, k), ExpireOp(ids[k], t.at));
      var _ := pg.ExpireReservation(ids[k], t.at, t.faults(ids[k]));
      k := k + 1;
    }
  }

  ghost predicate Unhindered(t: Tick) {
    !t.scanFails && forall id :: t.faults(id).NoFault?
  }

  /** How many of the first n ticks meet no failure at all. */
  ghost function UnhinderedTicks(ticks: seq<Tick>, n: nat): nat
    requires n <= |ticks|
  {
    if n == 0 then 0 else UnhinderedTicks(ticks, n - 1) + if Unhindered(ticks[n - 1]) then 1 else 0
  }

  /** When the successful scans among the first n ticks take place. */
  function ScanTimes(ticks: seq<Tick>, n: nat): seq<Time>
    requires n <= |ticks|
  {
    if n == 0 then [] else ScanTimes(ticks, n - 1) + if ticks[n - 1].scanFails then [] else [ticks[n - 1].at]
  }

  function Times(rounds: seq<Round>): seq<Time> {
    seq(|rounds|, k requires 0 <= k < |rounds| => rounds[k].at)
  }

  lemma {:induction false} CleanSnoc(rounds: seq<Round>, r: Round)
    ensures CleanRounds(rounds + [r]) == CleanRounds(rounds) + if Clean(r) then 1 else 0
    ensures Times(rounds + [r]) == Times(rounds) + [r.at]
  {
    if rounds != [] {
      CleanSnoc(rounds[1..], r);
      assert (rounds + [r])[1..] == rounds[1..] + [r];
    }
  }

  /** The rounds that the ticks so far amount to. */
  ghost predicate AreTicks(limit: int, d: Db, rounds: seq<Round>, ticks: seq<Tick>, n: nat)
    requires n <= |ticks|
  {
    && AreRounds(limit, d, rounds)
    && Times(rounds) == ScanTimes(ticks, n)
    && CleanRounds(rounds) >= UnhinderedTicks(ticks, n)
  }

  lemma ScanningTick(limit: int, d: Db, rounds: seq<Round>, ticks: seq<Tick>, n: nat, ids: seq<ResId>)
    requires n < |ticks| && AreTicks(limit, d, rounds, ticks, n) && !ticks[n].scanFails
    requires IsScan(AfterRounds(d, rounds), ticks[n].at, limit, ids)
    ensures var r := RoundOf(AfterRounds(d, rounds), ticks[n], ids);
      && AreTicks(limit, d, rounds + [r], ticks, n + 1)
      && AfterRounds(d, rounds + [r]) == After(AfterRounds(d, rounds), r.ops)
  {
    TickIsRound(limit, d, rounds, ticks[n], ids);
    CleanSnoc(rounds, RoundOf(AfterRounds(d, rounds), ticks[n], ids));
  }

  /** The scanner's loop: its ticks are rounds, and those that meet no failure are clean. */
  method RunScanner(pg: Postgres, ticks: seq<Tick>, limit: int) returns (ghost rounds: seq<Round>)
    modifies pg
    ensures limit <= 0 ==> pg.View() == old(pg.View())
    ensures limit > 0 ==> AreTicks(limit, old(pg.View()), rounds, ticks, |ticks|)
    ensures limit > 0 ==> pg.View() == AfterRounds(old(pg.View()), rounds)
  {
    ghost var db := pg.View();
    rounds := [];
    var n := 0;
    while n < |ticks|
      invariant 0 <= n <= |ticks|
      invariant limit <= 0 ==> pg.View() == db
      invariant limit > 0 ==> AreTicks(limit, db, rounds, ticks, n) && pg.View() == AfterRounds(db, rounds)
    {
      var found := pg.FindExpiredReservations(ticks[n].at, limit, ticks[n].scanFails);
      if found.Some? {
        ScanningTick(limit, db, rounds, ticks, n, found.value);
        rounds := rounds + [RoundOf(pg.View(), ticks[n], found.value)];
        ExpireAll(pg, found.value, ticks[n]);
      }
      n := n + 1;
    }
  }
}
