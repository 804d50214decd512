/**
 Rounds of expiry: a scan finds the earliest-expiring rows, and a pool of workers expires them in any
 order, perhaps some of them twice.
 */
module Sweep {
  import opened Sums
  import opened Tables
  import opened Database

  ghost function ExpiredRows(db: Db, now: Time): set<ResId> {
    set id | id in db.rows && Expirable(db, id, now)
  }

  function Among(rows: map<ResId, Row>, s: set<ResId>): map<ResId, Row> {
    map id | id in rows && id in s :: rows[id]
  }

  /** The quantity of item i held by the reserved rows in s. */
  ghost function QtyIn(db: Db, s: set<ResId>, i: ItemId): int {
    Sum(Among(db.rows, s), HeldWeight(i))
  }

  /** db with all of s expired at once: those rows, their items' units, and nothing else. */
  ghost function Swept(db: Db, s: set<ResId>): Db {
    Db(SweptItems(db, s), SweptRows(db.rows, s), db.byKey)
  }

  ghost function SweptItems(db: Db, s: set<ResId>): map<ItemId, Item> {
    map i | i in db.items :: db.items[i].(available := db.items[i].available + QtyIn(db, s, i))
  }

  function SweptRows(rows: map<ResId, Row>, s: set<ResId>): map<ResId, Row> {
    map id | id in rows :: if id in s then rows[id].(status := Expired) else rows[id]
  }

  /** s, and the rows named by the first n of ops. */
  ghost function Named(s: set<ResId>, ops: seq<Op>, n: nat): set<ResId>
    requires n <= |ops|
  {
    if n == 0 then s else Named(s, ops, n - 1) + if ops[n - 1].ExpireOp? then {ops[n - 1].id} else {}
  }

  /** The first n of ops expire only rows that were due at `now`, each at some later time of its own. */
  ghost predicate Sweeps(db: Db, now: Time, ops: seq<Op>, n: nat)
    requires n <= |ops|
  {
    n == 0
    || (ops[n - 1].ExpireOp? && ops[n - 1].now >= now && Expirable(db, ops[n - 1].id, now)
        && Sweeps(db, now, ops, n - 1))
  }

  function AsSet(ids: seq<ResId>): set<ResId> {
    set id | id in ids
  }

  /**
   One tick whose scan succeeded: the scan at time `at` found ids, and ops are those of the pool's expiries
   that took effect, in order; a call that fails leaves its row for a later tick.
   */
  datatype Round = Round(at: Time, found: seq<ResId>, ops: seq<Op>)

  ghost function Hit(r: Round): set<ResId> {
    Named({}, r.ops, |r.ops|)
  }

  ghost predicate IsRound(db: Db, limit: int, r: Round) {
    && IsScan(db, r.at, limit, r.found)
    && Sweeps(db, r.at, r.ops, |r.ops|)
    && Hit(r) <= AsSet(r.found)
  }

  /** No call of the round failed. */
  ghost predicate Clean(r: Round) {
    Hit(r) == AsSet(r.found)
  }

  ghost function CleanRounds(rounds: seq<Round>): nat {
    if rounds == [] then 0 else (if Clean(rounds[0]) then 1 else 0) + CleanRounds(rounds[1..])
  }

  /** No row of db falls due between now and at. */
  ghost predicate NoNewlyDue(db: Db, now: Time, at: Time) {
    at >= now && forall id | Expirable(db, id, at) :: Expirable(db, id, now)
  }

  ghost function AfterRounds(d: Db, rounds: seq<Round>): Db
    decreases |rounds|
  {
    if rounds == [] then d else AfterRounds(After(d, rounds[0].ops), rounds[1..])
  }

  /** Rounds that follow one another from d on. */
  ghost predicate AreRounds(limit: int, d: Db, rounds: seq<Round>)
    decreases |rounds|
  {
    rounds == [] || (IsRound(d, limit, rounds[0]) && AreRounds(limit, After(d, rounds[0].ops), rounds[1..]))
  }

  /** No row of db falls due while the rounds last. */
  ghost predicate NothingNew(db: Db, now: Time, rounds: seq<Round>) {
    rounds == [] || (NoNewlyDue(db, now, rounds[0].at) && NothingNew(db, now, rounds[1..]))
  }

  /** gone, and the rows that the rounds expire on top of it. */
  ghost function Gone(gone: set<ResId>, rounds: seq<Round>): set<ResId>
    decreases |rounds|
  {
    if rounds == [] then gone else Gone(gone + Hit(rounds[0]), rounds[1..])
  }

  function Least(a: int, b: int): int {
    if a < b then a else b
  }

  /** Of all the rows, `gone` are as many as the quota allows, and the earliest. */
  ghost predicate Drained(db: Db, all: set<ResId>, gone: set<ResId>, quota: int) {
    && gone <= all && |gone| == Least(|all|, quota)
    && forall x, y | x in gone && y in all - gone :: Due(db, x) <= Due(db, y)
  }
}
