/**
 The worker pool drains the backlog: any schedule of its scanner and workers, as long as no call fails and no
 scan overlaps the batch before it, expires what as many rounds would.
 */
module Backlog {
  import opened Tables
  import opened Database
  import opened Sweep
  import D = Draining
  import opened Workers

  ghost predicate NothingOnTheWay(p: Pool) {
    forall id :: !OnTheWay(p, id)
  }

  /**
   No failure, no shutdown, no other service; no clock behind the last scan's; each scan finds the batch before
   it handled; and no row of db falls due after `now`.
   */
  ghost predicate Calm(p: Pool, e: Event, db: Db, now: Time) {
    match e
    case Scan(at, _) => NothingOnTheWay(p) && NoNewlyDue(db, now, at)
    case Finish(_, at, fault) => fault.NoFault? && at >= p.scannedAt
    case Cancel => false
    case Elsewhere(_) => false
    case _ => true
  }

  ghost predicate IsCalm(p: Pool, events: seq<Event>, db: Db, now: Time)
    requires IsRun(p, events)
    decreases |events|
  {
    events == [] || (Calm(p, events[0], db, now) && IsCalm(Next(p, events[0]), events[1..], db, now))
  }

  /** How many scans succeeded. */
  function Scans(events: seq<Event>): nat {
    if events == [] then 0 else (if events[0].Scan? then 1 else 0) + Scans(events[1..])
  }

  /** Not shutting down. */
  ghost predicate Serving(p: Pool) {
    !p.cancelled && !p.scanner.Stopped? && forall w | w in p.workers && p.workers[w].Busy? :: !p.workers[w].late
  }

  /**
   target is what the scans so far have found: the quota's worth of the backlog, the earliest rows. Those in done
   are expired, the others of the target are on their way, and nothing else is.
   */
  ghost predicate Underway(db: Db, now: Time, p: Pool, target: set<ResId>, done: set<ResId>, quota: int) {
    && Drained(db, ExpiredRows(db, now), target, quota)
    && p.db == Swept(db, done) && done <= target
    && AllComing(p, target, done, now)
  }

  ghost predicate AllComing(p: Pool, target: set<ResId>, done: set<ResId>, now: Time) {
    && (forall id | id in target && id !in done :: OnTheWay(p, id))
    && (forall id | OnTheWay(p, id) :: id in target && p.scannedAt >= now)
  }

  lemma ScanBrings(p: Pool, at: Time, ids: seq<ResId>, id: ResId)
    requires Enabled(p, Scan(at, ids)) && NothingOnTheWay(p)
    ensures OnTheWay(Next(p, Scan(at, ids)), id) <==> id in ids
  {
    assert !OnTheWay(p, id);
    if w :| Has(Next(p, Scan(at, ids)), w, id) {
      assert Has(p, w, id);
    }
  }

  lemma ScanDrains(db: Db, now: Time, p: Pool, target: set<ResId>, quota: int, at: Time, ids: seq<ResId>)
    requires Underway(db, now, p, target, target, quota) && p.capacity > 0 && Enabled(p, Scan(at, ids))
    requires Calm(p, Scan(at, ids), db, now)
    ensures Underway(db, now, Next(p, Scan(at, ids)), target + AsSet(ids), target, quota + p.capacity)
  {
    D.ScanDrains(db, now, p.capacity, at, ids, target, quota);
    forall id
      ensures OnTheWay(Next(p, Scan(at, ids)), id) <==> id in ids
    {
      ScanBrings(p, at, ids, id);
    }
  }

  lemma FinishSweeps(db: Db, now: Time, p: Pool, done: set<ResId>, e: Event)
    requires Sound(db) && p.db == Swept(db, done) && e.Finish? && Enabled(p, e) && e.fault.NoFault?
    requires e.now >= now && Expirable(db, p.workers[e.w].id, now)
    ensures Next(p, e).db == Swept(db, done + {p.workers[e.w].id})
  {
    var hit := p.workers[e.w].id;
    if hit !in done {
      D.SoundFits(db, done, hit);
    }
    D.SweepStep(db, done, hit, now, e.now);
  }

  /** Any event but a scan takes nothing off its way except what it finishes. */
  lemma KeepsOnTheWay(p: Pool, e: Event, id: ResId)
    requires Enabled(p, e) && !e.Scan? && !e.Close? && (e.Finish? ==> p.workers[e.w].id != id)
    requires OnTheWay(p, id)
    ensures OnTheWay(Next(p, e), id)
  {
    if w :| Has(p, w, id) {
      assert Has(Next(p, e), w, id);
    } else if e.Take? && id == p.jobs[0] {
      assert Has(Next(p, e), e.w, id);
    }
  }

  lemma StaysComing(p: Pool, e: Event, target: set<ResId>, done: set<ResId>, now: Time)
    requires Enabled(p, e) && !e.Scan? && !e.Close? && AllComing(p, target, done, now)
    ensures AllComing(Next(p, e), target, if e.Finish? then done + {p.workers[e.w].id} else done, now)
  {
    var q := Next(p, e);
    forall id | OnTheWay(q, id)
      ensures id in target && q.scannedAt >= now
    {
      NothingNewOnTheWay(p, e, id);
    }
    forall id | id in target && id !in done && (e.Finish? ==> p.workers[e.w].id != id)
      ensures OnTheWay(q, id)
    {
      KeepsOnTheWay(p, e, id);
    }
  }

  lemma StaysServing(p: Pool, e: Event, db: Db, now: Time)
    requires Serving(p) && Enabled(p, e) && Calm(p, e, db, now)
    ensures Serving(Next(p, e)) && Next(p, e).capacity == p.capacity && !e.Close?
  {
  }

  /** With nothing on the way, the whole target is done. */
  lemma IdleIsDone(p: Pool, target: set<ResId>, done: set<ResId>, now: Time)
    requires AllComing(p, target, done, now) && NothingOnTheWay(p) && done <= target
    ensures done == target
  {
    assert forall id | id in target && id !in done :: OnTheWay(p, id);
  }

  lemma HeldIsTarget(p: Pool, w: nat, target: set<ResId>, done: set<ResId>, now: Time)
    requires AllComing(p, target, done, now) && w in p.workers && p.workers[w].Busy?
    ensures p.workers[w].id in target && p.scannedAt >= now
  {
    assert Has(p, w, p.workers[w].id) && OnTheWay(p, p.workers[w].id);
  }

  lemma FinishDrains(db: Db, now: Time, p: Pool, target: set<ResId>, done: set<ResId>, quota: int, e: Event)
    requires Sound(db) && Underway(db, now, p, target, done, quota)
    requires Enabled(p, e) && Calm(p, e, db, now) && e.Finish?
    ensures Underway(db, now, Next(p, e), target, done + {p.workers[e.w].id}, quota)
  {
    HeldIsTarget(p, e.w, target, done, now);
    assert p.workers[e.w].id in ExpiredRows(db, now);
    FinishSweeps(db, now, p, done, e);
    StaysComing(p, e, target, done, now);
  }

  lemma WorkDrains(db: Db, now: Time, p: Pool, target: set<ResId>, done: set<ResId>, quota: int, e: Event)
    returns (done': set<ResId>)
    requires Sound(db) && Underway(db, now, p, target, done, quota)
    requires Enabled(p, e) && Calm(p, e, db, now) && !e.Scan? && !e.Close?
    ensures Underway(db, now, Next(p, e), target, done', quota)
  {
    if e.Finish? {
      FinishDrains(db, now, p, target, done, quota, e);
      done' := done + {p.workers[e.w].id};
    } else {
      StaysComing(p, e, target, done, now);
      done' := done;
    }
  }

  /** The target, and what is done of it, after one more event. */
  lemma NextDrains(db: Db, now: Time, p: Pool, target: set<ResId>, done: set<ResId>, quota: int, e: Event)
    returns (target': set<ResId>, done': set<ResId>)
    requires Sound(db) && Serving(p) && Underway(db, now, p, target, done, quota) && p.capacity > 0
    requires Enabled(p, e) && Calm(p, e, db, now)
    ensures Underway(db, now, Next(p, e), target', done', quota + if e.Scan? then p.capacity else 0)
  {
    StaysServing(p, e, db, now);
    if e.Scan? {
      IdleIsDone(p, target, done, now);
      ScanDrains(db, now, p, target, quota, e.now, e.ids);
      target', done' := target + AsSet(e.ids), target;
    } else {
      target' := target;
      done' := WorkDrains(db, now, p, target, done, quota, e);
    }
  }

  lemma {:induction false} RunDrains(db: Db, now: Time, p: Pool, target: set<ResId>, done: set<ResId>, quota: int,
                                     events: seq<Event>)
    returns (target': set<ResId>, done': set<ResId>)
    requires Sound(db) && Serving(p) && Underway(db, now, p, target, done, quota) && p.capacity > 0
    requires IsRun(p, events) && IsCalm(p, events, db, now)
    ensures Underway(db, now, Final(p, events), target', done', quota + Allowed(events, p.capacity))
    decreases |events|
  {
    target', done' := target, done;
    if events != [] {
      var e := events[0];
      StaysServing(p, e, db, now);
      target', done' := NextDrains(db, now, p, target, done, quota, e);
      target', done' := RunDrains(db, now, Next(p, e), target', done',
                                  quota + if e.Scan? then p.capacity else 0, events[1..]);
    }
  }

  /** The limits of all scans together. */
  function Allowed(events: seq<Event>, limit: int): int {
    if events == [] then 0 else (if events[0].Scan? then limit else 0) + Allowed(events[1..], limit)
  }

  lemma {:induction false} AllowedIsProduct(events: seq<Event>, limit: int)
    ensures Allowed(events, limit) == Scans(events) * limit
  {
    if events != [] {
      AllowedIsProduct(events[1..], limit);
      var n := Scans(events[1..]);
      assert (n + 1) * limit == n * limit + limit;
    }
  }

  lemma StartDrains(p: Pool, now: Time)
    requires IsStart(p)
    ensures Underway(p.db, now, p, {}, {}, 0)
  {
    D.SweptByNone(p.db);
    forall id
      ensures !OnTheWay(p, id)
    {
    }
  }

  /**
   Whenever the pool has nothing on the way after k scans of its capacity L, with n rows expired at first, it has
   expired exactly min(n, k * L) of them, the earliest-expiring, and changed nothing else.
   */
  lemma PoolExpiresOldest(p: Pool, events: seq<Event>, now: Time) returns (gone: set<ResId>)
    requires IsStart(p) && p.capacity > 0 && IsRun(p, events) && IsCalm(p, events, p.db, now)
    requires NothingOnTheWay(Final(p, events))
    ensures Final(p, events).db == Swept(p.db, gone)
    ensures Drained(p.db, ExpiredRows(p.db, now), gone, Scans(events) * p.capacity)
  {
    StartDrains(p, now);
    gone := IdlePoolDrained(p.db, now, p, events);
  }

  lemma IdlePoolDrained(db: Db, now: Time, p: Pool, events: seq<Event>) returns (gone: set<ResId>)
    requires Sound(db) && Serving(p) && Underway(db, now, p, {}, {}, 0) && p.capacity > 0
    requires IsRun(p, events) && IsCalm(p, events, db, now) && NothingOnTheWay(Final(p, events))
    ensures Final(p, events).db == Swept(db, gone)
    ensures Drained(db, ExpiredRows(db, now), gone, Scans(events) * p.capacity)
  {
    var done;
    gone, done := RunDrains(db, now, p, {}, {}, 0, events);
    AllowedIsProduct(events, p.capacity);
    IdleIsDone(Final(p, events), gone, done, now);
  }

  /** So after ceil(n / L) scans no expired row is left. */
  lemma PoolDrains(p: Pool, events: seq<Event>, now: Time)
    requires IsStart(p) && p.capacity > 0 && IsRun(p, events) && IsCalm(p, events, p.db, now)
    requires NothingOnTheWay(Final(p, events)) && Scans(events) * p.capacity >= |ExpiredRows(p.db, now)|
    ensures ExpiredRows(Final(p, events).db, now) == {}
    ensures Final(p, events).db == Swept(p.db, ExpiredRows(p.db, now))
  {
    var gone := PoolExpiresOldest(p, events, now);
    D.AllGone(p.db, now, gone, Scans(events) * p.capacity);
  }
}
