/**
 expiry-worker: a scanner that alone sends on the jobs channel, a pool of workers that receive from it,
 and shutdown by closing it, interleaved in any order with each other and with the other services.
 */
module Workers {
  import opened Sums
  import opened Tables
  import opened Database

  datatype Scanner =
    | Ticking                      // waiting for the next tick
    | Sending(rest: seq<ResId>)    // ids of the last scan still to be sent
    | Stopped                      // jobs is closed

  /** late: the job was received after ctx was cancelled, so that BeginTx can only fail. */
  datatype Worker = Waiting | Busy(id: ResId, late: bool) | Exited

  /**
   capacity is both the channel's and the scan's limit. The rest is history: what the scanner sent and the
   workers received, in order; the ids received, and those whose call returned, before ctx was cancelled;
   what workers were done with, whatever came of it; whose units they gave back; and the last scan's time.
   */
  datatype Pool = Pool(
    db: Db, cancelled: bool, capacity: nat, jobs: seq<ResId>, scanner: Scanner, workers: map<nat, Worker>,
    sent: seq<ResId>, taken: seq<ResId>, onTime: set<ResId>, answered: set<ResId>,
    handled: multiset<ResId>, released: multiset<ResId>, scannedAt: Time)

  datatype Event =
    | Scan(now: Time, ids: seq<ResId>)
    | ScanFails
    | Send
    | Cancel                       // SIGTERM
    | Close
    | Take(w: nat)
    | Finish(w: nat, now: Time, fault: Fault)
    | Exit(w: nat)
    | Elsewhere(op: Op)            // another service's transaction, or another expiry-worker's

  ghost predicate IsStart(p: Pool) {
    && Sound(p.db) && !p.cancelled && p.jobs == [] && p.scanner.Ticking?
    && (forall w | w in p.workers :: p.workers[w] == Waiting)
    && p.sent == [] && p.taken == [] && p.onTime == {} && p.answered == {}
    && p.handled == multiset{} && p.released == multiset{}
  }

  predicate WorkerIs(p: Pool, w: nat, s: Worker) {
    w in p.workers && p.workers[w] == s
  }

  ghost predicate Enabled(p: Pool, e: Event) {
    match e
    case Scan(now, ids) => p.scanner.Ticking? && !p.cancelled && IsScan(p.db, now, p.capacity, ids)
    case ScanFails => p.scanner.Ticking?
    case Send => p.scanner.Sending? && p.scanner.rest != [] && |p.jobs| < p.capacity
    case Cancel => !p.cancelled
    case Close => p.cancelled && !p.scanner.Stopped?
    case Take(w) => WorkerIs(p, w, Waiting) && p.jobs != []
    case Finish(w, _, fault) =>
      w in p.workers && p.workers[w].Busy? && (p.workers[w].late ==> fault == AtBegin(Connectivity))
    case Exit(w) => WorkerIs(p, w, Waiting) && p.jobs == [] && p.scanner.Stopped?
    case Elsewhere(_) => true
  }

  function AfterSending(rest: seq<ResId>): Scanner {
    if rest == [] then Ticking else Sending(rest)
  }

  /** What one ExpireReservation call leaves in the tables under the fault, and whether it released the row. */
  ghost function Expiry(db: Db, id: ResId, now: Time, fault: Fault): (x: (Db, bool)) {
    var done := Expire(db, id, now);
    var hit := ExpiryHits(db, id, now, fault);
    (Suffer(db, done, fault, hit).0, done.1.Released? && (hit ==> fault.AckLost?))
  }

  ghost function Next(p: Pool, e: Event): Pool
    requires Enabled(p, e)
  {
    match e
    case Scan(now, ids) => p.(scanner := AfterSending(ids), scannedAt := now)
    case ScanFails => p
    case Send =>
      var id := p.scanner.rest[0];
      p.(scanner := AfterSending(p.scanner.rest[1..]), jobs := p.jobs + [id], sent := p.sent + [id])
    case Cancel => p.(cancelled := true)
    case Close => p.(scanner := Stopped)
    case Take(w) =>
      var id := p.jobs[0];
      p.(workers := p.workers[w := Busy(id, p.cancelled)], jobs := p.jobs[1..], taken := p.taken + [id],
         onTime := if p.cancelled then p.onTime else p.onTime + {id})
    case Finish(w, now, fault) =>
      var id := p.workers[w].id;
      var (d, gave) := Expiry(p.db, id, now, fault);
      p.(db := d, workers := p.workers[w := Waiting], handled := p.handled + multiset{id},
         answered := if p.cancelled then p.answered else p.answered + {id},
         released := if gave then p.released + multiset{id} else p.released)
    case Exit(w) => p.(workers := p.workers[w := Exited])
    case Elsewhere(op) => p.(db := Apply(p.db, op).0)
  }

  ghost predicate IsRun(p: Pool, events: seq<Event>)
    decreases |events|
  {
    events == [] || (Enabled(p, events[0]) && IsRun(Next(p, events[0]), events[1..]))
  }

  ghost function Final(p: Pool, events: seq<Event>): Pool
    requires IsRun(p, events)
    decreases |events|
  {
    if events == [] then p else Final(Next(p, events[0]), events[1..])
  }

  // ----- jobs are neither lost nor invented -----

  function Holds(id: ResId): Worker -> int {
    (w: Worker) => if w.Busy? && w.id == id then 1 else 0
  }

  /** How many workers have id in hand. */
  ghost function InHand(p: Pool, id: ResId): int {
    Sum(p.workers, Holds(id))
  }

  /**
   The channel is first in, first out and never over its capacity; every copy of id ever received is in
   one worker's hands or handled; and no worker has exited while there was anything left to do.
   */
  ghost predicate Conserved(p: Pool, id: ResId) {
    && |p.jobs| <= p.capacity
    && p.sent == p.taken + p.jobs
    && multiset(p.taken)[id] == InHand(p, id) + p.handled[id]
    && (forall w | w in p.workers && p.workers[w].Exited? :: p.scanner.Stopped? && p.jobs == [])
  }

  lemma TakeConserves(p: Pool, w: nat, id: ResId)
    requires Enabled(p, Take(w)) && Conserved(p, id)
    ensures Conserved(Next(p, Take(w)), id)
  {
    assert p.taken + p.jobs == (p.taken + [p.jobs[0]]) + p.jobs[1..];
    SumUpdate(p.workers, w, Busy(p.jobs[0], p.cancelled), Holds(id));
  }

  lemma NextConserves(p: Pool, e: Event, id: ResId)
    requires Enabled(p, e) && Conserved(p, id)
    ensures Conserved(Next(p, e), id)
  {
    match e
    case Send => assert p.sent + [p.scanner.rest[0]] == p.taken + (p.jobs + [p.scanner.rest[0]]);
    case Take(w) => TakeConserves(p, w, id);
    case Finish(w, _, _) => SumUpdate(p.workers, w, Waiting, Holds(id));
    case Exit(w) => SumUpdate(p.workers, w, Exited, Holds(id));
    case _ =>
  }

  lemma {:induction false} RunConserves(p: Pool, events: seq<Event>, id: ResId)
    requires Conserved(p, id) && IsRun(p, events)
    ensures Conserved(Final(p, events), id) && Final(p, events).workers.Keys == p.workers.Keys
    decreases |events|
  {
    if events != [] {
      NextConserves(p, events[0], id);
      RunConserves(Next(p, events[0]), events[1..], id);
    }
  }

  lemma StartConserves(p: Pool, id: ResId)
    requires IsStart(p)
    ensures Conserved(p, id)
  {
    SumAllZero(p.workers, Holds(id));
  }

  /** In every reachable state each job sent is in the channel, in exactly one worker's hands, or handled. */
  lemma JobsAreConserved(p: Pool, events: seq<Event>, id: ResId)
    requires IsStart(p) && IsRun(p, events)
    ensures var q := Final(p, events);
      && |q.jobs| <= q.capacity
      && q.sent == q.taken + q.jobs
      && multiset(q.sent)[id] == multiset(q.jobs)[id] + InHand(q, id) + q.handled[id]
  {
    StartConserves(p, id);
    RunConserves(p, events, id);
    var q := Final(p, events);
    assert multiset(q.taken + q.jobs)[id] == multiset(q.taken)[id] + multiset(q.jobs)[id];
  }

  /** wg.Wait returns only when every job ever sent has been handled, each as many times as it was sent. */
  lemma WaitMeansAllHandled(p: Pool, events: seq<Event>)
    requires IsStart(p) && p.workers != map[] && IsRun(p, events)
    requires var q := Final(p, events); forall w | w in q.workers :: q.workers[w].Exited?
    ensures Final(p, events).handled == multiset(Final(p, events).sent)
  {
    var q := Final(p, events);
    forall id
      ensures q.handled[id] == multiset(q.sent)[id]
    {
      StartConserves(p, id);
      RunConserves(p, events, id);
      var w :| w in q.workers;
      SumAllZero(q.workers, Holds(id));
      assert q.taken + [] == q.taken;
    }
  }

  // ----- duplicates release once, and late jobs not at all -----

  ghost predicate StatusIs(db: Db, id: ResId, s: Status) {
    id in db.rows && db.rows[id].status == s
  }

  ghost predicate ReleasedOnce(p: Pool, id: ResId) {
    && p.released[id] <= 1
    && (p.released[id] == 1 ==> id in p.onTime && StatusIs(p.db, id, Expired))
    && (forall w | WorkerIs(p, w, Busy(id, false)) :: id in p.onTime)
  }

  lemma NextReleasesOnce(p: Pool, e: Event, id: ResId)
    requires Enabled(p, e) && ReleasedOnce(p, id)
    ensures ReleasedOnce(Next(p, e), id)
  {
    if e.Finish? && p.workers[e.w].id == id && !p.workers[e.w].late {
      assert WorkerIs(p, e.w, Busy(id, false));
    }
    forall w | WorkerIs(Next(p, e), w, Busy(id, false))
      ensures id in Next(p, e).onTime
    {
      assert WorkerIs(p, w, Busy(id, false)) || e == Take(w);
    }
  }

  lemma {:induction false} RunReleasesOnce(p: Pool, events: seq<Event>, id: ResId)
    requires ReleasedOnce(p, id) && IsRun(p, events)
    ensures ReleasedOnce(Final(p, events), id)
    decreases |events|
  {
    if events != [] {
      NextReleasesOnce(p, events[0], id);
      RunReleasesOnce(Next(p, events[0]), events[1..], id);
    }
  }

  /**
   However often an id is sent, and whoever else expires it meanwhile, the pool releases it at most once, and
   only if some worker received it before ctx was cancelled.
   */
  lemma DuplicatesReleaseOnce(p: Pool, events: seq<Event>, id: ResId)
    requires IsStart(p) && IsRun(p, events)
    ensures var q := Final(p, events);
      q.released[id] <= 1 && (q.released[id] == 1 ==> id in q.onTime && StatusIs(q.db, id, Expired))
  {
    RunReleasesOnce(p, events, id);
  }

  /** A job received after SIGTERM changes no table and releases nothing. */
  lemma LateJobReleasesNothing(p: Pool, w: nat, now: Time, fault: Fault)
    requires Enabled(p, Finish(w, now, fault)) && p.workers[w].late
    ensures var q := Next(p, Finish(w, now, fault)); q.db == p.db && q.released == p.released
  {
  }

  // ----- if Postgres always answers, what is answered before SIGTERM is settled -----

  /** No clock runs behind the last scan's, and no call fails before SIGTERM; from then on ctx may fail any. */
  predicate Smooth(p: Pool, e: Event) {
    match e
    case Scan(now, _) => now >= p.scannedAt
    case Finish(_, now, fault) => now >= p.scannedAt && (fault.NoFault? || p.cancelled)
    case _ => true
  }

  ghost predicate IsSmooth(p: Pool, events: seq<Event>)
    requires IsRun(p, events)
    decreases |events|
  {
    events == [] || (Smooth(p, events[0]) && IsSmooth(Next(p, events[0]), events[1..]))
  }

  /** Row id exists, and is either past its deadline at `now` or no longer reserved. */
  ghost predicate Ripe(db: Db, id: ResId, now: Time) {
    id in db.rows && (db.rows[id].status.Reserved? ==> Expirable(db, id, now))
  }

  ghost predicate Settled(db: Db, id: ResId) {
    id in db.rows && !db.rows[id].status.Reserved?
  }

  predicate Has(p: Pool, w: nat, id: ResId) {
    w in p.workers && p.workers[w].Busy? && p.workers[w].id == id
  }

  /** Sent or about to be sent, and not handled yet. */
  ghost predicate OnTheWay(p: Pool, id: ResId) {
    id in p.jobs || (p.scanner.Sending? && id in p.scanner.rest) || exists w :: Has(p, w, id)
  }

  ghost predicate Handling(p: Pool, id: ResId) {
    && Sound(p.db)
    && (OnTheWay(p, id) ==> Ripe(p.db, id, p.scannedAt))
    && (id in p.answered ==> Settled(p.db, id))
  }

  lemma ApplyKeepsRipe(db: Db, op: Op, id: ResId, now: Time)
    ensures Ripe(db, id, now) ==> Ripe(Apply(db, op).0, id, now)
    ensures Settled(db, id) ==> Settled(Apply(db, op).0, id)
  {
  }

  lemma ExpireSettles(db: Db, id: ResId, scannedAt: Time, now: Time)
    requires Sound(db) && Ripe(db, id, scannedAt) && now >= scannedAt
    ensures Settled(Expire(db, id, now).0, id)
  {
    if db.rows[id].status.Reserved? {
      ReleaseFits(db, id);
    }
  }

  lemma NothingNewOnTheWay(p: Pool, e: Event, id: ResId)
    requires Enabled(p, e) && OnTheWay(Next(p, e), id)
    ensures OnTheWay(p, id) || (e.Scan? && id in e.ids)
  {
    if w :| Has(Next(p, e), w, id) {
      assert Has(p, w, id) || (e.Take? && id in p.jobs);
    }
  }

  /** What e does to the tables is what some operation does, or nothing. */
  lemma StepApplies(p: Pool, e: Event) returns (op: Op)
    requires Enabled(p, e)
    ensures Next(p, e).db == p.db || Next(p, e).db == Apply(p.db, op).0
    ensures e.Finish? ==> op == ExpireOp(p.workers[e.w].id, e.now)
    ensures e.Finish? && Smooth(p, e) && !p.cancelled ==> Next(p, e).db == Apply(p.db, op).0
  {
    op := match e
      case Finish(w, now, _) => ExpireOp(p.workers[w].id, now)
      case Elsewhere(o) => o
      case _ => ExpireOp(0, 0);
  }

  lemma NextHandles(p: Pool, e: Event, id: ResId)
    requires Enabled(p, e) && Smooth(p, e) && Handling(p, id)
    ensures Handling(Next(p, e), id)
  {
    var op := StepApplies(p, e);
    ApplySound(p.db, op);
    ApplyKeepsRipe(p.db, op, id, p.scannedAt);
    if OnTheWay(Next(p, e), id) {
      NothingNewOnTheWay(p, e, id);
    }
    if e.Finish? && !p.cancelled && p.workers[e.w].id == id {
      assert Has(p, e.w, id);
      ExpireSettles(p.db, id, p.scannedAt, e.now);
    }
  }

  lemma {:induction false} RunHandles(p: Pool, events: seq<Event>, id: ResId)
    requires Handling(p, id) && IsRun(p, events) && IsSmooth(p, events)
    ensures Handling(Final(p, events), id)
    decreases |events|
  {
    if events != [] {
      NextHandles(p, events[0], id);
      RunHandles(Next(p, events[0]), events[1..], id);
    }
  }

  /** If Postgres answers, no reservation whose call returned before SIGTERM is still reserved, then or later. */
  lemma AnsweredMeansSettled(p: Pool, events: seq<Event>, id: ResId)
    requires IsStart(p) && IsRun(p, events) && IsSmooth(p, events)
    ensures id in Final(p, events).answered ==> Settled(Final(p, events).db, id)
  {
    RunHandles(p, events, id);
  }

  // ----- what SIGTERM interrupts -----

  /** No other service's transaction in between. */
  predicate Undisturbed(events: seq<Event>) {
    events == [] || (!events[0].Elsewhere? && Undisturbed(events[1..]))
  }

  ghost predicate Sendable(p: Pool, id: ResId) {
    id in p.sent || (p.scanner.Sending? && id in p.scanner.rest)
  }

  /** A scanned row is reserved until the pool itself releases it. */
  ghost predicate OnlyReleased(p: Pool, id: ResId) {
    && (Sendable(p, id) ==> id in p.db.rows && (p.db.rows[id].status.Reserved? <==> p.released[id] == 0))
    && (p.released[id] > 0 ==> StatusIs(p.db, id, Expired))
  }

  /** An expiry call that releases a row found it reserved and leaves it expired; no other changes a row. */
  lemma ExpiryReleases(db: Db, target: ResId, now: Time, fault: Fault, id: ResId)
    ensures var x := Expiry(db, target, now, fault);
      && (id in x.0.rows <==> id in db.rows)
      && (id in db.rows && (id != target || !x.1) ==> x.0.rows[id] == db.rows[id])
      && (x.1 ==> StatusIs(db, target, Reserved) && StatusIs(x.0, target, Expired))
  {
  }

  lemma FinishOnlyReleases(p: Pool, w: nat, now: Time, fault: Fault, id: ResId)
    requires Enabled(p, Finish(w, now, fault)) && OnlyReleased(p, id)
    ensures OnlyReleased(Next(p, Finish(w, now, fault)), id)
  {
    ExpiryReleases(p.db, p.workers[w].id, now, fault, id);
  }

  lemma NextOnlyReleases(p: Pool, e: Event, id: ResId)
    requires Enabled(p, e) && !e.Elsewhere? && OnlyReleased(p, id)
    ensures OnlyReleased(Next(p, e), id)
  {
    if e.Finish? {
      FinishOnlyReleases(p, e.w, e.now, e.fault, id);
    }
  }

  lemma {:induction false} RunOnlyReleases(p: Pool, events: seq<Event>, id: ResId)
    requires OnlyReleased(p, id) && IsRun(p, events) && Undisturbed(events)
    ensures OnlyReleased(Final(p, events), id)
    decreases |events|
  {
    if events != [] {
      NextOnlyReleases(p, events[0], id);
      RunOnlyReleases(Next(p, events[0]), events[1..], id);
    }
  }

  /** If no one else touches the tables, a sent reservation is settled exactly if the pool released it. */
  lemma SettledExactlyIfReleased(p: Pool, events: seq<Event>, id: ResId)
    requires IsStart(p) && IsRun(p, events) && Undisturbed(events) && id in Final(p, events).sent
    ensures Settled(Final(p, events).db, id) <==> Final(p, events).released[id] == 1
  {
    RunOnlyReleases(p, events, id);
    RunReleasesOnce(p, events, id);
  }

  /** No worker has exited while there was anything left to do. */
  ghost predicate Orderly(p: Pool) {
    forall w | WorkerIs(p, w, Exited) :: p.scanner.Stopped? && p.jobs == []
  }

  /** All workers have exited, so wg.Wait returns. */
  ghost predicate Waited(p: Pool) {
    forall w | w in p.workers :: p.workers[w].Exited?
  }

  function Effort(): Worker -> int {
    (w: Worker) => match w case Busy(_, _) => 2 case Waiting => 1 case Exited => 0
  }

  /** A run from p to shutdown during which nothing is released. */
  ghost predicate Abandons(p: Pool, events: seq<Event>) {
    && IsRun(p, events) && IsSmooth(p, events) && Undisturbed(events)
    && var q := Final(p, events);
       Waited(q) && q.db == p.db && q.sent == p.sent && q.onTime == p.onTime && q.answered == p.answered
  }

  lemma AbandonsFrom(p: Pool, e: Event, events: seq<Event>)
    requires Enabled(p, e) && Smooth(p, e) && !e.Elsewhere? && Abandons(Next(p, e), events)
    requires var p' := Next(p, e);
      p'.db == p.db && p'.sent == p.sent && p'.onTime == p.onTime && p'.answered == p.answered
    ensures Abandons(p, [e] + events)
  {
    assert ([e] + events)[1..] == events;
  }

  /** The next event of a pool that abandons its work. */
  ghost function GiveUp(p: Pool, w: nat): Event
    requires w in p.workers
  {
    if !p.scanner.Stopped? then Close
    else match p.workers[w]
      case Busy(_, _) => Finish(w, p.scannedAt, AtBegin(Connectivity))
      case _ => if p.jobs != [] then Take(w) else Exit(w)
  }

  lemma GiveUpWorks(p: Pool, w: nat)
    requires p.cancelled && Orderly(p) && w in p.workers && !p.workers[w].Exited?
    ensures var e := GiveUp(p, w);
      Enabled(p, e) && Smooth(p, e) && !e.Elsewhere? && Next(p, e).cancelled && Orderly(Next(p, e))
    ensures var p' := Next(p, GiveUp(p, w));
      p'.db == p.db && p'.sent == p.sent && p'.onTime == p.onTime && p'.answered == p.answered
  {
    var e := GiveUp(p, w);
    forall v | WorkerIs(Next(p, e), v, Exited)
      ensures Next(p, e).scanner.Stopped? && Next(p, e).jobs == []
    {
      assert WorkerIs(p, v, Exited) || e == Exit(v);
    }
  }

  lemma GiveUpShortens(p: Pool, w: nat)
    requires p.cancelled && Orderly(p) && w in p.workers && !p.workers[w].Exited? && p.scanner.Stopped?
    requires Enabled(p, GiveUp(p, w))
    ensures var p' := Next(p, GiveUp(p, w));
      p'.scanner.Stopped? && (|p'.jobs| < |p.jobs|
                              || (p'.jobs == p.jobs && Sum(p'.workers, Effort()) < Sum(p.workers, Effort())))
  {
    var p' := Next(p, GiveUp(p, w));
    SumUpdate(p.workers, w, p'.workers[w], Effort());
  }

  /** Once ctx is cancelled, every pool can shut down without releasing anything more. */
  lemma {:induction false} CanAbandon(p: Pool) returns (events: seq<Event>)
    requires p.cancelled && Orderly(p)
    ensures Abandons(p, events)
    decreases if p.scanner.Stopped? then 0 else 1, |p.jobs|, Sum(p.workers, Effort())
  {
    SumNonNegative(p.workers, Effort());
    if w :| w in p.workers && !p.workers[w].Exited? {
      var e := GiveUp(p, w);
      GiveUpWorks(p, w);
      if p.scanner.Stopped? {
        GiveUpShortens(p, w);
      }
      SumNonNegative(Next(p, e).workers, Effort());
      var rest := CanAbandon(Next(p, e));
      AbandonsFrom(p, e, rest);
      events := [e] + rest;
    } else {
      events := [];
    }
  }

  lemma {:induction false} SettledStays(p: Pool, events: seq<Event>, id: ResId)
    requires Settled(p.db, id) && IsRun(p, events)
    ensures Settled(Final(p, events).db, id)
    decreases |events|
  {
    if events != [] {
      var op := StepApplies(p, events[0]);
      ApplyKeepsRipe(p.db, op, id, 0);
      SettledStays(Next(p, events[0]), events[1..], id);
    }
  }

  lemma ReachedIsOrderly(p: Pool, events: seq<Event>)
    requires IsStart(p) && IsRun(p, events)
    ensures Orderly(Final(p, events))
  {
    StartConserves(p, 0);
    RunConserves(p, events, 0);
  }

  /** If these events bring the pool to its end, row id is settled then. */
  ghost predicate EndsSettled(p: Pool, events: seq<Event>, id: ResId) {
    IsRun(p, events) && IsSmooth(p, events) && Undisturbed(events) && Waited(Final(p, events))
    ==> Settled(Final(p, events).db, id)
  }

  /**
   At SIGTERM a reservation is sure to be settled by the time wg.Wait returns, whatever becomes of the calls
   under way and with no help from elsewhere, exactly if it is settled already: being in flight is no promise.
   */
  lemma ShutdownPromises(p: Pool, before: seq<Event>, id: ResId)
    requires IsStart(p) && IsRun(p, before) && Final(p, before).cancelled
    ensures var q := Final(p, before);
      (forall events :: EndsSettled(q, events, id)) <==> Settled(q.db, id)
  {
    var q := Final(p, before);
    if Settled(q.db, id) {
      forall events
        ensures EndsSettled(q, events, id)
      {
        if IsRun(q, events) {
          SettledStays(q, events, id);
        }
      }
    } else {
      ReachedIsOrderly(p, before);
      var events := CanAbandon(q);
      assert !EndsSettled(q, events, id);
    }
  }

  const HELD_ROW := Row(1, "u", 2, Reserved, "k", Some(10))
  const ONE_HELD := Db(map[1 := Item(5, 3, OnSale)], map[7 := HELD_ROW], map[(1, "k") := 7])

  lemma OneHeldIsSound()
    ensures Sound(ONE_HELD)
  {
    var none: map<ResId, Row> := map[];
    SumUpdate(none, 7, HELD_ROW, HeldWeight(1));
    assert ONE_HELD.rows == none[7 := HELD_ROW];
  }

  const IDLE := Pool(ONE_HELD, false, 1, [], Ticking, map[0 := Waiting], [], [], {}, {}, multiset{}, multiset{}, 11)
  const SENT := IDLE.(jobs := [7], sent := [7])
  const TAKEN := SENT.(jobs := [], taken := [7], onTime := {7}, workers := map[0 := Busy(7, false)])

  lemma Precede(p: Pool, e: Event, events: seq<Event>)
    requires Enabled(p, e) && Smooth(p, e) && IsRun(Next(p, e), events) && IsSmooth(Next(p, e), events)
    ensures IsRun(p, [e] + events) && IsSmooth(p, [e] + events)
    ensures Final(p, [e] + events) == Final(Next(p, e), events)
  {
    assert ([e] + events)[1..] == events;
  }

  lemma Sending7(events: seq<Event>)
    requires IsRun(SENT, events) && IsSmooth(SENT, events)
    ensures var p := IDLE.(scanner := Sending([7]));
      IsRun(p, [Send] + events) && IsSmooth(p, [Send] + events) && Final(p, [Send] + events) == Final(SENT, events)
  {
    var p := IDLE.(scanner := Sending([7]));
    assert Next(p, Send) == SENT;
    Precede(p, Send, events);
  }

  lemma ScanFinds7()
    ensures Enabled(IDLE, Scan(11, [7])) && Next(IDLE, Scan(11, [7])) == IDLE.(scanner := Sending([7]))
  {
    assert forall id | Expirable(ONE_HELD, id, 11) :: id == 7;
  }

  lemma Scanned(events: seq<Event>)
    requires IsRun(SENT, events) && IsSmooth(SENT, events)
    ensures var all := [Scan(11, [7])] + ([Send] + events);
      IsRun(IDLE, all) && IsSmooth(IDLE, all) && Final(IDLE, all) == Final(SENT, events)
  {
    Sending7(events);
    ScanFinds7();
    Precede(IDLE, Scan(11, [7]), [Send] + events);
  }

  /** Whether a job was still in the channel at SIGTERM or already with a worker, its row can stay reserved. */
  ghost predicate LeavesReserved(p: Pool, events: seq<Event>, id: ResId) {
    && IsStart(p) && IsRun(p, events) && IsSmooth(p, events)
    && var q := Final(p, events);
       Waited(q) && id in q.sent && StatusIs(q.db, id, Reserved)
  }

  lemma ShutdownLeavesReserved()
    ensures exists p, events, id :: LeavesReserved(p, events, id) && id !in Final(p, events).onTime
  {
    var rest := CanAbandon(Next(SENT, Cancel));
    Precede(SENT, Cancel, rest);
    OneHeldIsSound();
    Scanned([Cancel] + rest);
    assert LeavesReserved(IDLE, [Scan(11, [7])] + ([Send] + ([Cancel] + rest)), 7);
  }

  lemma TakenThenCancelled() returns (events: seq<Event>)
    ensures IsRun(SENT, events) && IsSmooth(SENT, events)
    ensures var q := Final(SENT, events); Waited(q) && q.db == ONE_HELD && q.sent == [7] && q.onTime == {7}
  {
    assert Next(SENT, Take(0)) == TAKEN;
    var rest := CanAbandon(Next(TAKEN, Cancel));
    Precede(TAKEN, Cancel, rest);
    Precede(SENT, Take(0), [Cancel] + rest);
    events := [Take(0)] + ([Cancel] + rest);
  }

  lemma InFlightLeavesReserved()
    ensures exists p, events, id :: LeavesReserved(p, events, id) && id in Final(p, events).onTime
  {
    var events := TakenThenCancelled();
    OneHeldIsSound();
    Scanned(events);
    assert LeavesReserved(IDLE, [Scan(11, [7])] + ([Send] + events), 7);
  }

  /** Once ctx is cancelled and the jobs begun before that are over, the pool itself changes no table. */
  lemma {:induction false} LateJobsChangeNothing(p: Pool, events: seq<Event>)
    requires IsRun(p, events) && p.cancelled && Undisturbed(events)
    requires forall w | w in p.workers && p.workers[w].Busy? :: p.workers[w].late
    ensures Final(p, events).db == p.db && Final(p, events).released == p.released
    decreases |events|
  {
    if events != [] {
      LateJobsChangeNothing(Next(p, events[0]), events[1..]);
    }
  }
}
