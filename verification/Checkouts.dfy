/**
 Any number of checkout requests at any stage, interleaved command by command with the waiting room's
 grants and with reconciliation overwriting counters, and dying at any point. A ledger kept beside the
 state says where every unit and every admission has gone.
 */
module Checkouts {
  import opened Sums
  import opened Tables
  import opened FastPath

  type Units = map<ItemId, int>
  type Visits = map<(ItemId, UserId), int>

  /** Units since the item's counter was last seeded; admissions since the start. */
  datatype Ledger = Ledger(
    base: Units,          // the seeded value, plus what requests held at that moment
    published: Units,     // written to Kafka
    stranded: Units,      // taken from the counter, and neither published nor given back
    phantom: Units,       // written to Kafka although the publish was reported as failed
    grants: Visits,       // tokens the waiting room issued
    attempts: Visits,     // attempts written to Kafka
    ghosts: Visits)       // of these, those reported as failed

  datatype State = State(redis: Redis, handlers: map<nat, Handler>, ledger: Ledger)

  datatype Step =
    | Arrive(h: nat, item: ItemId, user: UserId, qty: int)
    | Command(h: nat, e: Env)
    | Die(h: nat)
    | Reseed(item: ItemId, available: int)
    | Admit(item: ItemId, user: UserId, deadline: Time)

  function Get<K>(m: map<K, int>, k: K): int {
    if k in m then m[k] else 0
  }

  function Add<K>(m: map<K, int>, k: K, d: int): map<K, int> {
    m[k := Get(m, k) + d]
  }

  /** Units a request has taken and not yet published or given back. */
  function Holds(h: Handler): int {
    if h.phase.Holding? || h.phase.Releasing? then h.qty else 0
  }

  function HoldsOf(i: ItemId): Handler -> int {
    (h: Handler) => if h.item == i then Holds(h) else 0
  }

  /** A request that has used up a token, and is not finished. */
  predicate InFlight(h: Handler) {
    !h.phase.Arrived? && !h.phase.Done?
  }

  function InFlightOf(i: ItemId, u: UserId): Handler -> int {
    (h: Handler) => if h.item == i && h.user == u && InFlight(h) then 1 else 0
  }

  ghost predicate Enabled(s: State, step: Step) {
    match step
    case Arrive(h, _, _, _) => h !in s.handlers
    case Command(h, _) => h in s.handlers && !s.handlers[h].phase.Done?
    case Die(h) => h in s.handlers && !s.handlers[h].phase.Done?
    case Reseed(_, available) => available >= 0   // SeedInventory refuses a negative count
    case Admit(_, _, _) => true
  }

  /** The request's next command puts its attempt into the Kafka log. */
  predicate Writes(h: Handler, e: Env) {
    h.phase.Holding? && e.keyOk && (e.publish.Published? || e.publish.written)
  }

  /** ... although the publish is reported as failed. */
  predicate WritesUnknowingly(h: Handler, e: Env) {
    Writes(h, e) && e.publish.PublishFailed?
  }

  /**
   Its units are taken from the counter for good and never published: the script's reply is lost, so the
   request gives up without knowing; or the compensating release fails, which is logged and given up on.
   */
  predicate Strands(r: Redis, h: Handler, e: Env) {
    || (h.phase.Admitted? && e.decrement.LostAfter? && Decrement(r, h.item, h.qty).1.Remaining?)
    || (h.phase.Releasing? && e.release.LostBefore?)
  }

  /** n if b, else nothing. */
  function If(b: bool, n: int): int {
    if b then n else 0
  }

  /** What the request's next command means for the ledger. */
  function Book(l: Ledger, r: Redis, h: Handler, e: Env): Ledger {
    var v := (h.item, h.user);
    Ledger(l.base,
           Add(l.published, h.item, If(Writes(h, e), h.qty)),
           Add(l.stranded, h.item, If(Strands(r, h, e), h.qty)),
           Add(l.phantom, h.item, If(WritesUnknowingly(h, e), h.qty)),
           l.grants,
           Add(l.attempts, v, If(Writes(h, e), 1)),
           Add(l.ghosts, v, If(WritesUnknowingly(h, e), 1)))
  }

  ghost function Next(s: State, step: Step): State
    requires Enabled(s, step)
  {
    match step
    case Arrive(h, item, user, qty) =>
      s.(handlers := s.handlers[h := Handler(item, user, qty, Arrived, false)])
    case Command(h, e) =>
      var (r, h') := Act(s.redis, s.handlers[h], e);
      State(r, s.handlers[h := h'], Book(s.ledger, s.redis, s.handlers[h], e))
    case Die(h) =>
      var i := s.handlers[h].item;
      s.(handlers := s.handlers - {h},
         ledger := s.ledger.(stranded := Add(s.ledger.stranded, i, Holds(s.handlers[h]))))
    case Reseed(item, available) =>
      State(Seed(s.redis, item, available), s.handlers,
            s.ledger.(base := s.ledger.base[item := available + Held(s, item)],
                      published := s.ledger.published[item := 0],
                      stranded := s.ledger.stranded[item := 0],
                      phantom := s.ledger.phantom[item := 0]))
    case Admit(item, user, deadline) =>
      s.(redis := Grant(s.redis, item, user, deadline),
         ledger := s.ledger.(grants := Add(s.ledger.grants, (item, user), 1)))
  }

  ghost predicate Valid(s: State, steps: seq<Step>)
    decreases |steps|
  {
    steps == [] || (Enabled(s, steps[0]) && Valid(Next(s, steps[0]), steps[1..]))
  }

  ghost function Run(s: State, steps: seq<Step>): State
    requires Valid(s, steps)
    decreases |steps|
  {
    if steps == [] then s else Run(Next(s, steps[0]), steps[1..])
  }

  /** Before any request: nothing in Redis, nothing in the ledger. */
  const START := State(Redis(map[], map[]), map[], Ledger(map[], map[], map[], map[], map[], map[], map[]))

  /** Units taken by requests that are still under way. */
  ghost function Held(s: State, i: ItemId): int {
    Sum(s.handlers, HoldsOf(i))
  }

  ghost function Visiting(s: State, i: ItemId, u: UserId): int {
    Sum(s.handlers, InFlightOf(i, u))
  }

  /** Every unit seeded is in the counter, published, held by a request, or stranded. */
  ghost predicate UnitsAddUp(s: State, i: ItemId) {
    Counter(s.redis, i) + Get(s.ledger.published, i) + Held(s, i) + Get(s.ledger.stranded, i)
    == Get(s.ledger.base, i) + Get(s.ledger.phantom, i)
  }

  /** Every attempt, request under way and unused token goes back to a grant of its own. */
  ghost predicate AdmissionsAddUp(s: State, i: ItemId, u: UserId) {
    Get(s.ledger.attempts, (i, u)) + Visiting(s, i, u) + Token(s.redis, i, u)
    <= Get(s.ledger.grants, (i, u)) + Get(s.ledger.ghosts, (i, u))
  }

  ghost predicate Sane(s: State) {
    && (forall i | i in s.redis.counters :: s.redis.counters[i] >= 0)
    && (forall h | h in s.handlers :: InFlight(s.handlers[h]) ==> s.handlers[h].qty > 0)
    && (forall i :: Get(s.ledger.published, i) >= 0 && Get(s.ledger.stranded, i) >= 0)
  }

  /** A command takes from the counter what it publishes, strands or comes to hold, and gives back what it held. */
  lemma CommandMovesUnits(r: Redis, h: Handler, e: Env, i: ItemId)
    requires !h.phase.Done?
    ensures var x := Act(r, h, e);
      Counter(x.0, h.item) + Holds(x.1) + If(Writes(h, e), h.qty) + If(Strands(r, h, e), h.qty)
      == Counter(r, h.item) + Holds(h) + If(WritesUnknowingly(h, e), h.qty)
    ensures i != h.item ==> Counter(Act(r, h, e).0, i) == Counter(r, i)
  {
  }

  lemma CommandKeepsUnits(s: State, h: nat, e: Env, i: ItemId)
    requires UnitsAddUp(s, i) && Enabled(s, Command(h, e))
    ensures UnitsAddUp(Next(s, Command(h, e)), i)
  {
    CommandMovesUnits(s.redis, s.handlers[h], e, i);
    SumUpdate(s.handlers, h, Act(s.redis, s.handlers[h], e).1, HoldsOf(i));
  }

  function Token(r: Redis, i: ItemId, u: UserId): int {
    If((i, u) in r.tokens, 1)
  }

  /** A command spends a token or a request's stay to write an attempt; only an unknowing write costs nothing. */
  lemma CommandSpendsAdmissions(r: Redis, h: Handler, e: Env, i: ItemId, u: UserId)
    requires !h.phase.Done?
    ensures var x := Act(r, h, e);
      Token(x.0, h.item, h.user) + If(InFlight(x.1), 1) + If(Writes(h, e), 1)
      <= Token(r, h.item, h.user) + If(InFlight(h), 1) + If(WritesUnknowingly(h, e), 1)
    ensures (i, u) != (h.item, h.user) ==> Token(Act(r, h, e).0, i, u) == Token(r, i, u)
  {
  }

  lemma CommandKeepsAdmissions(s: State, h: nat, e: Env, i: ItemId, u: UserId)
    requires AdmissionsAddUp(s, i, u) && Enabled(s, Command(h, e))
    ensures AdmissionsAddUp(Next(s, Command(h, e)), i, u)
  {
    CommandSpendsAdmissions(s.redis, s.handlers[h], e, i, u);
    SumUpdate(s.handlers, h, Act(s.redis, s.handlers[h], e).1, InFlightOf(i, u));
  }

  lemma NextKeepsUnits(s: State, step: Step, i: ItemId)
    requires UnitsAddUp(s, i) && Enabled(s, step)
    ensures UnitsAddUp(Next(s, step), i)
  {
    match step
    case Arrive(h, item, user, qty) => SumUpdate(s.handlers, h, Handler(item, user, qty, Arrived, false), HoldsOf(i));
    case Command(h, e) => CommandKeepsUnits(s, h, e, i);
    case Die(h) => SumRemove(s.handlers, h, HoldsOf(i));
    case _ =>
  }

  lemma NextKeepsAdmissions(s: State, step: Step, i: ItemId, u: UserId)
    requires AdmissionsAddUp(s, i, u) && Enabled(s, step)
    ensures AdmissionsAddUp(Next(s, step), i, u)
  {
    match step
    case Arrive(h, item, user, qty) =>
      SumUpdate(s.handlers, h, Handler(item, user, qty, Arrived, false), InFlightOf(i, u));
    case Command(h, e) => CommandKeepsAdmissions(s, h, e, i, u);
    case Die(h) => SumRemove(s.handlers, h, InFlightOf(i, u));
    case _ =>
  }

  lemma NextKeepsSane(s: State, step: Step)
    requires Sane(s) && Enabled(s, step)
    ensures Sane(Next(s, step))
  {
    var t := Next(s, step);
    assert forall i | i in t.redis.counters :: t.redis.counters[i] >= 0;
    forall i
      ensures Get(t.ledger.published, i) >= 0 && Get(t.ledger.stranded, i) >= 0
    {
      assert Get(s.ledger.published, i) >= 0;
    }
  }

  lemma {:induction false} RunKeeps(s: State, steps: seq<Step>, i: ItemId, u: UserId)
    requires Sane(s) && UnitsAddUp(s, i) && AdmissionsAddUp(s, i, u) && Valid(s, steps)
    ensures var t := Run(s, steps); Sane(t) && UnitsAddUp(t, i) && AdmissionsAddUp(t, i, u)
    decreases |steps|
  {
    if steps != [] {
      NextKeepsSane(s, steps[0]);
      NextKeepsUnits(s, steps[0], i);
      NextKeepsAdmissions(s, steps[0], i, u);
      RunKeeps(Next(s, steps[0]), steps[1..], i, u);
    }
  }

  // ----- main results -----

  /**
   Conservation between reseeds, in every reachable state. The counter is never negative; above the
   seeded value it can only be by units that requests held at the reseed and gave back since (base), and
   by units given back although their attempt was written (phantom).
   */
  lemma FastPathConserves(steps: seq<Step>, i: ItemId)
    requires Valid(START, steps)
    ensures var s := Run(START, steps);
      && UnitsAddUp(s, i)
      && Held(s, i) >= 0
      && 0 <= Counter(s.redis, i) <= Get(s.ledger.base, i) + Get(s.ledger.phantom, i)
  {
    RunKeeps(START, steps, i, "");
    SumNonNegative(Run(START, steps).handlers, HoldsOf(i));
  }

  predicate NoReseed(steps: seq<Step>, i: ItemId) {
    steps == [] || (!(steps[0].Reseed? && steps[0].item == i) && NoReseed(steps[1..], i))
  }

  lemma {:induction false} NoReseedKeepsBase(s: State, steps: seq<Step>, i: ItemId)
    requires Valid(s, steps) && NoReseed(steps, i)
    ensures Get(Run(s, steps).ledger.base, i) == Get(s.ledger.base, i)
    decreases |steps|
  {
    if steps != [] {
      NoReseedKeepsBase(Next(s, steps[0]), steps[1..], i);
    }
  }

  lemma {:induction false} RunConcat(s: State, xs: seq<Step>, ys: seq<Step>)
    requires Valid(s, xs) && Valid(Run(s, xs), ys)
    ensures Valid(s, xs + ys) && Run(s, xs + ys) == Run(Run(s, xs), ys)
    decreases |xs|
  {
    if xs == [] {
      assert xs + ys == ys;
    } else {
      RunConcat(Next(s, xs[0]), xs[1..], ys);
      assert (xs + ys)[1..] == xs[1..] + ys;
    }
  }

  /** After these steps without a reseed of i or a publish written unknowingly, i's counter is at most n. */
  ghost predicate StaysWithin(s: State, steps: seq<Step>, i: ItemId, n: int) {
    Valid(s, steps) && NoReseed(steps, i) && Get(Run(s, steps).ledger.phantom, i) == 0
    ==> Counter(Run(s, steps).redis, i) <= n
  }

  /** With nothing held at the reseed, units only go down from there. */
  lemma ReseedHolds(s: State, i: ItemId, available: int, steps: seq<Step>)
    requires Sane(s) && UnitsAddUp(s, i) && AdmissionsAddUp(s, i, "") && available >= 0 && Held(s, i) == 0
    ensures StaysWithin(Next(s, Reseed(i, available)), steps, i, available)
  {
    var t := Next(s, Reseed(i, available));
    if Valid(t, steps) && NoReseed(steps, i) && Get(Run(t, steps).ledger.phantom, i) == 0 {
      NextKeepsSane(s, Reseed(i, available));
      RunKeeps(t, steps, i, "");
      NoReseedKeepsBase(t, steps, i);
      SumNonNegative(Run(t, steps).handlers, HoldsOf(i));
    }
  }

  lemma {:induction false} SomeoneHolds(handlers: map<nat, Handler>, i: ItemId) returns (h: nat)
    requires Sum(handlers, HoldsOf(i)) != 0
    ensures h in handlers && HoldsOf(i)(handlers[h]) != 0
    decreases |handlers|
  {
    h :| h in handlers && Sum(handlers, HoldsOf(i)) == HoldsOf(i)(handlers[h]) + Sum(handlers - {h}, HoldsOf(i));
    if HoldsOf(i)(handlers[h]) == 0 {
      h := SomeoneHolds(handlers - {h}, i);
    }
  }

  /** No key can be generated, and every reply arrives. */
  const KEYLESS := Env(0, 1, Net.Ok, Net.Ok, false, Published, Net.Ok, 0, Net.Ok)

  /** The commands with which request h gives its units back. */
  function GiveBack(h: nat, phase: Phase): seq<Step> {
    if phase.Holding? then [Command(h, KEYLESS), Command(h, KEYLESS)] else [Command(h, KEYLESS)]
  }

  /** A request that holds units can give them back, on top of whatever the counter says. */
  lemma HolderGivesBack(s: State, h: nat, i: ItemId)
    requires h in s.handlers && s.handlers[h].item == i && Holds(s.handlers[h]) > 0
    ensures var steps := GiveBack(h, s.handlers[h].phase);
      && Valid(s, steps) && NoReseed(steps, i)
      && Run(s, steps).ledger.phantom == Add(s.ledger.phantom, i, 0)
      && Counter(Run(s, steps).redis, i) == Counter(s.redis, i) + s.handlers[h].qty
  {
    var c := Command(h, KEYLESS);
    var s1 := Next(s, c);
    assert Valid(s1, []);
    if s.handlers[h].phase.Holding? {
      var s2 := Next(s1, c);
      assert [c, c][1..] == [c] && [c][1..] == [];
      assert Valid(s2, []);
      assert Valid(s1, [c]) && Run(s1, [c]) == s2;
      assert s2.ledger.phantom == Add(s.ledger.phantom, i, 0);
    } else {
      assert [c][1..] == [];
    }
  }

  /**
   In every reachable state: a reseed bounds the counter by what Postgres said, until the next reseed,
   exactly if no request holds units of the item at that moment.
   */
  lemma ReseedBoundsExactly(steps: seq<Step>, i: ItemId, available: int)
    requires Valid(START, steps) && available >= 0
    ensures var s := Run(START, steps);
      (forall more :: StaysWithin(Next(s, Reseed(i, available)), more, i, available)) <==> Held(s, i) == 0
  {
    var s := Run(START, steps);
    var t := Next(s, Reseed(i, available));
    RunKeeps(START, steps, i, "");
    if Held(s, i) == 0 {
      forall more
        ensures StaysWithin(t, more, i, available)
      {
        ReseedHolds(s, i, available, more);
      }
    } else {
      var h := SomeoneHolds(s.handlers, i);
      HolderGivesBack(t, h, i);
      assert !StaysWithin(t, GiveBack(h, t.handlers[h].phase), i, available);
    }
  }

  lemma Precede(s: State, step: Step, steps: seq<Step>)
    requires Enabled(s, step) && Valid(Next(s, step), steps)
    ensures Valid(s, [step] + steps) && Run(s, [step] + steps) == Run(Next(s, step), steps)
  {
    assert ([step] + steps)[1..] == steps;
  }

  /** Request h has a token and finds enough units. */
  predicate Ready(s: State, h: nat) {
    && h in s.handlers && s.handlers[h].phase.Arrived?
    && var r := s.handlers[h];
       r.qty > 0 && (r.item, r.user) in s.redis.tokens && s.redis.tokens[(r.item, r.user)] > 0
       && r.item in s.redis.counters && s.redis.counters[r.item] >= r.qty
  }

  lemma ReadyComesToHold(s: State, h: nat)
    requires Ready(s, h)
    ensures var c := Command(h, KEYLESS);
      Valid(s, [c] + [c]) && h in Run(s, [c] + [c]).handlers && Holds(Run(s, [c] + [c]).handlers[h]) > 0
    ensures Run(s, [Command(h, KEYLESS)] + [Command(h, KEYLESS)]).handlers[h].item == s.handlers[h].item
  {
    var c := Command(h, KEYLESS);
    var s1 := Next(s, c);
    assert s1.handlers[h].phase.Admitted?;
    Precede(s1, c, []);
    Precede(s, c, [c]);
  }

  lemma SomeoneIsReady(i: ItemId, u: UserId) returns (steps: seq<Step>)
    ensures Valid(START, steps)
    ensures var s := Run(START, steps);
      && Ready(s, 0) && s.handlers == map[0 := Handler(i, u, 2, Arrived, false)]
      && Get(s.ledger.grants, (i, u)) == 1 && Get(s.ledger.attempts, (i, u)) == Get(s.ledger.ghosts, (i, u)) == 0
  {
    var seed, admit, arrive := Reseed(i, 5), Admit(i, u, 10), Arrive(0, i, u, 2);
    var s1 := Next(START, seed);
    assert s1.redis == Redis(map[i := 5], map[]) && s1.handlers == map[];
    var s2 := Next(s1, admit);
    Precede(s2, arrive, []);
    Precede(s1, admit, [arrive]);
    Precede(START, seed, [admit] + [arrive]);
    steps := [seed] + ([admit] + [arrive]);
  }

  lemma HolderIsHeld(steps: seq<Step>, h: nat)
    requires Valid(START, steps) && h in Run(START, steps).handlers && Holds(Run(START, steps).handlers[h]) > 0
    ensures Held(Run(START, steps), Run(START, steps).handlers[h].item) > 0
  {
    var s := Run(START, steps);
    RunKeeps(START, steps, 0, "");
    SumDominates(s.handlers, h, HoldsOf(s.handlers[h].item));
  }

  /** Requests do come to hold units, so a reseed does not always bound the counter. */
  lemma HoldingHappens()
    ensures exists steps :: Valid(START, steps) && Held(Run(START, steps), 1) > 0
  {
    var steps := SomeoneIsReady(1, "u");
    var s := Run(START, steps);
    ReadyComesToHold(s, 0);
    var c := [Command(0, KEYLESS)] + [Command(0, KEYLESS)];
    RunConcat(START, steps, c);
    HolderIsHeld(steps + c, 0);
  }

  /** If no publish is written after being reported as failed, nobody gets more attempts than admissions. */
  lemma AdmissionEnforced(steps: seq<Step>, i: ItemId, u: UserId)
    requires Valid(START, steps)
    ensures var s := Run(START, steps);
      && AdmissionsAddUp(s, i, u)
      && 0 <= Visiting(s, i, u)
      && (Get(s.ledger.ghosts, (i, u)) == 0 ==> Get(s.ledger.attempts, (i, u)) <= Get(s.ledger.grants, (i, u)))
  {
    RunKeeps(START, steps, i, u);
    SumNonNegative(Run(START, steps).handlers, InFlightOf(i, u));
  }

  /** The ledger counts a write exactly when the request's attempt comes to be in the log. */
  lemma WritesExactly(r: Redis, h: Handler, e: Env)
    requires !h.phase.Done? && !h.written
    ensures Act(r, h, e).1.written <==> Writes(h, e)
    ensures WritesUnknowingly(h, e) <==> Writes(h, e) && Act(r, h, e).1.phase == Releasing(Unavailable)
  {
  }

  /**
   What a command books: its units as published, and one attempt, exactly if the attempt comes to be in the log; as
   stranded, what left the counter and the request's hands otherwise. No other item or buyer is concerned.
   */
  lemma BooksExactly(l: Ledger, r: Redis, h: Handler, e: Env, i: ItemId, u: UserId)
    requires !h.phase.Done? && !h.written
    ensures var l', (r', h') := Book(l, r, h, e), Act(r, h, e);
      var written, unknowing := h'.written, h'.written && h'.phase == Releasing(Unavailable);
      && l'.base == l.base && l'.grants == l.grants
      && Get(l'.published, h.item) == Get(l.published, h.item) + (if written then h.qty else 0)
      && Get(l'.phantom, h.item) == Get(l.phantom, h.item) + (if unknowing then h.qty else 0)
      && Get(l'.attempts, (h.item, h.user)) == Get(l.attempts, (h.item, h.user)) + (if written then 1 else 0)
      && Get(l'.ghosts, (h.item, h.user)) == Get(l.ghosts, (h.item, h.user)) + (if unknowing then 1 else 0)
      && Get(l'.stranded, h.item) == Get(l.stranded, h.item)
           + Counter(r, h.item) + Holds(h) - Counter(r', h.item) - Holds(h')
           - (if written && !unknowing then h.qty else 0)
      && (i != h.item ==> Get(l'.published, i) == Get(l.published, i) && Get(l'.phantom, i) == Get(l.phantom, i)
                          && Get(l'.stranded, i) == Get(l.stranded, i))
      && ((i, u) != (h.item, h.user) ==> Get(l'.attempts, (i, u)) == Get(l.attempts, (i, u))
                                         && Get(l'.ghosts, (i, u)) == Get(l.ghosts, (i, u)))
  {
    WritesExactly(r, h, e);
    CommandMovesUnits(r, h, e, i);
  }

  // ----- the unknowing write does buy another attempt -----

  /** Every command is answered, and the publish fares as given. */
  function Fares(publish: Publish): Env {
    Env(0, 10, Net.Ok, Net.Ok, true, publish, Net.Ok, 0, Net.Ok)
  }

  /** The commands of a request up to its publish. */
  function UpToPublish(h: nat, publish: Publish): seq<Step> {
    var c := Command(h, Fares(publish));
    [c] + ([c] + [c])
  }

  /** What a request that has a token and enough units does up to its publish. */
  lemma ReadyPublishes(s: State, h: nat, publish: Publish)
    requires Ready(s, h) && (publish.Published? || publish.written)
    ensures Valid(s, UpToPublish(h, publish))
    ensures var r, t := s.handlers[h], Run(s, UpToPublish(h, publish));
      && t.redis == Redis(s.redis.counters[r.item := s.redis.counters[r.item] - r.qty],
                          s.redis.tokens - {(r.item, r.user)})
      && h in t.handlers && t.handlers.Keys == s.handlers.Keys
      && (publish.PublishFailed? ==> t.handlers[h].phase == Releasing(Unavailable))
      && t.handlers[h].item == r.item && t.handlers[h].user == r.user && t.handlers[h].qty == r.qty
      && Tallies(s, t, r.item, r.user, 1, if publish.PublishFailed? then 1 else 0)
  {
    var c := Command(h, Fares(publish));
    var s1 := Next(s, c);
    assert s1.handlers[h].phase.Admitted?;
    var s2 := Next(s1, c);
    assert s2.handlers[h].phase.Holding?;
    Precede(s2, c, []);
    Precede(s1, c, [c]);
    Precede(s, c, [c] + [c]);
  }

  /** From s to t, so many attempts of i and u were written, of them so many unknowingly; no token was granted. */
  ghost predicate Tallies(s: State, t: State, i: ItemId, u: UserId, attempts: int, ghosts: int) {
    && Get(t.ledger.attempts, (i, u)) == Get(s.ledger.attempts, (i, u)) + attempts
    && Get(t.ledger.ghosts, (i, u)) == Get(s.ledger.ghosts, (i, u)) + ghosts
    && Get(t.ledger.grants, (i, u)) == Get(s.ledger.grants, (i, u))
  }

  /** The compensation of request h, and another request by the same buyer. */
  function Again(h: nat, h2: nat, r: Handler): seq<Step> {
    var c := Command(h, Fares(Published));
    [c] + ([c] + [Arrive(h2, r.item, r.user, r.qty)])
  }

  /** The token that the compensation gives back is good for another request. */
  lemma CompensatedIsReady(s: State, h: nat, h2: nat)
    requires h in s.handlers && h2 !in s.handlers && s.handlers[h].phase.Releasing? && s.handlers[h].qty > 0
    requires s.handlers[h].item in s.redis.counters && s.redis.counters[s.handlers[h].item] >= 0
    ensures Valid(s, Again(h, h2, s.handlers[h]))
    ensures var r, t := s.handlers[h], Run(s, Again(h, h2, s.handlers[h]));
      && Ready(t, h2) && t.handlers[h2].item == r.item && t.handlers[h2].user == r.user
      && Tallies(s, t, r.item, r.user, 0, 0)
  {
    var r := s.handlers[h];
    var c, arrive := Command(h, Fares(Published)), Arrive(h2, r.item, r.user, r.qty);
    var s1 := Next(s, c);
    assert s1.handlers[h].phase.Regranting?;
    var s2 := Next(s1, c);
    Precede(s2, arrive, []);
    Precede(s1, c, [arrive]);
    Precede(s, c, [c] + [arrive]);
  }

  /** One grant, one attempt written unknowingly, its compensation, and request 1 arrives. */
  lemma UnknowingWrite(i: ItemId, u: UserId) returns (steps: seq<Step>)
    ensures Valid(START, steps)
    ensures var s := Run(START, steps);
      && Ready(s, 1) && s.handlers[1].item == i && s.handlers[1].user == u
      && Get(s.ledger.grants, (i, u)) == Get(s.ledger.attempts, (i, u)) == Get(s.ledger.ghosts, (i, u)) == 1
  {
    var arriving := SomeoneIsReady(i, u);
    var s := Run(START, arriving);
    var failing := UpToPublish(0, PublishFailed(true));
    ReadyPublishes(s, 0, PublishFailed(true));
    RunConcat(START, arriving, failing);
    var t := Run(s, failing);
    CompensatedIsReady(t, 0, 1);
    RunConcat(START, arriving + failing, Again(0, 1, t.handlers[0]));
    steps := arriving + failing + Again(0, 1, t.handlers[0]);
  }

  /** One grant, two attempts. */
  lemma UnknowingWriteBuysAnother(i: ItemId, u: UserId) returns (steps: seq<Step>)
    ensures Valid(START, steps)
    ensures var ledger := Run(START, steps).ledger;
      Get(ledger.grants, (i, u)) == Get(ledger.ghosts, (i, u)) == 1 && Get(ledger.attempts, (i, u)) == 2
  {
    var first := UnknowingWrite(i, u);
    var second := UpToPublish(1, Published);
    ReadyPublishes(Run(START, first), 1, Published);
    RunConcat(START, first, second);
    steps := first + second;
  }

  /** With at most g unknowing writes, these steps lead to no more attempts than grants. */
  ghost predicate WithinGrants(steps: seq<Step>, i: ItemId, u: UserId, g: int) {
    Valid(START, steps) && Get(Run(START, steps).ledger.ghosts, (i, u)) <= g
    ==> Get(Run(START, steps).ledger.attempts, (i, u)) <= Get(Run(START, steps).ledger.grants, (i, u))
  }

  /** A token is good for one attempt exactly if no write is reported as failed: a single one breaks it. */
  lemma AdmissionBoundIsExact(i: ItemId, u: UserId, g: int)
    ensures (forall steps :: WithinGrants(steps, i, u, g)) <==> g <= 0
  {
    if g <= 0 {
      forall steps
        ensures WithinGrants(steps, i, u, g)
      {
        if Valid(START, steps) {
          AdmissionEnforced(steps, i, u);
        }
      }
    } else {
      var steps := UnknowingWriteBuysAnother(i, u);
      assert !WithinGrants(steps, i, u, g);
    }
  }
}
