/** Redis as checkout-api uses it (inventory counters and admission tokens), and one checkout request. */
module FastPath {
  import opened Tables

  /** Counters never expire; a token lapses at its deadline. */
  datatype Redis = Redis(counters: map<ItemId, int>, tokens: map<(ItemId, UserId), Time>)

  /** One command: answered, or failed with or without having taken effect. */
  datatype Net = Ok | LostBefore | LostAfter

  datatype DecrementResult = NotSeeded | Insufficient | Remaining(n: int)

  function Counter(r: Redis, i: ItemId): int {
    if i in r.counters then r.counters[i] else 0
  }

  /** The decrement script: check and subtract in one step. */
  function Decrement(r: Redis, i: ItemId, qty: int): (Redis, DecrementResult) {
    if i !in r.counters then (r, NotSeeded)
    else if r.counters[i] < qty then (r, Insufficient)
    else (r.(counters := r.counters[i := r.counters[i] - qty]), Remaining(r.counters[i] - qty))
  }

  /** INCRBY: a missing key counts from zero. */
  function Release(r: Redis, i: ItemId, qty: int): Redis {
    r.(counters := r.counters[i := Counter(r, i) + qty])
  }

  function Seed(r: Redis, i: ItemId, available: int): Redis {
    r.(counters := r.counters[i := available])
  }

  function Grant(r: Redis, i: ItemId, u: UserId, deadline: Time): Redis {
    r.(tokens := r.tokens[(i, u) := deadline])
  }

  /** GETDEL: reports whether an unlapsed token was there, and leaves none. */
  function Consume(r: Redis, i: ItemId, u: UserId, now: Time): (Redis, bool) {
    (r.(tokens := r.tokens - {(i, u)}), (i, u) in r.tokens && now < r.tokens[(i, u)])
  }

  // ----- one request -----

  datatype Response =
    BadRequest | ServerError | Forbidden | NotFound | OutOfStock | Unavailable | Accepted(remaining: int)

  datatype Phase =
    | Arrived
    | Admitted
    | Holding(remaining: int)       // units taken, nothing published yet
    | Releasing(resp: Response)     // about to give the units back
    | Regranting(resp: Response)    // about to give the token back
    | Done(resp: Response)

  /** written: the attempt is in the Kafka log, whatever the publish call reported. */
  datatype Handler = Handler(item: ItemId, user: UserId, qty: int, phase: Phase, written: bool)

  /** PublishAttempt: acknowledged, or reported as failed although the broker may have kept the record. */
  datatype Publish = Published | PublishFailed(written: bool)

  /** Everything the environment decides about one request. */
  datatype Env = Env(now: Time, ttl: Time, consume: Net, decrement: Net, keyOk: bool, publish: Publish,
                     release: Net, later: Time, regrant: Net)

  function Rank(p: Phase): nat {
    match p
    case Arrived => 5
    case Admitted => 4
    case Holding(_) => 3
    case Releasing(_) => 2
    case Regranting(_) => 1
    case Done(_) => 0
  }

  /** The next command of handleCheckout (or of releaseAndRegrant) and what follows from its reply. */
  function Act(r: Redis, h: Handler, e: Env): (x: (Redis, Handler))
    requires !h.phase.Done?
    ensures Rank(x.1.phase) < Rank(h.phase)
    ensures x.1.item == h.item && x.1.user == h.user && x.1.qty == h.qty
  {
    match h.phase
    case Arrived =>
      if h.qty <= 0 then (r, h.(phase := Done(BadRequest))) else
        var (r', found) := Consume(r, h.item, h.user, e.now);
        (match e.consume
         case Ok => (r', h.(phase := if found then Admitted else Done(Forbidden)))
         case LostBefore => (r, h.(phase := Done(ServerError)))
         case LostAfter => (r', h.(phase := Done(ServerError))))
    case Admitted =>
      var (r', left) := Decrement(r, h.item, h.qty);
      (match e.decrement
       case Ok =>
         (match left
          case NotSeeded => (r', h.(phase := Done(NotFound)))
          case Insufficient => (r', h.(phase := Done(OutOfStock)))
          case Remaining(n) => (r', h.(phase := Holding(n))))
       case LostBefore => (r, h.(phase := Done(ServerError)))
       case LostAfter => (r', h.(phase := Done(ServerError))))
    case Holding(n) =>
      if !e.keyOk then (r, h.(phase := Releasing(ServerError))) else
        (match e.publish
         case Published => (r, h.(phase := Done(Accepted(n)), written := true))
         case PublishFailed(w) => (r, h.(phase := Releasing(Unavailable), written := w)))
    case Releasing(resp) =>
      (if e.release.LostBefore? then r else Release(r, h.item, h.qty), h.(phase := Regranting(resp)))
    case Regranting(resp) =>
      (if e.ttl <= 0 || e.regrant.LostBefore? then r else Grant(r, h.item, h.user, e.later + e.ttl),
       h.(phase := Done(resp)))
  }

  /** One request, start to finish, with nothing else happening in between. */
  function Solo(r: Redis, h: Handler, e: Env): (x: (Redis, Handler))
    ensures x.1.phase.Done?
    decreases Rank(h.phase)
  {
    if h.phase.Done? then (r, h) else
      var (r', h') := Act(r, h, e);
      Solo(r', h', e)
  }

  function ActOrStay(x: (Redis, Handler), e: Env): (y: (Redis, Handler))
    ensures Rank(y.1.phase) < Rank(x.1.phase) || y.1.phase.Done?
    ensures Solo(x.0, x.1, e) == Solo(y.0, y.1, e)
  {
    if x.1.phase.Done? then x else Act(x.0, x.1, e)
  }

  /** A request ends within five commands. */
  lemma SoloIsFiveActs(r: Redis, h: Handler, e: Env)
    ensures Solo(r, h, e) == ActOrStay(ActOrStay(ActOrStay(ActOrStay(ActOrStay((r, h), e), e), e), e), e)
  {
    var x1 := ActOrStay((r, h), e);
    var x2 := ActOrStay(x1, e);
    var x3 := ActOrStay(x2, e);
    var x4 := ActOrStay(x3, e);
    var x5 := ActOrStay(x4, e);
    assert x5.1.phase.Done?;
  }

  class RedisStore {
    var counters: map<ItemId, int>
    var tokens: map<(ItemId, UserId), Time>

    function View(): Redis
      reads this
    {
      Redis(counters, tokens)
    }

    constructor (r: Redis)
      ensures View() == r
    {
      counters, tokens := r.counters, r.tokens;
    }

    /** SeedInventory; false is its error for a negative count or a failed SET. */
    method SeedInventory(i: ItemId, available: int, net: Net) returns (ok: bool)
      modifies this
      ensures ok <==> available >= 0 && net.Ok?
      ensures View() == if available < 0 || net.LostBefore? then old(View()) else Seed(old(View()), i, available)
    {
      if available < 0 || net.LostBefore? {
        return false;
      }
      counters := counters[i := available];
      return net.Ok?;
    }

    /** TryDecrementInventory; ok is false for a non-positive quantity or when no reply of the script arrives. */
    method TryDecrementInventory(i: ItemId, qty: int, net: Net) returns (ok: bool, left: DecrementResult)
      modifies this
      ensures ok <==> qty > 0 && net.Ok?
      ensures View() == if qty <= 0 || net.LostBefore? then old(View()) else Decrement(old(View()), i, qty).0
      ensures left == Decrement(old(View()), i, qty).1
    {
      left := NotSeeded;
      if i in counters {
        left := if counters[i] < qty then Insufficient else Remaining(counters[i] - qty);
      }
      if qty <= 0 {
        return false, left;
      }
      if left.Remaining? && !net.LostBefore? {
        counters := counters[i := left.n];
      }
      ok := net.Ok?;
    }

    /** ReleaseInventory; false is its error for a non-positive quantity or when no reply arrives. */
    method ReleaseInventory(i: ItemId, qty: int, net: Net) returns (ok: bool)
      modifies this
      ensures ok <==> qty > 0 && net.Ok?
      ensures View() == if qty <= 0 || net.LostBefore? then old(View()) else Release(old(View()), i, qty)
    {
      if qty > 0 && !net.LostBefore? {
        counters := counters[i := (if i in counters then counters[i] else 0) + qty];
      }
      ok := qty > 0 && net.Ok?;
    }

    /** GrantAdmission; false is its error for a non-positive time to live or when no reply arrives. */
    method GrantAdmission(i: ItemId, u: UserId, now: Time, ttl: Time, net: Net) returns (ok: bool)
      modifies this
      ensures ok <==> ttl > 0 && net.Ok?
      ensures View() == if ttl <= 0 || net.LostBefore? then old(View()) else Grant(old(View()), i, u, now + ttl)
    {
      if ttl > 0 && !net.LostBefore? {
        tokens := tokens[(i, u) := now + ttl];
      }
      ok := ttl > 0 && net.Ok?;
    }

    method ConsumeAdmission(i: ItemId, u: UserId, now: Time, net: Net) returns (ok: bool, found: bool)
      modifies this
      ensures ok <==> net.Ok?
      ensures View() == if net.LostBefore? then old(View()) else Consume(old(View()), i, u, now).0
      ensures found == Consume(old(View()), i, u, now).1
    {
      found := (i, u) in tokens && now < tokens[(i, u)];
      if !net.LostBefore? {
        tokens := tokens - {(i, u)};
      }
      ok := net.Ok?;
    }

    /** releaseAndRegrant: an error of either step is logged and ignored. */
    method ReleaseAndRegrant(i: ItemId, u: UserId, qty: int, e: Env)
      modifies this
      ensures var r := if qty <= 0 || e.release.LostBefore? then old(View()) else Release(old(View()), i, qty);
        View() == if e.ttl <= 0 || e.regrant.LostBefore? then r else Grant(r, i, u, e.later + e.ttl)
    {
      var _ := ReleaseInventory(i, qty, e.release);
      var _ := GrantAdmission(i, u, e.later, e.ttl, e.regrant);
    }

    /** handleCheckout, from the decoded request on. */
    method HandleCheckout(item: ItemId, user: UserId, qty: int, e: Env) returns (resp: Response, written: bool)
      modifies this
      ensures (View(), Handler(item, user, qty, Done(resp), written))
           == Solo(old(View()), Handler(item, user, qty, Arrived, false), e)
    {
      SoloIsFiveActs(View(), Handler(item, user, qty, Arrived, false), e);
      written := false;
      if qty <= 0 {
        return BadRequest, written;
      }
      var ok, found := ConsumeAdmission(item, user, e.now, e.consume);
      if !ok {
        return ServerError, written;
      }
      if !found {
        return Forbidden, written;
      }
      var ok', left := TryDecrementInventory(item, qty, e.decrement);
      if !ok' {
        return ServerError, written;
      }
      match left {
        case NotSeeded =>
          return NotFound, written;
        case Insufficient =>
          return OutOfStock, written;
        case Remaining(n) =>
          resp := Accepted(n);
      }
      if !e.keyOk {
        ReleaseAndRegrant(item, user, qty, e);
        return ServerError, written;
      }
      written := e.publish.Published? || e.publish.written;
      if e.publish.PublishFailed? {
        ReleaseAndRegrant(item, user, qty, e);
        return Unavailable, written;
      }
    }
  }

  // ----- what one request does -----

  /** A request that is accepted has used up the token, taken exactly its units, and is in the log. */
  lemma AcceptedTakesUnits(r: Redis, item: ItemId, user: UserId, qty: int, e: Env)
    requires Solo(r, Handler(item, user, qty, Arrived, false), e).1.phase.resp.Accepted?
    ensures var (r', h) := Solo(r, Handler(item, user, qty, Arrived, false), e);
      && h.written && qty > 0
      && (item, user) in r.tokens && e.now < r.tokens[(item, user)] && (item, user) !in r'.tokens
      && item in r.counters && h.phase.resp.remaining == r.counters[item] - qty >= 0
      && r' == Redis(r.counters[item := r.counters[item] - qty], r.tokens - {(item, user)})
  {
    SoloIsFiveActs(r, Handler(item, user, qty, Arrived, false), e);
  }

  /** A request that could not be published leaves every counter as it was and the buyer with a fresh token. */
  lemma CompensationRestores(r: Redis, item: ItemId, user: UserId, qty: int, e: Env)
    requires qty > 0 && e.ttl > 0 && e.consume.Ok? && e.decrement.Ok? && e.release.Ok? && e.regrant.Ok?
    requires (item, user) in r.tokens && e.now < r.tokens[(item, user)] && item in r.counters && qty <= r.counters[item]
    requires !e.keyOk || e.publish.PublishFailed?
    ensures var (r', h) := Solo(r, Handler(item, user, qty, Arrived, false), e);
      && r'.counters == r.counters
      && r'.tokens == r.tokens[(item, user) := e.later + e.ttl]
      && h.phase == Done(if e.keyOk then Unavailable else ServerError)
  {
    SoloIsFiveActs(r, Handler(item, user, qty, Arrived, false), e);
    assert r.counters[item := r.counters[item] - qty][item := r.counters[item]] == r.counters;
  }

  /** A token of the buyer's that has not lapsed. */
  predicate HasToken(r: Redis, item: ItemId, user: UserId, now: Time) {
    (item, user) in r.tokens && now < r.tokens[(item, user)]
  }

  /**
   Which answer a request gets when both its first commands are answered. One that is refused for its token or its
   units changes no counter, and its token is spent.
   */
  lemma RefusedExactly(r: Redis, item: ItemId, user: UserId, qty: int, e: Env)
    requires e.consume.Ok? && e.decrement.Ok?
    ensures var (r', h) := Solo(r, Handler(item, user, qty, Arrived, false), e);
      var resp := h.phase.resp;
      var admitted := qty > 0 && HasToken(r, item, user, e.now);
      var enough := item in r.counters && r.counters[item] >= qty;
      && (resp == BadRequest <==> qty <= 0) && (resp == BadRequest ==> r' == r)
      && (resp == Forbidden <==> qty > 0 && !HasToken(r, item, user, e.now))
      && (resp == NotFound <==> admitted && item !in r.counters)
      && (resp == OutOfStock <==> admitted && item in r.counters && r.counters[item] < qty)
      && (resp == Forbidden || resp == NotFound || resp == OutOfStock ==>
            r' == Redis(r.counters, r.tokens - {(item, user)}) && !h.written)
      && (resp == ServerError <==> admitted && enough && !e.keyOk)
      && (resp == Unavailable <==> admitted && enough && e.keyOk && e.publish.PublishFailed?)
      && (resp.Accepted? <==> admitted && enough && e.keyOk && e.publish.Published?)
      && (resp.Accepted? ==> resp.remaining == r.counters[item] - qty)
      && (h.written <==> admitted && enough && e.keyOk && (e.publish.Published? || e.publish.written))
  {
    SoloIsFiveActs(r, Handler(item, user, qty, Arrived, false), e);
  }

  /** A command without a reply is a server error; what it did before that is not undone. */
  lemma UnansweredExactly(r: Redis, item: ItemId, user: UserId, qty: int, e: Env)
    requires qty > 0 && (!e.consume.Ok? || (HasToken(r, item, user, e.now) && !e.decrement.Ok?))
    ensures var (r', h) := Solo(r, Handler(item, user, qty, Arrived, false), e);
      && h.phase == Done(ServerError) && !h.written
      && r'.tokens == (if e.consume.LostBefore? then r.tokens else r.tokens - {(item, user)})
      && r'.counters == if e.consume.Ok? && e.decrement.LostAfter? && item in r.counters && r.counters[item] >= qty
                        then r.counters[item := r.counters[item] - qty] else r.counters
  {
    SoloIsFiveActs(r, Handler(item, user, qty, Arrived, false), e);
  }

  /** The compensation gives the units back unless its command is lost, and then a token likewise. */
  lemma CompensationExactly(r: Redis, item: ItemId, user: UserId, qty: int, e: Env)
    requires qty > 0 && e.consume.Ok? && e.decrement.Ok? && HasToken(r, item, user, e.now)
    requires item in r.counters && qty <= r.counters[item] && (!e.keyOk || e.publish.PublishFailed?)
    ensures var r' := Solo(r, Handler(item, user, qty, Arrived, false), e).0;
      && r'.counters == r.counters[item := if e.release.LostBefore? then r.counters[item] - qty else r.counters[item]]
      && r'.tokens == if e.ttl <= 0 || e.regrant.LostBefore? then r.tokens - {(item, user)}
                      else r.tokens[(item, user) := e.later + e.ttl]
  {
    SoloIsFiveActs(r, Handler(item, user, qty, Arrived, false), e);
  }
}
