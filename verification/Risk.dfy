/** risk-service: every join slides two windows, and the worse of two ramps is the score. */
module Risk {
  import opened Sums
  import opened Windows

  /** ttl is the risk score cache's time to live. */
  datatype Settings = Settings(window: int, maxJoins: int, maxUsers: int, ttl: int)

  /** RedisError: a pipeline's or the score cache's reply did not arrive. */
  datatype Result<+T> = Ok(value: T) | ValueError | RedisError

  // ----- scoring -----

  function Max(a: real, b: real): real {
    if b > a then b else a
  }

  function Min(a: real, b: real): real {
    if b < a then b else a
  }

  /** Nothing for a first occurrence, everything from the threshold on. */
  function Ramp(count: int, threshold: int): real {
    if threshold <= 1 then if count >= 1 then 1.0 else 0.0
    else Max(0.0, Min((count - 1) as real / (threshold - 1) as real, 1.0))
  }

  /** RiskSignals: the last event's user's joins, and its host's distinct users, within the window. */
  datatype Signals = Signals(joins: nat, users: nat)

  function Score(s: Signals, st: Settings): Result<real> {
    if st.maxJoins <= 0 || st.maxUsers <= 0 then ValueError
    else Ok(Max(Ramp(s.joins, st.maxJoins), Ramp(s.users, st.maxUsers)))
  }

  lemma DivideMonotone(a: real, b: real, d: real)
    requires d > 0.0
    ensures a <= b ==> a / d <= b / d
    ensures a / d == b / d ==> a == b
  {
    assert a == (a / d) * d && b == (b / d) * d;
  }

  /** A ramp is in [0, 1], leaves 0 after one occurrence, and reaches 1 at its threshold, not before. */
  lemma RampShape(count: int, threshold: int)
    requires threshold > 0
    ensures 0.0 <= Ramp(count, threshold) <= 1.0
    ensures Ramp(count, threshold) == 1.0 <==> count >= threshold
    ensures threshold > 1 ==> (Ramp(count, threshold) > 0.0 <==> count > 1)
  {
    if threshold > 1 {
      var c, d := (count - 1) as real, (threshold - 1) as real;
      DivideMonotone(d, c, d);
      DivideMonotone(c, d, d);
      DivideMonotone(c, 0.0, d);
      DivideMonotone(0.0, c, d);
      assert d / d == 1.0 && 0.0 / d == 0.0;
    }
  }

  /** Between the first occurrence and the threshold a ramp is a straight line. */
  lemma RampExactly(count: int, threshold: int)
    ensures threshold <= 1 ==> Ramp(count, threshold) == if count >= 1 then 1.0 else 0.0
    ensures threshold > 1 && count <= 1 ==> Ramp(count, threshold) == 0.0
    ensures threshold > 1 && count >= threshold ==> Ramp(count, threshold) == 1.0
    ensures threshold > 1 && 1 <= count <= threshold ==>
              Ramp(count, threshold) * (threshold - 1) as real == (count - 1) as real
  {
    if threshold > 1 {
      var c, d := (count - 1) as real, (threshold - 1) as real;
      DivideMonotone(d, c, d);
      DivideMonotone(c, d, d);
      DivideMonotone(c, 0.0, d);
      DivideMonotone(0.0, c, d);
      assert d / d == 1.0 && 0.0 / d == 0.0 && c / d * d == c;
    }
  }

  lemma RampMonotone(count: int, more: int, threshold: int)
    requires count <= more
    ensures Ramp(count, threshold) <= Ramp(more, threshold)
  {
    if threshold > 1 {
      DivideMonotone((count - 1) as real, (more - 1) as real, (threshold - 1) as real);
    }
  }

  /** Scores lie in [0, 1], and are 1 exactly if one of the counts has reached its threshold. */
  lemma ScoreShape(s: Signals, st: Settings)
    ensures Score(s, st).ValueError? <==> st.maxJoins <= 0 || st.maxUsers <= 0
    ensures Score(s, st).Ok? || Score(s, st).ValueError?
    ensures Score(s, st).Ok? ==>
              var score := Score(s, st).value;
              0.0 <= score <= 1.0 && (score == 1.0 <==> s.joins >= st.maxJoins || s.users >= st.maxUsers)
  {
    if st.maxJoins > 0 && st.maxUsers > 0 {
      RampShape(s.joins, st.maxJoins);
      RampShape(s.users, st.maxUsers);
    }
  }

  /** A score is the worse of the two signals, not a mixture of them. */
  lemma ScoreIsTheWorse(s: Signals, st: Settings)
    requires st.maxJoins > 0 && st.maxUsers > 0
    ensures var joins, users := Ramp(s.joins, st.maxJoins), Ramp(s.users, st.maxUsers);
      Score(s, st) == Ok(if joins >= users then joins else users)
  {
  }

  lemma ScoreMonotone(s: Signals, t: Signals, st: Settings)
    requires s.joins <= t.joins && s.users <= t.users && st.maxJoins > 0 && st.maxUsers > 0
    ensures Score(s, st).Ok? && Score(t, st).Ok? && Score(s, st).value <= Score(t, st).value
  {
    RampMonotone(s.joins, t.joins, st.maxJoins);
    RampMonotone(s.users, t.users, st.maxUsers);
  }

  // ----- the consumer -----

  /**
   A BuyerJoined event, when its two pipelines and the score's SET run, and how each of them fares. host is what
   extract_host leaves of the address.
   */
  datatype Joined = Joined(item: ItemId, user: UserId, host: Host, at: Time, userWall: Time, hostWall: Time,
                           cacheWall: Time, userNet: Net, hostNet: Net, cacheNet: Net)

  /** What event e adds to the key, if anything: an error in the first pipeline keeps the second from running. */
  function Adds(e: Joined, key: SetKey): Option<Visit> {
    if key == OfUser(e.user) then
      if e.userNet.LostBefore? then None else Some(Visit(Join(e.item, e.at), e.at, e.userWall))
    else if key == OfHost(e.host) then
      if !e.userNet.Ok? || e.hostNet.LostBefore? then None else Some(Visit(User(e.user), e.at, e.hostWall))
    else None
  }

  /** Both pipelines' replies arrive. */
  predicate Heard(e: Joined) {
    e.userNet.Ok? && e.hostNet.Ok?
  }

  /** What the first n of es add to the key, in order. */
  function Visits(es: seq<Joined>, n: nat, key: SetKey): seq<Visit>
    requires n <= |es|
  {
    if n == 0 then [] else
      Visits(es, n - 1, key) + match Adds(es[n - 1], key) case Some(v) => [v] case None => []
  }

  /** What the two windows answer for es[k], if both do. */
  function Told(es: seq<Joined>, k: nat, window: int): Signals
    requires k < |es| && Heard(es[k])
  {
    Signals(Count(Visits(es, k + 1, OfUser(es[k].user)), window), Count(Visits(es, k + 1, OfHost(es[k].host)), window))
  }

  /** The two windows of process_event: the user's first, then the host's unless that failed. */
  function Process(keys: Keys, e: Joined, window: int): (Keys, Signals) {
    var u, h := OfUser(e.user), OfHost(e.host);
    var joins := Slide(Get(keys, u), Visit(Join(e.item, e.at), e.at, e.userWall), window);
    var keys' := if e.userNet.LostBefore? then keys else Put(keys, u, joins.0);
    var users := Slide(Get(keys', h), Visit(User(e.user), e.at, e.hostWall), window);
    (if !e.userNet.Ok? || e.hostNet.LostBefore? then keys' else Put(keys', h, users.0), Signals(joins.1, users.1))
  }

  /** What process_event returns or raises, given the two counts. */
  function Outcome(e: Joined, s: Signals, st: Settings): Result<real> {
    if !Heard(e) then RedisError
    else if Score(s, st).Ok? && st.ttl <= 0 then ValueError
    else if Score(s, st).Ok? && !e.cacheNet.Ok? then RedisError
    else Score(s, st)
  }

  /** An event is scored exactly if both windows answer, the settings are positive and the score's SET is answered. */
  lemma OutcomeExactly(e: Joined, s: Signals, st: Settings)
    ensures var outcome, positive := Outcome(e, s, st), st.maxJoins > 0 && st.maxUsers > 0 && st.ttl > 0;
      && (outcome.Ok? <==> Heard(e) && positive && e.cacheNet.Ok?)
      && (outcome.ValueError? <==> Heard(e) && !positive)
      && (outcome.Ok? ==> outcome == Score(s, st))
  {
  }

  /** A cached score and the wall-clock time at which it expires. */
  datatype Cached = Cached(score: real, expiresAt: Time)

  type Cache = map<(ItemId, UserId), Cached>

  /** The score cache after process_event, given the two counts. */
  function Recorded(cache: Cache, e: Joined, s: Signals, st: Settings): Cache {
    if Heard(e) && Score(s, st).Ok? && st.ttl > 0 && !e.cacheNet.LostBefore?
    then cache[(e.item, e.user) := Cached(Score(s, st).value, e.cacheWall + st.ttl)] else cache
  }

  /** The score is noted exactly if it is found, and its SET reaches Redis. */
  lemma RecordedExactly(cache: Cache, e: Joined, s: Signals, st: Settings)
    ensures Recorded(cache, e, s, st)
         == if Heard(e) && st.maxJoins > 0 && st.maxUsers > 0 && st.ttl > 0 && !e.cacheNet.LostBefore?
            then cache[(e.item, e.user) := Cached(Score(s, st).value, e.cacheWall + st.ttl)] else cache
  {
  }

  class ScoreCache {
    var scores: Cache

    constructor ()
      ensures scores == map[]
    {
      scores := map[];
    }

    /** set_risk_score: a time to live that is not positive or a score outside [0, 1] is refused. */
    method SetRiskScore(item: ItemId, user: UserId, score: real, ttl: int, wall: Time, net: Net)
      returns (r: Result<real>)
      modifies this
      ensures ttl <= 0 || !(0.0 <= score <= 1.0) ==> r == ValueError && scores == old(scores)
      ensures ttl > 0 && 0.0 <= score <= 1.0 ==>
                && r == (if net.Ok? then Ok(score) else RedisError)
                && scores == if net.LostBefore? then old(scores)
                             else old(scores)[(item, user) := Cached(score, wall + ttl)]
    {
      if ttl <= 0 || !(0.0 <= score <= 1.0) {
        return ValueError;
      }
      if !net.LostBefore? {
        scores := scores[(item, user) := Cached(score, wall + ttl)];
      }
      r := if net.Ok? then Ok(score) else RedisError;
    }
  }

  /** A threshold that is not positive is reported only after both windows have been updated. */
  method ProcessEvent(redis: SortedSets, cache: ScoreCache, st: Settings, e: Joined) returns (score: Result<real>)
    modifies redis, cache
    ensures var done := Process(old(redis.keys), e, st.window);
      && redis.keys == done.0 && score == Outcome(e, done.1, st)
      && cache.scores == Recorded(old(cache.scores), e, done.1, st)
  {
    var ok, joins := redis.SlideAndCount(OfUser(e.user), Join(e.item, e.at), e.at, st.window, e.userWall, e.userNet);
    if !ok {
      return RedisError;
    }
    var ok', users := redis.SlideAndCount(OfHost(e.host), User(e.user), e.at, st.window, e.hostWall, e.hostNet);
    if !ok' {
      return RedisError;
    }
    ScoreShape(Signals(joins, users), st);
    score := Score(Signals(joins, users), st);
    if score.Ok? {
      score := cache.SetRiskScore(e.item, e.user, score.value, st.ttl, e.cacheWall, e.cacheNet);
    }
  }

  /** Redis after the first n of es, from nothing, if each changes it by step. */
  function Fold(step: (Keys, Joined) -> Keys, es: seq<Joined>, n: nat): Keys
    requires n <= |es|
  {
    if n == 0 then map[] else step(Fold(step, es, n - 1), es[n - 1])
  }

  function StepBy(window: int): (Keys, Joined) -> Keys {
    (keys: Keys, e: Joined) => Process(keys, e, window).0
  }

  /** The windows after the first n of es. */
  function WindowsAfter(es: seq<Joined>, n: nat, window: int): Keys
    requires n <= |es|
  {
    Fold(StepBy(window), es, n)
  }

  /** If each event takes the key from one wanted content to the next, the key always has the wanted content. */
  lemma {:induction false} FoldGet(step: (Keys, Joined) -> Keys, es: seq<Joined>, n: nat, key: SetKey,
                                   want: nat -> Option<Stored>)
    requires n <= |es| && want(0) == None
    requires forall k, keys | 0 <= k < n && Get(keys, key) == want(k) :: Get(step(keys, es[k]), key) == want(k + 1)
    ensures Get(Fold(step, es, n), key) == want(n)
  {
    if n != 0 {
      FoldGet(step, es, n - 1, key, want);
    }
  }

  lemma AfterSnoc(h: seq<Visit>, v: Visit, window: int)
    ensures After(h + [v], window) == Slide(After(h, window), v, window).0
    ensures Count(h + [v], window) == Slide(After(h, window), v, window).1
  {
    assert (h + [v])[..|h|] == h;
  }

  /** What one event does to one key. */
  lemma ProcessAt(keys: Keys, e: Joined, window: int, key: SetKey)
    ensures Get(Process(keys, e, window).0, key) == match Adds(e, key)
                                                case Some(v) => Slide(Get(keys, key), v, window).0
                                                case None => Get(keys, key)
  {
  }

  lemma KeyKeeps(keys: Keys, es: seq<Joined>, k: nat, window: int, key: SetKey)
    requires k < |es| && Get(keys, key) == After(Visits(es, k, key), window)
    ensures Get(Process(keys, es[k], window).0, key) == After(Visits(es, k + 1, key), window)
  {
    ProcessAt(keys, es[k], window, key);
    match Adds(es[k], key)
    case Some(v) => AfterSnoc(Visits(es, k, key), v, window);
    case None => assert Visits(es, k, key) + [] == Visits(es, k, key);
  }

  lemma KeyCounts(keys: Keys, es: seq<Joined>, k: nat, window: int, key: SetKey)
    requires k < |es| && Get(keys, key) == After(Visits(es, k, key), window) && Adds(es[k], key).Some?
    ensures Count(Visits(es, k + 1, key), window) == Slide(Get(keys, key), Adds(es[k], key).value, window).1
  {
    AfterSnoc(Visits(es, k, key), Adds(es[k], key).value, window);
  }

  /** What the key is to hold after k events. */
  function Wanted(es: seq<Joined>, window: int, key: SetKey): nat -> Option<Stored> {
    (k: nat) => if k <= |es| then After(Visits(es, k, key), window) else None
  }

  lemma StepWanted(es: seq<Joined>, k: nat, window: int, key: SetKey, keys: Keys)
    requires k < |es| && Get(keys, key) == Wanted(es, window, key)(k)
    ensures Get(StepBy(window)(keys, es[k]), key) == Wanted(es, window, key)(k + 1)
  {
    KeyKeeps(keys, es, k, window, key);
  }

  /** Whatever failed, every key holds what the visits that reached it leave. */
  lemma WindowsHoldVisits(es: seq<Joined>, n: nat, window: int, key: SetKey)
    requires n <= |es|
    ensures Get(WindowsAfter(es, n, window), key) == After(Visits(es, n, key), window)
  {
    forall k, keys | 0 <= k < n && Get(keys, key) == Wanted(es, window, key)(k)
      ensures Get(StepBy(window)(keys, es[k]), key) == Wanted(es, window, key)(k + 1)
    {
      StepWanted(es, k, window, key, keys);
    }
    FoldGet(StepBy(window), es, n, key, Wanted(es, window, key));
  }

  lemma ProcessCounts(keys: Keys, e: Joined, window: int)
    requires Heard(e)
    ensures var u, h := OfUser(e.user), OfHost(e.host);
      Process(keys, e, window).1 == Signals(Slide(Get(keys, u), Adds(e, u).value, window).1,
                                            Slide(Get(keys, h), Adds(e, h).value, window).1)
  {
    var u, h := OfUser(e.user), OfHost(e.host);
    assert forall s :: Get(Put(keys, u, s), h) == Get(keys, h);
  }

  lemma ProcessTells(es: seq<Joined>, k: nat, window: int)
    requires k < |es| && Heard(es[k])
    ensures Process(WindowsAfter(es, k, window), es[k], window).1 == Told(es, k, window)
  {
    var keys := WindowsAfter(es, k, window);
    ProcessCounts(keys, es[k], window);
    WindowsHoldVisits(es, k, window, OfUser(es[k].user));
    WindowsHoldVisits(es, k, window, OfHost(es[k].host));
    KeyCounts(keys, es, k, window, OfUser(es[k].user));
    KeyCounts(keys, es, k, window, OfHost(es[k].host));
  }

  /** What becomes of es[k], by its two windows over all events so far. */
  function Scored(es: seq<Joined>, k: nat, st: Settings): Result<real>
    requires k < |es|
  {
    if Heard(es[k]) then Outcome(es[k], Told(es, k, st.window), st) else RedisError
  }

  /** What es[k] leaves in the score cache. */
  function Noted(cache: Cache, es: seq<Joined>, k: nat, st: Settings): Cache
    requires k < |es|
  {
    if Heard(es[k]) then Recorded(cache, es[k], Told(es, k, st.window), st) else cache
  }

  /** The results of events m, ..., n - 1, and the score cache after them. */
  datatype Log = Log(results: seq<Result<real>>, cache: Cache)

  function Logged(cache: Cache, es: seq<Joined>, m: nat, n: nat, st: Settings): Log
    requires m <= n <= |es|
  {
    if n == m then Log([], cache) else
      var before := Logged(cache, es, m, n - 1, st);
      Log(before.results + [Scored(es, n - 1, st)], Noted(before.cache, es, n - 1, st))
  }

  /** The n-th message of the consumer's loop. */
  method HandleMessage(redis: SortedSets, cache: ScoreCache, st: Settings, es: seq<Joined>, n: nat)
    returns (score: Result<real>)
    requires 0 < n <= |es| && redis.keys == WindowsAfter(es, n - 1, st.window)
    modifies redis, cache
    ensures redis.keys == WindowsAfter(es, n, st.window)
    ensures score == Scored(es, n - 1, st) && cache.scores == Noted(old(cache.scores), es, n - 1, st)
  {
    if Heard(es[n - 1]) {
      ProcessTells(es, n - 1, st.window);
    }
    score := ProcessEvent(redis, cache, st, es[n - 1]);
  }

  /**
   The consumer's loop since a (re)start: the windows are as the first m events left them, in whatever runs and
   with whatever failures. Restarts are invisible: each later event is scored by its two windows over all events
   from the very first. An event that fails is logged, and the next is taken.
   */
  method Run(redis: SortedSets, cache: ScoreCache, st: Settings, es: seq<Joined>, m: nat)
    returns (scores: seq<Result<real>>)
    requires m <= |es| && redis.keys == WindowsAfter(es, m, st.window)
    modifies redis, cache
    ensures redis.keys == WindowsAfter(es, |es|, st.window)
    ensures Log(scores, cache.scores) == Logged(old(cache.scores), es, m, |es|, st)
  {
    scores := [];
    var n := m;
    while n < |es|
      invariant m <= n <= |es|
      invariant redis.keys == WindowsAfter(es, n, st.window)
      invariant Log(scores, cache.scores) == Logged(old(cache.scores), es, m, n, st)
    {
      n := n + 1;
      var score := HandleMessage(redis, cache, st, es, n);
      scores := scores + [score];
    }
  }

  // ----- the score as a function of history -----

  /** The key has seen its visits in order and without growing delay. */
  ghost predicate RegularAt(es: seq<Joined>, n: nat, window: int, key: SetKey)
    requires n <= |es|
  {
    InOrder(Visits(es, n, key)) && Steady(Visits(es, n, key), window)
  }

  /** Both keys of es[k] have, up to es[k]. */
  ghost predicate Regular(es: seq<Joined>, k: nat, window: int)
    requires k < |es|
  {
    RegularAt(es, k + 1, window, OfUser(es[k].user)) && RegularAt(es, k + 1, window, OfHost(es[k].host))
  }

  /** The members that the first n of es add to the key later than the cutoff. */
  ghost function Seen(es: seq<Joined>, n: nat, key: SetKey, cutoff: Time): set<Member>
    requires n <= |es|
  {
    set k | 0 <= k < n && Adds(es[k], key).Some? && es[k].at > cutoff :: Adds(es[k], key).value.member
  }

  /** For a user, these are the user's joins: each with its item and time, so that none hides another. */
  lemma SeenOfUser(es: seq<Joined>, n: nat, u: UserId, cutoff: Time)
    requires n <= |es|
    ensures Seen(es, n, OfUser(u), cutoff)
         == set k | 0 <= k < n && es[k].user == u && !es[k].userNet.LostBefore? && es[k].at > cutoff ::
              Join(es[k].item, es[k].at)
  {
    forall k | 0 <= k < n
      ensures es[k].user == u && !es[k].userNet.LostBefore? ==>
                Adds(es[k], OfUser(u)) == Some(Visit(Join(es[k].item, es[k].at), es[k].at, es[k].userWall))
      ensures es[k].user != u || es[k].userNet.LostBefore? ==> Adds(es[k], OfUser(u)) == None
    {
    }
  }

  /** For a host, these are users: one who joins again counts once. */
  lemma SeenOfHost(es: seq<Joined>, n: nat, host: Host, cutoff: Time)
    requires n <= |es|
    ensures Seen(es, n, OfHost(host), cutoff)
         == set k | 0 <= k < n && es[k].host == host && es[k].userNet.Ok? && !es[k].hostNet.LostBefore?
                    && es[k].at > cutoff ::
              User(es[k].user)
  {
    forall k | 0 <= k < n
      ensures es[k].host == host && es[k].userNet.Ok? && !es[k].hostNet.LostBefore? ==>
                Adds(es[k], OfHost(host)) == Some(Visit(User(es[k].user), es[k].at, es[k].hostWall))
      ensures es[k].host != host || !es[k].userNet.Ok? || es[k].hostNet.LostBefore? ==>
                Adds(es[k], OfHost(host)) == None
    {
    }
  }

  lemma {:induction false} RecentIsSeen(es: seq<Joined>, n: nat, key: SetKey, cutoff: Time)
    requires n <= |es|
    ensures Recent(Visits(es, n, key), cutoff) == Seen(es, n, key, cutoff)
  {
    if n != 0 {
      RecentIsSeen(es, n - 1, key, cutoff);
      RecentSnoc(Visits(es, n - 1, key), Adds(es[n - 1], key), cutoff);
      SeenSnoc(es, n, key, cutoff);
    }
  }

  lemma RecentCount(es: seq<Joined>, n: nat, key: SetKey, cutoff: Time)
    requires n <= |es|
    ensures |Recent(Visits(es, n, key), cutoff)| == |Seen(es, n, key, cutoff)|
  {
    RecentIsSeen(es, n, key, cutoff);
  }

  lemma RecentSnoc(h: seq<Visit>, v: Option<Visit>, cutoff: Time)
    ensures Recent(h + match v case Some(x) => [x] case None => [], cutoff)
         == Recent(h, cutoff) + if v.Some? && v.value.at > cutoff then {v.value.member} else {}
  {
    if v.Some? {
      var g := h + [v.value];
      assert g[|h|] == v.value && forall k | 0 <= k < |h| :: g[k] == h[k];
    } else {
      assert h + [] == h;
    }
  }

  lemma SeenSnoc(es: seq<Joined>, n: nat, key: SetKey, cutoff: Time)
    requires 0 < n <= |es|
    ensures var v := Adds(es[n - 1], key);
      Seen(es, n, key, cutoff)
      == Seen(es, n - 1, key, cutoff) + if v.Some? && v.value.at > cutoff then {v.value.member} else {}
  {
  }

  lemma CutoffAt(es: seq<Joined>, k: nat, window: int, key: SetKey)
    requires k < |es| && Adds(es[k], key).Some?
    ensures Cutoff(Visits(es, k + 1, key), window) == es[k].at - window
  {
  }

  lemma CountAt(es: seq<Joined>, k: nat, window: int, key: SetKey)
    requires k < |es| && window > 0 && Adds(es[k], key).Some? && RegularAt(es, k + 1, window, key)
    ensures Count(Visits(es, k + 1, key), window) == |Recent(Visits(es, k + 1, key), es[k].at - window)|
  {
    CutoffAt(es, k, window, key);
    WindowAgrees(Visits(es, k + 1, key), window);
  }

  lemma CountIsSeen(es: seq<Joined>, k: nat, window: int, key: SetKey)
    requires k < |es| && window > 0 && Adds(es[k], key).Some? && RegularAt(es, k + 1, window, key)
    ensures Count(Visits(es, k + 1, key), window) == |Seen(es, k + 1, key, es[k].at - window)|
  {
    CountAt(es, k, window, key);
    RecentCount(es, k + 1, key, es[k].at - window);
  }

  /** Of the joins up to es[k] later than its time less the window: its user's, and its host's distinct users. */
  ghost function InWindow(es: seq<Joined>, k: nat, window: int): Signals
    requires k < |es|
  {
    Signals(|Seen(es, k + 1, OfUser(es[k].user), es[k].at - window)|,
            |Seen(es, k + 1, OfHost(es[k].host), es[k].at - window)|)
  }

  /** What the windows answer is what the history says. */
  lemma ToldIsHistory(es: seq<Joined>, k: nat, window: int)
    requires k < |es| && window > 0 && Regular(es, k, window) && Heard(es[k])
    ensures Told(es, k, window) == InWindow(es, k, window)
  {
    CountIsSeen(es, k, window, OfUser(es[k].user));
    CountIsSeen(es, k, window, OfHost(es[k].host));
  }

  lemma SubsetIsSmaller(a: set<Member>, b: set<Member>)
    requires a <= b
    ensures |a| <= |b|
  {
    assert a + (b - a) == b;
  }

  /** es with one more join, at position p. */
  function Inserted(es: seq<Joined>, p: nat, x: Joined): seq<Joined>
    requires p <= |es|
  {
    es[..p] + [x] + es[p..]
  }

  lemma SeenGrows(es: seq<Joined>, k: nat, p: nat, x: Joined, key: SetKey, cutoff: Time)
    requires p <= k < |es|
    ensures |Seen(es, k + 1, key, cutoff)| <= |Seen(Inserted(es, p, x), k + 2, key, cutoff)|
  {
    var more := Inserted(es, p, x);
    assert forall j | 0 <= j < |es| :: es[j] == more[if j < p then j else j + 1];
    SubsetIsSmaller(Seen(es, k + 1, key, cutoff), Seen(more, k + 2, key, cutoff));
  }

  lemma SignalsGrow(es: seq<Joined>, k: nat, p: nat, x: Joined, window: int)
    requires p <= k < |es|
    ensures var less, more := InWindow(es, k, window), InWindow(Inserted(es, p, x), k + 1, window);
      less.joins <= more.joins && less.users <= more.users
  {
    assert Inserted(es, p, x)[k + 1] == es[k];
    SeenGrows(es, k, p, x, OfUser(es[k].user), es[k].at - window);
    SeenGrows(es, k, p, x, OfHost(es[k].host), es[k].at - window);
  }

  lemma InsertedAt(es: seq<Joined>, k: nat, p: nat, x: Joined)
    requires p <= k < |es|
    ensures k + 1 < |Inserted(es, p, x)| && Inserted(es, p, x)[k + 1] == es[k]
  {
  }

  /** If the first is a score, so is the second, and no lower. */
  predicate AtMost(r: Result<real>, s: Result<real>) {
    r.Ok? ==> s.Ok? && r.value <= s.value
  }

  lemma OutcomeMonotone(e: Joined, s: Signals, t: Signals, st: Settings)
    requires s.joins <= t.joins && s.users <= t.users
    ensures AtMost(Outcome(e, s, st), Outcome(e, t, st))
  {
    if Outcome(e, s, st).Ok? {
      ScoreMonotone(s, t, st);
    }
  }

  /** One extra earlier join, wherever it falls and however it fares, never lowers a later event's score. */
  lemma ScoreGrowsWithHistory(es: seq<Joined>, k: nat, p: nat, x: Joined, st: Settings)
    requires p <= k < |es| && st.window > 0
    requires Regular(es, k, st.window) && Regular(Inserted(es, p, x), k + 1, st.window)
    ensures AtMost(Scored(es, k, st), Scored(Inserted(es, p, x), k + 1, st))
  {
    var more := Inserted(es, p, x);
    InsertedAt(es, k, p, x);
    if Heard(es[k]) {
      ToldIsHistory(es, k, st.window);
      ToldIsHistory(more, k + 1, st.window);
      SignalsGrow(es, k, p, x, st.window);
      OutcomeMonotone(es[k], Told(es, k, st.window), Told(more, k + 1, st.window), st);
    }
  }
}
