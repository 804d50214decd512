/** cmd/decision-service: what becomes of one message, from its first delivery to its offset commit. */
module Consume {
  import opened Tables
  import opened Database
  import opened Retry

  /** The errors that classifyOutcome tells apart. */
  datatype ProcErr = NoError | BadData | PqError | PlainError

  function ErrOf(reply: Reply): ProcErr {
    match reply
    case Answered(ItemNotFound) | Answered(InvalidQuantity) => BadData
    case Answered(PgError) | Failed(Postgres) => PqError
    case Failed(Connectivity) => PlainError
    case Answered(_) => NoError
  }

  datatype Verdict = CommitOffset | DeadLetter | RetryUncounted | RetryCounted

  function ClassifyOutcome(err: ProcErr, p: Policy, attemptCount: int, elapsed: int): Verdict {
    match err
    case NoError => CommitOffset
    case BadData => DeadLetter
    case PlainError => RetryUncounted
    case PqError => if ShouldRetry(p, attemptCount, elapsed) then RetryCounted else DeadLetter
  }

  /** One ProcessAttempt call: what it returned and how long it took. */
  datatype Trial = Trial(err: ProcErr, took: nat)

  /** How the loop over one message ends; Interrupted is a shutdown during a backoff. */
  datatype Ending = Committed | DeadLettered(attemptCount: int) | Interrupted

  function Backoff(p: Policy, n: int): int {
    Doubled(Base(p), Cap(p), Doublings(n))
  }

  /** time.After fires at once for a non-positive wait. */
  function Wait(d: int): nat {
    if d > 0 then d else 0
  }

  /** What becomes of a message, given the results of trials in turn, and how many of them are used. */
  function Handle(p: Policy, trials: seq<Trial>, attempts: int, uncounted: int, elapsed: int): (r: (Ending, nat))
    ensures r.1 <= |trials|
    ensures if r.0 == Interrupted then r.1 == |trials| else 0 < r.1
    decreases |trials|
  {
    if trials == [] then (Interrupted, 0) else
      var now := elapsed + trials[0].took;
      match ClassifyOutcome(trials[0].err, p, attempts, now)
      case CommitOffset => (Committed, 1)
      case DeadLetter => (DeadLettered(attempts), 1)
      case RetryUncounted =>
        var r := Handle(p, trials[1..], attempts, uncounted + 1, now + Wait(Backoff(p, uncounted + 1)));
        (r.0, r.1 + 1)
      case RetryCounted =>
        var r := Handle(p, trials[1..], attempts + 1, uncounted, now + Wait(Backoff(p, attempts + 1)));
        (r.0, r.1 + 1)
  }

  function Outcome(p: Policy, trials: seq<Trial>): (Ending, nat) {
    Handle(p, trials, 0, 0, 0)
  }

  /** After `past`, the loop's variables are all that matters for what follows. */
  ghost predicate Continues(p: Policy, past: seq<Trial>, more: seq<Trial>,
                            attempts: int, uncounted: int, elapsed: int) {
    var r := Handle(p, more, attempts, uncounted, elapsed);
    Outcome(p, past + more) == (r.0, |past| + r.1)
  }

  /** What the environment does to one ProcessAttempt call. */
  datatype Call = Call(fault: Fault, now: Time, freshId: ResId, took: nat)

  /** The message is decided: its row exists, whatever its status. */
  ghost predicate Decided(db: Db, a: Attempt) {
    (a.item, a.key) in db.byKey
  }

  /** One ProcessAttempt call under a given fault: the tables it leaves and what it returns. */
  ghost function Perform(db: Db, a: Attempt, ttl: Time, c: Call): (Db, Reply) {
    Suffer(db, Decide(db, a, c.freshId, c.now + ttl), c.fault, DecisionHits(db, a, c.freshId, c.fault))
  }

  /** The tables after the first n calls. */
  ghost function Performed(db: Db, a: Attempt, ttl: Time, calls: seq<Call>, n: nat): Db
    requires n <= |calls|
  {
    if n == 0 then db else Perform(Performed(db, a, ttl, calls, n - 1), a, ttl, calls[n - 1]).0
  }

  ghost function TrialAt(db: Db, a: Attempt, ttl: Time, calls: seq<Call>, k: nat): Trial
    requires k < |calls|
  {
    Trial(ErrOf(Perform(Performed(db, a, ttl, calls, k), a, ttl, calls[k]).1), calls[k].took)
  }

  /** The results of the first n calls. */
  ghost function TrialsOf(db: Db, a: Attempt, ttl: Time, calls: seq<Call>, n: nat): (trials: seq<Trial>)
    requires n <= |calls|
    ensures |trials| == n
  {
    if n == 0 then [] else TrialsOf(db, a, ttl, calls, n - 1) + [TrialAt(db, a, ttl, calls, n - 1)]
  }

  /** How the message ends, and after how many of the calls. */
  ghost function OutcomeOf(db: Db, p: Policy, a: Attempt, ttl: Time, calls: seq<Call>): (r: (Ending, nat))
    ensures r.1 <= |calls| && (r.0 == Interrupted ==> r.1 == |calls|)
  {
    Outcome(p, TrialsOf(db, a, ttl, calls, |calls|))
  }

  method TryOnce(db: Postgres, a: Attempt, ttl: Time, c: Call) returns (err: ProcErr)
    modifies db
    ensures db.View() == Perform(old(db.View()), a, ttl, c).0
    ensures err == ErrOf(Perform(old(db.View()), a, ttl, c).1)
  {
    var reply := db.ProcessAttempt(a, c.now, ttl, c.freshId, c.fault);
    err := ErrOf(reply);
  }

  /**
   The inner loop of runConsumeLoop: it calls ProcessAttempt until a verdict ends it or ctx is cancelled
   (calls runs out), and says how many of the calls it made.
   */
  method HandleMessage(db: Postgres, p: Policy, a: Attempt, ttl: Time, calls: seq<Call>)
      returns (ending: Ending, used: nat)
    modifies db
    ensures used <= |calls| && db.View() == Performed(old(db.View()), a, ttl, calls, used)
    ensures ending.Interrupted? ==> used == |calls|
    ensures Outcome(p, TrialsOf(old(db.View()), a, ttl, calls, used)) == (ending, used)
  {
    ghost var db0 := db.View();
    var attemptCount, uncountedRetries, elapsed := 0, 0, 0;
    used := 0;
    NothingHandled(p);
    while used < |calls|
      invariant used <= |calls|
      invariant db.View() == Performed(db0, a, ttl, calls, used)
      invariant Reaches(p, TrialsOf(db0, a, ttl, calls, used), attemptCount, uncountedRetries, elapsed)
    {
      ghost var trial := TrialAt(db0, a, ttl, calls, used);
      ReachStep(p, TrialsOf(db0, a, ttl, calls, used), trial, attemptCount, uncountedRetries, elapsed);
      var err := TryOnce(db, a, ttl, calls[used]);
      elapsed := elapsed + calls[used].took;
      used := used + 1;
      match ClassifyOutcome(err, p, attemptCount, elapsed) {
        case CommitOffset =>
          return Committed, used;
        case DeadLetter =>
          return DeadLettered(attemptCount), used;
        case RetryUncounted =>
          uncountedRetries := uncountedRetries + 1;
          var backoff := NextBackoff(p, uncountedRetries);
          elapsed := elapsed + Wait(backoff);
        case RetryCounted =>
          attemptCount := attemptCount + 1;
          var backoff := NextBackoff(p, attemptCount);
          elapsed := elapsed + Wait(backoff);
      }
    }
    ReachedEnd(p, TrialsOf(db0, a, ttl, calls, used), attemptCount, uncountedRetries, elapsed);
    return Interrupted, used;
  }

  /** The inner loop has used up `past` without ending, and its variables have these values. */
  ghost predicate Reaches(p: Policy, past: seq<Trial>, attempts: int, uncounted: int, elapsed: int) {
    forall more: seq<Trial> :: Continues(p, past, more, attempts, uncounted, elapsed)
  }

  lemma NothingHandled(p: Policy)
    ensures Reaches(p, [], 0, 0, 0)
  {
    assert forall more: seq<Trial> :: [] + more == more;
  }

  lemma ReachedEnd(p: Policy, past: seq<Trial>, attempts: int, uncounted: int, elapsed: int)
    requires Reaches(p, past, attempts, uncounted, elapsed)
    ensures Outcome(p, past) == (Interrupted, |past|)
  {
    assert past + [] == past;
    assert Continues(p, past, [], attempts, uncounted, elapsed);
  }

  /** One more result either ends the message or gives the loop's variables their next values. */
  lemma ReachStep(p: Policy, past: seq<Trial>, t: Trial, attempts: int, uncounted: int, elapsed: int)
    requires Reaches(p, past, attempts, uncounted, elapsed)
    ensures var now := elapsed + t.took;
      match ClassifyOutcome(t.err, p, attempts, now)
      case CommitOffset => Outcome(p, past + [t]) == (Committed, |past| + 1)
      case DeadLetter => Outcome(p, past + [t]) == (DeadLettered(attempts), |past| + 1)
      case RetryUncounted =>
        Reaches(p, past + [t], attempts, uncounted + 1, now + Wait(Backoff(p, uncounted + 1)))
      case RetryCounted => Reaches(p, past + [t], attempts + 1, uncounted, now + Wait(Backoff(p, attempts + 1)))
  {
    assert Continues(p, past, [t], attempts, uncounted, elapsed);
    forall more: seq<Trial>
      ensures past + ([t] + more) == past + [t] + more && ([t] + more)[1..] == more
      ensures Continues(p, past, [t] + more, attempts, uncounted, elapsed)
    {
    }
  }

  /** Results after the one that ends the message do not matter. */
  lemma {:induction false} HandlePrefix(p: Policy, xs: seq<Trial>, ys: seq<Trial>,
                                        attempts: int, uncounted: int, elapsed: int)
    requires !Handle(p, xs, attempts, uncounted, elapsed).0.Interrupted?
    ensures Handle(p, xs + ys, attempts, uncounted, elapsed) == Handle(p, xs, attempts, uncounted, elapsed)
    decreases |xs|
  {
    var now := elapsed + xs[0].took;
    assert (xs + ys)[1..] == xs[1..] + ys;
    match ClassifyOutcome(xs[0].err, p, attempts, now) {
      case RetryUncounted =>
        HandlePrefix(p, xs[1..], ys, attempts, uncounted + 1, now + Wait(Backoff(p, uncounted + 1)));
      case RetryCounted =>
        HandlePrefix(p, xs[1..], ys, attempts + 1, uncounted, now + Wait(Backoff(p, attempts + 1)));
      case _ =>
    }
  }

  lemma {:induction false} TrialsExtend(db: Db, a: Attempt, ttl: Time, calls: seq<Call>, n: nat, m: nat)
    returns (more: seq<Trial>)
    requires n <= m <= |calls|
    ensures TrialsOf(db, a, ttl, calls, m) == TrialsOf(db, a, ttl, calls, n) + more
    decreases m
  {
    if n == m {
      more := [];
    } else {
      more := TrialsExtend(db, a, ttl, calls, n, m - 1);
      more := more + [TrialAt(db, a, ttl, calls, m - 1)];
    }
  }

  /** What HandleMessage returns is determined by the tables and the calls alone. */
  lemma OutcomeKnown(db: Db, p: Policy, a: Attempt, ttl: Time, calls: seq<Call>, n: nat, ending: Ending)
    requires n <= |calls| && (ending.Interrupted? ==> n == |calls|)
    requires Outcome(p, TrialsOf(db, a, ttl, calls, n)) == (ending, n)
    ensures OutcomeOf(db, p, a, ttl, calls) == (ending, n)
  {
    if !ending.Interrupted? {
      var more := TrialsExtend(db, a, ttl, calls, n, |calls|);
      HandlePrefix(p, TrialsOf(db, a, ttl, calls, n), more, 0, 0, 0);
    }
  }

  lemma NoErrorMeansDecided(db: Db, a: Attempt, ttl: Time, c: Call)
    requires ErrOf(Perform(db, a, ttl, c).1) == NoError
    ensures Decided(Perform(db, a, ttl, c).0, a)
  {
  }

  /** A message that ends in a commit has its row. */
  lemma CommittedMeansDecided(db: Db, p: Policy, a: Attempt, ttl: Time, calls: seq<Call>)
    requires OutcomeOf(db, p, a, ttl, calls).0.Committed?
    ensures var n := OutcomeOf(db, p, a, ttl, calls).1; Decided(Performed(db, a, ttl, calls, n), a)
  {
    var n := OutcomeOf(db, p, a, ttl, calls).1;
    CommitEndsWithSuccess(p, TrialsOf(db, a, ttl, calls, |calls|), n);
    TrialsIndex(db, a, ttl, calls, |calls|, n - 1);
    SuccessMeansDecided(db, a, ttl, calls, n);
  }

  lemma SuccessMeansDecided(db: Db, a: Attempt, ttl: Time, calls: seq<Call>, n: nat)
    requires 0 < n <= |calls| && TrialAt(db, a, ttl, calls, n - 1).err == NoError
    ensures Decided(Performed(db, a, ttl, calls, n), a)
  {
    NoErrorMeansDecided(Performed(db, a, ttl, calls, n - 1), a, ttl, calls[n - 1]);
  }

  lemma {:induction false} TrialsIndex(db: Db, a: Attempt, ttl: Time, calls: seq<Call>, n: nat, k: nat)
    requires k < n <= |calls|
    ensures TrialsOf(db, a, ttl, calls, n)[k] == TrialAt(db, a, ttl, calls, k)
    decreases n
  {
    if k < n - 1 {
      TrialsIndex(db, a, ttl, calls, n - 1, k);
    }
  }

  lemma CommitEndsWithSuccess(p: Policy, trials: seq<Trial>, n: nat)
    requires Outcome(p, trials) == (Committed, n)
    ensures 0 < n <= |trials| && trials[n - 1].err == NoError
  {
    OutageNeverEnds(p, trials, 0, 0, 0);
  }

  /** However often a message is tried, it changes the tables at most once, as one of the calls would alone. */
  lemma {:induction false} OneEffect(db: Db, a: Attempt, ttl: Time, calls: seq<Call>, n: nat)
    requires n <= |calls|
    ensures Performed(db, a, ttl, calls, n) == db || EffectOfOne(db, a, ttl, calls, n, Performed(db, a, ttl, calls, n))
  {
    if n != 0 {
      OneEffect(db, a, ttl, calls, n - 1);
      var d := Performed(db, a, ttl, calls, n - 1);
      PerformOnce(d, a, ttl, calls[n - 1]);
    }
  }

  ghost predicate EffectOfOne(db: Db, a: Attempt, ttl: Time, calls: seq<Call>, n: nat, d: Db)
    requires n <= |calls|
  {
    Decided(d, a) && exists k :: 0 <= k < n && d == Decide(db, a, calls[k].freshId, calls[k].now + ttl).0
  }

  lemma PerformOnce(db: Db, a: Attempt, ttl: Time, c: Call)
    ensures var d := Perform(db, a, ttl, c).0;
      d == db || (!Decided(db, a) && Decided(d, a) && d == Decide(db, a, c.freshId, c.now + ttl).0)
  {
  }

  // ----- bounded retry -----

  function CountOf(err: ProcErr, trials: seq<Trial>): nat {
    if trials == [] then 0 else (if trials[0].err == err then 1 else 0) + CountOf(err, trials[1..])
  }

  /**
   With a cap on attempts, handling one message sees at most maxAttempts + 1 errors from Postgres: the
   count starts at 0, so maxAttempts retries follow the first call. A loop that has not ended has seen
   at most maxAttempts of them.
   */
  lemma {:induction false} BoundedRetry(p: Policy, trials: seq<Trial>, attempts: nat, uncounted: int, elapsed: int)
    requires p.maxAttempts > 0 && attempts <= p.maxAttempts
    ensures var r := Handle(p, trials, attempts, uncounted, elapsed);
      var errors := attempts + CountOf(PqError, trials[..r.1]);
      && errors <= p.maxAttempts + 1
      && (r.0.Interrupted? ==> r.1 == |trials| && errors <= p.maxAttempts)
    decreases |trials|
  {
    if trials != [] {
      var now := elapsed + trials[0].took;
      var n := Handle(p, trials, attempts, uncounted, elapsed).1;
      assert trials[..n][1..] == trials[1..][..n - 1];
      match ClassifyOutcome(trials[0].err, p, attempts, now) {
        case RetryUncounted =>
          BoundedRetry(p, trials[1..], attempts, uncounted + 1, now + Wait(Backoff(p, uncounted + 1)));
        case RetryCounted =>
          BoundedRetry(p, trials[1..], attempts + 1, uncounted, now + Wait(Backoff(p, attempts + 1)));
        case _ =>
      }
    }
  }

  /**
   Exactly maxAttempts retries follow the first call: with no cap on elapsed time, a message that meets only
   errors from Postgres and outages is given up at its (maxAttempts + 1)-st error from Postgres, which is
   recorded as maxAttempts attempts, and not before.
   */
  lemma {:induction false} RetriesExactly(p: Policy, trials: seq<Trial>, attempts: nat, uncounted: int, elapsed: int)
    requires p.maxAttempts > 0 && p.maxElapsed <= 0 && attempts <= p.maxAttempts
    requires CountOf(NoError, trials) == CountOf(BadData, trials) == 0
    ensures var r := Handle(p, trials, attempts, uncounted, elapsed);
      if attempts + CountOf(PqError, trials) > p.maxAttempts
      then r.0 == DeadLettered(p.maxAttempts) && attempts + CountOf(PqError, trials[..r.1]) == p.maxAttempts + 1
      else r == (Interrupted, |trials|)
    decreases |trials|
  {
    if trials != [] {
      var now := elapsed + trials[0].took;
      var n := Handle(p, trials, attempts, uncounted, elapsed).1;
      assert trials[..n][1..] == trials[1..][..n - 1];
      match ClassifyOutcome(trials[0].err, p, attempts, now) {
        case RetryUncounted =>
          RetriesExactly(p, trials[1..], attempts, uncounted + 1, now + Wait(Backoff(p, uncounted + 1)));
        case RetryCounted =>
          RetriesExactly(p, trials[1..], attempts + 1, uncounted, now + Wait(Backoff(p, attempts + 1)));
        case _ =>
      }
    }
  }

  /** A dead letter records how many errors from Postgres were retried before it. */
  lemma {:induction false} DeadLetterCounts(p: Policy, trials: seq<Trial>, attempts: nat, uncounted: int, elapsed: int)
    requires Handle(p, trials, attempts, uncounted, elapsed).0.DeadLettered?
    ensures var r := Handle(p, trials, attempts, uncounted, elapsed);
      r.0.attemptCount == attempts + CountOf(PqError, trials[..r.1 - 1])
    decreases |trials|
  {
    var now := elapsed + trials[0].took;
    var n := Handle(p, trials, attempts, uncounted, elapsed).1;
    assert n > 1 ==> trials[..n - 1][1..] == trials[1..][..n - 2];
    match ClassifyOutcome(trials[0].err, p, attempts, now) {
      case RetryUncounted =>
        DeadLetterCounts(p, trials[1..], attempts, uncounted + 1, now + Wait(Backoff(p, uncounted + 1)));
      case RetryCounted =>
        DeadLetterCounts(p, trials[1..], attempts + 1, uncounted, now + Wait(Backoff(p, attempts + 1)));
      case _ =>
    }
  }

  lemma {:induction false} EveryErrorCounted(trials: seq<Trial>)
    ensures |trials| == CountOf(NoError, trials) + CountOf(BadData, trials)
                        + CountOf(PqError, trials) + CountOf(PlainError, trials)
  {
    if trials != [] {
      EveryErrorCounted(trials[1..]);
    }
  }

  /** While the loop goes on it has met nothing but retryable errors. */
  lemma {:induction false} InterruptedSawOnlyRetries(p: Policy, trials: seq<Trial>,
                                                     attempts: int, uncounted: int, elapsed: int)
    requires Handle(p, trials, attempts, uncounted, elapsed).0.Interrupted?
    ensures CountOf(NoError, trials) == CountOf(BadData, trials) == 0
    decreases |trials|
  {
    if trials != [] {
      var now := elapsed + trials[0].took;
      match ClassifyOutcome(trials[0].err, p, attempts, now) {
        case RetryUncounted =>
          InterruptedSawOnlyRetries(p, trials[1..], attempts, uncounted + 1, now + Wait(Backoff(p, uncounted + 1)));
        case RetryCounted =>
          InterruptedSawOnlyRetries(p, trials[1..], attempts + 1, uncounted, now + Wait(Backoff(p, attempts + 1)));
        case _ =>
      }
    }
  }

  /** Termination: the loop ends as soon as it has made more than maxAttempts calls that reached Postgres. */
  lemma RetryEnds(p: Policy, trials: seq<Trial>)
    requires p.maxAttempts > 0 && |trials| > p.maxAttempts + CountOf(PlainError, trials)
    ensures Outcome(p, trials).0 != Interrupted
  {
    if Outcome(p, trials).0 == Interrupted {
      BoundedRetry(p, trials, 0, 0, 0);
      assert trials[..|trials|] == trials;
      InterruptedSawOnlyRetries(p, trials, 0, 0, 0);
      EveryErrorCounted(trials);
    }
  }

  /** The call that ends a message is a success, bad data, or an error from Postgres: never an outage. */
  lemma {:induction false} OutageNeverEnds(p: Policy, trials: seq<Trial>, attempts: int, uncounted: int, elapsed: int)
    ensures var r := Handle(p, trials, attempts, uncounted, elapsed);
      && (r.0.Committed? ==> trials[r.1 - 1].err == NoError)
      && (r.0.DeadLettered? ==> trials[r.1 - 1].err == BadData || trials[r.1 - 1].err == PqError)
    decreases |trials|
  {
    if trials != [] {
      var now := elapsed + trials[0].took;
      match ClassifyOutcome(trials[0].err, p, attempts, now) {
        case RetryUncounted =>
          OutageNeverEnds(p, trials[1..], attempts, uncounted + 1, now + Wait(Backoff(p, uncounted + 1)));
        case RetryCounted =>
          OutageNeverEnds(p, trials[1..], attempts + 1, uncounted, now + Wait(Backoff(p, attempts + 1)));
        case _ =>
      }
    }
  }

  // ----- outages -----

  /** The same results with the connectivity failures left out. */
  function WithoutOutages(trials: seq<Trial>): seq<Trial> {
    if trials == [] then []
    else if trials[0].err == PlainError then WithoutOutages(trials[1..])
    else [trials[0]] + WithoutOutages(trials[1..])
  }

  /** With no cap on elapsed time, outages change neither the disposition nor the recorded attempt count. */
  lemma {:induction false} OutageInsensitive(p: Policy, trials: seq<Trial>, attempts: int,
                                             u: int, e: int, u': int, e': int)
    requires p.maxElapsed <= 0
    ensures Handle(p, trials, attempts, u, e).0 == Handle(p, WithoutOutages(trials), attempts, u', e').0
    decreases |trials|
  {
    if trials != [] {
      var t := trials[0];
      var now, now' := e + t.took, e' + t.took;
      var rest := WithoutOutages(trials[1..]);
      if t.err == PlainError {
        OutageInsensitive(p, trials[1..], attempts, u + 1, now + Wait(Backoff(p, u + 1)), u', e');
      } else {
        assert ([t] + rest)[1..] == rest;
        if ClassifyOutcome(t.err, p, attempts, now) == RetryCounted {
          var wait := Wait(Backoff(p, attempts + 1));
          OutageInsensitive(p, trials[1..], attempts + 1, u, now + wait, u', now' + wait);
        }
      }
    }
  }

  /** With a cap, time lost to outages can only hasten a dead letter: it never turns one into a commit. */
  lemma {:induction false} OutageOnlyHastens(p: Policy, trials: seq<Trial>, attempts: int,
                                             u: int, e: int, u': int, e': int)
    requires e' <= e && Handle(p, trials, attempts, u, e).0.Committed?
    ensures Handle(p, WithoutOutages(trials), attempts, u', e').0.Committed?
    decreases |trials|
  {
    var t := trials[0];
    var now, now' := e + t.took, e' + t.took;
    var rest := WithoutOutages(trials[1..]);
    if t.err == PlainError {
      OutageOnlyHastens(p, trials[1..], attempts, u + 1, now + Wait(Backoff(p, u + 1)), u', e');
    } else {
      assert ([t] + rest)[1..] == rest;
      if ClassifyOutcome(t.err, p, attempts, now) == RetryCounted {
        var wait := Wait(Backoff(p, attempts + 1));
        OutageOnlyHastens(p, trials[1..], attempts + 1, u, now + wait, u', now' + wait);
      }
    }
  }

  /** An outage as long as the cap, then one error from Postgres, then success. */
  function LongOutage(p: Policy): seq<Trial>
    requires p.maxElapsed > 0
  {
    [Trial(PlainError, p.maxElapsed), Trial(PqError, 0), Trial(NoError, 0)]
  }

  /**
   With a cap, an outage that lasts as long makes the first error from Postgres after it a dead letter, although
   the same error without the outage is retried and the message then committed.
   */
  lemma OutageCanDeadLetter(p: Policy)
    requires p.maxElapsed > 0
    ensures Outcome(p, LongOutage(p)).0 == DeadLettered(0)
    ensures Outcome(p, WithoutOutages(LongOutage(p))).0 == Committed
  {
    var failure, success := Trial(PqError, 0), Trial(NoError, 0);
    assert LongOutage(p)[1..] == [failure, success] && [failure, success][1..] == [success] && [success][1..] == [];
    assert WithoutOutages([success]) == [success];
    assert WithoutOutages([failure, success]) == [failure, success];
    var wait := Wait(Backoff(p, 1));
    assert Handle(p, LongOutage(p)[1..], 0, 1, p.maxElapsed + wait).0 == DeadLettered(0);
    assert Handle(p, [success], 1, 0, wait).0 == Committed;
  }

  /** Outages never change what becomes of a message exactly if elapsed time is not capped. */
  lemma OutageInsensitiveExactly(p: Policy)
    ensures (forall ts: seq<Trial> :: Outcome(p, ts).0 == Outcome(p, WithoutOutages(ts)).0) <==> p.maxElapsed <= 0
  {
    if p.maxElapsed <= 0 {
      forall ts: seq<Trial>
        ensures Outcome(p, ts).0 == Outcome(p, WithoutOutages(ts)).0
      {
        OutageInsensitive(p, ts, 0, 0, 0, 0, 0);
      }
    } else {
      OutageCanDeadLetter(p);
    }
  }
}
