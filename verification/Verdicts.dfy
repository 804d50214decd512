/** What each reply of Postgres means for the message being handled, and how many of each kind a message sees. */
module Verdicts {
  import opened Sums
  import opened Tables
  import opened Database
  import opened Retry
  import opened Consume

  predicate IsBadData(reply: Reply) {
    reply == Answered(ItemNotFound) || reply == Answered(InvalidQuantity)
  }

  predicate IsPgError(reply: Reply) {
    reply == Failed(Failure.Postgres) || reply == Answered(PgError)
  }

  predicate IsOutage(reply: Reply) {
    reply == Failed(Connectivity)
  }

  /** Both caps leave room for another attempt; a cap that is not positive always does. */
  predicate HasRoom(p: Policy, attempts: int, elapsed: int) {
    (p.maxAttempts <= 0 || attempts < p.maxAttempts) && (p.maxElapsed <= 0 || elapsed < p.maxElapsed)
  }

  /** Bad data is given up at once, an outage never is, and any other error of Postgres exactly if a cap is reached. */
  lemma VerdictOfReply(p: Policy, reply: Reply, attempts: int, elapsed: int)
    ensures var verdict := ClassifyOutcome(ErrOf(reply), p, attempts, elapsed);
      verdict == if IsBadData(reply) then DeadLetter
                 else if IsOutage(reply) then RetryUncounted
                 else if IsPgError(reply) then if HasRoom(p, attempts, elapsed) then RetryCounted else DeadLetter
                 else CommitOffset
  {
  }

  // ----- the first verdict that is not a retry ends the message -----

  function Took(trials: seq<Trial>): int {
    if trials == [] then 0 else Took(trials[..|trials| - 1]) + trials[|trials| - 1].took
  }

  /** The backoffs before n retries in a row. */
  function Slept(p: Policy, n: nat): int {
    if n == 0 then 0 else Slept(p, n - 1) + Wait(Backoff(p, n))
  }

  /** Time since the first call: all calls, and the backoffs of counted and uncounted retries, each on its own curve. */
  function Spent(p: Policy, past: seq<Trial>): int {
    Took(past) + Slept(p, CountOf(PqError, past)) + Slept(p, CountOf(PlainError, past))
  }

  /** The verdict on t, when all of past was retried. */
  function VerdictAfter(p: Policy, past: seq<Trial>, t: Trial): Verdict {
    ClassifyOutcome(t.err, p, CountOf(PqError, past), Spent(p, past) + t.took)
  }

  predicate Retries(v: Verdict) {
    v == RetryCounted || v == RetryUncounted
  }

  /** Each of past was retried. */
  predicate Retried(p: Policy, past: seq<Trial>) {
    past == []
    || (Retried(p, past[..|past| - 1]) && Retries(VerdictAfter(p, past[..|past| - 1], past[|past| - 1])))
  }

  lemma {:induction false} CountSnoc(err: ProcErr, xs: seq<Trial>, t: Trial)
    ensures CountOf(err, xs + [t]) == CountOf(err, xs) + if t.err == err then 1 else 0
    decreases |xs|
  {
    if xs != [] {
      CountSnoc(err, xs[1..], t);
      assert (xs + [t])[1..] == xs[1..] + [t];
    } else {
      assert [t][1..] == [];
    }
  }

  lemma TookSnoc(past: seq<Trial>, t: Trial)
    ensures Took(past + [t]) == Took(past) + t.took
  {
    assert (past + [t])[..|past|] == past;
  }

  /** A counted retry waits on the curve of the counted ones, an uncounted retry on its own. */
  lemma SpentSnoc(p: Policy, past: seq<Trial>, t: Trial)
    requires t.err == PqError || t.err == PlainError
    ensures CountOf(t.err, past + [t]) == CountOf(t.err, past) + 1
    ensures var other := if t.err == PqError then PlainError else PqError;
      CountOf(other, past + [t]) == CountOf(other, past)
    ensures Spent(p, past + [t]) == Spent(p, past) + t.took + Wait(Backoff(p, CountOf(t.err, past) + 1))
  {
    CountSnoc(PqError, past, t);
    CountSnoc(PlainError, past, t);
    TookSnoc(past, t);
    SleptMore(p, CountOf(t.err, past));
  }

  lemma SleptMore(p: Policy, n: nat)
    ensures Slept(p, n + 1) == Slept(p, n) + Wait(Backoff(p, n + 1))
  {
  }

  /** While everything is retried, the loop's variables are the two counts and the time spent. */
  lemma {:induction false} RetriedReaches(p: Policy, past: seq<Trial>)
    requires Retried(p, past)
    ensures Reaches(p, past, CountOf(PqError, past), CountOf(PlainError, past), Spent(p, past))
  {
    if past == [] {
      NothingHandled(p);
    } else {
      var n := |past| - 1;
      var before, t := past[..n], past[n];
      RetriedReaches(p, before);
      ReachStep(p, before, t, CountOf(PqError, before), CountOf(PlainError, before), Spent(p, before));
      SpentSnoc(p, before, t);
      assert before + [t] == past;
    }
  }

  /** The message ends at the first verdict that is not a retry, and as that verdict says. */
  lemma FirstVerdictEnds(p: Policy, past: seq<Trial>, t: Trial, more: seq<Trial>)
    requires Retried(p, past) && !Retries(VerdictAfter(p, past, t))
    ensures var attempts := CountOf(PqError, past);
      Outcome(p, past + [t] + more)
      == (if VerdictAfter(p, past, t) == CommitOffset then Committed else DeadLettered(attempts), |past| + 1)
  {
    RetriedReaches(p, past);
    ReachStep(p, past, t, CountOf(PqError, past), CountOf(PlainError, past), Spent(p, past));
    HandlePrefix(p, past + [t], more, 0, 0, 0);
  }

  lemma AllRetriedGoesOn(p: Policy, past: seq<Trial>)
    requires Retried(p, past)
    ensures Outcome(p, past) == (Interrupted, |past|)
  {
    RetriedReaches(p, past);
    ReachedEnd(p, past, CountOf(PqError, past), CountOf(PlainError, past), Spent(p, past));
  }

  /** Where a message ended: everything before was retried. */
  ghost predicate EndedAt(p: Policy, trials: seq<Trial>, n: nat)
    requires n < |trials|
  {
    Retried(p, trials[..n]) && !Retries(VerdictAfter(p, trials[..n], trials[n]))
  }

  /** Every sequence of results is retried throughout, or ends at its first other verdict. */
  lemma {:induction false} EndsOnce(p: Policy, trials: seq<Trial>) returns (n: nat)
    ensures n <= |trials| && if n == |trials| then Retried(p, trials) else EndedAt(p, trials, n)
  {
    if trials == [] {
      n := 0;
    } else {
      var m := |trials| - 1;
      n := EndsOnce(p, trials[..m]);
      if n < m {
        assert trials[..m][..n] == trials[..n];
      } else if Retries(VerdictAfter(p, trials[..m], trials[m])) {
        n := m + 1;
      }
    }
  }

  lemma EndedHow(p: Policy, trials: seq<Trial>, n: nat)
    requires n < |trials| && EndedAt(p, trials, n)
    ensures Outcome(p, trials) == (if VerdictAfter(p, trials[..n], trials[n]) == CommitOffset then Committed
                                   else DeadLettered(CountOf(PqError, trials[..n])), n + 1)
  {
    FirstVerdictEnds(p, trials[..n], trials[n], trials[n + 1..]);
    assert trials[..n] + [trials[n]] + trials[n + 1..] == trials;
  }

  lemma {:induction false} RetriedPrefix(p: Policy, past: seq<Trial>, k: nat)
    requires Retried(p, past) && k < |past|
    ensures Retried(p, past[..k]) && Retries(VerdictAfter(p, past[..k], past[k]))
    decreases |past|
  {
    var n := |past| - 1;
    if k < n {
      RetriedPrefix(p, past[..n], k);
      assert past[..n][..k] == past[..k];
    }
  }

  /** Each verdict but the last is a retry; the last says how the message ends, if it does. */
  lemma OutcomeAt(p: Policy, trials: seq<Trial>, k: nat)
    requires k < Outcome(p, trials).1
    ensures var (ending, used) := Outcome(p, trials);
      var verdict := VerdictAfter(p, trials[..k], trials[k]);
      if Retries(verdict) then k + 1 < used || ending.Interrupted?
      else used == k + 1
           && ending == if verdict == CommitOffset then Committed else DeadLettered(CountOf(PqError, trials[..k]))
  {
    var n := EndsOnce(p, trials);
    if n == |trials| {
      AllRetriedGoesOn(p, trials);
      RetriedPrefix(p, trials, k);
    } else {
      EndedHow(p, trials, n);
      if k < n {
        RetriedPrefix(p, trials[..n], k);
        assert trials[..n][..k] == trials[..k];
      }
    }
  }

  // ----- over calls and replies -----

  ghost function ReplyAt(db: Db, a: Attempt, ttl: Time, calls: seq<Call>, k: nat): Reply
    requires k < |calls|
  {
    Perform(Performed(db, a, ttl, calls, k), a, ttl, calls[k]).1
  }

  /** How many of the first n replies are errors of Postgres. */
  ghost function PgErrors(db: Db, a: Attempt, ttl: Time, calls: seq<Call>, n: nat): nat
    requires n <= |calls|
  {
    if n == 0 then 0
    else PgErrors(db, a, ttl, calls, n - 1) + if IsPgError(ReplyAt(db, a, ttl, calls, n - 1)) then 1 else 0
  }

  lemma {:induction false} PgErrorsAreCounted(db: Db, a: Attempt, ttl: Time, calls: seq<Call>, n: nat)
    requires n <= |calls|
    ensures CountOf(PqError, TrialsOf(db, a, ttl, calls, n)) == PgErrors(db, a, ttl, calls, n)
  {
    if n != 0 {
      PgErrorsAreCounted(db, a, ttl, calls, n - 1);
      CountSnoc(PqError, TrialsOf(db, a, ttl, calls, n - 1), TrialAt(db, a, ttl, calls, n - 1));
    }
  }

  lemma {:induction false} TrialsPrefix(db: Db, a: Attempt, ttl: Time, calls: seq<Call>, n: nat, k: nat)
    requires k <= n <= |calls|
    ensures TrialsOf(db, a, ttl, calls, n)[..k] == TrialsOf(db, a, ttl, calls, k)
  {
    if k < n {
      TrialsPrefix(db, a, ttl, calls, n - 1, k);
      assert TrialsOf(db, a, ttl, calls, n)[..k] == TrialsOf(db, a, ttl, calls, n - 1)[..k];
    }
  }

  /** The time that the loop has measured when the reply to call k arrives, if all before were retried. */
  ghost function ElapsedAt(db: Db, p: Policy, a: Attempt, ttl: Time, calls: seq<Call>, k: nat): int
    requires k < |calls|
  {
    Spent(p, TrialsOf(db, a, ttl, calls, k)) + calls[k].took
  }

  /** The verdict on the k-th call, from its reply and the replies before it. */
  lemma VerdictOfCall(db: Db, p: Policy, a: Attempt, ttl: Time, calls: seq<Call>, k: nat)
    requires k < |calls|
    ensures var reply := ReplyAt(db, a, ttl, calls, k);
      VerdictAfter(p, TrialsOf(db, a, ttl, calls, k), TrialAt(db, a, ttl, calls, k))
      == if IsBadData(reply) then DeadLetter
         else if IsOutage(reply) then RetryUncounted
         else if IsPgError(reply) then
           if HasRoom(p, PgErrors(db, a, ttl, calls, k), ElapsedAt(db, p, a, ttl, calls, k)) then RetryCounted
           else DeadLetter
         else CommitOffset
  {
    PgErrorsAreCounted(db, a, ttl, calls, k);
    var elapsed := ElapsedAt(db, p, a, ttl, calls, k);
    VerdictOfReply(p, ReplyAt(db, a, ttl, calls, k), PgErrors(db, a, ttl, calls, k), elapsed);
  }

  lemma OutcomeAtCall(db: Db, p: Policy, a: Attempt, ttl: Time, calls: seq<Call>, k: nat)
    requires k < OutcomeOf(db, p, a, ttl, calls).1
    ensures var (ending, used) := OutcomeOf(db, p, a, ttl, calls);
      var verdict := VerdictAfter(p, TrialsOf(db, a, ttl, calls, k), TrialAt(db, a, ttl, calls, k));
      if Retries(verdict) then k + 1 < used || ending.Interrupted?
      else used == k + 1
           && ending == if verdict == CommitOffset then Committed else DeadLettered(PgErrors(db, a, ttl, calls, k))
  {
    OutcomeAt(p, TrialsOf(db, a, ttl, calls, |calls|), k);
    TrialsPrefix(db, a, ttl, calls, |calls|, k);
    TrialsIndex(db, a, ttl, calls, |calls|, k);
    PgErrorsAreCounted(db, a, ttl, calls, k);
  }

  /** What the reply to the k-th call that the loop makes does to the message. */
  lemma ReplyDecides(db: Db, p: Policy, a: Attempt, ttl: Time, calls: seq<Call>, k: nat)
    requires k < OutcomeOf(db, p, a, ttl, calls).1
    ensures var (ending, used) := OutcomeOf(db, p, a, ttl, calls);
      var reply, attempts := ReplyAt(db, a, ttl, calls, k), PgErrors(db, a, ttl, calls, k);
      if IsBadData(reply) then used == k + 1 && ending == DeadLettered(attempts)
      else if IsOutage(reply) then k + 1 < used || ending.Interrupted?
      else if IsPgError(reply) then
        if HasRoom(p, attempts, ElapsedAt(db, p, a, ttl, calls, k)) then k + 1 < used || ending.Interrupted?
        else used == k + 1 && ending == DeadLettered(attempts)
      else used == k + 1 && ending == Committed
  {
    VerdictOfCall(db, p, a, ttl, calls, k);
    OutcomeAtCall(db, p, a, ttl, calls, k);
  }

  /** At most maxAttempts + 1 of the replies to one message's calls are errors of Postgres. */
  lemma PgErrorsAreBounded(db: Db, p: Policy, a: Attempt, ttl: Time, calls: seq<Call>)
    requires p.maxAttempts > 0
    ensures var (ending, used) := OutcomeOf(db, p, a, ttl, calls);
      && PgErrors(db, a, ttl, calls, used) <= p.maxAttempts + 1
      && (ending.Interrupted? ==> PgErrors(db, a, ttl, calls, used) <= p.maxAttempts)
  {
    var used := OutcomeOf(db, p, a, ttl, calls).1;
    BoundedRetry(p, TrialsOf(db, a, ttl, calls, |calls|), 0, 0, 0);
    TrialsPrefix(db, a, ttl, calls, |calls|, used);
    PgErrorsAreCounted(db, a, ttl, calls, used);
  }

  /** With no cap on elapsed time, and nothing but these and outages, the message is given up at exactly the last. */
  lemma PgErrorsGiveUp(db: Db, p: Policy, a: Attempt, ttl: Time, calls: seq<Call>)
    requires p.maxAttempts > 0 && p.maxElapsed <= 0
    requires forall k | 0 <= k < |calls| ::
               IsPgError(ReplyAt(db, a, ttl, calls, k)) || IsOutage(ReplyAt(db, a, ttl, calls, k))
    ensures var (ending, used) := OutcomeOf(db, p, a, ttl, calls);
      if PgErrors(db, a, ttl, calls, |calls|) > p.maxAttempts
      then ending == DeadLettered(p.maxAttempts) && PgErrors(db, a, ttl, calls, used) == p.maxAttempts + 1
      else ending == Interrupted && used == |calls|
  {
    var trials := TrialsOf(db, a, ttl, calls, |calls|);
    var used := OutcomeOf(db, p, a, ttl, calls).1;
    OnlyRetryable(db, a, ttl, calls, |calls|);
    RetriesExactly(p, trials, 0, 0, 0);
    TrialsPrefix(db, a, ttl, calls, |calls|, used);
    PgErrorsAreCounted(db, a, ttl, calls, |calls|);
    PgErrorsAreCounted(db, a, ttl, calls, used);
  }

  lemma {:induction false} OnlyRetryable(db: Db, a: Attempt, ttl: Time, calls: seq<Call>, n: nat)
    requires n <= |calls|
    requires forall k | 0 <= k < n ::
               IsPgError(ReplyAt(db, a, ttl, calls, k)) || IsOutage(ReplyAt(db, a, ttl, calls, k))
    ensures CountOf(NoError, TrialsOf(db, a, ttl, calls, n)) == CountOf(BadData, TrialsOf(db, a, ttl, calls, n)) == 0
  {
    if n != 0 {
      OnlyRetryable(db, a, ttl, calls, n - 1);
      var t := TrialAt(db, a, ttl, calls, n - 1);
      assert IsPgError(ReplyAt(db, a, ttl, calls, n - 1)) || IsOutage(ReplyAt(db, a, ttl, calls, n - 1));
      CountSnoc(NoError, TrialsOf(db, a, ttl, calls, n - 1), t);
      CountSnoc(BadData, TrialsOf(db, a, ttl, calls, n - 1), t);
    }
  }

  /** A decision that a call answers as new is in the tables with exactly the deadline asked for. */
  lemma PerformReserves(db: Db, a: Attempt, ttl: Time, c: Call)
    requires Perform(db, a, ttl, c).1 == Answered(Decision(c.freshId, Reserved, false))
    ensures var d := Perform(db, a, ttl, c).0;
      c.freshId in d.rows && d.rows[c.freshId] == Row(a.item, a.user, a.qty, Reserved, a.key, Some(c.now + ttl))
  {
  }
}
