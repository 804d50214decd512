/**
 One partition of checkout-attempts, its committed offset, and the consumer that moves it: at any
 point the consumer may crash and restart from the committed offset, an offset commit or a dead-letter
 publish may fail, and other transactions may change the tables.
 */
module Broker {
  import opened Tables
  import opened Database
  import opened Retry
  import opened Consume
  import V = Verdicts

  datatype Message = Garbage | Purchase(a: Attempt)

  /** Why a message was handed to sendToDeadLetter. */
  datatype Cause = Cause(err: ProcErr, attempts: int, elapsed: int)

  datatype Consumer =
    | Down
    | Idle(next: nat)
    | Working(at: nat, attempts: int)
    | GivingUp(at: nat, cause: Cause)
    | Acking(at: nat)

  datatype State = State(log: seq<Message>, committed: nat, db: Db, dead: map<nat, Cause>, consumer: Consumer)

  datatype Step =
    | Produce(m: Message)
    | Elsewhere(op: Op)               // another partition's decision, or an expiry
    | Start
    | Crash
    | Fetch
    | Try(c: Call, elapsed: int)      // one ProcessAttempt call and its verdict
    | SendToDeadLetter                // logged and ignored if the publish fails
    | CommitOffset(ok: bool)          // logged and ignored if it fails

  ghost predicate Enabled(s: State, step: Step) {
    match step
    case Produce(_) | Elsewhere(_) | Crash => true
    case Start => s.consumer.Down?
    case Fetch => s.consumer.Idle? && s.consumer.next < |s.log|
    case Try(_, _) => s.consumer.Working? && s.consumer.at < |s.log| && s.log[s.consumer.at].Purchase?
    case SendToDeadLetter => s.consumer.GivingUp?
    case CommitOffset(_) => s.consumer.Acking?
  }

  ghost function Next(s: State, step: Step, p: Policy, ttl: Time): State
    requires Enabled(s, step)
  {
    match step
    case Produce(m) => s.(log := s.log + [m])
    case Elsewhere(op) => s.(db := Apply(s.db, op).0)
    case Start => s.(consumer := Idle(s.committed))
    case Crash => s.(consumer := Down)
    case Fetch =>
      var o := s.consumer.next;
      s.(consumer := if s.log[o].Garbage? then GivingUp(o, Cause(BadData, 0, 0)) else Working(o, 0))
    case Try(c, elapsed) =>
      var at, n := s.consumer.at, s.consumer.attempts;
      var r := Perform(s.db, s.log[at].a, ttl, c);
      var err := ErrOf(r.1);
      s.(db := r.0,
         consumer := match ClassifyOutcome(err, p, n, elapsed)
                     case CommitOffset => Acking(at)
                     case DeadLetter => GivingUp(at, Cause(err, n, elapsed))
                     case RetryUncounted => Working(at, n)
                     case RetryCounted => Working(at, n + 1))
    case SendToDeadLetter =>
      s.(dead := s.dead[s.consumer.at := s.consumer.cause], consumer := Acking(s.consumer.at))
    case CommitOffset(ok) =>
      var at := s.consumer.at;
      s.(committed := if ok then at + 1 else s.committed, consumer := Idle(at + 1))
  }

  ghost predicate Valid(s: State, steps: seq<Step>, p: Policy, ttl: Time)
    decreases |steps|
  {
    steps == [] || (Enabled(s, steps[0]) && Valid(Next(s, steps[0], p, ttl), steps[1..], p, ttl))
  }

  ghost function Run(s: State, steps: seq<Step>, p: Policy, ttl: Time): State
    requires Valid(s, steps, p, ttl)
    decreases |steps|
  {
    if steps == [] then s else Run(Next(s, steps[0], p, ttl), steps[1..], p, ttl)
  }

  /** The message's row exists, or it was handed to sendToDeadLetter. */
  ghost predicate Handled(db: Db, log: seq<Message>, dead: set<nat>, o: nat)
    requires o < |log|
  {
    o in dead || (log[o].Purchase? && Decided(db, log[o].a))
  }

  ghost predicate HandledBelow(db: Db, log: seq<Message>, dead: set<nat>, n: nat) {
    n <= |log| && forall o | 0 <= o < n :: Handled(db, log, dead, o)
  }

  /** A dead letter is bad data, or an error from Postgres that the policy refuses to retry. */
  ghost predicate Justified(s: State, o: nat, cause: Cause, p: Policy) {
    && o < |s.log|
    && (cause.err == BadData ==>
          s.log[o].Garbage? || s.log[o].a.qty <= 0 || s.log[o].a.item !in s.db.items)
    && (cause.err == PqError ==> !ShouldRetry(p, cause.attempts, cause.elapsed))
    && (cause.err == BadData || cause.err == PqError)
  }

  function Position(c: Consumer): nat {
    match c
    case Down => 0
    case Idle(next) => next
    case Working(at, _) => at
    case GivingUp(at, _) => at
    case Acking(at) => at
  }

  ghost predicate Inv(s: State, p: Policy) {
    && HandledBelow(s.db, s.log, s.dead.Keys, s.committed)
    && HandledBelow(s.db, s.log, s.dead.Keys, Position(s.consumer))
    && (s.consumer.Working? || s.consumer.GivingUp? || s.consumer.Acking? ==> s.consumer.at < |s.log|)
    && (s.consumer.Acking? ==> Handled(s.db, s.log, s.dead.Keys, s.consumer.at))
    && (s.consumer.GivingUp? ==> Justified(s, s.consumer.at, s.consumer.cause, p))
    && (forall o | o in s.dead :: Justified(s, o, s.dead[o], p))
  }

  /** Rows and items are never removed. */
  lemma ApplyOnlyAdds(db: Db, op: Op)
    ensures Apply(db, op).0.items.Keys == db.items.Keys
    ensures Grows(db, Apply(db, op).0)
  {
  }

  /** db' has every item of db, and every decision. */
  ghost predicate Grows(db: Db, db': Db) {
    db.items.Keys == db'.items.Keys && db.byKey.Keys <= db'.byKey.Keys
  }

  /** What is handled stays handled as tables, log and dead-letter queue grow. */
  lemma HandledStays(db: Db, db': Db, log: seq<Message>, log': seq<Message>, dead: set<nat>, dead': set<nat>, n: nat)
    requires HandledBelow(db, log, dead, n) && Grows(db, db') && log <= log' && dead <= dead'
    ensures HandledBelow(db', log', dead', n)
  {
    forall o | 0 <= o < n
      ensures Handled(db', log', dead', o)
    {
      assert Handled(db, log, dead, o);
    }
  }

  lemma GrowthKeepsInv(s: State, db': Db, log': seq<Message>, p: Policy)
    requires Inv(s, p) && Grows(s.db, db') && s.log <= log'
    ensures Inv(s.(db := db', log := log'), p)
  {
    HandledStays(s.db, db', s.log, log', s.dead.Keys, s.dead.Keys, s.committed);
    HandledStays(s.db, db', s.log, log', s.dead.Keys, s.dead.Keys, Position(s.consumer));
  }

  lemma TryEffect(db: Db, a: Attempt, ttl: Time, c: Call)
    ensures var r := Perform(db, a, ttl, c);
      && Grows(db, r.0)
      && (ErrOf(r.1) == NoError ==> Decided(r.0, a))
      && (ErrOf(r.1) == BadData ==> a.qty <= 0 || a.item !in db.items)
  {
    ApplyOnlyAdds(db, DecideOp(a, c.freshId, c.now + ttl));
  }

  lemma NextKeepsInv(s: State, step: Step, p: Policy, ttl: Time)
    requires Inv(s, p) && Enabled(s, step)
    ensures Inv(Next(s, step, p, ttl), p)
  {
    match step
    case Elsewhere(op) =>
      ApplyOnlyAdds(s.db, op);
      GrowthKeepsInv(s, Apply(s.db, op).0, s.log, p);
    case Produce(m) => GrowthKeepsInv(s, s.db, s.log + [m], p);
    case SendToDeadLetter => DeadLetterKeepsInv(s, p, ttl);
    case CommitOffset(ok) => CommitKeepsInv(s, ok, p, ttl);
    case Try(c, elapsed) => TryKeepsInv(s, c, elapsed, p, ttl);
    case _ =>
  }

  lemma DeadLetterKeepsInv(s: State, p: Policy, ttl: Time)
    requires Inv(s, p) && Enabled(s, SendToDeadLetter)
    ensures Inv(Next(s, SendToDeadLetter, p, ttl), p)
  {
    var dead' := s.dead[s.consumer.at := s.consumer.cause].Keys;
    HandledStays(s.db, s.db, s.log, s.log, s.dead.Keys, dead', s.committed);
    HandledStays(s.db, s.db, s.log, s.log, s.dead.Keys, dead', s.consumer.at);
  }

  lemma CommitKeepsInv(s: State, ok: bool, p: Policy, ttl: Time)
    requires Inv(s, p) && Enabled(s, Step.CommitOffset(ok))
    ensures Inv(Next(s, Step.CommitOffset(ok), p, ttl), p)
  {
    var at := s.consumer.at;
    assert HandledBelow(s.db, s.log, s.dead.Keys, at + 1);
  }

  lemma TryKeepsInv(s: State, c: Call, elapsed: int, p: Policy, ttl: Time)
    requires Inv(s, p) && Enabled(s, Try(c, elapsed))
    ensures Inv(Next(s, Try(c, elapsed), p, ttl), p)
  {
    var a := s.log[s.consumer.at].a;
    TryEffect(s.db, a, ttl, c);
    GrowthKeepsInv(s, Perform(s.db, a, ttl, c).0, s.log, p);
  }

  lemma {:induction false} RunKeepsInv(s: State, steps: seq<Step>, p: Policy, ttl: Time)
    requires Inv(s, p) && Valid(s, steps, p, ttl)
    ensures Inv(Run(s, steps, p, ttl), p)
    decreases |steps|
  {
    if steps != [] {
      NextKeepsInv(s, steps[0], p, ttl);
      RunKeepsInv(Next(s, steps[0], p, ttl), steps[1..], p, ttl);
    }
  }

  /**
   No message is lost. Whatever crashes, restarts, failed commits and failed publishes occur, every
   offset below the committed one has its reservation row or was handed to the dead-letter queue, and
   nothing is handed there because of an outage.
   */
  lemma NoMessageLost(log: seq<Message>, db: Db, steps: seq<Step>, p: Policy, ttl: Time)
    requires Valid(State(log, 0, db, map[], Down), steps, p, ttl)
    ensures var s := Run(State(log, 0, db, map[], Down), steps, p, ttl);
      && HandledBelow(s.db, s.log, s.dead.Keys, s.committed)
      && (forall o | o in s.dead :: Justified(s, o, s.dead[o], p))
  {
    RunKeepsInv(State(log, 0, db, map[], Down), steps, p, ttl);
  }

  // ----- the loop itself -----

  /** What the environment does to one fetched message. */
  datatype Delivery = Delivery(calls: seq<Call>, commitOk: bool)

  /** Where the loop stands: the tables, the offset to fetch next, the committed offset, the dead letters. */
  datatype Session = Session(db: Db, next: nat, committed: nat, dead: set<nat>, running: bool)

  /** One message, from FetchMessage to the offset commit; a cut-short backoff stops the loop. */
  ghost function Deliver(s: Session, log: seq<Message>, p: Policy, ttl: Time, d: Delivery): Session {
    if !s.running || s.next >= |log| then s else
      var done := s.(next := s.next + 1, committed := if d.commitOk then s.next + 1 else s.committed);
      match log[s.next]
      case Garbage => done.(dead := s.dead + {s.next})
      case Purchase(a) =>
        var r := OutcomeOf(s.db, p, a, ttl, d.calls);
        var db' := Performed(s.db, a, ttl, d.calls, r.1);
        match r.0
        case Interrupted => s.(db := db', running := false)
        case DeadLettered(_) => done.(db := db', dead := s.dead + {s.next})
        case Committed => done.(db := db')
  }

  ghost function Delivered(s: Session, log: seq<Message>, p: Policy, ttl: Time, env: seq<Delivery>, n: nat): Session
    requires n <= |env|
  {
    if n == 0 then s else Deliver(Delivered(s, log, p, ttl, env, n - 1), log, p, ttl, env[n - 1])
  }

  class ConsumerGroup {
    var committed: nat
    var dead: set<nat>

    constructor (committed: nat)
      ensures this.committed == committed && dead == {}
    {
      this.committed, dead := committed, {};
    }

    /** runConsumeLoop from a (re)start until ctx is cancelled: when env runs out or a backoff is cut short. */
    method RunConsumeLoop(db: Postgres, log: seq<Message>, p: Policy, ttl: Time, env: seq<Delivery>)
      modifies this, db
      ensures var s := Delivered(Session(old(db.View()), old(committed), old(committed), old(dead), true),
                                 log, p, ttl, env, |env|);
        db.View() == s.db && committed == s.committed && dead == s.dead
    {
      ghost var start := Session(db.View(), committed, committed, dead, true);
      var next: nat := committed;
      var running := true;
      var k := 0;
      while k < |env|
        invariant 0 <= k <= |env|
        invariant Delivered(start, log, p, ttl, env, k) == Session(db.View(), next, committed, dead, running)
      {
        if running && next < |log| {
          var giveUp := log[next].Garbage?;
          if log[next].Purchase? {
            ghost var before := db.View();
            var ending, used := HandleMessage(db, p, log[next].a, ttl, env[k].calls);
            OutcomeKnown(before, p, log[next].a, ttl, env[k].calls, used, ending);
            running, giveUp := !ending.Interrupted?, ending.DeadLettered?;
          }
          if running {
            if giveUp {
              dead := dead + {next};
            }
            if env[k].commitOk {
              committed := next + 1;
            }
            next := next + 1;
          }
        }
        k := k + 1;
      }
    }
  }

  /** What the loop does to one message. */
  lemma DeliverKeeps(s: Session, log: seq<Message>, p: Policy, ttl: Time, d: Delivery)
    requires HandledBelow(s.db, log, s.dead, s.next) && s.committed <= s.next
    ensures var s' := Deliver(s, log, p, ttl, d);
      && HandledBelow(s'.db, log, s'.dead, s'.next)
      && s.committed <= s'.committed <= s'.next && s.dead <= s'.dead && Grows(s.db, s'.db)
  {
    var s' := Deliver(s, log, p, ttl, d);
    if s.running && s.next < |log| {
      if log[s.next].Purchase? {
        MessageEffect(s.db, p, log[s.next].a, ttl, d.calls);
      }
      HandledStays(s.db, s'.db, log, log, s.dead, s'.dead, s.next);
      assert s'.next == s.next + 1 ==> Handled(s'.db, log, s'.dead, s.next);
    }
  }

  /**
   The loop itself loses no message: from a committed offset below which everything is handled, it ends
   with everything below its position handled, and the committed offset at or before that position.
   */
  lemma {:induction false} LoopLosesNothing(s: Session, log: seq<Message>, p: Policy, ttl: Time,
                                            env: seq<Delivery>, n: nat)
    requires n <= |env| && HandledBelow(s.db, log, s.dead, s.next) && s.committed <= s.next
    ensures var s' := Delivered(s, log, p, ttl, env, n);
      && HandledBelow(s'.db, log, s'.dead, s'.next)
      && s.committed <= s'.committed <= s'.next && s.dead <= s'.dead && Grows(s.db, s'.db)
  {
    if n != 0 {
      LoopLosesNothing(s, log, p, ttl, env, n - 1);
      DeliverKeeps(Delivered(s, log, p, ttl, env, n - 1), log, p, ttl, env[n - 1]);
    }
  }

  lemma {:induction false} PerformedGrows(db: Db, a: Attempt, ttl: Time, calls: seq<Call>, n: nat)
    requires n <= |calls|
    ensures Grows(db, Performed(db, a, ttl, calls, n))
  {
    if n != 0 {
      PerformedGrows(db, a, ttl, calls, n - 1);
      TryEffect(Performed(db, a, ttl, calls, n - 1), a, ttl, calls[n - 1]);
    }
  }

  lemma MessageEffect(db: Db, p: Policy, a: Attempt, ttl: Time, calls: seq<Call>)
    ensures var r := OutcomeOf(db, p, a, ttl, calls);
      var d := Performed(db, a, ttl, calls, r.1);
      Grows(db, d) && (r.0.Committed? ==> Decided(d, a))
  {
    var r := OutcomeOf(db, p, a, ttl, calls);
    PerformedGrows(db, a, ttl, calls, r.1);
    if r.0.Committed? {
      CommittedMeansDecided(db, p, a, ttl, calls);
    }
  }

  // ----- what is committed and what is dead-lettered, exactly -----

  /** The delivery handles its message to the end: it is unparseable, or its handling is not cut short. */
  ghost predicate Finishes(s: Session, log: seq<Message>, p: Policy, ttl: Time, d: Delivery) {
    s.running && s.next < |log|
    && (log[s.next].Garbage? || OutcomeOf(s.db, p, log[s.next].a, ttl, d.calls).0 != Interrupted)
  }

  /** ... and gives it up. */
  ghost predicate GivesUp(s: Session, log: seq<Message>, p: Policy, ttl: Time, d: Delivery) {
    s.running && s.next < |log|
    && (log[s.next].Garbage? || OutcomeOf(s.db, p, log[s.next].a, ttl, d.calls).0.DeadLettered?)
  }

  /** A message that is finished is passed, and committed if the commit is acknowledged; only one given up is dead. */
  lemma DeliverExactly(s: Session, log: seq<Message>, p: Policy, ttl: Time, d: Delivery)
    ensures var s' := Deliver(s, log, p, ttl, d);
      && s'.next == (if Finishes(s, log, p, ttl, d) then s.next + 1 else s.next)
      && s'.committed == (if Finishes(s, log, p, ttl, d) && d.commitOk then s.next + 1 else s.committed)
      && s'.dead == (if GivesUp(s, log, p, ttl, d) then s.dead + {s.next} else s.dead)
      && s'.running == (s.running && (s.next < |log| ==> Finishes(s, log, p, ttl, d)))
      && s'.db == if s.running && s.next < |log| && log[s.next].Purchase?
                  then var a := log[s.next].a;
                       Performed(s.db, a, ttl, d.calls, OutcomeOf(s.db, p, a, ttl, d.calls).1)
                  else s.db
  {
  }

  /** The k-th delivery finishes its message and its commit is acknowledged. */
  ghost predicate Acknowledges(s: Session, log: seq<Message>, p: Policy, ttl: Time, env: seq<Delivery>, k: nat)
    requires k < |env|
  {
    Finishes(Delivered(s, log, p, ttl, env, k), log, p, ttl, env[k]) && env[k].commitOk
  }

  /** The committed offset is one past the last message whose commit was acknowledged, or the old one. */
  lemma {:induction false} CommittedIsLastAcknowledged(s: Session, log: seq<Message>, p: Policy, ttl: Time,
                                                       env: seq<Delivery>, n: nat)
    returns (last: int)
    requires n <= |env|
    ensures -1 <= last < n && forall k | last < k < n :: !Acknowledges(s, log, p, ttl, env, k)
    ensures Delivered(s, log, p, ttl, env, n).committed
         == if last < 0 then s.committed else Delivered(s, log, p, ttl, env, last).next + 1
    ensures last >= 0 ==> Acknowledges(s, log, p, ttl, env, last)
  {
    if n == 0 {
      last := -1;
    } else {
      last := CommittedIsLastAcknowledged(s, log, p, ttl, env, n - 1);
      DeliverExactly(Delivered(s, log, p, ttl, env, n - 1), log, p, ttl, env[n - 1]);
      if Acknowledges(s, log, p, ttl, env, n - 1) {
        last := n - 1;
      }
    }
  }

  /** If every commit is acknowledged, nothing that is passed remains to be redelivered. */
  lemma {:induction false} AllAcknowledged(s: Session, log: seq<Message>, p: Policy, ttl: Time,
                                           env: seq<Delivery>, n: nat)
    requires n <= |env| && s.committed == s.next && forall k | 0 <= k < n :: env[k].commitOk
    ensures var s' := Delivered(s, log, p, ttl, env, n); s'.committed == s'.next
  {
    if n != 0 {
      AllAcknowledged(s, log, p, ttl, env, n - 1);
      DeliverExactly(Delivered(s, log, p, ttl, env, n - 1), log, p, ttl, env[n - 1]);
    }
  }

  /** The k-th delivery, if it has a message at all, finishes it. */
  ghost predicate FinishesAt(s: Session, log: seq<Message>, p: Policy, ttl: Time, env: seq<Delivery>, k: nat)
    requires k < |env|
  {
    var t := Delivered(s, log, p, ttl, env, k);
    t.running && t.next < |log| ==> Finishes(t, log, p, ttl, env[k])
  }

  /** If no handling is cut short, n deliveries pass the next n messages, or all there are. */
  lemma {:induction false} LoopAdvances(s: Session, log: seq<Message>, p: Policy, ttl: Time,
                                        env: seq<Delivery>, n: nat)
    requires n <= |env| && s.next <= |log| && s.running
    requires forall k | 0 <= k < n :: FinishesAt(s, log, p, ttl, env, k)
    ensures var s' := Delivered(s, log, p, ttl, env, n);
      s'.running && s'.next == if s.next + n <= |log| then s.next + n else |log|
  {
    if n != 0 {
      LoopAdvances(s, log, p, ttl, env, n - 1);
      assert FinishesAt(s, log, p, ttl, env, n - 1);
      DeliverExactly(Delivered(s, log, p, ttl, env, n - 1), log, p, ttl, env[n - 1]);
    }
  }

  /** And if every commit is acknowledged as well, the committed offset comes to the end of the log. */
  lemma LoopCommitsAll(s: Session, log: seq<Message>, p: Policy, ttl: Time, env: seq<Delivery>)
    requires s.committed == s.next <= |log| && s.running && s.next + |env| >= |log|
    requires forall k | 0 <= k < |env| :: FinishesAt(s, log, p, ttl, env, k)
    requires forall k | 0 <= k < |env| :: env[k].commitOk
    ensures Delivered(s, log, p, ttl, env, |env|).committed == |log|
  {
    LoopAdvances(s, log, p, ttl, env, |env|);
    AllAcknowledged(s, log, p, ttl, env, |env|);
  }

  /** An offset is dead-lettered exactly if it was before, or some delivery gave its message up. */
  lemma {:induction false} DeadExactly(s: Session, log: seq<Message>, p: Policy, ttl: Time,
                                       env: seq<Delivery>, n: nat, o: nat)
    requires n <= |env|
    ensures o in Delivered(s, log, p, ttl, env, n).dead
      <==> o in s.dead || exists k :: 0 <= k < n && GivesUpAt(s, log, p, ttl, env, k, o)
  {
    if n != 0 {
      DeadExactly(s, log, p, ttl, env, n - 1, o);
      DeliverExactly(Delivered(s, log, p, ttl, env, n - 1), log, p, ttl, env[n - 1]);
      if GivesUpAt(s, log, p, ttl, env, n - 1, o) {
        assert o in Delivered(s, log, p, ttl, env, n).dead;
      }
    }
  }

  ghost predicate GivesUpAt(s: Session, log: seq<Message>, p: Policy, ttl: Time, env: seq<Delivery>, k: nat, o: nat)
    requires k < |env|
  {
    Delivered(s, log, p, ttl, env, k).next == o && GivesUp(Delivered(s, log, p, ttl, env, k), log, p, ttl, env[k])
  }

  /** In the machine, what a call's reply makes of the message. */
  lemma TryMoves(s: State, c: Call, elapsed: int, p: Policy, ttl: Time)
    requires Enabled(s, Try(c, elapsed))
    ensures var t, at, n := Next(s, Try(c, elapsed), p, ttl), s.consumer.at, s.consumer.attempts;
      var (d, reply) := Perform(s.db, s.log[at].a, ttl, c);
      && t == State(s.log, s.committed, d, s.dead, t.consumer)
      && t.consumer == if V.IsBadData(reply) then GivingUp(at, Cause(BadData, n, elapsed))
                       else if V.IsOutage(reply) then Working(at, n)
                       else if !V.IsPgError(reply) then Acking(at)
                       else if V.HasRoom(p, n, elapsed) then Working(at, n + 1)
                       else GivingUp(at, Cause(PqError, n, elapsed))
  {
  }

  /** In the machine, an acknowledged commit moves the committed offset past its message; a restart resumes there. */
  lemma CommitMoves(s: State, ok: bool, p: Policy, ttl: Time)
    requires Enabled(s, Step.CommitOffset(ok))
    ensures var t := Next(s, Step.CommitOffset(ok), p, ttl);
      && t.committed == (if ok then s.consumer.at + 1 else s.committed)
      && t.consumer == Idle(s.consumer.at + 1) && t.db == s.db && t.dead == s.dead && t.log == s.log
    ensures var t := Next(Next(s, Step.CommitOffset(true), p, ttl), Crash, p, ttl);
      Enabled(t, Start) && Next(t, Start, p, ttl).consumer == Idle(s.consumer.at + 1)
  {
  }
}
