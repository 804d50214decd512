/** The waiting room: the loop that alone owns the queue, over any sequence of joins, ticks and depth queries. */
module Admission {

  type Request = nat

  /** One case of the select in run; a buyer whose Join is cancelled sends the loop nothing. */
  datatype Event = JoinSent(req: Request) | Tick | DepthAsked

  /** The loop's variables, and what it has sent on its channels so far, in order. */
  datatype Loop = Loop(
    queue: seq<Request>,
    nextPosition: nat,
    positions: seq<(Request, nat)>,
    admitted: seq<Request>,
    depths: seq<nat>)

  const START := Loop([], 0, [], [], [])

  function Handle(l: Loop, e: Event): Loop {
    match e
    case JoinSent(req) =>
      l.(queue := l.queue + [req],
         positions := l.positions + [(req, l.nextPosition)],
         nextPosition := l.nextPosition + 1)
    case Tick => if l.queue == [] then l else l.(queue := l.queue[1..], admitted := l.admitted + [l.queue[0]])
    case DepthAsked => l.(depths := l.depths + [|l.queue|])
  }

  function Upto(l: Loop, events: seq<Event>, n: nat): Loop
    requires n <= |events|
  {
    if n == 0 then l else Handle(Upto(l, events, n - 1), events[n - 1])
  }

  class Admitter {
    var queue: seq<Request>
    var nextPosition: nat
    var positions: seq<(Request, nat)>
    var admitted: seq<Request>
    var depths: seq<nat>

    function View(): Loop
      reads this
    {
      Loop(queue, nextPosition, positions, admitted, depths)
    }

    constructor ()
      ensures View() == START
    {
      queue, nextPosition, positions, admitted, depths := [], 0, [], [], [];
    }

    /** The loop until ctx is cancelled. */
    method Run(events: seq<Event>)
      modifies this
      ensures View() == Upto(old(View()), events, |events|)
    {
      var k := 0;
      while k < |events|
        invariant 0 <= k <= |events|
        invariant View() == Upto(old(View()), events, k)
      {
        match events[k] {
          case JoinSent(req) =>
            queue := queue + [req];
            positions := positions + [(req, nextPosition)];
            nextPosition := nextPosition + 1;
          case Tick =>
            if |queue| > 0 {
              var next := queue[0];
              queue := queue[1..];
              admitted := admitted + [next];
            }
          case DepthAsked =>
            depths := depths + [|queue|];
        }
        k := k + 1;
      }
    }
  }

  // ----- the simple view: who joined, in order -----

  /** Who joined within the first n events. */
  function Joined(events: seq<Event>, n: nat): seq<Request>
    requires n <= |events|
  {
    if n == 0 then []
    else Joined(events, n - 1) + if events[n - 1].JoinSent? then [events[n - 1].req] else []
  }

  /** Ticks received among events j, ..., n - 1. */
  function Ticks(events: seq<Event>, j: nat, n: nat): nat
    requires j <= n <= |events|
  {
    if n == j then 0 else Ticks(events, j, n - 1) + if events[n - 1].Tick? then 1 else 0
  }

  /** The depth queries answered within the first n events, from the simple view alone. */
  function DepthsBy(events: seq<Event>, n: nat): seq<int>
    requires n <= |events|
  {
    if n == 0 then []
    else DepthsBy(events, n - 1)
         + if events[n - 1].DepthAsked? then [|Joined(events, n - 1)| - |Upto(START, events, n - 1).admitted|] else []
  }

  /** Those admitted, then those queued, are those who joined, and everyone was told their own place among these. */
  ghost predicate InTurn(l: Loop, joined: seq<Request>) {
    && l.admitted + l.queue == joined
    && l.nextPosition == |joined| == |l.admitted| + |l.queue|
    && |l.positions| == |joined|
    && (forall k | 0 <= k < |joined| :: l.positions[k] == (joined[k], k))
  }

  lemma HandledInTurn(l: Loop, joined: seq<Request>, e: Event)
    requires InTurn(l, joined)
    ensures InTurn(Handle(l, e), joined + if e.JoinSent? then [e.req] else [])
  {
    match e
    case JoinSent(req) => assert l.admitted + (l.queue + [req]) == (l.admitted + l.queue) + [req];
    case Tick =>
      if l.queue != [] {
        assert (l.admitted + [l.queue[0]]) + l.queue[1..] == l.admitted + l.queue;
      }
    case DepthAsked =>
  }

  /**
   FIFO: those admitted are a prefix of those who joined, the queue is the rest, positions are 0, 1, 2, ...
   in joining order, and every depth reported is the number joined less the number admitted (buyers who
   gave up waiting included, since the loop never removes them).
   */
  lemma {:induction false} FirstComeFirstServed(events: seq<Event>, n: nat)
    requires n <= |events|
    ensures var l := Upto(START, events, n);
      var joined := Joined(events, n);
      InTurn(l, joined) && l.depths == DepthsBy(events, n)
  {
    if n != 0 {
      FirstComeFirstServed(events, n - 1);
      HandledInTurn(Upto(START, events, n - 1), Joined(events, n - 1), events[n - 1]);
    }
  }

  lemma {:induction false} TicksDrain(events: seq<Event>, j: nat, n: nat)
    requires j <= n <= |events|
    ensures var q, c := |Upto(START, events, j).queue|, |Upto(START, events, j).admitted|;
      var t := Ticks(events, j, n);
      && (t <= q ==> |Upto(START, events, n).admitted| == c + t && |Upto(START, events, n).queue| >= q - t)
      && (t >= q ==> |Upto(START, events, n).admitted| >= c + q)
    decreases n
  {
    if n != j {
      TicksDrain(events, j, n - 1);
    }
  }

  /** A buyer who joins behind q queued requests is admitted exactly when the (q+1)-th tick after that arrives. */
  lemma AdmittedAtItsTick(events: seq<Event>, j: nat, n: nat)
    requires j < n <= |events| && events[j].JoinSent?
    ensures var before := Upto(START, events, j);
      var position := before.nextPosition;
      |Upto(START, events, n).admitted| > position <==> Ticks(events, j + 1, n) >= |before.queue| + 1
    ensures var position := Upto(START, events, j).nextPosition;
      var l := Upto(START, events, n);
      |l.admitted| > position ==> l.admitted[position] == events[j].req
  {
    FirstComeFirstServed(events, j);
    TicksDrain(events, j + 1, n);
    AdmittedInTurn(events, j, n);
  }

  lemma AdmittedInTurn(events: seq<Event>, j: nat, n: nat)
    requires j < n <= |events| && events[j].JoinSent?
    ensures var position := Upto(START, events, j).nextPosition;
      var l := Upto(START, events, n);
      |l.admitted| > position ==> l.admitted[position] == events[j].req
  {
    FirstComeFirstServed(events, j);
    FirstComeFirstServed(events, n);
    JoinedAt(events, j, n);
    AdmittedIsJoined(Upto(START, events, n), Joined(events, n), |Joined(events, j)|);
  }

  lemma JoinedAt(events: seq<Event>, j: nat, n: nat)
    requires j < n <= |events| && events[j].JoinSent?
    ensures |Joined(events, j)| < |Joined(events, n)| && Joined(events, n)[|Joined(events, j)|] == events[j].req
  {
    JoinedKept(events, j + 1, n);
  }

  lemma AdmittedIsJoined(l: Loop, joined: seq<Request>, position: nat)
    requires InTurn(l, joined)
    ensures position < |l.admitted| ==> position < |joined| && l.admitted[position] == joined[position]
  {
    if position < |l.admitted| {
      assert l.admitted[position] == (l.admitted + l.queue)[position];
    }
  }

  lemma {:induction false} JoinedKept(events: seq<Event>, j: nat, n: nat)
    requires j <= n <= |events|
    ensures Joined(events, j) <= Joined(events, n)
    decreases n
  {
    if n != j {
      JoinedKept(events, j, n - 1);
    }
  }
}
