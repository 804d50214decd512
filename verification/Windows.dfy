/** Sliding-window counters: one Redis sorted set per key, updated by _slide_and_count. */
module Windows {
  import opened Sums
  import FastPath
  import Tables

  type ItemId = Tables.ItemId
  type UserId = Tables.UserId
  type Time = Tables.Time
  type Net = FastPath.Net
  type Host = string

  /** The keys risk_window:user:... and risk_window:ip:..., and the members of their sorted sets. */
  datatype SetKey = OfUser(user: UserId) | OfHost(host: Host)

  datatype Member = Join(item: ItemId, at: Time) | User(user: UserId)

  /** A sorted set (each member with its score) and the wall-clock time at which the key expires. */
  datatype Stored = Stored(members: map<Member, Time>, expiresAt: Time)

  /** One call: the member it adds, the event's own time, and the wall-clock time of the call. */
  datatype Visit = Visit(member: Member, at: Time, wall: Time)

  /** What Redis still has under the key. */
  function Live(s: Option<Stored>, wall: Time): map<Member, Time> {
    if s.Some? && wall < s.value.expiresAt then s.value.members else map[]
  }

  /** ZREMRANGEBYSCORE -inf cutoff. */
  function Newer(members: map<Member, Time>, cutoff: Time): map<Member, Time> {
    map m | m in members && members[m] > cutoff :: members[m]
  }

  /** The four commands; EXPIRE with a time to live that is not positive deletes the key before ZCARD. */
  function Slide(s: Option<Stored>, v: Visit, window: int): (Option<Stored>, nat) {
    if window <= 0 then (None, 0) else
      var kept := Newer(Live(s, v.wall)[v.member := v.at], v.at - window);
      (Some(Stored(kept, v.wall + 2 * window)), |kept|)
  }

  /** The key after the visits h, from nothing. */
  function After(h: seq<Visit>, window: int): Option<Stored> {
    if h == [] then None else Slide(After(h[..|h| - 1], window), h[|h| - 1], window).0
  }

  /** What ZCARD tells the last visit of h: the size of the set it leaves, if it leaves one. */
  function Count(h: seq<Visit>, window: int): nat {
    match After(h, window)
    case Some(s) => |s.members|
    case None => 0
  }

  /** A window that is not positive keeps no key and counts nothing. */
  lemma NoWindowNoCount(h: seq<Visit>, window: int)
    requires window <= 0
    ensures After(h, window) == None && Count(h, window) == 0
  {
  }

  type Keys = map<SetKey, Stored>

  function Get(keys: Keys, key: SetKey): Option<Stored> {
    if key in keys then Some(keys[key]) else None
  }

  function Put(keys: Keys, key: SetKey, s: Option<Stored>): Keys {
    if s.Some? then keys[key := s.value] else keys - {key}
  }

  class SortedSets {
    var keys: Keys

    constructor ()
      ensures keys == map[]
    {
      keys := map[];
    }

    /** One pipeline, which Redis runs as a unit; ok is false when no reply arrives. */
    method SlideAndCount(key: SetKey, member: Member, at: Time, window: int, wall: Time, net: Net)
      returns (ok: bool, count: nat)
      modifies this
      ensures ok <==> net.Ok?
      ensures var slid := Slide(Get(old(keys), key), Visit(member, at, wall), window);
        keys == (if net.LostBefore? then old(keys) else Put(old(keys), key, slid.0)) && count == slid.1
    {
      var members := map[];
      if key in keys && wall < keys[key].expiresAt {
        members := keys[key].members;
      }
      members := members[member := at];
      members := Newer(members, at - window);
      ok, count := net.Ok?, if window <= 0 then 0 else |members|;
      if net.LostBefore? {
        return;
      }
      if window <= 0 {
        keys := keys - {key};
      } else {
        keys := keys[key := Stored(members, wall + 2 * window)];
      }
    }
  }

  // ----- what the window holds, from the visits alone -----

  /** The members that visited later than the cutoff. */
  ghost function Recent(h: seq<Visit>, cutoff: Time): set<Member> {
    set k | 0 <= k < |h| && h[k].at > cutoff :: h[k].member
  }

  predicate InOrder(h: seq<Visit>) {
    |h| < 2 || (h[|h| - 2].at <= h[|h| - 1].at && InOrder(h[..|h| - 1]))
  }

  function Delay(v: Visit): int {
    v.wall - v.at
  }

  /** From one visit to the next, processing falls behind event time by at most a window more. */
  predicate Steady(h: seq<Visit>, window: int) {
    |h| < 2 || (Delay(h[|h| - 1]) - Delay(h[|h| - 2]) <= window && Steady(h[..|h| - 1], window))
  }

  lemma {:induction false} LastIsLatest(h: seq<Visit>)
    requires h != [] && InOrder(h)
    ensures forall k | 0 <= k < |h| :: h[k].at <= h[|h| - 1].at
  {
    if |h| > 1 {
      var g := h[..|h| - 1];
      LastIsLatest(g);
      assert forall k | 0 <= k < |g| :: h[k] == g[k];
    }
  }

  /** The last event's time (any will do without one) less the window. */
  function Cutoff(h: seq<Visit>, window: int): Time {
    (if h == [] then 0 else h[|h| - 1].at) - window
  }

  /** Each member with the time of its last visit. */
  function Latest(h: seq<Visit>): map<Member, Time> {
    if h == [] then map[] else Latest(h[..|h| - 1])[h[|h| - 1].member := h[|h| - 1].at]
  }

  lemma {:induction false} LatestIsLatest(h: seq<Visit>)
    requires InOrder(h)
    ensures forall k | 0 <= k < |h| :: h[k].member in Latest(h) && Latest(h)[h[k].member] >= h[k].at
    ensures forall m | m in Latest(h) :: exists k :: 0 <= k < |h| && h[k].member == m && h[k].at == Latest(h)[m]
  {
    if h != [] {
      var g, v := h[..|h| - 1], h[|h| - 1];
      LastIsLatest(h);
      LatestIsLatest(g);
      forall m | m in Latest(h)
        ensures exists k :: 0 <= k < |h| && h[k].member == m && h[k].at == Latest(h)[m]
      {
        if m == v.member {
          assert h[|h| - 1].member == m;
        } else {
          assert m in Latest(g) && Latest(g)[m] == Latest(h)[m];
          var k :| 0 <= k < |g| && g[k].member == m && g[k].at == Latest(g)[m];
          assert h[k] == g[k];
        }
      }
    }
  }

  lemma NewerIsRecent(h: seq<Visit>, cutoff: Time)
    requires InOrder(h)
    ensures Newer(Latest(h), cutoff).Keys == Recent(h, cutoff)
  {
    LatestIsLatest(h);
    forall m
      ensures m in Newer(Latest(h), cutoff) <==> m in Recent(h, cutoff)
    {
      if m in Newer(Latest(h), cutoff) {
        var k :| 0 <= k < |h| && h[k].member == m && h[k].at == Latest(h)[m];
      }
    }
  }

  /** Nothing is recent once every visit is a window old. */
  lemma {:induction false} NoneNewer(h: seq<Visit>, cutoff: Time)
    requires forall k | 0 <= k < |h| :: h[k].at <= cutoff
    ensures Newer(Latest(h), cutoff) == map[]
  {
    if h != [] {
      NoneNewer(h[..|h| - 1], cutoff);
    }
  }

  lemma NewerOfNewer(members: map<Member, Time>, c: Time, v: Visit, cutoff: Time)
    requires c <= cutoff
    ensures Newer(Newer(members, c)[v.member := v.at], cutoff) == Newer(members[v.member := v.at], cutoff)
  {
  }

  /** The key holds what a window that never forgot a visit would hold. */
  ghost predicate Faithful(s: Option<Stored>, h: seq<Visit>, window: int)
    requires h != []
  {
    s == Some(Stored(Newer(Latest(h), Cutoff(h, window)), h[|h| - 1].wall + 2 * window))
  }

  /** When the key has lapsed, what was lost would have been evicted by this visit anyway. */
  lemma LapseLosesNothing(h: seq<Visit>, window: int)
    requires |h| > 1 && InOrder(h) && Steady(h, window)
    requires h[|h| - 1].wall >= h[|h| - 2].wall + 2 * window
    ensures Newer(Latest(h[..|h| - 1]), Cutoff(h, window)) == map[]
  {
    LastIsLatest(h[..|h| - 1]);
    NoneNewer(h[..|h| - 1], Cutoff(h, window));
  }

  lemma SlideIsFaithful(s: Option<Stored>, h: seq<Visit>, window: int)
    requires |h| > 1 && window > 0 && InOrder(h) && Steady(h, window)
    requires Faithful(s, h[..|h| - 1], window)
    ensures Faithful(Slide(s, h[|h| - 1], window).0, h, window)
  {
    var g, v := h[..|h| - 1], h[|h| - 1];
    if v.wall < s.value.expiresAt {
      NewerOfNewer(Latest(g), Cutoff(g, window), v, v.at - window);
    } else {
      LapseLosesNothing(h, window);
      NewerOfNewer(Latest(g), v.at - window, v, v.at - window);
    }
  }

  lemma {:induction false} AfterIsFaithful(h: seq<Visit>, window: int)
    requires h != [] && window > 0 && InOrder(h) && Steady(h, window)
    ensures Faithful(After(h, window), h, window)
  {
    if |h| > 1 {
      AfterIsFaithful(h[..|h| - 1], window);
      SlideIsFaithful(After(h[..|h| - 1], window), h, window);
    } else {
      assert h[..0] == [];
    }
  }

  /** The set holds just the members that visited within the window. */
  lemma WindowHolds(h: seq<Visit>, window: int)
    requires h != [] && window > 0 && InOrder(h) && Steady(h, window)
    ensures After(h, window).Some? && After(h, window).value.members.Keys == Recent(h, Cutoff(h, window))
  {
    AfterIsFaithful(h, window);
    NewerIsRecent(h, Cutoff(h, window));
  }

  /**
   For visits in order, and however long the key was idle, each call's answer is the number of distinct
   members whose latest visit is later than the event's time less the window.
   */
  lemma WindowAgrees(h: seq<Visit>, window: int)
    requires window > 0 && InOrder(h) && Steady(h, window)
    ensures Count(h, window) == |Recent(h, Cutoff(h, window))|
  {
    if h == [] {
      assert Recent(h, Cutoff(h, window)) == {};
    } else {
      WindowHolds(h, window);
      var members := After(h, window).value.members;
      assert Count(h, window) == |members| == |members.Keys|;
    }
  }

  lemma {:induction false} SteadierStill(h: seq<Visit>, d: int, window: int)
    requires Steady(h, d) && d <= window
    ensures Steady(h, window)
  {
    if |h| > 1 {
      SteadierStill(h[..|h| - 1], d, window);
    }
  }

  /** The last visit is told the number of distinct members within the window. */
  ghost predicate CountsRight(h: seq<Visit>, window: int) {
    Count(h, window) == |Recent(h, Cutoff(h, window))|
  }

  /** For visits in order, every count is right exactly if processing falls behind by at most a window each time. */
  lemma DelayBoundIsExact(window: int, d: int)
    requires window > 0
    ensures (forall h | InOrder(h) && Steady(h, d) :: CountsRight(h, window)) <==> d <= window
  {
    if d <= window {
      forall h | InOrder(h) && Steady(h, d)
        ensures CountsRight(h, window)
      {
        SteadierStill(h, d, window);
        WindowAgrees(h, window);
      }
    } else {
      KeyExpiryCanShow(window, User("a"), User("b"));
      var h :| InOrder(h) && Steady(h, window + 1) && |h| == 2
               && Count(h, window) == 1 && |Recent(h, Cutoff(h, window))| == 2;
      SteadierStill(h, window + 1, d);
      assert !CountsRight(h, window);
    }
  }

  /** One unit more of delay and the key can lapse while it still matters, for every window. */
  lemma KeyExpiryCanShow(window: int, a: Member, b: Member)
    requires window > 0 && a != b
    ensures exists h :: InOrder(h) && Steady(h, window + 1) && |h| == 2
                        && Count(h, window) == 1 && |Recent(h, Cutoff(h, window))| == 2
  {
    var h := [Visit(a, 0, 0), Visit(b, window - 1, 2 * window)];
    assert InOrder(h) && Steady(h, window + 1);
    assert h[..1] == [h[0]] && h[..1][..0] == [];
    assert After(h[..0], window) == None;
    assert After(h[..1], window).value.expiresAt == 2 * window;
    assert Newer(map[b := window - 1], -1) == map[b := window - 1];
    assert h[0].at > -1 && h[1].at > -1;
    assert Recent(h, -1) == {a, b};
  }

  /** Three visits, the last one unit of time late. */
  function TooLate(window: int, a: Member, b: Member, c: Member): seq<Visit> {
    [Visit(a, 0, 0), Visit(b, window, window), Visit(c, window - 1, window)]
  }

  lemma TooLateKeeps(window: int, a: Member, b: Member, c: Member)
    requires window > 0 && a != b
    ensures After(TooLate(window, a, b, c)[..2], window) == Some(Stored(map[b := window], 3 * window))
  {
    var h := TooLate(window, a, b, c)[..2];
    assert h[..1] == [h[0]] && h[..1][..0] == [];
    assert After(h[..1][..0], window) == None;
    assert Newer(map[a := 0], -window) == map[a := 0];
    assert After(h[..1], window).value == Stored(map[a := 0], 2 * window);
    assert Newer(map[a := 0, b := window], 0) == map[b := window];
  }

  lemma TooLateRecent(window: int, a: Member, b: Member, c: Member)
    requires window > 0
    ensures Recent(TooLate(window, a, b, c), -1) == {a, b, c}
  {
    var h := TooLate(window, a, b, c);
    assert h[0].at > -1 && h[1].at > -1 && h[2].at > -1;
    assert h[0].member == a && h[1].member == b && h[2].member == c;
  }

  /** No visit's event time is more than l behind an earlier visit's. */
  ghost predicate Late(h: seq<Visit>, l: int) {
    forall i, j | 0 <= i < j < |h| :: h[j].at >= h[i].at - l
  }

  /** One unit late, and a member that has been evicted is missed. */
  lemma OrderMatters(window: int, a: Member, b: Member, c: Member)
    requires window > 0 && a != b && b != c && a != c
    ensures var h := TooLate(window, a, b, c);
      && Late(h, 1) && Steady(h, window)
      && Count(h, window) == 2 && |Recent(h, Cutoff(h, window))| == 3
  {
    TooLateKeeps(window, a, b, c);
    TooLateRecent(window, a, b, c);
    assert Newer(map[b := window, c := window - 1], -1) == map[b := window, c := window - 1];
  }

  lemma {:induction false} NotLateInOrder(h: seq<Visit>, l: int)
    requires Late(h, l) && l <= 0
    ensures InOrder(h)
  {
    if |h| > 1 {
      NotLateInOrder(h[..|h| - 1], l);
    }
  }

  /** Every count is right exactly if no event is late at all. */
  lemma LatenessIsExact(window: int, l: int)
    requires window > 0
    ensures (forall h | Late(h, l) && Steady(h, window) :: CountsRight(h, window)) <==> l <= 0
  {
    if l <= 0 {
      forall h | Late(h, l) && Steady(h, window)
        ensures CountsRight(h, window)
      {
        NotLateInOrder(h, l);
        WindowAgrees(h, window);
      }
    } else {
      OrderMatters(window, User("a"), User("b"), User("c"));
      assert !CountsRight(TooLate(window, User("a"), User("b"), User("c")), window);
    }
  }
}
