/**
 Heartbeat rounds (internal/remote/keepalive.go) and the idle time they allow a lane. Times are seconds.
 */
module Heartbeat {
  import opened Lane

  const INTERVAL := 30
  const TIMEOUT := 2

  /** The lanes of one master or transfer: different posters with their own sessions. */
  ghost predicate Separate(lanes: seq<Poster>) {
    forall i, j :: 0 <= i < j < |lanes| ==>
      lanes[i] != lanes[j] && lanes[i].session != lanes[j].session && lanes[i].transport != lanes[j].transport
  }

  /** A visit at this time comes when the one before it has ended. */
  predicate NextVisit(visits: seq<int>, spent: seq<nat>, start: int, now: int)
    requires |visits| <= |spent|
  {
    now == if visits == [] then start else visits[|visits| - 1] + spent[|visits| - 1]
  }

  /** Every visit begins when the one before it has ended. */
  predicate OneAfterAnother(visits: seq<int>, spent: seq<nat>, start: int) {
    |visits| <= |spent| && forall j :: 0 <= j < |visits| ==> NextVisit(visits[..j], spent, start, visits[j])
  }

  lemma VisitFollows(visits: seq<int>, spent: seq<nat>, start: int, now: int)
    requires |visits| < |spent| && OneAfterAnother(visits, spent, start) && NextVisit(visits, spent, start, now)
    ensures OneAfterAnother(visits + [now], spent, start)
    ensures NextVisit(visits + [now], spent, start, now + spent[|visits|])
  {
    var more := visits + [now];
    forall j | 0 <= j < |more| ensures NextVisit(more[..j], spent, start, more[j]) {
      assert more[..j] == if j < |visits| then visits[..j] else visits;
    }
  }

  /** KeepAliveLanes: one round, started at this time. busy says which lanes are held by another exchange
      when the round gets to them, spent how long it is at each, at most the timeout. A round visits lane j at
      most j timeouts late. One that succeeds leaves every lane that was free used less than an interval before
      its visit, and one that fails has met a lane that is, or has become, unusable, or was cancelled. */
  method KeepAliveLanes(lanes: seq<Poster>, start: int, busy: seq<bool>, spent: seq<nat>, cancelled: bool)
    returns (ok: bool, ghost visits: seq<int>)
    requires |busy| == |spent| == |lanes| && Separate(lanes)
    requires forall i :: 0 <= i < |spent| ==> spent[i] <= TIMEOUT
    requires forall p :: p in lanes ==> p.Valid()
    modifies lanes, (set p | p in lanes :: p.transport), (set p | p in lanes :: p.session)
    modifies (set p | p in lanes :: p.remote)
    ensures forall p :: p in lanes ==> p.Valid()
    ensures ok ==> |visits| == |lanes|
    ensures !ok ==> 0 < |visits| <= |lanes| && (cancelled || !lanes[|visits| - 1].Usable())
    ensures OneAfterAnother(visits, spent, start)
    ensures forall j :: 0 <= j < |visits| ==> start <= visits[j] <= start + j * TIMEOUT
    ensures ok ==> forall j :: 0 <= j < |lanes| && !busy[j] ==> visits[j] - lanes[j].lastUsed < INTERVAL
  {
    var now := start;
    visits := [];
    for i := 0 to |lanes|
      invariant forall p :: p in lanes ==> p.Valid()
      invariant |visits| == i && start <= now <= start + i * TIMEOUT
      invariant NextVisit(visits, spent, start, now) && OneAfterAnother(visits, spent, start)
      invariant forall j :: 0 <= j < i ==> start <= visits[j] <= start + j * TIMEOUT
      invariant forall j :: 0 <= j < i && !busy[j] ==> visits[j] - lanes[j].lastUsed < INTERVAL
    {
      var later := now + spent[i];
      VisitFollows(visits, spent, start, now);
      visits := visits + [now];
      var alive, _ := lanes[i].KeepAlive(busy[i], cancelled, INTERVAL, now, later);
      if !alive {
        return false, visits;
      }
      now := later;
    }
    return true, visits;
  }

  // ---- The gap between two exchanges on a lane ----

  /** One lane in time: round counts the visits so far, and gap is the longest pause between the end of
      an exchange and the start of the next. */
  datatype State = State(now: int, lastUsed: int, busy: bool, round: nat, gap: int)

  /** Time passes, an exchange begins or ends, or a round gets to the lane. */
  datatype Event = Wait(until: int) | Begin | Finish | Visit

  /** The ticker starts when the lane was last used this long ago: it was authenticated, and then other
      lanes were. */
  function Start(age: nat): State {
    State(0, -(age as int), false, 0, 0)
  }

  function Begun(s: State): State {
    s.(busy := true, gap := if s.now - s.lastUsed > s.gap then s.now - s.lastUsed else s.gap)
  }

  /** Round k is at the lane no later than delay after its tick at k intervals. A visit skips a lane that is
      in use or was used recently and otherwise begins an exchange. */
  predicate Possible(s: State, e: Event, delay: int) {
    match e
    case Wait(until) => s.now <= until <= (s.round + 1) * INTERVAL + delay
    case Begin => !s.busy
    case Finish => s.busy
    case Visit => s.now >= (s.round + 1) * INTERVAL
  }

  function Next(s: State, e: Event): State {
    match e
    case Wait(until) => s.(now := until)
    case Begin => Begun(s)
    case Finish => s.(busy := false, lastUsed := s.now)
    case Visit =>
      var visited := s.(round := s.round + 1);
      if s.busy || s.now - s.lastUsed < INTERVAL then visited else Begun(visited)
  }

  predicate Run(s: State, events: seq<Event>, delay: int)
    decreases |events|
  {
    events != [] ==> Possible(s, events[0], delay) && Run(Next(s, events[0]), events[1..], delay)
  }

  function End(s: State, events: seq<Event>): State
    decreases |events|
  {
    if events == [] then s else End(Next(s, events[0]), events[1..])
  }

  /** The longest pause: between two visits, or from the lane's authentication to its first. */
  function Limit(age: nat, delay: nat): nat {
    if age >= INTERVAL then age + INTERVAL + delay else 2 * INTERVAL + delay - 1
  }

  predicate Inv(s: State, age: nat, delay: nat) {
    && s.round * INTERVAL <= s.now <= (s.round + 1) * INTERVAL + delay
    && s.lastUsed <= s.now
    && (!s.busy ==> s.lastUsed > (s.round - 1) * INTERVAL || (s.round == 0 && s.lastUsed == -(age as int)))
    && s.gap <= Limit(age, delay)
  }

  lemma StepKeepsInv(s: State, e: Event, age: nat, delay: nat)
    requires Inv(s, age, delay) && Possible(s, e, delay)
    ensures Inv(Next(s, e), age, delay)
  {
  }

  /** In every run the gap, and the time that a free lane has been idle, stay within the limit. */
  lemma {:induction false} GapIsBounded(s: State, events: seq<Event>, age: nat, delay: nat)
    requires Inv(s, age, delay) && Run(s, events, delay)
    ensures var t := End(s, events);
      && Inv(t, age, delay) && t.gap <= Limit(age, delay)
      && (!t.busy ==> t.now - t.lastUsed <= Limit(age, delay))
    decreases |events|
  {
    if events != [] {
      StepKeepsInv(s, events[0], age, delay);
      GapIsBounded(Next(s, events[0]), events[1..], age, delay);
    }
  }

  lemma Unfold(s: State, e: Event, rest: seq<Event>, delay: int)
    requires Possible(s, e, delay) && Run(Next(s, e), rest, delay)
    ensures Run(s, [e] + rest, delay) && End(s, [e] + rest) == End(Next(s, e), rest)
  {
    assert ([e] + rest)[1..] == rest;
  }

  /** No run has a gap of this length. */
  ghost predicate AlwaysBelow(age: nat, delay: nat, length: int) {
    forall events :: Run(Start(age), events, delay) ==> End(Start(age), events).gap < length
  }

  /** The limit is tight: some run reaches it. */
  lemma LimitIsReached(age: nat, delay: nat) returns (events: seq<Event>)
    ensures Run(Start(age), events, delay) && End(Start(age), events).gap == Limit(age, delay)
  {
    if age >= INTERVAL {
      events := LateFirstVisit(age, delay);
    } else {
      events := SkippedVisit(age, delay);
    }
  }

  /** A lane that waited for others to authenticate waits out the first interval as well. */
  lemma LateFirstVisit(age: nat, delay: nat) returns (events: seq<Event>)
    ensures Run(Start(age), events, delay) && End(Start(age), events).gap == age + INTERVAL + delay
  {
    events := [Visit] + [];
    Unfold(Start(age).(now := 30 + delay), Visit, [], delay);
    Unfold(Start(age), Wait(30 + delay), events, delay);
    events := [Wait(30 + delay)] + events;
  }

  /** A lane whose use ends just after one visit is skipped by the next, and the one after that may be
      late. */
  lemma SkippedVisit(age: nat, delay: nat) returns (events: seq<Event>)
    requires age < INTERVAL
    ensures Run(Start(age), events, delay) && End(Start(age), events).gap == 2 * INTERVAL + delay - 1
  {
    var gap := 30 + age;
    events := [Visit] + [];
    Unfold(State(90 + delay, 31, false, 2, gap), Visit, [], delay);
    Unfold(State(60, 31, false, 2, gap), Wait(90 + delay), events, delay);
    events := [Wait(90 + delay)] + events;
    Unfold(State(60, 31, false, 1, gap), Visit, events, delay);
    events := [Visit] + events;
    Unfold(State(31, 31, false, 1, gap), Wait(60), events, delay);
    events := [Wait(60)] + events;
    Unfold(State(31, -(age as int), true, 1, gap), Finish, events, delay);
    events := [Finish] + events;
    Unfold(State(30, -(age as int), true, 1, gap), Wait(31), events, delay);
    events := [Wait(31)] + events;
    Unfold(State(30, -(age as int), false, 0, 0), Visit, events, delay);
    events := [Visit] + events;
    Unfold(Start(age), Wait(30), events, delay);
    events := [Wait(30)] + events;
  }

  /** A server that closes idle connections after some time never closes this lane in any run, if and
      only if that time is beyond the limit. */
  lemma StaysOpenIff(age: nat, delay: nat, length: int)
    ensures AlwaysBelow(age, delay, length) <==> Limit(age, delay) < length
  {
    if Limit(age, delay) < length {
      forall events | Run(Start(age), events, delay) ensures End(Start(age), events).gap < length {
        GapIsBounded(Start(age), events, age, delay);
      }
    } else {
      var events := LimitIsReached(age, delay);
    }
  }

  const SERVER_TIMEOUT := 120

  /** With up to three lanes, lane j stays below the server's 120 seconds in every run exactly when it had
      been idle for less than 90 seconds, less its delay, when the ticker started. */
  lemma ThreeLanesStayOpenIff(age: nat, lanes: nat, j: nat)
    requires j < lanes <= 3
    ensures AlwaysBelow(age, j * TIMEOUT, SERVER_TIMEOUT) <==> age + j * TIMEOUT < SERVER_TIMEOUT - INTERVAL
    ensures age < INTERVAL ==> AlwaysBelow(age, j * TIMEOUT, 2 * INTERVAL + lanes * TIMEOUT)
  {
    StaysOpenIff(age, j * TIMEOUT, SERVER_TIMEOUT);
    StaysOpenIff(age, j * TIMEOUT, 2 * INTERVAL + lanes * TIMEOUT);
  }
}
