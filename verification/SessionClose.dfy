/**
 Concurrent senders and closers of one session (send and closeWith in internal/remote/session.go).

 Threads interleave between the atomic actions: the compare-and-swap on closed, the close of
 lifecycleDone, taking and releasing sendMu, the start and the end of each SOAP exchange, and the waits
 for the receive loop. A thread is named by a number; its program counter says which action it takes
 next.
 */
module SessionClose {

  type Tid = nat

  datatype Pc =
    // send
    | SendLock
    | SendCheck
    | SendPosting
    | SendUnlock
    // closeWith
    | CloseSwap
    | CloseSignalLifecycle
    | CloseLock
    | CloseNext(exchanges: nat)       // sendMu held, this many exchanges still to start
    | ClosePosting(exchanges: nat)
    | CloseJoin                       // sendMu held, waiting for the receive loop
    | CloseUnlock
    | LoserJoin                       // another closer has won
    // receiveLoop
    | Receiving
    | Returned

  /** The start of an exchange: SendInput, or one of the closer's Signal and Deletes. */
  datatype Start = Send(thread: Tid) | Teardown(thread: Tid)

  datatype State = State(
    pcs: seq<Pc>,
    closed: bool,
    lifecycleDone: bool,
    recvDone: bool,
    loop: Tid,                  // the thread that runs the receive loop
    holder: int,                // the thread holding sendMu, or -1
    started: seq<Start>,
    winner: int)                // the thread whose compare-and-swap succeeded, or -1

  /** Signal, Delete and two alternatives for a Delete proven unsent. */
  const MAX_TEARDOWN := 4

  predicate IsStart(pc: Pc) {
    pc.SendLock? || pc.CloseSwap?
  }

  predicate Initial(s: State) {
    && s.loop < |s.pcs| && s.pcs[s.loop].Receiving?
    && (forall t :: 0 <= t < |s.pcs| && t != s.loop ==> IsStart(s.pcs[t]))
    && !s.closed && !s.lifecycleDone && !s.recvDone && s.holder == -1 && s.started == [] && s.winner == -1
  }

  /** One action of thread t. answered says that what it waits for has ended by itself: its poster has
      returned, or its context has ended. The receive loop may be stuck in an output writer. */
  predicate Enabled(s: State, t: Tid, answered: bool) {
    t < |s.pcs| && match s.pcs[t]
    case SendLock => s.holder == -1
    case CloseLock => s.holder == -1
    case SendPosting => answered || s.lifecycleDone    // a poster honours the cancellation
    case ClosePosting(_) => answered
    case CloseJoin => answered || s.recvDone
    case LoserJoin => answered || s.recvDone
    case Receiving => answered
    case Returned => false
    case _ => true
  }

  function Step(s: State, t: Tid, more: bool): State
    requires t < |s.pcs|
  {
    match s.pcs[t]
    case SendLock => s.(pcs := s.pcs[t := SendCheck], holder := t)
    case SendCheck =>
      if s.closed then s.(pcs := s.pcs[t := SendUnlock])
      else s.(pcs := s.pcs[t := SendPosting], started := s.started + [Send(t)])
    case SendPosting => s.(pcs := s.pcs[t := SendUnlock])
    case SendUnlock => s.(pcs := s.pcs[t := Returned], holder := -1)
    case CloseSwap =>
      if s.closed then s.(pcs := s.pcs[t := LoserJoin])
      else s.(pcs := s.pcs[t := CloseSignalLifecycle], closed := true, winner := t)
    case CloseSignalLifecycle => s.(pcs := s.pcs[t := CloseLock], lifecycleDone := true)
    case CloseLock => s.(pcs := s.pcs[t := CloseNext(MAX_TEARDOWN)], holder := t)
    case CloseNext(n) =>
      if n > 0 && (more || n == MAX_TEARDOWN)
      then s.(pcs := s.pcs[t := ClosePosting(n - 1)], started := s.started + [Teardown(t)])
      else s.(pcs := s.pcs[t := CloseJoin])
    case ClosePosting(n) => s.(pcs := s.pcs[t := CloseNext(n)])
    case CloseJoin => s.(pcs := s.pcs[t := CloseUnlock])
    case CloseUnlock => s.(pcs := s.pcs[t := Returned], holder := -1)
    case LoserJoin => s.(pcs := s.pcs[t := Returned])
    case Receiving => s.(pcs := s.pcs[t := Returned], recvDone := true)
    case Returned => s
  }

  // ---- The invariant ----

  predicate Holds(pc: Pc) {
    pc.SendCheck? || pc.SendPosting? || pc.SendUnlock? || pc.CloseNext? || pc.ClosePosting? || pc.CloseJoin?
    || pc.CloseUnlock?
  }

  predicate InFlight(pc: Pc) {
    pc.SendPosting? || pc.ClosePosting?
  }

  predicate Closing(pc: Pc) {
    pc.CloseSignalLifecycle? || pc.CloseLock? || pc.CloseNext? || pc.ClosePosting? || pc.CloseJoin? || pc.CloseUnlock?
  }

  function Teardowns(started: seq<Start>): nat {
    if started == [] then
      0
    else
      var last := if started[|started| - 1].Teardown? then 1 else 0;
      Teardowns(started[..|started| - 1]) + last
  }

  /** After the first Signal or Delete every later start is one too, and all come from one thread. */
  predicate Ordered(started: seq<Start>, winner: int) {
    started == [] ||
    var front, last := started[..|started| - 1], started[|started| - 1];
    Ordered(front, winner) && if last.Teardown? then last.thread == winner else Teardowns(front) == 0
  }

  function Left(pc: Pc): nat {
    match pc
    case CloseNext(n) => n
    case ClosePosting(n) => n
    case CloseJoin => 0
    case CloseUnlock => 0
    case Returned => 0
    case _ => MAX_TEARDOWN
  }

  /** What holds of each thread: the closer past its swap is the winner, sendMu covers what it should,
      and a Send exchange is only in flight before the first Signal or Delete. */
  predicate ThreadInv(s: State, t: Tid)
    requires t < |s.pcs|
  {
    && (Closing(s.pcs[t]) ==> t == s.winner)
    && (Holds(s.pcs[t]) <==> t == s.holder)
    && (s.pcs[t].SendPosting? ==> Teardowns(s.started) == 0 && Send(t) in s.started)
    && (s.pcs[t].SendUnlock? ==> Send(t) in s.started || s.closed)
    && (s.pcs[t].LoserJoin? ==> s.closed)
    && Left(s.pcs[t]) <= MAX_TEARDOWN
    && (s.pcs[t].ClosePosting? ==> Left(s.pcs[t]) < MAX_TEARDOWN)
  }

  predicate SharedInv(s: State) {
    Counted(s) && Ordered(s.started, s.winner)
  }

  /** The closer's progress: how many exchanges it can have started. */
  predicate Counted(s: State) {
    && -1 <= s.winner < |s.pcs| && -1 <= s.holder < |s.pcs|
    && (s.closed <==> s.winner >= 0)
    && (s.lifecycleDone ==> s.closed)
    && (s.closed ==>
          && (Closing(s.pcs[s.winner]) || s.pcs[s.winner].Returned?)
          && (s.lifecycleDone <==> !s.pcs[s.winner].CloseSignalLifecycle?)
          && Teardowns(s.started) <= MAX_TEARDOWN - Left(s.pcs[s.winner])
          && (Left(s.pcs[s.winner]) < MAX_TEARDOWN ==> Teardowns(s.started) >= 1))
    && (!s.closed ==> Teardowns(s.started) == 0)
  }

  /** One thread runs the receive loop, until recvDone. */
  predicate LoopInv(s: State) {
    && s.loop < |s.pcs| && (if s.recvDone then s.pcs[s.loop].Returned? else s.pcs[s.loop].Receiving?)
    && (forall t :: 0 <= t < |s.pcs| && s.pcs[t].Receiving? ==> t == s.loop)
  }

  ghost predicate Inv(s: State) {
    LoopInv(s) && SharedInv(s) && forall t :: 0 <= t < |s.pcs| ==> ThreadInv(s, t)
  }

  lemma {:induction false} OrderedWithoutTeardowns(started: seq<Start>, before: int, after: int)
    requires Ordered(started, before) && Teardowns(started) == 0
    ensures Ordered(started, after)
  {
    if started != [] {
      OrderedWithoutTeardowns(started[..|started| - 1], before, after);
    }
  }

  lemma Appended(started: seq<Start>, last: Start, winner: int)
    ensures Teardowns(started + [last]) == Teardowns(started) + if last.Teardown? then 1 else 0
    ensures Ordered(started + [last], winner) <==>
      Ordered(started, winner) && if last.Teardown? then last.thread == winner else Teardowns(started) == 0
  {
    assert (started + [last])[..|started|] == started;
  }

  lemma StepKeepsLoop(s: State, t: Tid, answered: bool, more: bool)
    requires LoopInv(s) && Enabled(s, t, answered)
    ensures LoopInv(Step(s, t, more))
  {
  }

  /** The steps of the closer that has won or is about to. */
  predicate CloserStep(pc: Pc) {
    pc.CloseSwap? || Closing(pc)
  }

  lemma CloserKeepsCount(s: State, t: Tid, answered: bool, more: bool)
    requires Counted(s) && Enabled(s, t, answered) && ThreadInv(s, t)
    requires CloserStep(s.pcs[t]) && !s.pcs[t].CloseNext?
    ensures Counted(Step(s, t, more))
  {
  }

  lemma StartKeepsCount(s: State, t: Tid, answered: bool, more: bool)
    requires Counted(s) && Enabled(s, t, answered) && ThreadInv(s, t) && s.pcs[t].CloseNext?
    ensures Counted(Step(s, t, more))
  {
    Appended(s.started, Teardown(t), s.winner);
  }

  lemma OthersKeepCount(s: State, t: Tid, answered: bool, more: bool)
    requires Counted(s) && Enabled(s, t, answered) && ThreadInv(s, t) && !CloserStep(s.pcs[t])
    ensures Counted(Step(s, t, more))
  {
    if s.pcs[t].SendCheck? {
      Appended(s.started, Send(t), s.winner);
    }
  }

  lemma StepKeepsOrder(s: State, t: Tid, answered: bool, more: bool)
    requires SharedInv(s) && Enabled(s, t, answered) && ThreadInv(s, t)
    ensures var u := Step(s, t, more); Ordered(u.started, u.winner)
  {
    Appended(s.started, Send(t), s.winner);
    Appended(s.started, Teardown(t), s.winner);
    if s.pcs[t].CloseSwap? && !s.closed {
      OrderedWithoutTeardowns(s.started, s.winner, t);
    }
  }

  lemma CloserKeepsThread(s: State, t: Tid, answered: bool, more: bool)
    requires Enabled(s, t, answered) && ThreadInv(s, t) && CloserStep(s.pcs[t])
    ensures ThreadInv(Step(s, t, more), t)
  {
  }

  lemma OthersKeepThread(s: State, t: Tid, answered: bool, more: bool)
    requires Counted(s) && Enabled(s, t, answered) && ThreadInv(s, t) && !CloserStep(s.pcs[t])
    ensures ThreadInv(Step(s, t, more), t)
  {
    if s.pcs[t].SendCheck? {
      Appended(s.started, Send(t), s.winner);
    }
  }

  lemma OtherStepKeepsThread(s: State, t: Tid, answered: bool, more: bool, other: Tid)
    requires Counted(s) && Enabled(s, t, answered) && ThreadInv(s, t)
    requires other != t && other < |s.pcs| && ThreadInv(s, other)
    ensures ThreadInv(Step(s, t, more), other)
  {
    var u := Step(s, t, more);
    assert u.pcs[other] == s.pcs[other];
    if s.pcs[t].SendCheck? {
      Appended(s.started, Send(t), s.winner);
    } else if s.pcs[t].CloseNext? {
      assert !s.pcs[other].SendPosting?;
    }
  }

  lemma StepKeepsShared(s: State, t: Tid, answered: bool, more: bool)
    requires SharedInv(s) && Enabled(s, t, answered) && ThreadInv(s, t)
    ensures SharedInv(Step(s, t, more))
    ensures |Step(s, t, more).pcs| == |s.pcs| && ThreadInv(Step(s, t, more), t)
  {
    PcFalls(s, t, answered, more);
    StepKeepsOrder(s, t, answered, more);
    if !CloserStep(s.pcs[t]) {
      OthersKeepCount(s, t, answered, more);
      OthersKeepThread(s, t, answered, more);
    } else {
      CloserKeepsThread(s, t, answered, more);
      if s.pcs[t].CloseNext? {
        StartKeepsCount(s, t, answered, more);
      } else {
        CloserKeepsCount(s, t, answered, more);
      }
    }
  }

  lemma StepKeepsInv(s: State, t: Tid, answered: bool, more: bool)
    requires Inv(s) && Enabled(s, t, answered)
    ensures Inv(Step(s, t, more))
  {
    StepKeepsLoop(s, t, answered, more);
    StepKeepsShared(s, t, answered, more);
    forall other | 0 <= other < |s.pcs| ensures ThreadInv(Step(s, t, more), other) {
      if other != t {
        OtherStepKeepsThread(s, t, answered, more, other);
      }
    }
  }

  // ---- All interleavings ----

  datatype Action = Action(thread: Tid, answered: bool, more: bool)

  predicate Possible(s: State, run: seq<Action>)
    decreases run
  {
    run == [] ||
    (Enabled(s, run[0].thread, run[0].answered) && Possible(Step(s, run[0].thread, run[0].more), run[1..]))
  }

  function Run(s: State, run: seq<Action>): State
    requires Possible(s, run)
    decreases run
  {
    if run == [] then s else Run(Step(s, run[0].thread, run[0].more), run[1..])
  }

  lemma {:induction false} RunKeepsInv(s: State, run: seq<Action>)
    requires Inv(s) && Possible(s, run)
    ensures Inv(Run(s, run))
    decreases run
  {
    if run != [] {
      StepKeepsInv(s, run[0].thread, run[0].answered, run[0].more);
      RunKeepsInv(Step(s, run[0].thread, run[0].more), run[1..]);
    }
  }

  lemma {:induction false} TeardownCounted(started: seq<Start>, i: nat)
    requires i < |started| && started[i].Teardown?
    ensures Teardowns(started) > 0
  {
    if i < |started| - 1 {
      TeardownCounted(started[..|started| - 1], i);
    }
  }

  lemma {:induction false} OrderedPairs(started: seq<Start>, winner: int, i: nat, j: nat)
    requires Ordered(started, winner) && i < j < |started| && started[i].Teardown?
    ensures started[j].Teardown? && started[j].thread == started[i].thread == winner
  {
    var front := started[..|started| - 1];
    if j < |started| - 1 {
      OrderedPairs(front, winner, i, j);
    } else {
      TeardownCounted(front, i);
      FromWinner(front, winner, i);
    }
  }

  lemma {:induction false} FromWinner(started: seq<Start>, winner: int, i: nat)
    requires Ordered(started, winner) && i < |started| && started[i].Teardown?
    ensures started[i].thread == winner
  {
    if i < |started| - 1 {
      FromWinner(started[..|started| - 1], winner, i);
    }
  }

  /** However senders and closers interleave: no Send exchange overlaps or follows a Signal or Delete,
      a single closer issues those, at least one and at most four of them, a sender sends unless the session
      is closed, and exchanges of the session's senders and
      closer never overlap each other. */
  lemma CloseIsExclusive(s0: State, run: seq<Action>)
    requires Initial(s0) && Possible(s0, run)
    ensures var s := Run(s0, run);
      && (forall i, j :: 0 <= i < j < |s.started| && s.started[i].Teardown? ==>
            s.started[j].Teardown? && s.started[j].thread == s.started[i].thread)
      && Teardowns(s.started) <= MAX_TEARDOWN
      && (forall t :: 0 <= t < |s.pcs| && s.pcs[t].SendPosting? ==> Teardowns(s.started) == 0)
      && (forall t, u :: 0 <= t < |s.pcs| && 0 <= u < |s.pcs| && InFlight(s.pcs[t]) && InFlight(s.pcs[u]) ==> t == u)
      && (s.closed ==> 0 <= s.winner < |s.pcs| && (s.pcs[s.winner].Returned? ==> Teardowns(s.started) >= 1))
      && (forall t :: 0 <= t < |s.pcs| && s.pcs[t].SendUnlock? ==> Send(t) in s.started || s.closed)
      && (forall t :: 0 <= t < |s.pcs| && s.pcs[t].LoserJoin? ==> s.closed)
  {
    assert Inv(s0);
    RunKeepsInv(s0, run);
    var s := Run(s0, run);
    forall i, j | 0 <= i < j < |s.started| && s.started[i].Teardown?
      ensures s.started[j].Teardown? && s.started[j].thread == s.started[i].thread
    {
      OrderedPairs(s.started, s.winner, i, j);
    }
    forall t | 0 <= t < |s.pcs|
      ensures s.pcs[t].SendPosting? ==> Teardowns(s.started) == 0
      ensures InFlight(s.pcs[t]) ==> t == s.holder
      ensures s.pcs[t].SendUnlock? ==> Send(t) in s.started || s.closed
      ensures s.pcs[t].LoserJoin? ==> s.closed
    {
      assert ThreadInv(s, t);
    }
  }

  // ---- Closing terminates ----

  function Rank(pc: Pc): nat {
    match pc
    case SendLock => 4
    case SendCheck => 3
    case SendPosting => 2
    case SendUnlock => 1
    case CloseSwap => 2 * MAX_TEARDOWN + 6
    case CloseSignalLifecycle => 2 * MAX_TEARDOWN + 5
    case CloseLock => 2 * MAX_TEARDOWN + 4
    case CloseNext(n) => 2 * n + 3
    case ClosePosting(n) => 2 * n + 4
    case CloseJoin => 2
    case CloseUnlock => 1
    case LoserJoin => 1
    case Receiving => 1
    case Returned => 0
  }

  function Ranks(pcs: seq<Pc>): nat {
    if pcs == [] then 0 else Rank(pcs[0]) + Ranks(pcs[1..])
  }

  lemma {:induction false} RankFalls(pcs: seq<Pc>, t: Tid, pc: Pc)
    requires t < |pcs| && Rank(pc) < Rank(pcs[t])
    ensures Ranks(pcs[t := pc]) < Ranks(pcs)
  {
    if t == 0 {
      assert pcs[t := pc][1..] == pcs[1..];
    } else {
      assert pcs[t := pc][1..] == pcs[1..][t - 1 := pc];
      RankFalls(pcs[1..], t - 1, pc);
    }
  }

  lemma PcFalls(s: State, t: Tid, answered: bool, more: bool)
    requires Enabled(s, t, answered)
    ensures var u := Step(s, t, more);
      |u.pcs| == |s.pcs| && u.pcs == s.pcs[t := u.pcs[t]] && Rank(u.pcs[t]) < Rank(s.pcs[t])
  {
  }

  /** Every interleaving is finite: its length is bounded by the threads' remaining actions. */
  lemma {:induction false} RunsAreFinite(s: State, run: seq<Action>)
    requires Possible(s, run)
    ensures |run| + Ranks(Run(s, run).pcs) <= Ranks(s.pcs)
    decreases run
  {
    if run != [] {
      var t, u := run[0].thread, Step(s, run[0].thread, run[0].more);
      PcFalls(s, t, run[0].answered, run[0].more);
      RankFalls(s.pcs, t, u.pcs[t]);
      RunsAreFinite(u, run[1..]);
    }
  }

  /** What a closer's own budget ends: its exchanges and its wait for the receive loop. */
  predicate HasBudget(pc: Pc) {
    pc.ClosePosting? || pc.CloseJoin? || pc.LoserJoin?
  }

  /** Thread t can act although no Send is ever answered and the receive loop never returns. */
  predicate CanMove(s: State, t: Tid) {
    t < |s.pcs| && t != s.loop && Enabled(s, t, HasBudget(s.pcs[t]))
  }

  predicate Unfinished(s: State, t: Tid) {
    t < |s.pcs| && t != s.loop && !s.pcs[t].Returned?
  }

  /** Once a closer has won, nobody waits for ever: a thread can move exactly as long as some sender or
      closer has not returned. Were lifecycleDone closed after taking sendMu, a blocked Send would prevent
      it. */
  lemma ClosingCannotDeadlock(s0: State, run: seq<Action>)
    requires Initial(s0) && Possible(s0, run)
    requires Run(s0, run).closed
    ensures var s := Run(s0, run); (exists t :: CanMove(s, t)) <==> (exists t :: Unfinished(s, t))
  {
    assert Inv(s0);
    RunKeepsInv(s0, run);
    var s := Run(s0, run);
    forall t: Tid | CanMove(s, t) ensures Unfinished(s, t) {
    }
    if t: Tid :| Unfinished(s, t) {
      SomeoneCanMove(s, t);
    }
  }

  lemma SomeoneCanMove(s: State, t: Tid)
    requires Inv(s) && s.closed && Unfinished(s, t)
    ensures exists mover :: CanMove(s, mover)
  {
    assert ThreadInv(s, t) && ThreadInv(s, s.winner);
    if s.pcs[s.winner].CloseSignalLifecycle? {
      assert CanMove(s, s.winner);
    } else if s.holder >= 0 {
      assert ThreadInv(s, s.holder);
      assert CanMove(s, s.holder);
    } else {
      assert CanMove(s, t);
    }
  }

  /** A receive loop that has returned leaves no closer waiting for it: both joins need no budget then,
      and only then. */
  lemma JoinsFollowTheLoop(s0: State, run: seq<Action>, t: Tid)
    requires Initial(s0) && Possible(s0, run)
    requires var s := Run(s0, run); t < |s.pcs| && (s.pcs[t].CloseJoin? || s.pcs[t].LoserJoin?)
    ensures var s := Run(s0, run);
      s.loop < |s.pcs| && (Enabled(s, t, false) <==> s.pcs[s.loop].Returned?)
  {
    assert Inv(s0);
    RunKeepsInv(s0, run);
  }
}
