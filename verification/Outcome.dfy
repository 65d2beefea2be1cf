/**
 One remote command over WinRS: opening the shell, running the command and tearing
 the shell down (internal/remote/session.go, control_runner.go and runner.go).

 Every SOAP exchange is appended to a log with what the client can observe about it.
 What the server did is a Behaviour: any choice of applied requests that agrees with
 the observations. The error a run returns is then compared with all behaviours.
 */
module Outcome {
  import opened Failures

  datatype Lane = CommandLane | CleanupLane | FallbackLane

  datatype Request = Create | Execute | SendInput | Receive | Signal | Delete

  /** Unsent: an error marked errUnsent. Lost: any other poster error.
      Rejected: a reply that is a fault, malformed, or of the wrong action. */
  datatype Reply = Unsent | Lost | Rejected | Accepted

  datatype Exchange = Exchange(lane: Lane, request: Request, reply: Reply)

  type Log = seq<Exchange>

  // ---- What the server may have done ----

  /** Which exchanges the server applies, at once or at any later time. */
  type Behaviour = seq<bool>

  ghost predicate Consistent(log: Log, applied: Behaviour) {
    && |applied| == |log|
    && forall i :: 0 <= i < |log| ==>
         && (log[i].reply.Unsent? ==> !applied[i])
         && (log[i].reply.Accepted? ==> applied[i])
  }

  /** A Delete names the shell of a Create whose reply gave the client its identifier. */
  ghost predicate Removed(log: Log, applied: Behaviour, i: nat)
    requires i < |log| == |applied|
  {
    log[i].reply.Accepted? && exists j :: i < j < |log| && log[j].request.Delete? && applied[j]
  }

  /** Some shell created by these exchanges is still on the server. */
  ghost predicate ShellRemains(log: Log, applied: Behaviour)
    requires |log| == |applied|
  {
    exists i :: 0 <= i < |log| && log[i].request.Create? && applied[i] && !Removed(log, applied, i)
  }

  function AppliedCount(log: Log, applied: Behaviour, request: Request): nat
    requires |log| == |applied|
  {
    if log == [] then
      0
    else
      var n := |log| - 1;
      var last := if log[n].request == request && applied[n] then 1 else 0;
      AppliedCount(log[..n], applied[..n], request) + last
  }

  // ---- What the client knows ----

  ghost predicate DeletedAfter(log: Log, i: nat) {
    exists j :: i < j < |log| && log[j].request.Delete? && log[j].reply.Accepted?
  }

  /** Every Create was either never sent, or answered and later seen deleted. */
  ghost predicate Conclusive(log: Log) {
    forall i :: 0 <= i < |log| && log[i].request.Create? ==>
      log[i].reply.Unsent? || (log[i].reply.Accepted? && DeletedAfter(log, i))
  }

  /** Nothing but Receive is sent twice, except a Delete proven unsent. */
  ghost predicate NeverReplayed(log: Log) {
    forall i, j :: 0 <= i < j < |log| && log[i].request == log[j].request && !log[i].request.Receive? ==>
      log[i].request.Delete? && log[i].reply.Unsent?
  }

  /** Everything after the first exchange belongs to the shell that one created. */
  ghost predicate OwnShellOnly(log: Log) {
    && (log != [] ==> log[0].request.Create? && log[0].lane.CommandLane?)
    && (|log| > 1 ==> log[0].reply.Accepted?)
  }

  ghost predicate DeleteAttempted(log: Log) {
    exists j :: 0 <= j < |log| && log[j].request.Delete?
  }

  /** Signal goes to the cleanup lane, and no later Delete returns to the command lane. */
  ghost predicate SignalOffCommandLane(log: Log) {
    && (forall i :: 0 <= i < |log| && log[i].request.Signal? ==> log[i].lane.CleanupLane?)
    && (forall i, j :: 0 <= i < j < |log| && log[i].request.Signal? && log[j].request.Delete? ==>
          !log[j].lane.CommandLane?)
  }

  /** A command that could not be given its end of input is signalled before its shell is deleted. */
  ghost predicate FailedSendSignalled(log: Log) {
    |log| > 2 && log[2].request.SendInput? && !log[2].reply.Accepted? ==>
      |log| > 3 && log[3].request.Signal?
  }

  ghost predicate Signalled(log: Log) {
    exists i :: 0 <= i < |log| && log[i].request.Signal?
  }

  /** A finished command's shell is deleted where the command ran. */
  ghost predicate DeletedOnCommandLane(log: Log) {
    exists i :: 0 <= i < |log| && log[i].request.Delete? && log[i].lane.CommandLane?
  }

  ghost predicate WellConducted(log: Log) {
    && NeverReplayed(log)
    && OwnShellOnly(log)
    && (log != [] && log[0].reply.Accepted? ==> DeleteAttempted(log))
    && SignalOffCommandLane(log)
    && FailedSendSignalled(log)
  }

  /** Both start-up exchanges were answered: the command is running. */
  predicate Running(log: Log) {
    && |log| >= 2
    && log[0] == Exchange(CommandLane, Create, Accepted)
    && log[1] == Exchange(CommandLane, Execute, Accepted)
  }

  /** The log of a run that reports success. */
  ghost predicate Completed(log: Log) {
    && |log| >= 5
    && Running(log)
    && log[2] == Exchange(CommandLane, SendInput, Accepted)
    && log[3] == Exchange(CommandLane, Receive, log[3].reply)
    && (forall i :: 3 <= i < |log| - 1 ==>
          || log[i].request.Receive?
          || (log[i].request.Signal? && log[i].reply.Accepted?)
          || (log[i].request.Delete? && log[i].reply.Unsent?))
    && log[|log| - 1].request.Delete?
    && log[|log| - 1].reply.Accepted?
  }

  // ---- Theorems about logs ----

  /** The behaviour in which only what the client saw applied was applied, and every sent Create. */
  function Pessimist(log: Log): (applied: Behaviour)
    ensures |applied| == |log|
    ensures forall i :: 0 <= i < |log| ==>
      applied[i] == (log[i].reply.Accepted? || (log[i].request.Create? && !log[i].reply.Unsent?))
  {
    seq(|log|, i requires 0 <= i < |log| =>
      log[i].reply.Accepted? || (log[i].request.Create? && !log[i].reply.Unsent?))
  }

  /** Reporting an unknown state is exact: the observations are inconclusive if and only if
      some server behaviour that fits them leaves a shell behind. */
  lemma InconclusiveIffShellMayRemain(log: Log)
    ensures !Conclusive(log) <==> exists applied :: Consistent(log, applied) && ShellRemains(log, applied)
  {
    if !Conclusive(log) {
      var i :| 0 <= i < |log| && log[i].request.Create?
        && !(log[i].reply.Unsent? || (log[i].reply.Accepted? && DeletedAfter(log, i)));
      var applied := Pessimist(log);
      assert !Removed(log, applied, i);
      assert Consistent(log, applied) && ShellRemains(log, applied);
    }
    if applied :| Consistent(log, applied) && ShellRemains(log, applied) {
      var i :| 0 <= i < |log| && log[i].request.Create? && applied[i] && !Removed(log, applied, i);
      assert !log[i].reply.Unsent?;
      assert forall j :: i < j < |log| && log[j].request.Delete? && log[j].reply.Accepted? ==> applied[j];
    }
  }

  lemma {:induction false} NothingAppliedWithout(log: Log, applied: Behaviour, request: Request)
    requires Consistent(log, applied)
    requires forall i :: 0 <= i < |log| ==> log[i].request != request || log[i].reply.Unsent?
    ensures AppliedCount(log, applied, request) == 0
  {
    if log != [] {
      NothingAppliedWithout(log[..|log| - 1], applied[..|log| - 1], request);
    }
  }

  /** Once at index i and nowhere else, however the server behaves. */
  lemma {:induction false} AppliedOnceAt(log: Log, applied: Behaviour, request: Request, i: nat)
    requires Consistent(log, applied)
    requires i < |log| && log[i].request == request && log[i].reply.Accepted?
    requires forall k :: 0 <= k < |log| && k != i ==> log[k].request != request || log[k].reply.Unsent?
    ensures AppliedCount(log, applied, request) == 1
  {
    var n := |log| - 1;
    if i == n {
      NothingAppliedWithout(log[..n], applied[..n], request);
    } else {
      AppliedOnceAt(log[..n], applied[..n], request, i);
    }
  }

  /** A run that reports success had its shell created, its command started and its shell deleted
      exactly once each, whatever else the server did. */
  lemma CompletedMeansExactlyOnce(log: Log, applied: Behaviour)
    requires Completed(log)
    requires Consistent(log, applied)
    ensures AppliedCount(log, applied, Create) == 1
    ensures AppliedCount(log, applied, Execute) == 1
    ensures AppliedCount(log, applied, SendInput) == 1
    ensures AppliedCount(log, applied, Delete) == 1
    ensures !ShellRemains(log, applied)
  {
    AppliedOnceAt(log, applied, Create, 0);
    AppliedOnceAt(log, applied, Execute, 1);
    AppliedOnceAt(log, applied, SendInput, 2);
    AppliedOnceAt(log, applied, Delete, |log| - 1);
    assert Removed(log, applied, 0) by {
      assert applied[|log| - 1];
    }
  }

  /** Of all the Deletes of one run, at most one may have reached the server. */
  lemma {:induction false} AtMostOneDeleteApplied(log: Log, applied: Behaviour)
    requires NeverReplayed(log)
    requires Consistent(log, applied)
    ensures AppliedCount(log, applied, Delete) <= 1
  {
    if log != [] {
      var n := |log| - 1;
      var front, done := log[..n], applied[..n];
      if log[n].request.Delete? {
        assert forall i :: 0 <= i < n ==> front[i] == log[i];
        NothingAppliedWithout(front, done, Delete);
      } else {
        assert forall i :: 0 <= i < n ==> front[i] == log[i];
        AtMostOneDeleteApplied(front, done);
      }
    }
  }

  // ---- The session ----

  /** What one Receive tells the receive loop. Unusable is a failed exchange, a malformed reply, or output
      that could not be decoded or written. */
  datatype Poll = TimedOut | Again | Done(code: nat) | Unusable

  predicate Says(reply: Reply, poll: Poll) {
    match poll
    case TimedOut => reply.Rejected?
    case Again => reply.Accepted?
    case Done(_) => reply.Accepted?
    case Unusable => true
  }

  predicate Finished(polls: seq<Poll>) {
    polls != [] && polls[|polls| - 1].Done?
  }

  /** The receive loop has nothing more to send. */
  predicate LoopEnded(polls: seq<Poll>) {
    polls != [] && (polls[|polls| - 1].Done? || polls[|polls| - 1].Unusable?)
  }

  /** What happens around a run: at how many looks its context is still alive and how it then ends,
      whether a select takes the ended context before a finished command, and whether the receive loop
      returns within the clean-up's budget. */
  datatype Schedule = Schedule(patience: nat, deadline: bool, picksContext: bool, joins: bool) {
    function ContextError(): Error {
      Failure({if deadline then ErrDeadlineExceeded else ErrCanceled})
    }

    /** receive has the command's exit code. The context is looked at before each poll and once after. */
    predicate Observed(polls: seq<Poll>) {
      Finished(polls) && !(picksContext && |polls| + 1 > patience)
    }

    /** The context is over when the deferred close looks at it. */
    predicate Over(polls: seq<Poll>) {
      |polls| + 2 > patience
    }
  }

  /** What a poster may return. It knows nothing of shells, so it never uses their marks. */
  ghost predicate PosterError(reply: Reply, err: Error) {
    && (err.NoError? <==> reply.Rejected? || reply.Accepted?)
    && (err.Is(ErrUnsent) <==> reply.Unsent?)
    && NoShellMarks(err)
  }

  ghost predicate NoShellMarks(err: Error) {
    !err.Is(ErrRemoteStateUnknown) && !err.Is(ErrNotStarted) && !err.Is(ErrCleanupFailed)
  }

  /** Deletes on these lanes in turn, until one is not proven unsent or no lane is left. */
  ghost predicate DeleteAttempts(log: Log, lanes: seq<Lane>) {
    && 1 <= |log| <= |lanes|
    && (forall i :: 0 <= i < |log| ==> log[i] == Exchange(lanes[i], Delete, log[i].reply))
    && (forall i :: 0 <= i < |log| - 1 ==> log[i].reply.Unsent?)
    && (log[|log| - 1].reply.Unsent? ==> |log| == |lanes|)
  }

  function Fallbacks(hasFallback: bool): seq<Lane> {
    if hasFallback then [FallbackLane] else []
  }

  /** The lanes of a Delete that starts on this one. */
  function DeleteLanes(first: Lane, hasFallback: bool): seq<Lane> {
    [first, CleanupLane] + Fallbacks(hasFallback)
  }

  /** A log that ends with an unsent Delete ends with unsent Deletes on all of these lanes. */
  ghost predicate AllTried(log: Log, lanes: seq<Lane>) {
    log != [] && log[|log| - 1].reply.Unsent? ==>
      && |lanes| <= |log|
      && forall i :: 0 <= i < |lanes| ==> log[|log| - |lanes| + i] == Exchange(lanes[i], Delete, Unsent)
  }

  ghost predicate StaysOnLanes(log: Log) {
    forall i :: 0 <= i < |log| ==> !log[i].lane.FallbackLane?
  }

  class Session {
    var log: Log
    var closed: bool
    var outSet: bool
    var polls: seq<Poll>
    var looks: nat          // how often the context has been looked at
    const hasFallback: bool
    const schedule: Schedule

    constructor (hasFallback: bool, schedule: Schedule)
      ensures New() && this.hasFallback == hasFallback && this.schedule == schedule
    {
      log, polls, closed, outSet, looks := [], [], false, false, 0;
      this.hasFallback, this.schedule := hasFallback, schedule;
    }

    ghost predicate New()
      reads this
    {
      log == [] && Untouched()
    }

    /** Nothing but the start has happened. */
    ghost predicate Untouched()
      reads this
    {
      !closed && !outSet && polls == [] && looks == 0
    }

    /** ctx.Err(). */
    method ContextEnded() returns (ended: bool)
      modifies this`looks
      ensures looks == old(looks) + 1 && (ended <==> looks > schedule.patience)
    {
      looks := looks + 1;
      ended := looks > schedule.patience;
    }

    /** One exchange. The environment picks the outcome. */
    method Post(lane: Lane, request: Request) returns (reply: Reply, err: Error)
      modifies this`log
      ensures log == old(log) + [Exchange(lane, request, reply)]
      ensures PosterError(reply, err)
    {
      reply := *;
      var timing: set<Mark> := *;
      timing := timing * {ErrDeadlineExceeded, ErrCanceled};
      err := match reply
        case Unsent => Failure(timing + {ErrUnsent})
        case Lost => Failure(timing)
        case _ => NoError;
      log := log + [Exchange(lane, request, reply)];
    }

    /** One Receive, and what the environment has it say. */
    method PollOnce() returns (poll: Poll, err: Error, ghost reply: Reply)
      modifies this`log, this`polls
      ensures log == old(log) + [Exchange(CommandLane, Receive, reply)]
      ensures polls == old(polls) + [poll] && Says(reply, poll)
      ensures err.Failure? <==> poll.Unusable?
      ensures NoShellMarks(err)
    {
      var answer;
      answer, err := Post(CommandLane, Receive);
      poll := *;
      poll := if err.NoError? && Says(answer, poll) then poll else Unusable;
      if poll.Unusable? && err.NoError? {
        var timing: set<Mark> := *;
        err := Failure(timing * {ErrDeadlineExceeded, ErrCanceled});
      }
      polls, reply := polls + [poll], answer;
    }

    /** deleteShellBestEffort: a Delete that follows a failed Execute. */
    method DeleteShellBestEffort() returns (err: Error, ghost deletes: Log)
      modifies this`log
      ensures log == old(log) + deletes && DeleteAttempts(deletes, [CleanupLane] + Fallbacks(hasFallback))
      ensures err.NoError? <==> deletes[|deletes| - 1].reply.Accepted?
    {
      var reply;
      reply, err := Post(CleanupLane, Delete);
      deletes := [Exchange(CleanupLane, Delete, reply)];
      if err.Is(ErrUnsent) && hasFallback {
        reply, err := Post(FallbackLane, Delete);
        deletes := deletes + [Exchange(FallbackLane, Delete, reply)];
      }
      if err.NoError? && reply.Rejected? {
        err := Failure({});
      }
    }

    /** startSessionLanes. buildable is whether the command and the codepage marker were usable. */
    method Start(buildable: bool) returns (err: Error)
      requires log == []
      modifies this`log
      ensures err.NoError? <==> Running(log)
      ensures err.NoError? ==> |log| == 2
      ensures buildable <==> log != []
      ensures log != [] ==> log[0] == Exchange(CommandLane, Create, log[0].reply)
      ensures log != [] ==> (log[0].reply.Accepted? <==> |log| > 1)
      ensures |log| > 1 ==> log[1] == Exchange(CommandLane, Execute, log[1].reply)
      ensures |log| > 1 && !err.NoError? ==> DeleteAttempts(log[2..], [CleanupLane] + Fallbacks(hasFallback))
      ensures err.Is(ErrNotStarted) <==> log == [Exchange(CommandLane, Create, Unsent)]
      ensures !err.NoError? ==>
        WellConducted(log) && (err.Is(ErrRemoteStateUnknown) <==> !Conclusive(log)) && !err.Is(ErrCleanupFailed)
    {
      if !buildable {
        return Failure({});
      }
      var reply;
      reply, err := Post(CommandLane, Create);
      if err.Is(ErrUnsent) {
        return Join(err, Failure({ErrNotStarted}));
      }
      if err.Failure? || reply.Rejected? {
        assert log[0].request.Create? && !log[0].reply.Unsent? && !log[0].reply.Accepted?;
        return Join(err, Failure({ErrRemoteStateUnknown}));
      }
      reply, err := Post(CommandLane, Execute);
      if err.Failure? || reply.Rejected? {
        if err.NoError? {
          err := Failure({});
        }
        ghost var before := log;
        var cleanupErr, deletes := DeleteShellBestEffort();
        DeletesFollow(before, deletes, hasFallback);
        if cleanupErr.Failure? {
          err := Join(err, Failure({ErrRemoteStateUnknown}));
        }
      }
    }

    /** send of nothing but end of input, the only input a plain command gets. */
    method SendEndOfInput() returns (err: Error)
      requires !closed
      modifies this`log
      ensures old(log) <= log && |log| == |old(log)| + 1
      ensures log[|log| - 1] == Exchange(CommandLane, SendInput, log[|log| - 1].reply)
      ensures err.NoError? <==> log[|log| - 1].reply.Accepted?
      ensures NoShellMarks(err)
    {
      var reply;
      reply, err := Post(CommandLane, SendInput);
      if err.NoError? && reply.Rejected? {
        err := Failure({});
      }
    }

    /** receive with the receive loop it waits for. */
    method ReceiveAll() returns (code: int, err: Error, ghost polled: Log)
      requires Untouched()
      modifies this`log, this`outSet, this`polls, this`looks
      ensures outSet && log == old(log) + polled
      ensures Polled(polled, polls)
      ensures err.NoError? <==> schedule.Observed(polls)
      ensures err.NoError? ==> looks == |polls| + 1
      ensures code == if err.NoError? then polls[|polls| - 1].code else 0
      ensures err.Failure? && (LoopEnded(polls) ==> Finished(polls)) ==> err == schedule.ContextError()
      ensures !LoopEnded(polls) ==> |polls| + 1 > schedule.patience
      ensures NoShellMarks(err)
    {
      outSet := true;
      polled := [];
      while true
        invariant outSet && log == old(log) + polled && Polled(polled, polls)
        invariant !LoopEnded(polls) && looks == |polls| <= schedule.patience
        decreases schedule.patience - looks
      {
        var ended := ContextEnded();
        if ended {
          return 0, schedule.ContextError(), polled;
        }
        var poll;
        ghost var reply;
        poll, err, reply := PollOnce();
        polled := polled + [Exchange(CommandLane, Receive, reply)];
        if poll.Unusable? {
          return 0, err, polled;
        }
        if poll.Done? {
          ended := ContextEnded();
          if ended && schedule.picksContext {
            return 0, schedule.ContextError(), polled;
          }
          return poll.code, NoError, polled;
        }
      }
    }

    /** The Delete of closeWith: a further lane only after one that proved it unsent. */
    method DeleteShell(first: Lane, fallback: Lane)
      returns (reply: Reply, err: Error, ghost deletes: Log)
      requires fallback == CleanupLane
      modifies this`log
      ensures log == old(log) + deletes && DeleteAttempts(deletes, DeleteLanes(first, hasFallback))
      ensures deletes[|deletes| - 1].reply == reply && PosterError(reply, err)
    {
      reply, err := Post(first, Delete);
      deletes := [Exchange(first, Delete, reply)];
      var alternatives := [fallback] + Fallbacks(hasFallback);
      for i := 0 to |alternatives|
        invariant log == old(log) + deletes && 1 <= |deletes| <= i + 1
        invariant forall k :: 0 <= k < |deletes| ==>
          deletes[k] == Exchange(DeleteLanes(first, hasFallback)[k], Delete, deletes[k].reply)
        invariant forall k :: 0 <= k < |deletes| - 1 ==> deletes[k].reply.Unsent?
        invariant deletes[|deletes| - 1].reply == reply && PosterError(reply, err)
        invariant reply.Unsent? ==> |deletes| == i + 1
      {
        if !err.Is(ErrUnsent) {
          break;
        }
        reply, err := Post(alternatives[i], Delete);
        deletes := deletes + [Exchange(alternatives[i], Delete, reply)];
      }
    }

    /** The first part of closeWith: a receive loop that still runs may have one exchange left when its
        context is cancelled, and an interrupted command is signalled. */
    method StopCommand(primary: Lane, signal: bool) returns (signalFailed: bool, ghost head: Log)
      requires signal ==> primary == CleanupLane
      modifies this`log
      ensures log == old(log) + head && StopHead(head, signal)
      ensures !outSet || LoopEnded(polls) ==> head == [] || !head[0].request.Receive?
      ensures SignalsAccepted(head) <==> !signalFailed
    {
      signalFailed, head := false, [];
      var straggler: bool := *;
      if outSet && !LoopEnded(polls) && straggler {
        var reply, _ := Post(CommandLane, Receive);
        head := head + [Exchange(CommandLane, Receive, reply)];
      }
      if signal {
        var reply, err := Post(primary, Signal);
        head := head + [Exchange(primary, Signal, reply)];
        signalFailed := err.Failure? || reply.Rejected?;
      }
    }

    /** The exchanges of closeWith. */
    method TearDown(primary: Lane, fallback: Lane, signal: bool)
      returns (signalFailed: bool, deleted: bool, ghost tail: Log)
      requires signal ==> primary == CleanupLane
      requires fallback == CleanupLane && primary != FallbackLane
      modifies this`log
      ensures log == old(log) + tail && Teardown(tail, signal)
      ensures deleted <==> tail[|tail| - 1].reply.Accepted?
      ensures SignalsAccepted(tail) <==> !signalFailed
      ensures !outSet || LoopEnded(polls) ==> !tail[0].request.Receive?
      ensures primary == CommandLane ==> DeletedOnCommandLane(tail)
      ensures AllTried(tail, DeleteLanes(primary, hasFallback))
      ensures !hasFallback ==> StaysOnLanes(tail)
    {
      ghost var head, deletes;
      signalFailed, head := StopCommand(primary, signal);
      var reply, err;
      reply, err, deletes := DeleteShell(if signalFailed then fallback else primary, fallback);
      deleted := err.NoError? && !reply.Rejected?;
      tail := head + deletes;
      TeardownJoined(head, deletes, signal, primary, hasFallback);
    }

    /** closeWith. The winner of the closed flag signals if asked and deletes the shell. */
    method CloseWith(primary: Lane, fallback: Lane, signal: bool) returns (err: Error, ghost tail: Log)
      requires signal ==> primary == CleanupLane
      requires fallback == CleanupLane && primary != FallbackLane
      modifies this`log, this`closed
      ensures closed && log == old(log) + tail
      ensures old(closed) ==> tail == [] && err == if schedule.joins then NoError else Failure({ErrDeadlineExceeded})
      ensures !old(closed) ==>
        && Teardown(tail, signal)
        && (!outSet || LoopEnded(polls) ==> !tail[0].request.Receive?)
        && (primary == CommandLane ==> DeletedOnCommandLane(tail))
        && AllTried(tail, DeleteLanes(primary, hasFallback))
        && (!hasFallback ==> StaysOnLanes(tail))
        && CloseReport(tail, schedule.joins, err)
    {
      if closed {
        return if schedule.joins then NoError else Failure({ErrDeadlineExceeded}), [];
      }
      closed := true;
      var signalFailed, deleted;
      signalFailed, deleted, tail := TearDown(primary, fallback, signal);
      if !deleted {
        err := Failure({ErrRemoteStateUnknown} + if schedule.joins then {} else {ErrDeadlineExceeded});
      } else if !schedule.joins {
        err := Failure({ErrCleanupFailed, ErrDeadlineExceeded});
      } else if signalFailed {
        err := Failure({ErrCleanupFailed});
      } else {
        err := NoError;
      }
    }
  }

  /** The error of a close is decided by its last Delete, its Signal and the wait for the receive loop. */
  ghost predicate CloseReport(tail: Log, joins: bool, err: Error)
    requires tail != []
  {
    var deleted := tail[|tail| - 1].reply.Accepted?;
    && (err.NoError? <==> deleted && SignalsAccepted(tail) && joins)
    && (err.Is(ErrRemoteStateUnknown) <==> !deleted)
    && (err.Is(ErrCleanupFailed) <==> deleted && !(SignalsAccepted(tail) && joins))
    && (err.Is(ErrDeadlineExceeded) <==> !joins)
    && !err.Is(ErrCanceled) && !err.Is(ErrNotStarted) && !err.Is(ErrUnsent)
  }

  /** The exchanges of the receive loop and what they told it. */
  ghost predicate Polled(log: Log, polls: seq<Poll>) {
    && |log| == |polls|
    && (forall i :: 0 <= i < |log| ==>
          log[i] == Exchange(CommandLane, Receive, log[i].reply) && Says(log[i].reply, polls[i]))
    && (forall i :: 0 <= i < |polls| - 1 ==> polls[i].TimedOut? || polls[i].Again?)
  }

  /** A failed start: Create answered, Execute not, then Deletes. */
  lemma DeletesFollow(before: Log, tail: Log, hasFallback: bool)
    requires |before| == 2
    requires before[0] == Exchange(CommandLane, Create, Accepted)
    requires before[1].request.Execute? && !before[1].reply.Accepted?
    requires DeleteAttempts(tail, [CleanupLane] + Fallbacks(hasFallback))
    ensures WellConducted(before + tail) && (before + tail)[2..] == tail
    ensures Conclusive(before + tail) <==> tail[|tail| - 1].reply.Accepted?
  {
    var log := before + tail;
    assert log[|log| - 1] == tail[|tail| - 1];
    assert forall i :: 2 <= i < |log| ==> log[i] == tail[i - 2];
  }

  /** What closing appends: a straggling Receive, the Signal when asked for, then Deletes
      of which only the last may have reached the server. */
  ghost predicate Teardown(tail: Log, signal: bool) {
    Shape(tail, signal) && SignalOffCommandLane(tail)
  }

  ghost predicate Shape(tail: Log, signal: bool) {
    && tail != []
    && tail[|tail| - 1].request.Delete?
    && NeverReplayed(tail)
    && (forall i :: 0 <= i < |tail| ==>
          tail[i].request.Receive? || tail[i].request.Signal? || tail[i].request.Delete?)
    && (signal <==> tail[0].request.Signal? || (|tail| > 1 && tail[1].request.Signal?))
    && (forall i :: 0 <= i < |tail| && tail[i].request.Signal? ==> signal)
    && (!tail[0].request.Receive? ==> signal ==> tail[0].request.Signal?)
  }

  ghost predicate StopHead(head: Log, signal: bool) {
    && |head| <= 2
    && (signal <==> head != [] && head[|head| - 1].request.Signal?)
    && (|head| == 2 ==> signal)
    && forall i :: 0 <= i < |head| ==>
         || head[i] == Exchange(CommandLane, Receive, head[i].reply)
         || (i == |head| - 1 && head[i] == Exchange(CleanupLane, Signal, head[i].reply))
  }

  lemma TeardownJoined(head: Log, deletes: Log, signal: bool, first: Lane, hasFallback: bool)
    requires StopHead(head, signal)
    requires DeleteAttempts(deletes, DeleteLanes(first, hasFallback))
    requires first == CleanupLane || (first == CommandLane && !signal)
    ensures Teardown(head + deletes, signal)
    ensures SignalsAccepted(head) <==> SignalsAccepted(head + deletes)
    ensures !hasFallback ==> StaysOnLanes(head + deletes)
    ensures first == CommandLane ==> DeletedOnCommandLane(head + deletes)
    ensures AllTried(head + deletes, DeleteLanes(first, hasFallback))
    ensures (head + deletes)[|head + deletes| - 1] == deletes[|deletes| - 1]
    ensures (head + deletes)[0] == if head == [] then deletes[0] else head[0]
  {
    TeardownHasShape(head, deletes, signal, DeleteLanes(first, hasFallback));
    TeardownKeepsLanes(head, deletes, signal, first, hasFallback);
    AllTriedAfter(head, deletes, DeleteLanes(first, hasFallback));
  }

  lemma TeardownHasShape(head: Log, deletes: Log, signal: bool, lanes: seq<Lane>)
    requires StopHead(head, signal) && DeleteAttempts(deletes, lanes)
    ensures Shape(head + deletes, signal)
    ensures SignalsAccepted(head) <==> SignalsAccepted(head + deletes)
    ensures (head + deletes)[|head + deletes| - 1] == deletes[|deletes| - 1]
    ensures (head + deletes)[0] == if head == [] then deletes[0] else head[0]
  {
    var tail := head + deletes;
    assert tail[|head|] == deletes[0];
    assert tail[|tail| - 1] == deletes[|deletes| - 1];
    assert forall i :: 0 <= i < |head| ==> tail[i] == head[i];
    assert forall i :: |head| <= i < |tail| ==> tail[i] == deletes[i - |head|] && tail[i].request.Delete?;
  }

  lemma TeardownKeepsLanes(head: Log, deletes: Log, signal: bool, first: Lane, hasFallback: bool)
    requires StopHead(head, signal)
    requires DeleteAttempts(deletes, DeleteLanes(first, hasFallback))
    requires first == CleanupLane || (first == CommandLane && !signal)
    ensures SignalOffCommandLane(head + deletes)
    ensures !hasFallback ==> StaysOnLanes(head + deletes)
    ensures first == CommandLane ==> DeletedOnCommandLane(head + deletes)
  {
    var tail := head + deletes;
    assert tail[|head|] == deletes[0];
    assert forall i :: |head| <= i < |tail| ==> tail[i] == deletes[i - |head|];
  }

  /** Only the end of a log decides whether all lanes have been tried. */
  lemma AllTriedAfter(before: Log, tail: Log, lanes: seq<Lane>)
    requires tail != [] && AllTried(tail, lanes)
    ensures AllTried(before + tail, lanes)
  {
    var log := before + tail;
    assert log[|log| - 1] == tail[|tail| - 1];
    assert forall i :: |before| <= i < |log| ==> log[i] == tail[i - |before|];
  }

  ghost predicate SignalsAccepted(log: Log) {
    forall i :: 0 <= i < |log| && log[i].request.Signal? ==> log[i].reply.Accepted?
  }

  /** The log while the command runs, before teardown: start-up, end of input, then Receives. */
  ghost predicate Streaming(log: Log) {
    && Running(log)
    && (|log| > 2 ==> log[2] == Exchange(CommandLane, SendInput, log[2].reply))
    && (|log| > 3 ==> log[2].reply.Accepted?)
    && (forall i :: 3 <= i < |log| ==> log[i].request.Receive? && log[i].lane.CommandLane?)
  }

  lemma TeardownFollows(before: Log, tail: Log, signal: bool)
    requires Streaming(before) && |before| > 2
    requires Teardown(tail, signal)
    requires !before[2].reply.Accepted? ==> signal && !tail[0].request.Receive?
    ensures WellConducted(before + tail)
    ensures Signalled(before + tail) <==> signal
    ensures DeletedOnCommandLane(tail) ==> DeletedOnCommandLane(before + tail)
    ensures Running(before + tail) && (before + tail)[2] == before[2] && |before + tail| > |before|
    ensures Conclusive(before + tail) <==> tail[|tail| - 1].reply.Accepted?
  {
    var log := before + tail;
    assert log[|log| - 1] == tail[|tail| - 1];
    assert forall i :: 0 <= i < |before| ==> log[i] == before[i];
    assert forall i :: |before| <= i < |log| ==> log[i] == tail[i - |before|];
    assert log[|before|] == tail[0] && (|tail| > 1 ==> log[|before| + 1] == tail[1]);
    assert forall i :: 0 <= i < |tail| ==> tail[i] == log[|before| + i];
    if DeletedAfter(log, 0) {
      var j :| 0 < j < |log| && log[j].request.Delete? && log[j].reply.Accepted?;
      assert tail[j - |before|] == log[j];
      assert j == |log| - 1;
    }
  }

  /** What the tear-down says of Signals and lanes, the whole log says. */
  lemma TeardownDecides(before: Log, tail: Log)
    requires Streaming(before)
    ensures SignalsAccepted(before + tail) <==> SignalsAccepted(tail)
    ensures StaysOnLanes(tail) ==> StaysOnLanes(before + tail)
  {
    var log := before + tail;
    assert forall i :: 0 <= i < |before| ==> log[i] == before[i] && !log[i].request.Signal?;
    assert forall i :: |before| <= i < |log| ==> log[i] == tail[i - |before|];
    assert forall i :: 0 <= i < |tail| ==> tail[i] == log[|before| + i];
  }

  lemma CompletedFollows(before: Log, tail: Log, signal: bool)
    requires Streaming(before) && |before| > 3
    requires Teardown(tail, signal) && SignalsAccepted(tail)
    requires tail[|tail| - 1].reply.Accepted?
    ensures Completed(before + tail)
  {
    var log := before + tail;
    assert log[|log| - 1] == tail[|tail| - 1];
    assert forall i :: |before| <= i < |log| ==> log[i] == tail[i - |before|];
  }

  /** The end of input was answered. */
  predicate InputConfirmed(log: Log) {
    |log| > 2 && log[2].reply.Accepted?
  }

  /** receive gave the caller the command's exit code. */
  predicate Succeeded(log: Log, polls: seq<Poll>, schedule: Schedule) {
    InputConfirmed(log) && schedule.Observed(polls)
  }

  /** The polls are what the first Receives after the end of input told. */
  ghost predicate PollsOf(log: Log, polls: seq<Poll>) {
    3 + |polls| <= |log| && Polled(log[3..3 + |polls|], polls)
  }

  lemma PollsStay(before: Log, tail: Log, polls: seq<Poll>)
    requires PollsOf(before, polls)
    ensures PollsOf(before + tail, polls)
  {
    assert (before + tail)[3..3 + |polls|] == before[3..3 + |polls|];
  }

  /** Deletion, every Signal and the end of the receive loop are confirmed. */
  ghost predicate CleanedUp(log: Log, schedule: Schedule) {
    Conclusive(log) && SignalsAccepted(log) && schedule.joins
  }

  /** The exit code that the last poll reported, if it is the caller's to have. */
  function ExitCode(polls: seq<Poll>, observed: bool): int {
    if observed && Finished(polls) then polls[|polls| - 1].code else 0
  }

  /** The end of input and the output, up to the deferred close. */
  method Interact(s: Session) returns (code: int, runErr: Error)
    requires |s.log| == 2 && Running(s.log) && s.Untouched()
    modifies s`log, s`outSet, s`polls, s`looks
    ensures Streaming(s.log) && PollsOf(s.log, s.polls)
    ensures runErr.NoError? <==> Succeeded(s.log, s.polls, s.schedule)
    ensures runErr.NoError? ==> s.looks == |s.polls| + 1 && |s.log| > 3
    ensures code == ExitCode(s.polls, runErr.NoError?)
    ensures s.outSet ==> InputConfirmed(s.log)
    ensures NoShellMarks(runErr)
  {
    code := 0;
    runErr := s.SendEndOfInput();
    ghost var polled: Log := [];
    if runErr.NoError? {
      code, runErr, polled := s.ReceiveAll();
    }
    assert s.log[3..3 + |s.polls|] == polled;
  }

  /** The deferred close: an interrupted command is signalled and deleted on the cleanup lane, a finished one
      is deleted where it ran. */
  method DeferredClose(s: Session, runErr: Error) returns (cleanupErr: Error, ghost ended: bool, ghost tail: Log)
    requires !s.closed
    modifies s`log, s`closed, s`looks
    ensures s.closed && s.log == old(s.log) + tail && Teardown(tail, ended)
    ensures ended <==> runErr.Failure? || old(s.looks) + 1 > s.schedule.patience
    ensures !s.outSet ==> !tail[0].request.Receive?
    ensures !ended ==> DeletedOnCommandLane(tail)
    ensures AllTried(tail, DeleteLanes(if ended then CleanupLane else CommandLane, s.hasFallback))
    ensures !s.hasFallback ==> StaysOnLanes(tail)
    ensures CloseReport(tail, s.schedule.joins, cleanupErr)
  {
    var over := false;
    if runErr.NoError? {
      over := s.ContextEnded();
    }
    ended := runErr.Failure? || over;
    if runErr.Failure? || over {
      cleanupErr, tail := s.CloseWith(CleanupLane, CleanupLane, true);
    } else {
      cleanupErr, tail := s.CloseWith(CommandLane, CleanupLane, false);
    }
  }

  /** runWithPosters once the session has started. A command is signalled exactly when it was not seen to
      finish or its context is over. */
  method RunStarted(s: Session) returns (code: int, runErr: Error, cleanupErr: Error)
    requires |s.log| == 2 && Running(s.log) && s.Untouched()
    modifies s
    ensures WellConducted(s.log) && Running(s.log) && PollsOf(s.log, s.polls)
    ensures runErr.NoError? <==> Succeeded(s.log, s.polls, s.schedule)
    ensures code == ExitCode(s.polls, runErr.NoError?)
    ensures Signalled(s.log) <==> runErr.Failure? || s.schedule.Over(s.polls)
    ensures !Signalled(s.log) ==> DeletedOnCommandLane(s.log)
    ensures AllTried(s.log, DeleteLanes(if Signalled(s.log) then CleanupLane else CommandLane, s.hasFallback))
    ensures !s.hasFallback ==> StaysOnLanes(s.log)
    ensures cleanupErr.NoError? <==> CleanedUp(s.log, s.schedule)
    ensures cleanupErr.Is(ErrRemoteStateUnknown) <==> !Conclusive(s.log)
    ensures cleanupErr.Is(ErrCleanupFailed) <==> Conclusive(s.log) && !CleanedUp(s.log, s.schedule)
    ensures !cleanupErr.Is(ErrNotStarted) && NoShellMarks(runErr)
    ensures runErr.NoError? && cleanupErr.NoError? ==> Completed(s.log)
  {
    code, runErr := Interact(s);
    ghost var before, ended, tail := s.log, false, [];
    cleanupErr, ended, tail := DeferredClose(s, runErr);
    TeardownFollows(before, tail, ended);
    TeardownDecides(before, tail);
    PollsStay(before, tail, s.polls);
    AllTriedAfter(before, tail, DeleteLanes(if ended then CleanupLane else CommandLane, s.hasFallback));
    if runErr.NoError? && cleanupErr.NoError? {
      CompletedFollows(before, tail, ended);
    }
  }

  /** RunWithPosters and runWithPosters: one command on a command lane, with a cleanup lane and
      possibly a fallback. connected is whether both lanes exist. */
  method RunCommand(buildable: bool, connected: bool, hasFallback: bool, schedule: Schedule)
    returns (code: int, runErr: Error, cleanupErr: Error, log: Log, polls: seq<Poll>)
    ensures log != [] <==> connected && buildable
    ensures runErr.NoError? <==> Running(log) && Succeeded(log, polls, schedule)
    ensures code == ExitCode(polls, runErr.NoError?)
    ensures Signalled(log) <==> Running(log) && (runErr.Failure? || schedule.Over(polls))
    ensures Running(log) && !Signalled(log) ==> DeletedOnCommandLane(log)
    ensures Running(log) ==>
      AllTried(log, DeleteLanes(if Signalled(log) then CleanupLane else CommandLane, hasFallback))
    ensures |log| > 1 && !Running(log) ==> DeleteAttempts(log[2..], [CleanupLane] + Fallbacks(hasFallback))
    ensures cleanupErr.NoError? <==> !Running(log) || CleanedUp(log, schedule)
    ensures cleanupErr.Is(ErrRemoteStateUnknown) <==> Running(log) && !Conclusive(log)
    ensures cleanupErr.Is(ErrCleanupFailed) <==> Running(log) && Conclusive(log) && !CleanedUp(log, schedule)
    ensures runErr.Is(ErrRemoteStateUnknown) <==> !Running(log) && !Conclusive(log)
    ensures runErr.Is(ErrNotStarted) <==> log == [Exchange(CommandLane, Create, Unsent)]
    ensures !cleanupErr.Is(ErrNotStarted) && !runErr.Is(ErrCleanupFailed)
    ensures WellConducted(log) && (!hasFallback ==> StaysOnLanes(log))
    ensures if Running(log) then PollsOf(log, polls) else polls == []
    ensures runErr.NoError? && cleanupErr.NoError? ==> Completed(log)
  {
    if !connected {
      return 0, Failure({}), NoError, [], [];
    }
    var s := new Session(hasFallback, schedule);
    var err := s.Start(buildable);
    if err.Failure? {
      FailedStart(s.log, hasFallback);
      return 0, err, NoError, s.log, [];
    }
    code, runErr, cleanupErr := RunStarted(s);
    log, polls := s.log, s.polls;
  }

  /** A start that fails signals nothing. */
  lemma FailedStart(log: Log, hasFallback: bool)
    requires |log| > 0 ==> log[0] == Exchange(CommandLane, Create, log[0].reply)
    requires |log| > 1 ==> log[1] == Exchange(CommandLane, Execute, log[1].reply)
    requires |log| > 1 ==> DeleteAttempts(log[2..], [CleanupLane] + Fallbacks(hasFallback))
    ensures !Signalled(log) && (!hasFallback ==> StaysOnLanes(log))
  {
    assert |log| > 1 ==> forall i :: 2 <= i < |log| ==> log[i] == log[2..][i - 2];
  }

  // ---- What each entry point reports ----

  /** The meaning of the error of a whole run. */
  ghost predicate Report(log: Log, err: Error) {
    && (err.Is(ErrRemoteStateUnknown) <==> !Conclusive(log))
    && (err.Is(ErrNotStarted) <==> log == [Exchange(CommandLane, Create, Unsent)])
    && (err.NoError? ==> Completed(log))
    && WellConducted(log)
  }

  /** One run as its caller and an observer of its exchanges see it. */
  datatype Execution = Execution(code: int, err: Error, log: Log, polls: seq<Poll>) {
    /** receive gave the caller the exit code, in a run of this schedule. */
    predicate Observed(schedule: Schedule) {
      Running(log) && Succeeded(log, polls, schedule)
    }
  }

  /** How a run ends, from what was exchanged and from its schedule: the exit code, success, the cleanup
      mark and the Signal. */
  ghost predicate Ends(x: Execution, schedule: Schedule) {
    && x.code == ExitCode(x.polls, x.Observed(schedule))
    && (x.err.NoError? <==> x.Observed(schedule) && CleanedUp(x.log, schedule))
    && (x.err.Is(ErrCleanupFailed) <==> Running(x.log) && Conclusive(x.log) && !CleanedUp(x.log, schedule))
    && (Signalled(x.log) <==> Running(x.log) && !(x.Observed(schedule) && !schedule.Over(x.polls)))
    && (Running(x.log) && !Signalled(x.log) ==> DeletedOnCommandLane(x.log))
    && (if Running(x.log) then PollsOf(x.log, x.polls) else x.polls == [])
  }

  /** Some run can end like this. */
  ghost predicate CanReturn(x: Execution) {
    Report(x.log, x.err) && exists schedule :: Ends(x, schedule)
  }

  /** Outcome soundness. Whatever the server did: without the unknown mark no shell of this run is
      left, with the not-started mark the server received nothing, and success means that the
      shell, the command and the deletion each happened exactly once. */
  lemma ReportIsSound(log: Log, err: Error, applied: Behaviour)
    requires Report(log, err)
    requires Consistent(log, applied)
    ensures !err.Is(ErrRemoteStateUnknown) ==> !ShellRemains(log, applied)
    ensures err.Is(ErrNotStarted) ==> forall request :: AppliedCount(log, applied, request) == 0
    ensures err.NoError? ==>
      && AppliedCount(log, applied, Create) == 1
      && AppliedCount(log, applied, Execute) == 1
      && AppliedCount(log, applied, Delete) == 1
    ensures AppliedCount(log, applied, Delete) <= 1
  {
    InconclusiveIffShellMayRemain(log);
    if err.Is(ErrNotStarted) {
      forall request ensures AppliedCount(log, applied, request) == 0 {
        NothingAppliedWithout(log, applied, request);
      }
    }
    if err.NoError? {
      CompletedMeansExactlyOnce(log, applied);
    }
    AtMostOneDeleteApplied(log, applied);
  }

  /** The control master's executor: two persistent lanes, no fallback. */
  method RunWithPosters(buildable: bool, connected: bool, schedule: Schedule)
    returns (code: int, err: Error, log: Log, polls: seq<Poll>)
    ensures Report(log, err)
    ensures Ends(Execution(code, err, log, polls), schedule)
    ensures log != [] <==> connected && buildable
    ensures CanReturn(Execution(code, err, log, polls))
    ensures StaysOnLanes(log)
  {
    var runErr, cleanupErr;
    code, runErr, cleanupErr, log, polls := RunCommand(buildable, connected, false, schedule);
    err := Join(runErr, cleanupErr);
    assert Ends(Execution(code, err, log, polls), schedule);
  }

  /** completedCleanupError: keeps whether the deletion is uncertain, drops the budget's own timeout. */
  function CompletedCleanupError(err: Error): (r: Error)
    ensures r.Is(ErrRemoteStateUnknown) <==> err.Is(ErrRemoteStateUnknown)
    ensures !r.Is(ErrDeadlineExceeded) && !r.Is(ErrCanceled) && r.Failure?
  {
    Failure({if err.Is(ErrRemoteStateUnknown) then ErrRemoteStateUnknown else ErrCleanupFailed})
  }

  /** Run: a standalone command whose Delete may fall back to a fresh connection. */
  method Run(buildable: bool, authenticated: bool, schedule: Schedule)
    returns (code: int, err: Error, log: Log, polls: seq<Poll>)
    ensures Report(log, err)
    ensures log != [] <==> authenticated && buildable
    ensures Ends(Execution(code, err, log, polls), schedule)
    ensures Running(log) ==> AllTried(log, DeleteLanes(if Signalled(log) then CleanupLane else CommandLane, true))
    ensures Running(log) && Succeeded(log, polls, schedule) ==> !err.Is(ErrDeadlineExceeded) && !err.Is(ErrCanceled)
  {
    if !authenticated {
      return 0, Failure({}), [], [];
    }
    var runErr, cleanupErr;
    code, runErr, cleanupErr, log, polls := RunCommand(buildable, true, true, schedule);
    if runErr.NoError? && cleanupErr.Failure? {
      err := CompletedCleanupError(cleanupErr);
    } else {
      err := Join(runErr, cleanupErr);
    }
  }

  /** runWithCleanup, used for the short control scripts of a transfer. Its cleanup error loses the
      unknown mark and it never signals. So its error means what Report says exactly when no command was
      left running, or its end of input was confirmed and so was the deletion. */
  method RunWithCleanup(buildable: bool, hasFallback: bool, schedule: Schedule)
    returns (code: int, err: Error, log: Log, polls: seq<Poll>)
    ensures if Running(log) then PollsOf(log, polls) else polls == []
    ensures err.NoError? <==> Running(log) && Succeeded(log, polls, schedule) && CleanedUp(log, schedule)
    ensures code == ExitCode(polls, Running(log) && Succeeded(log, polls, schedule))
    ensures err.Is(ErrRemoteStateUnknown) <==> !Conclusive(log) && !Running(log)
    ensures err.Is(ErrNotStarted) <==> log == [Exchange(CommandLane, Create, Unsent)]
    ensures err.NoError? ==> Completed(log)
    ensures Report(log, err) <==> (Running(log) ==> Conclusive(log) && InputConfirmed(log))
    ensures !Signalled(log) && NeverReplayed(log) && OwnShellOnly(log)
    ensures Running(log) ==> AllTried(log, DeleteLanes(CleanupLane, hasFallback))
  {
    code, polls := 0, [];
    var s := new Session(hasFallback, schedule);
    err := s.Start(buildable);
    if err.Failure? {
      FailedStart(s.log, hasFallback);
      return 0, err, s.log, [];
    }
    code, err := Interact(s);
    ghost var before := s.log;
    var closeErr, tail := s.CloseWith(CleanupLane, CleanupLane, false);
    if err.NoError? && closeErr.NoError? {
      CompletedFollows(before, tail, false);
    }
    if closeErr.Failure? && err.NoError? {
      err := Failure({});
    }
    log, polls := s.log, s.polls;
    UnsignalledTeardownFollows(before, tail);
    PollsStay(before, tail, polls);
    AllTriedAfter(before, tail, DeleteLanes(CleanupLane, hasFallback));
  }

  lemma UnsignalledTeardownFollows(before: Log, tail: Log)
    requires Streaming(before) && |before| > 2
    requires Teardown(tail, false)
    ensures var log := before + tail;
      && NeverReplayed(log) && OwnShellOnly(log) && !Signalled(log)
      && Running(log) && log[2] == before[2] && DeleteAttempted(log) && SignalOffCommandLane(log)
      && (FailedSendSignalled(log) <==> InputConfirmed(log))
      && SignalsAccepted(log)
    ensures Conclusive(before + tail) <==> tail[|tail| - 1].reply.Accepted?
  {
    var log := before + tail;
    assert log[|log| - 1] == tail[|tail| - 1];
    assert forall i :: |before| <= i < |log| ==> log[i] == tail[i - |before|];
  }

  /** Each half of the condition can fail. A lost Delete after a finished command leaves an error without
      the mark although a shell may remain, and a command whose end of input is lost is deleted without a
      Signal. */
  lemma CleanupConditionIsNeeded(err: Error)
    requires !err.Is(ErrRemoteStateUnknown)
    ensures var log := [
        Exchange(CommandLane, Create, Accepted), Exchange(CommandLane, Execute, Accepted),
        Exchange(CommandLane, SendInput, Accepted), Exchange(CommandLane, Receive, Accepted),
        Exchange(CleanupLane, Delete, Lost)];
      && Running(log) && InputConfirmed(log) && !Report(log, err)
      && (exists applied :: Consistent(log, applied) && ShellRemains(log, applied))
    ensures var log := [
        Exchange(CommandLane, Create, Accepted), Exchange(CommandLane, Execute, Accepted),
        Exchange(CommandLane, SendInput, Lost), Exchange(CleanupLane, Delete, Accepted)];
      && Running(log) && Conclusive(log) && !Report(log, err)
  {
    var lost := [
      Exchange(CommandLane, Create, Accepted), Exchange(CommandLane, Execute, Accepted),
      Exchange(CommandLane, SendInput, Accepted), Exchange(CommandLane, Receive, Accepted),
      Exchange(CleanupLane, Delete, Lost)];
    assert !DeletedAfter(lost, 0) && lost[0].request.Create?;
    InconclusiveIffShellMayRemain(lost);
    var unsignalled := [
      Exchange(CommandLane, Create, Accepted), Exchange(CommandLane, Execute, Accepted),
      Exchange(CommandLane, SendInput, Lost), Exchange(CleanupLane, Delete, Accepted)];
    assert unsignalled[3].request.Delete? && unsignalled[3].reply.Accepted?;
    assert DeletedAfter(unsignalled, 0);
  }
}
