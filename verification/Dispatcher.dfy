/**
 The control master's dispatcher (internal/control/server.go).

 State, Event and Next describe every critical section of the mutex as one atomic step of a value.
 MasterServer is the object the source mutates; each of its methods is proved to take the
 corresponding step. The theorems are about all possible runs of steps.

 A job is named by how many jobs were admitted before it, so names are in admission order.
 */
module Dispatcher {
  import opened Failures
  import Outcome

  const QUEUE_LIMIT := 16

  type JobId = nat

  datatype Result = Result(exitCode: int, category: Category)

  /** A worker goroutine, from its start to the critical section that ends it. */
  datatype Phase = Starting | Executing

  /** Why a job is answered: its executor has returned, its context was over before its executor could be
      called, it names another target, or it was rejected while it was queued. */
  datatype Fate = Ran(run: Outcome.Execution) | Expired(ctx: Error) | Mismatched | Rejected

  datatype State = State(
    active: Option<JobId>,
    queue: seq<JobId>,
    exiting: bool,
    stopped: bool,
    armed: bool,                      // the idle timer is running
    firing: nat,                      // expired timers whose stopIfIdle has not got the mutex yet
    answers: map<JobId, Result>,      // the jobs whose done channel is closed
    fates: map<JobId, Fate>,          // why they were answered
    workers: map<JobId, Phase>,
    admitted: nat,
    executed: seq<JobId>,             // in the order the executor was called
    failed: bool)                     // an execution has returned an error

  const INITIAL := State(None, [], false, false, true, 0, map[], map[], map[], 0, [], false)

  /** ended maps the queued jobs whose context is over to that context's error. */
  datatype Event =
    | Enqueue(ctx: Error)
    | CancelQueued(job: JobId, ctx: Error)
    | Execute(job: JobId)
    | RunEnd(job: JobId, fate: Fate, ended: map<JobId, Error>)
    | StopAdmission     // an exit frame, or a failed heartbeat
    | TearDown          // the context is cancelled, or accept fails
    | TimerExpires
    | StopIfIdle

  // ---- One step ----

  function Shutdown(s: State): State {
    if s.exiting && s.stopped then s else s.(exiting := true, armed := false, stopped := true)
  }

  /** A job's result is set and its done channel closed. */
  function Close(s: State, job: JobId, result: Result, fate: Fate): State {
    s.(answers := s.answers[job := result], fates := s.fates[job := fate])
  }

  /** The first queued job is answered not-started. */
  function RejectFirst(s: State): State
    requires s.queue != []
  {
    Close(s, s.queue[0], Result(0, NotStarted), Rejected).(queue := s.queue[1..])
  }

  function RejectQueue(s: State): (t: State)
    ensures t == s.(queue := [], answers := t.answers, fates := t.fates)
    decreases |s.queue|
  {
    if s.queue == [] then s else RejectQueue(RejectFirst(s))
  }

  /** The first queued job is answered because its context is over. */
  function Skip(s: State, ctx: Error): State
    requires s.queue != []
  {
    Close(s, s.queue[0], Result(0, CategoryFromError(ctx)), Expired(ctx)).(queue := s.queue[1..])
  }

  /** Starts the first queued job whose context is alive and answers those before it. */
  function StartNext(s: State, ended: map<JobId, Error>): State
    decreases |s.queue|
  {
    if s.queue == [] then
      s
    else
      var next := s.queue[0];
      if next in ended then
        StartNext(Skip(s, ended[next]), ended)
      else
        s.(queue := s.queue[1..], active := Some(next), workers := s.workers[next := Starting])
  }

  function AdmissionAnswer(s: State, ctx: Error): Category {
    if s.exiting then NotStarted
    else if ctx.Failure? then CategoryFromError(ctx)
    else if s.active.Some? && |s.queue| >= QUEUE_LIMIT then QueueFull
    else Success
  }

  function Admit(s: State, ctx: Error): State {
    if s.exiting || ctx.Failure? then
      s
    else if s.active.None? then
      s.(armed := false, active := Some(s.admitted), workers := s.workers[s.admitted := Starting],
      admitted := s.admitted + 1)
    else if |s.queue| >= QUEUE_LIMIT then
      s.(armed := false)
    else
      s.(armed := false, queue := s.queue + [s.admitted], admitted := s.admitted + 1)
  }

  function Without(queue: seq<JobId>, job: JobId): seq<JobId> {
    if queue == [] then []
    else if queue[0] == job then queue[1..]
    else [queue[0]] + Without(queue[1..], job)
  }

  function Cancel(s: State, job: JobId, ctx: Error): State {
    if job !in s.queue then
      s
    else
      var queue := Without(s.queue, job);
      Close(s, job, Result(0, CategoryFromError(ctx)), Expired(ctx))
      .(queue := queue, armed := s.armed || (s.active.None? && queue == [] && !s.exiting))
  }

  /** The result that a worker sets for its job. */
  function WorkResult(fate: Fate): Result {
    match fate
    case Ran(run) => Result(run.code, if run.err.Failure? then CategoryFromError(run.err) else Success)
    case Expired(ctx) => Result(0, CategoryFromError(ctx))
    case Mismatched => Result(0, IdentityMismatch)
    case Rejected => Result(0, NotStarted)
  }

  predicate Terminal(fate: Fate) {
    fate.Ran? && fate.run.err.Failure?
  }

  function Finish(s: State, job: JobId, fate: Fate): State {
    Close(s, job, WorkResult(fate), fate)
    .(active := None,
    workers := s.workers - {job},
    exiting := s.exiting || Terminal(fate),
    failed := s.failed || Terminal(fate))
  }

  /** A finished worker's choice: stop, go on with the queue, or go idle. */
  function HandOver(s: State, ended: map<JobId, Error>): State {
    if s.exiting then
      Shutdown(RejectQueue(s))
    else
      var next := StartNext(s, ended);
      if next.active.None? then next.(armed := true) else next
  }

  function EndRun(s: State, job: JobId, fate: Fate, ended: map<JobId, Error>): State {
    HandOver(Finish(s, job, fate), ended)
  }

  function Stop(s: State): State {
    var rejected := RejectQueue(s.(exiting := true));
    if s.active.None? then Shutdown(rejected) else rejected
  }

  function Next(s: State, e: Event): State {
    match e
    case Enqueue(ctx) => Admit(s, ctx)
    case CancelQueued(job, ctx) => Cancel(s, job, ctx)
    case Execute(job) => s.(workers := s.workers[job := Executing], executed := s.executed + [job])
    case RunEnd(job, fate, ended) => EndRun(s, job, fate, ended)
    case StopAdmission => Stop(s)
    case TearDown => Shutdown(RejectQueue(s))
    case TimerExpires => s.(armed := false, firing := s.firing + 1)
    case StopIfIdle =>
      var t := s.(firing := if s.firing > 0 then s.firing - 1 else 0);
      if s.active.None? && s.queue == [] then Shutdown(t) else t
  }

  /** context.Context.Err() of an ended context. */
  predicate ContextError(err: Error) {
    err == Failure({ErrDeadlineExceeded}) || err == Failure({ErrCanceled})
  }

  /** The steps the program and its environment can take. An execution returns only what
      Outcome.RunWithPosters can report. */
  ghost predicate Enabled(s: State, e: Event) {
    match e
    case Enqueue(ctx) => ctx.NoError? || ContextError(ctx)
    case CancelQueued(job, ctx) => job < s.admitted && ContextError(ctx)
    case Execute(job) => job in s.workers && s.workers[job].Starting?
    case RunEnd(job, fate, ended) =>
      && job in s.workers
      && (forall j :: j in ended ==> ContextError(ended[j]))
      && (match fate
          case Ran(run) => s.workers[job].Executing? && Outcome.CanReturn(run)
          case Expired(ctx) => s.workers[job].Starting? && ContextError(ctx)
          case Mismatched => s.workers[job].Starting?
          case Rejected => false)
    case StopAdmission => true
    case TearDown => true
    case TimerExpires => s.armed
    case StopIfIdle => s.firing > 0
  }

  // ---- The invariant ----

  predicate Increasing(s: seq<JobId>) {
    s == [] || (Increasing(s[1..]) && forall job :: job in s[1..] ==> s[0] < job)
  }

  lemma {:induction false} IncreasingSnoc(s: seq<JobId>, last: JobId)
    requires Increasing(s) && forall job :: job in s ==> job < last
    ensures Increasing(s + [last])
  {
    if s != [] {
      assert forall job :: job in s[1..] ==> job in s;
      IncreasingSnoc(s[1..], last);
      assert (s + [last])[1..] == s[1..] + [last];
      assert s[0] in s;
    }
  }

  lemma {:induction false} IncreasingPairs(s: seq<JobId>, i: nat, j: nat)
    requires Increasing(s) && i < j < |s|
    ensures s[i] < s[j]
  {
    if i == 0 {
      assert s[1..][j - 1] in s[1..];
    } else {
      IncreasingPairs(s[1..], i - 1, j - 1);
    }
  }

  predicate IsExecuting(s: State, job: JobId) {
    job in s.workers && s.workers[job].Executing?
  }

  /** Each admitted job is in exactly one place. */
  ghost predicate Partitioned(s: State) {
    && (forall job :: job in s.answers ==> job < s.admitted && job !in s.queue && s.active != Some(job))
    && (forall job :: 0 <= job < s.admitted ==> job in s.answers || job in s.queue || s.active == Some(job))
    && (forall job :: job in s.queue ==> job < s.admitted)
    && (s.active.Some? ==> s.active.value < s.admitted)
    && Increasing(s.queue)
    && (s.active.Some? ==> forall job :: job in s.queue ==> s.active.value < job)
  }

  /** The executor has been called in admission order, never for a job still waiting. */
  ghost predicate InOrder(s: State) {
    && Increasing(s.executed)
    && (forall job :: job in s.executed ==> job < s.admitted)
    && (forall done, job :: done in s.executed && job in s.queue ==> done < job)
    && (s.active.Some? ==> forall done :: done in s.executed ==>
          done < s.active.value || (IsExecuting(s, s.active.value) && done == s.active.value))
  }

  /** The flags, the queue's bound and the single worker. */
  ghost predicate Controlled(s: State) {
    && |s.queue| <= QUEUE_LIMIT
    && (s.queue != [] ==> s.active.Some? && !s.exiting)
    && (s.stopped ==> s.exiting)
    && (s.exiting && s.active.None? ==> s.stopped)
    && (!s.exiting && s.active.None? ==> s.armed || s.firing > 0)
    && (s.armed ==> s.active.None? && !s.exiting)
    && (s.failed ==> s.exiting && s.active.None?)
    && s.workers.Keys == (match s.active case None => {} case Some(job) => {job})
  }

  ghost predicate Recorded(s: State) {
    forall job :: IsExecuting(s, job) ==> job in s.executed
  }

  ghost predicate History(s: State) {
    Recorded(s) && Partitioned(s) && InOrder(s)
  }

  ghost predicate Inv(s: State) {
    Controlled(s) && History(s)
  }

  // ---- Every step keeps the invariant ----

  lemma AdmitKeepsInv(s: State, ctx: Error)
    requires Inv(s)
    ensures Inv(Admit(s, ctx))
  {
    if !s.exiting && ctx.NoError? && s.active.Some? && |s.queue| < QUEUE_LIMIT {
      IncreasingSnoc(s.queue, s.admitted);
    }
  }

  lemma {:induction false} WithoutRemovesOne(queue: seq<JobId>, job: JobId)
    requires Increasing(queue)
    ensures Increasing(Without(queue, job))
    ensures forall j :: j in Without(queue, job) <==> j in queue && j != job
    ensures |Without(queue, job)| <= |queue|
  {
    if queue != [] {
      var first, rest := queue[0], queue[1..];
      assert queue == [first] + rest;
      WithoutRemovesOne(rest, job);
      assert ([first] + Without(rest, job))[1..] == Without(rest, job);
    }
  }

  lemma CancelKeepsInv(s: State, job: JobId, ctx: Error)
    requires Inv(s)
    requires ContextError(ctx)
    ensures Inv(Cancel(s, job, ctx))
  {
    if job in s.queue {
      WithoutRemovesOne(s.queue, job);
    }
  }

  /** Flags and timers are no part of the history. */
  lemma FlagsKeepHistory(s: State, t: State)
    requires History(s)
    requires t == s.(exiting := t.exiting, stopped := t.stopped, armed := t.armed, firing := t.firing)
    ensures History(t)
  {
  }

  lemma {:induction false} RejectAnswersQueue(s: State)
    ensures var t := RejectQueue(s);
      && (forall job :: job in t.answers <==> job in s.answers || job in s.queue)
      && (forall job :: job in t.fates <==> job in s.fates || job in s.queue)
      && (forall job :: job in s.queue ==> t.answers[job] == Result(0, NotStarted) && t.fates[job] == Rejected)
      && (forall job :: job in s.answers && job !in s.queue ==> t.answers[job] == s.answers[job])
      && (forall job :: job in s.fates && job !in s.queue ==> t.fates[job] == s.fates[job])
    decreases |s.queue|
  {
    if s.queue != [] {
      RejectAnswersQueue(RejectFirst(s));
      assert s.queue == [s.queue[0]] + s.queue[1..];
    }
  }

  lemma RejectKeepsHistory(s: State)
    requires History(s)
    ensures History(RejectQueue(s))
  {
    RejectAnswersQueue(s);
  }

  lemma StopKeepsInv(s: State)
    requires Inv(s)
    ensures Inv(Stop(s))
    ensures Inv(Shutdown(RejectQueue(s)))
  {
    var t := s.(exiting := true);
    FlagsKeepHistory(s, t);
    RejectKeepsHistory(s);
    RejectKeepsHistory(t);
    FlagsKeepHistory(RejectQueue(t), Stop(s));
    FlagsKeepHistory(RejectQueue(s), Shutdown(RejectQueue(s)));
  }

  /** What holds between a worker's last assignments and the choice of the next job. */
  ghost predicate Handover(s: State) {
    && |s.queue| <= QUEUE_LIMIT
    && s.active.None?
    && (s.queue != [] ==> !s.exiting || s.failed)
    && (s.stopped ==> s.exiting)
    && (s.failed ==> s.exiting)
    && !s.armed
    && s.workers.Keys == {}
    && History(s)
  }

  lemma FinishHandsOver(s: State, job: JobId, fate: Fate)
    requires Inv(s)
    requires Enabled(s, RunEnd(job, fate, map[]))
    ensures Handover(Finish(s, job, fate))
  {
    assert s.active == Some(job);
  }

  lemma SkipHandsOver(s: State, ctx: Error)
    requires Handover(s) && !s.exiting && s.queue != [] && ContextError(ctx)
    ensures Handover(Skip(s, ctx))
  {
    var next, rest := s.queue[0], s.queue[1..];
    assert s.queue == [next] + rest;
    assert next in s.queue && forall job :: job in rest ==> job in s.queue;
  }

  /** The first queued job is started. */
  function Take(s: State): State
    requires s.queue != []
  {
    s.(queue := s.queue[1..], active := Some(s.queue[0]), workers := s.workers[s.queue[0] := Starting])
  }

  lemma TakeKeepsInv(s: State)
    requires Handover(s) && !s.exiting && s.queue != []
    ensures Inv(Take(s))
  {
    var next, rest := s.queue[0], s.queue[1..];
    assert s.queue == [next] + rest;
    assert next in s.queue && forall job :: job in rest ==> job in s.queue;
  }

  lemma {:induction false} StartNextKeepsInv(s: State, ended: map<JobId, Error>)
    requires Handover(s) && !s.exiting
    requires forall job :: job in ended ==> ContextError(ended[job])
    ensures var t := StartNext(s, ended);
      if t.active.None? then Handover(t) && t.queue == [] && !t.exiting else Inv(t)
    decreases |s.queue|
  {
    if s.queue != [] {
      if s.queue[0] in ended {
        SkipHandsOver(s, ended[s.queue[0]]);
        StartNextKeepsInv(Skip(s, ended[s.queue[0]]), ended);
      } else {
        TakeKeepsInv(s);
      }
    }
  }

  lemma HandoverCloses(s: State)
    requires Handover(s) && s.exiting
    ensures Inv(Shutdown(RejectQueue(s)))
  {
    RejectKeepsHistory(s);
    FlagsKeepHistory(RejectQueue(s), Shutdown(RejectQueue(s)));
  }

  lemma HandoverIdles(s: State)
    requires Handover(s) && !s.exiting && s.queue == []
    ensures Inv(s.(armed := true))
  {
    FlagsKeepHistory(s, s.(armed := true));
  }

  lemma EndRunKeepsInv(s: State, job: JobId, fate: Fate, ended: map<JobId, Error>)
    requires Inv(s)
    requires Enabled(s, RunEnd(job, fate, ended))
    ensures Inv(EndRun(s, job, fate, ended))
  {
    FinishHandsOver(s, job, fate);
    var done := Finish(s, job, fate);
    if done.exiting {
      HandoverCloses(done);
    } else {
      StartNextKeepsInv(done, ended);
      var next := StartNext(done, ended);
      if next.active.None? {
        HandoverIdles(next);
      }
    }
  }

  lemma StepKeepsInv(s: State, e: Event)
    requires Inv(s) && Enabled(s, e)
    ensures Inv(Next(s, e))
  {
    match e
    case Enqueue(ctx) => AdmitKeepsInv(s, ctx);
    case CancelQueued(job, ctx) => CancelKeepsInv(s, job, ctx);
    case Execute(job) => ExecuteKeepsInv(s, job);
    case RunEnd(job, fate, ended) => EndRunKeepsInv(s, job, fate, ended);
    case StopAdmission => StopKeepsInv(s);
    case TearDown => StopKeepsInv(s);
    case TimerExpires =>
    case StopIfIdle =>
  }

  lemma ExecuteKeepsInv(s: State, job: JobId)
    requires Inv(s) && Enabled(s, Execute(job))
    ensures Inv(Next(s, Execute(job)))
  {
    assert s.active == Some(job);
    IncreasingSnoc(s.executed, job);
  }

  // ---- All runs ----

  ghost predicate Possible(s: State, es: seq<Event>)
    decreases es
  {
    es == [] || (Enabled(s, es[0]) && Possible(Next(s, es[0]), es[1..]))
  }

  function Run(s: State, es: seq<Event>): State
    decreases es
  {
    if es == [] then s else Run(Next(s, es[0]), es[1..])
  }

  lemma {:induction false} RunKeepsInv(s: State, es: seq<Event>)
    requires Inv(s) && Possible(s, es)
    ensures Inv(Run(s, es))
    decreases es
  {
    if es != [] {
      StepKeepsInv(s, es[0]);
      RunKeepsInv(Next(s, es[0]), es[1..]);
    }
  }

  /** Answers are final, closing is final, and nothing is executed after a failed execution. */
  ghost predicate Extends(s: State, t: State) {
    && (forall job :: job in s.answers ==> job in t.answers && t.answers[job] == s.answers[job])
    && s.executed <= t.executed
    && s.admitted <= t.admitted
    && (s.exiting ==> t.exiting && t.admitted == s.admitted)
    && (s.stopped ==> t.stopped)
    && (s.failed ==> t.failed && t.executed == s.executed)
  }

  lemma {:induction false} StartNextExtends(s: State, ended: map<JobId, Error>)
    requires forall job :: job in s.queue ==> job !in s.answers
    requires Increasing(s.queue)
    ensures var t := StartNext(s, ended); Extends(s, t) && t.failed == s.failed && t.exiting == s.exiting
    decreases |s.queue|
  {
    if s.queue != [] {
      var next, rest := s.queue[0], s.queue[1..];
      assert s.queue == [next] + rest;
      if next in ended {
        StartNextExtends(Skip(s, ended[next]), ended);
      }
    }
  }

  lemma FinishExtends(s: State, job: JobId, fate: Fate)
    requires s.active == Some(job) && job !in s.answers && !s.failed
    ensures Extends(s, Finish(s, job, fate))
  {
  }

  lemma RejectExtends(s: State)
    requires s.exiting && forall job :: job in s.queue ==> job !in s.answers
    ensures Extends(s, Shutdown(RejectQueue(s)))
  {
    RejectAnswersQueue(s);
  }

  lemma ExtendsIsTransitive(s: State, t: State, u: State)
    requires Extends(s, t) && Extends(t, u)
    ensures Extends(s, u)
  {
  }

  lemma EndRunExtends(s: State, job: JobId, fate: Fate, ended: map<JobId, Error>)
    requires Inv(s) && Enabled(s, RunEnd(job, fate, ended))
    ensures Extends(s, EndRun(s, job, fate, ended))
  {
    RunEndFacts(s, job, fate, ended);
    var done, end := Finish(s, job, fate), EndRun(s, job, fate, ended);
    FinishExtends(s, job, fate);
    if done.exiting {
      RejectExtends(done);
    } else {
      StartNextExtends(done, ended);
      ArmingExtends(StartNext(done, ended));
      ExtendsIsTransitive(done, StartNext(done, ended), end);
    }
    ExtendsIsTransitive(s, done, end);
  }

  lemma ArmingExtends(s: State)
    ensures Extends(s, s) && Extends(s, s.(armed := true))
  {
  }

  lemma AdmitExtends(s: State, ctx: Error)
    ensures Extends(s, Admit(s, ctx))
  {
  }

  lemma CancelExtends(s: State, job: JobId, ctx: Error)
    requires Inv(s)
    ensures Extends(s, Cancel(s, job, ctx))
  {
    WithoutRemovesOne(s.queue, job);
  }

  lemma ExecuteExtends(s: State, job: JobId)
    requires Inv(s) && Enabled(s, Execute(job))
    ensures Extends(s, Next(s, Execute(job)))
  {
    assert s.active == Some(job);
  }

  lemma StopExtends(s: State)
    requires Inv(s)
    ensures Extends(s, Stop(s))
    ensures Extends(s, Shutdown(RejectQueue(s)))
  {
    RejectAnswersQueue(s);
    RejectAnswersQueue(s.(exiting := true));
  }

  lemma FlagsExtend(s: State, t: State)
    requires t == s.(exiting := t.exiting, stopped := t.stopped, armed := t.armed, firing := t.firing)
    requires (s.exiting ==> t.exiting) && (s.stopped ==> t.stopped)
    ensures Extends(s, t)
  {
  }

  lemma StepExtends(s: State, e: Event)
    requires Inv(s) && Enabled(s, e)
    ensures Extends(s, Next(s, e))
  {
    match e
    case Enqueue(ctx) => AdmitExtends(s, ctx);
    case CancelQueued(job, ctx) => CancelExtends(s, job, ctx);
    case Execute(job) => ExecuteExtends(s, job);
    case RunEnd(job, fate, ended) => EndRunExtends(s, job, fate, ended);
    case StopAdmission => StopExtends(s);
    case TearDown => StopExtends(s);
    case TimerExpires => FlagsExtend(s, Next(s, e));
    case StopIfIdle => FlagsExtend(s, Next(s, e));
  }

  lemma {:induction false} RunExtends(s: State, es: seq<Event>)
    requires Inv(s) && Possible(s, es)
    ensures Extends(s, Run(s, es))
    decreases es
  {
    if es != [] {
      StepKeepsInv(s, es[0]);
      StepExtends(s, es[0]);
      RunExtends(Next(s, es[0]), es[1..]);
    }
  }

  // ---- No admitted job waits for ever ----

  function RunEnds(es: seq<Event>): nat {
    if es == [] then 0 else (if es[0].RunEnd? then 1 else 0) + RunEnds(es[1..])
  }

  function CountBelow(queue: seq<JobId>, k: nat): nat {
    if queue == [] then 0 else (if queue[0] < k then 1 else 0) + CountBelow(queue[1..], k)
  }

  /** The unanswered jobs among the first k admitted. */
  function PendingBelow(s: State, k: nat): nat {
    (if s.active.Some? && s.active.value < k then 1 else 0) + CountBelow(s.queue, k)
  }

  lemma {:induction false} CountBelowSnoc(queue: seq<JobId>, last: JobId, k: nat)
    ensures CountBelow(queue + [last], k) == CountBelow(queue, k) + (if last < k then 1 else 0)
  {
    if queue == [] {
      assert [last][1..] == [] && [] + [last] == [last];
    } else {
      assert (queue + [last])[1..] == queue[1..] + [last];
      CountBelowSnoc(queue[1..], last, k);
    }
  }

  predicate NoneBelow(queue: seq<JobId>, k: nat) {
    forall i :: 0 <= i < |queue| ==> queue[i] >= k
  }

  lemma {:induction false} CountBelowBounds(queue: seq<JobId>, k: nat)
    ensures CountBelow(queue, k) <= |queue|
    ensures CountBelow(queue, k) == 0 <==> NoneBelow(queue, k)
  {
    if queue != [] {
      CountBelowBounds(queue[1..], k);
      assert NoneBelow(queue, k) <==> queue[0] >= k && NoneBelow(queue[1..], k) by {
        assert forall i :: 0 < i < |queue| ==> queue[i] == queue[1..][i - 1];
      }
    }
  }

  lemma {:induction false} WithoutCountsNoMore(queue: seq<JobId>, job: JobId, k: nat)
    ensures CountBelow(Without(queue, job), k) <= CountBelow(queue, k)
  {
    if queue != [] && queue[0] != job {
      WithoutCountsNoMore(queue[1..], job, k);
      assert ([queue[0]] + Without(queue[1..], job))[1..] == Without(queue[1..], job);
    }
  }

  lemma {:induction false} StartNextCountsNoMore(s: State, ended: map<JobId, Error>, k: nat)
    requires s.active.None?
    ensures PendingBelow(StartNext(s, ended), k) <= PendingBelow(s, k)
    decreases |s.queue|
  {
    if s.queue != [] && s.queue[0] in ended {
      StartNextCountsNoMore(Skip(s, ended[s.queue[0]]), ended, k);
    }
  }

  lemma HandOverCountsNoMore(s: State, ended: map<JobId, Error>, k: nat)
    requires s.active.None?
    ensures PendingBelow(HandOver(s, ended), k) <= PendingBelow(s, k)
  {
    if !s.exiting {
      StartNextCountsNoMore(s, ended, k);
    }
  }

  lemma AdmitCountsNoMore(s: State, ctx: Error, k: nat)
    requires k <= s.admitted
    ensures PendingBelow(Admit(s, ctx), k) == PendingBelow(s, k)
  {
    CountBelowSnoc(s.queue, s.admitted, k);
  }

  lemma ActiveIsOldest(s: State, k: nat)
    requires Partitioned(s) && s.active.Some? && s.active.value >= k
    ensures PendingBelow(s, k) == 0
  {
    forall i | 0 <= i < |s.queue| ensures s.queue[i] >= k {
      assert s.queue[i] in s.queue;
    }
    assert NoneBelow(s.queue, k);
    CountBelowBounds(s.queue, k);
  }

  /** The end of a run answers the oldest pending job: the active one is older than any that is queued. */
  lemma RunEndCountsFewer(s: State, job: JobId, fate: Fate, ended: map<JobId, Error>, k: nat)
    requires Inv(s) && Enabled(s, RunEnd(job, fate, ended))
    ensures PendingBelow(s, k) > 0 ==> PendingBelow(EndRun(s, job, fate, ended), k) < PendingBelow(s, k)
    ensures PendingBelow(EndRun(s, job, fate, ended), k) <= PendingBelow(s, k)
  {
    RunEndFacts(s, job, fate, ended);
    HandOverCountsNoMore(Finish(s, job, fate), ended, k);
    if job >= k {
      ActiveIsOldest(s, k);
    }
  }

  lemma StopCountsNoMore(s: State, k: nat)
    ensures PendingBelow(Stop(s), k) <= PendingBelow(s, k)
    ensures PendingBelow(Shutdown(RejectQueue(s)), k) <= PendingBelow(s, k)
  {
  }

  lemma StepCounts(s: State, e: Event, k: nat)
    requires Inv(s) && Enabled(s, e) && k <= s.admitted
    ensures PendingBelow(Next(s, e), k) <= PendingBelow(s, k)
    ensures e.RunEnd? && PendingBelow(s, k) > 0 ==> PendingBelow(Next(s, e), k) < PendingBelow(s, k)
  {
    match e
    case Enqueue(ctx) => AdmitCountsNoMore(s, ctx, k);
    case CancelQueued(job, ctx) => WithoutCountsNoMore(s.queue, job, k);
    case Execute(job) =>
    case RunEnd(job, fate, ended) => RunEndCountsFewer(s, job, fate, ended, k);
    case StopAdmission => StopCountsNoMore(s, k);
    case TearDown => StopCountsNoMore(s, k);
    case TimerExpires =>
    case StopIfIdle =>
  }

  /** However many commands are admitted meanwhile, every finished execution brings the first k jobs closer
      to being answered. */
  lemma {:induction false} RunEndsDrainTheQueue(s: State, es: seq<Event>, k: nat)
    requires Inv(s) && Possible(s, es) && k <= s.admitted
    ensures PendingBelow(Run(s, es), k) <= PendingBelow(s, k)
    ensures PendingBelow(Run(s, es), k) == 0 || PendingBelow(Run(s, es), k) + RunEnds(es) <= PendingBelow(s, k)
    decreases es
  {
    if es != [] {
      StepKeepsInv(s, es[0]);
      StepExtends(s, es[0]);
      StepCounts(s, es[0], k);
      RunEndsDrainTheQueue(Next(s, es[0]), es[1..], k);
    }
  }

  lemma NonePendingIsAnswered(s: State, job: JobId)
    requires Partitioned(s) && job < s.admitted && PendingBelow(s, job + 1) == 0
    ensures job in s.answers
  {
    CountBelowBounds(s.queue, job + 1);
    assert NoneBelow(s.queue, job + 1);
  }

  lemma PendingIsBounded(s: State, k: nat)
    requires Inv(s)
    ensures PendingBelow(s, k) <= QUEUE_LIMIT + 1
  {
    CountBelowBounds(s.queue, k);
  }

  lemma AdmittedGrows(s: State, es: seq<Event>)
    requires Inv(s) && Possible(s, es)
    ensures s.admitted <= Run(s, es).admitted && Partitioned(Run(s, es))
  {
    RunKeepsInv(s, es);
    RunExtends(s, es);
  }

  lemma EnoughRunEndsDrain(s: State, es: seq<Event>, k: nat)
    requires Inv(s) && Possible(s, es) && k <= s.admitted
    requires RunEnds(es) >= PendingBelow(s, k) || RunEnds(es) >= QUEUE_LIMIT + 1
    ensures PendingBelow(Run(s, es), k) == 0
  {
    RunEndsDrainTheQueue(s, es, k);
    PendingIsBounded(s, k);
  }

  /** If executions keep returning, every admitted job is answered: after as many as there were pending
      jobs up to it, and so after 17 at the latest, whatever else happens and is admitted in between. */
  lemma NoJobWaitsForEver(s: State, es: seq<Event>, job: JobId)
    requires Inv(s) && Possible(s, es) && job < s.admitted
    requires RunEnds(es) >= PendingBelow(s, job + 1) || RunEnds(es) >= QUEUE_LIMIT + 1
    ensures job in Run(s, es).answers
  {
    EnoughRunEndsDrain(s, es, job + 1);
    AdmittedGrows(s, es);
    NonePendingIsAnswered(Run(s, es), job);
  }

  /** While a job is unanswered there is a worker whose return is the step that gets it answered. */
  lemma PendingWorkHasAWorker(s: State)
    requires Inv(s)
    ensures (exists job :: 0 <= job < s.admitted && job !in s.answers) <==> s.workers != map[]
    ensures PendingBelow(s, s.admitted) > 0 <==> s.workers != map[]
  {
    if s.active.Some? {
      assert s.active.value in s.workers;
      assert s.active.value !in s.answers;
    } else {
      assert s.workers.Keys == {};
    }
  }

  /** In every run of the master: commands start in admission order and at most one is executing,
      the queue is bounded, an idle master has its timer, and a stopped one has answered everyone. */
  lemma EveryRunIsOrderly(es: seq<Event>)
    requires Possible(INITIAL, es)
    ensures var s := Run(INITIAL, es);
      && (forall i, j :: 0 <= i < j < |s.executed| ==> s.executed[i] < s.executed[j])
      && |s.workers| <= 1
      && |s.queue| <= QUEUE_LIMIT
      && (s.active.None? && !s.exiting ==> s.armed || s.firing > 0)
      && (s.active.None? && s.exiting ==> s.stopped && forall job :: 0 <= job < s.admitted ==> job in s.answers)
  {
    RunKeepsInv(INITIAL, es);
    var s := Run(INITIAL, es);
    assert |s.workers| == |s.workers.Keys|;
    forall i, j | 0 <= i < j < |s.executed| ensures s.executed[i] < s.executed[j] {
      IncreasingPairs(s.executed, i, j);
    }
  }

  lemma {:induction false} RunSplits(s: State, before: seq<Event>, after: seq<Event>)
    requires Possible(s, before + after)
    ensures Possible(s, before) && Possible(Run(s, before), after)
    ensures Run(s, before + after) == Run(Run(s, before), after)
    decreases before
  {
    if before == [] {
      assert before + after == after;
    } else {
      assert (before + after)[1..] == before[1..] + after;
      RunSplits(Next(s, before[0]), before[1..], after);
    }
  }

  // ---- What an answer means ----

  const ONLY_UNSENT: Outcome.Log := [Outcome.Exchange(Outcome.CommandLane, Outcome.Create, Outcome.Unsent)]

  /** A run that failed although nothing about its shell is in doubt or has failed. */
  ghost predicate PlainFailure(run: Outcome.Execution) {
    && run.err.Failure? && Outcome.Conclusive(run.log) && run.log != ONLY_UNSENT && !run.err.Is(ErrCleanupFailed)
  }

  /** The answer to a job whose executor has returned: its exit code, and the category that its exchanges and
      its error call for. */
  ghost predicate Judged(r: Result, run: Outcome.Execution) {
    && r.exitCode == run.code
    && (r.category == Success <==> run.err.NoError?)
    && (r.category == RemoteStateUnknown <==> !Outcome.Conclusive(run.log))
    && (r.category == NotStarted <==> run.log == ONLY_UNSENT)
    && (r.category == CleanupFailed <==> run.err.Is(ErrCleanupFailed))
    && (r.category == Timeout <==> PlainFailure(run) && run.err.Is(ErrDeadlineExceeded))
    && (r.category == Canceled <==>
          PlainFailure(run) && !run.err.Is(ErrDeadlineExceeded) && run.err.Is(ErrCanceled))
    && r.category !in {QueueFull, IdentityMismatch}
  }

  /** The answer to a job that was never executed tells why, and has no exit code. */
  predicate Explained(r: Result, fate: Fate) {
    r.exitCode == 0 &&
    match fate
    case Ran(_) => false
    case Expired(ctx) => r.category == if ctx.Is(ErrDeadlineExceeded) then Timeout else Canceled
    case Mismatched => r.category == IdentityMismatch
    case Rejected => r.category == NotStarted
  }

  ghost predicate Reports(r: Result, fate: Fate) {
    if fate.Ran? then Judged(r, fate.run) && Outcome.CanReturn(fate.run) else Explained(r, fate)
  }

  /** Every answered job has a fate that its answer reports, and exactly the executed ones have run. */
  ghost predicate Faithful(s: State) {
    && s.fates.Keys == s.answers.Keys
    && forall job :: job in s.fates ==> FateHolds(s, job)
  }

  ghost predicate FateHolds(s: State, job: JobId)
    requires job in s.fates && s.fates.Keys == s.answers.Keys
  {
    assert job in s.answers.Keys;
    && Reports(s.answers[job], s.fates[job])
    && (s.fates[job].Ran? <==> job in s.executed)
    && (s.fates[job].Ran? && s.fates[job].run.err.Failure? ==> s.failed)
  }

  lemma RunIsJudged(run: Outcome.Execution)
    requires Outcome.CanReturn(run)
    ensures Judged(WorkResult(Ran(run)), run)
  {
    var schedule :| Outcome.Ends(run, schedule);
  }

  lemma CloseKeepsFaith(s: State, job: JobId, result: Result, fate: Fate)
    requires Faithful(s) && Reports(result, fate) && (fate.Ran? <==> job in s.executed)
    requires fate.Ran? && fate.run.err.Failure? ==> s.failed
    ensures Faithful(Close(s, job, result, fate))
  {
    var t := Close(s, job, result, fate);
    forall j | j in t.fates ensures FateHolds(t, j) {
      assert j != job ==> FateHolds(s, j);
    }
  }

  /** Only answers, fates and executions matter. */
  lemma FaithIsKept(s: State, t: State)
    requires Faithful(s) && t.answers == s.answers && t.fates == s.fates && t.executed == s.executed
    requires s.failed ==> t.failed
    ensures Faithful(t)
  {
    forall job | job in t.fates ensures FateHolds(t, job) {
      assert FateHolds(s, job);
    }
  }

  lemma RejectKeepsFaith(s: State)
    requires Faithful(s) && forall job :: job in s.queue ==> job !in s.executed
    ensures Faithful(RejectQueue(s))
  {
    RejectAnswersQueue(s);
    var t := RejectQueue(s);
    assert t.fates.Keys == t.answers.Keys by {
      assert forall job :: job in s.answers.Keys <==> job in s.fates.Keys;
    }
    forall job | job in t.fates ensures FateHolds(t, job) {
      assert job !in s.queue ==> FateHolds(s, job);
    }
  }

  lemma FinishKeepsFaith(s: State, job: JobId, fate: Fate)
    requires Inv(s) && Enabled(s, RunEnd(job, fate, map[])) && Faithful(s)
    ensures Faithful(Finish(s, job, fate))
  {
    assert s.active == Some(job);
    if fate.Ran? {
      RunIsJudged(fate.run);
    }
    var t := s.(failed := s.failed || Terminal(fate));
    FaithIsKept(s, t);
    CloseKeepsFaith(t, job, WorkResult(fate), fate);
    FaithIsKept(Close(t, job, WorkResult(fate), fate), Finish(s, job, fate));
  }

  lemma {:induction false} StartNextKeepsFaith(s: State, ended: map<JobId, Error>)
    requires Faithful(s) && forall job :: job in s.queue ==> job !in s.executed
    requires forall job :: job in ended ==> ContextError(ended[job])
    ensures Faithful(StartNext(s, ended))
    decreases |s.queue|
  {
    if s.queue != [] {
      var next, rest := s.queue[0], s.queue[1..];
      assert s.queue == [next] + rest && next in s.queue;
      assert forall job :: job in rest ==> job in s.queue;
      if next in ended {
        var result := Result(0, CategoryFromError(ended[next]));
        CloseKeepsFaith(s, next, result, Expired(ended[next]));
        FaithIsKept(Close(s, next, result, Expired(ended[next])), Skip(s, ended[next]));
        StartNextKeepsFaith(Skip(s, ended[next]), ended);
      } else {
        FaithIsKept(s, StartNext(s, ended));
      }
    }
  }

  lemma HandOverKeepsFaith(s: State, ended: map<JobId, Error>)
    requires Faithful(s) && forall job :: job in s.queue ==> job !in s.executed
    requires forall job :: job in ended ==> ContextError(ended[job])
    ensures Faithful(HandOver(s, ended))
  {
    if s.exiting {
      RejectKeepsFaith(s);
      FaithIsKept(RejectQueue(s), HandOver(s, ended));
    } else {
      StartNextKeepsFaith(s, ended);
      FaithIsKept(StartNext(s, ended), HandOver(s, ended));
    }
  }

  lemma EndRunKeepsFaith(s: State, job: JobId, fate: Fate, ended: map<JobId, Error>)
    requires Inv(s) && Enabled(s, RunEnd(job, fate, ended)) && Faithful(s)
    ensures Faithful(EndRun(s, job, fate, ended))
  {
    FinishKeepsFaith(s, job, fate);
    HandOverKeepsFaith(Finish(s, job, fate), ended);
  }

  lemma CancelKeepsFaith(s: State, job: JobId, ctx: Error)
    requires Inv(s) && Faithful(s) && ContextError(ctx)
    ensures Faithful(Cancel(s, job, ctx))
  {
    if job in s.queue {
      var result := Result(0, CategoryFromError(ctx));
      CloseKeepsFaith(s, job, result, Expired(ctx));
      FaithIsKept(Close(s, job, result, Expired(ctx)), Cancel(s, job, ctx));
    }
  }

  lemma ExecuteKeepsFaith(s: State, job: JobId)
    requires Inv(s) && Enabled(s, Execute(job)) && Faithful(s)
    ensures Faithful(Next(s, Execute(job)))
  {
    assert s.active == Some(job);
    var t := Next(s, Execute(job));
    forall j | j in t.fates ensures FateHolds(t, j) {
      assert FateHolds(s, j) && j in s.answers.Keys;
    }
  }

  lemma StopKeepsFaith(s: State)
    requires Inv(s) && Faithful(s)
    ensures Faithful(Stop(s)) && Faithful(Shutdown(RejectQueue(s)))
  {
    var t := s.(exiting := true);
    FaithIsKept(s, t);
    RejectKeepsFaith(s);
    RejectKeepsFaith(t);
    FaithIsKept(RejectQueue(t), Stop(s));
    FaithIsKept(RejectQueue(s), Shutdown(RejectQueue(s)));
  }

  lemma StepKeepsFaith(s: State, e: Event)
    requires Inv(s) && Enabled(s, e) && Faithful(s)
    ensures Faithful(Next(s, e))
  {
    match e
    case Enqueue(ctx) => FaithIsKept(s, Admit(s, ctx));
    case CancelQueued(job, ctx) => CancelKeepsFaith(s, job, ctx);
    case Execute(job) => ExecuteKeepsFaith(s, job);
    case RunEnd(job, fate, ended) => EndRunKeepsFaith(s, job, fate, ended);
    case StopAdmission => StopKeepsFaith(s);
    case TearDown => StopKeepsFaith(s);
    case TimerExpires => FaithIsKept(s, Next(s, e));
    case StopIfIdle => FaithIsKept(s, Next(s, e));
  }

  lemma {:induction false} RunKeepsFaith(s: State, es: seq<Event>)
    requires Inv(s) && Possible(s, es) && Faithful(s)
    ensures Faithful(Run(s, es))
    decreases es
  {
    if es != [] {
      StepKeepsInv(s, es[0]);
      StepKeepsFaith(s, es[0]);
      RunKeepsFaith(Next(s, es[0]), es[1..]);
    }
  }

  /** In every run each answer reports why it was given, and an answer belongs to an executed command exactly
      when its executor has returned. */
  lemma EveryAnswerIsFaithful(es: seq<Event>, job: JobId)
    requires Possible(INITIAL, es)
    requires job in Run(INITIAL, es).answers
    ensures var s := Run(INITIAL, es);
      job in s.fates && Reports(s.answers[job], s.fates[job]) && (s.fates[job].Ran? <==> job in s.executed)
  {
    RunKeepsFaith(INITIAL, es);
    var s := Run(INITIAL, es);
    assert job in s.answers.Keys;
    assert FateHolds(s, job);
  }

  /** Once a command that ran is answered with anything but success, no later command starts in any
      continuation. And no answer ever changes. */
  lemma NothingStartsAfterAFailure(before: seq<Event>, after: seq<Event>, job: JobId)
    requires Possible(INITIAL, before + after)
    requires job in Run(INITIAL, before).answers
    ensures var s, t := Run(INITIAL, before), Run(INITIAL, before + after);
      && (job in s.executed && s.answers[job].category != Success ==> t.executed == s.executed)
      && job in t.answers && t.answers[job] == s.answers[job]
      && s.executed <= t.executed
  {
    RunSplits(INITIAL, before, after);
    RunKeepsInv(INITIAL, before);
    RunKeepsFaith(INITIAL, before);
    RunExtends(Run(INITIAL, before), after);
    var s := Run(INITIAL, before);
    assert job in s.answers.Keys;
    assert FateHolds(s, job);
  }

  /** What makes the master exit: a stop, a failed run, or a timer that finds it idle. It has stopped once it is
      to exit and no command is running, or when it is torn down. */
  lemma StopsExactlyWhen(s: State, e: Event)
    requires Inv(s) && Enabled(s, e)
    ensures var t := Next(s, e);
      && (t.exiting <==>
            || s.exiting || e.StopAdmission? || e.TearDown?
            || (e.StopIfIdle? && s.active.None?)
            || (e.RunEnd? && e.fate.Ran? && e.fate.run.err.Failure?))
      && (t.stopped <==> s.stopped || e.TearDown? || (t.exiting && t.active.None?))
  {
    if e.RunEnd? {
      RunEndFacts(s, e.job, e.fate, e.ended);
      StartNextExtends(Finish(s, e.job, e.fate), e.ended);
      StartNextKeepsStopped(Finish(s, e.job, e.fate), e.ended);
    }
  }

  lemma {:induction false} StartNextKeepsStopped(s: State, ended: map<JobId, Error>)
    ensures StartNext(s, ended).stopped == s.stopped
    decreases |s.queue|
  {
    if s.queue != [] && s.queue[0] in ended {
      StartNextKeepsStopped(Skip(s, ended[s.queue[0]]), ended);
    }
  }

  /** A worker that ends without a reason to stop hands over to the first queued job whose context is alive,
      past those whose context is over. */
  lemma {:induction false} FirstLiveJobIsStarted(s: State, ended: map<JobId, Error>, i: nat)
    requires s.active.None? && i <= |s.queue|
    requires (forall k :: 0 <= k < i ==> s.queue[k] in ended) && (i < |s.queue| ==> s.queue[i] !in ended)
    ensures var t := StartNext(s, ended);
      if i == |s.queue| then t.active.None? && t.queue == []
      else t.active == Some(s.queue[i]) && t.queue == s.queue[i + 1..]
    decreases i
  {
    if i > 0 {
      var u := Skip(s, ended[s.queue[0]]);
      assert forall k :: 0 <= k < i - 1 ==> u.queue[k] == s.queue[k + 1];
      FirstLiveJobIsStarted(u, ended, i - 1);
    }
  }

  /** End to end: success means that the command ran exactly once, that no shell is left of it, and that the
      exit code is the one that the server reported last, whatever else the server did. */
  lemma SuccessMeansCompleted(es: seq<Event>, job: JobId, applied: Outcome.Behaviour)
    requires Possible(INITIAL, es)
    requires job in Run(INITIAL, es).answers && Run(INITIAL, es).answers[job].category == Success
    requires var fates := Run(INITIAL, es).fates;
      job in fates && fates[job].Ran? ==> Outcome.Consistent(fates[job].run.log, applied)
    ensures job in Run(INITIAL, es).fates && Run(INITIAL, es).fates[job].Ran?
    ensures var s := Run(INITIAL, es); var run := s.fates[job].run;
      && Outcome.Completed(run.log) && Outcome.Finished(run.polls)
      && s.answers[job].exitCode == run.polls[|run.polls| - 1].code
      && Outcome.AppliedCount(run.log, applied, Outcome.Execute) == 1
      && !Outcome.ShellRemains(run.log, applied)
  {
    EveryAnswerIsFaithful(es, job);
    var run := Run(INITIAL, es).fates[job].run;
    var schedule :| Outcome.Ends(run, schedule);
    Outcome.CompletedMeansExactlyOnce(run.log, applied);
  }

  /** End to end: a job answered not-started reached the server with nothing, whatever the server
      did. It was rejected before its executor was called, or its Create was proven unsent. */
  lemma NotStartedMeansNothingSent(es: seq<Event>, job: JobId, applied: Outcome.Behaviour)
    requires Possible(INITIAL, es)
    requires job in Run(INITIAL, es).answers
    requires Run(INITIAL, es).answers[job].category == NotStarted
    requires var fates := Run(INITIAL, es).fates;
      job in fates && fates[job].Ran? ==> Outcome.Consistent(fates[job].run.log, applied)
    ensures job in Run(INITIAL, es).fates
    ensures var s := Run(INITIAL, es);
      if s.fates[job].Ran? then forall request :: Outcome.AppliedCount(s.fates[job].run.log, applied, request) == 0
      else job !in s.executed
  {
    EveryAnswerIsFaithful(es, job);
    var s := Run(INITIAL, es);
    if s.fates[job].Ran? {
      var log := s.fates[job].run.log;
      forall request ensures Outcome.AppliedCount(log, applied, request) == 0 {
        Outcome.NothingAppliedWithout(log, applied, request);
      }
    }
  }

  /** A request that is refused leaves no trace: no name, no worker, no place in the queue. It is refused for
      the first of these reasons: the master exits, its context is over, or 16 jobs are waiting. */
  lemma RefusedMeansNotAdmitted(s: State, ctx: Error)
    requires Inv(s) && (ctx.NoError? || ContextError(ctx))
    ensures var t, answer := Admit(s, ctx), AdmissionAnswer(s, ctx);
      && (answer.NotStarted? <==> s.exiting)
      && (answer.Timeout? <==> !s.exiting && ctx.Is(ErrDeadlineExceeded))
      && (answer.Canceled? <==> !s.exiting && ctx.Is(ErrCanceled))
      && (answer.QueueFull? <==> !s.exiting && ctx.NoError? && |s.queue| == 16)
      && (answer.Success? <==> !s.exiting && ctx.NoError? && |s.queue| < 16)
      && if answer.Success?
         then t.admitted == s.admitted + 1 && (t.active == Some(s.admitted) || t.queue == s.queue + [s.admitted])
         else t == s.(armed := t.armed)
  {
  }

  // ---- The idle period ----

  /** An expired timer that lost the race for the mutex can end a later idle period at once: the
      master stops although the timer re-armed after the command has not expired. */
  lemma StaleTimerEndsIdlePeriod()
    ensures exists es ::
      && Possible(INITIAL, es + [StopIfIdle])
      && Run(INITIAL, es).armed && !Run(INITIAL, es).stopped
      && Run(INITIAL, es + [StopIfIdle]).stopped
  {
    var end := RunEnd(0, Mismatched, map[]);
    var es := [TimerExpires, Enqueue(NoError), end];
    var s1 := Next(INITIAL, TimerExpires);
    var s2 := Next(s1, Enqueue(NoError));
    var s3 := Next(s2, end);
    var s4 := Next(s3, StopIfIdle);
    assert s2.workers == map[0 := Starting];
    assert s3.queue == [] && s3.firing == 1 && s3.armed;
    assert (es + [StopIfIdle])[1..] == [Enqueue(NoError), end, StopIfIdle];
    assert [Enqueue(NoError), end, StopIfIdle][1..] == [end, StopIfIdle];
    assert [end, StopIfIdle][1..] == [StopIfIdle];
    assert [StopIfIdle][1..] == [];
    assert Possible(s3, [StopIfIdle]);
    assert Possible(s2, [end, StopIfIdle]);
    assert Possible(s1, [Enqueue(NoError), end, StopIfIdle]);
    assert es[1..] == [Enqueue(NoError), end] && [Enqueue(NoError), end][1..] == [end] && [end][1..] == [];
    assert Run(s2, [end]) == s3;
    assert Run(s1, [Enqueue(NoError), end]) == s3;
    assert Run(s2, [end, StopIfIdle]) == s4;
    assert Run(s1, [Enqueue(NoError), end, StopIfIdle]) == s4;
  }

  /** The exact condition: an idle master can stop as idle before its timer expires if and only if an
      earlier expiry is still waiting for the mutex. */
  lemma IdlePeriodIsCutShortIff(s: State)
    requires Inv(s) && s.active.None? && !s.exiting
    ensures s.firing > 0 <==>
      exists es :: Possible(s, es) && StopIfIdle in es && TimerExpires !in es && Run(s, es).stopped
  {
    if s.firing > 0 {
      var es := [StopIfIdle];
      assert es[1..] == [];
      assert Possible(Next(s, StopIfIdle), []);
      assert Possible(s, es) && StopIfIdle in es && TimerExpires !in es && Run(s, es).stopped;
    }
    if es :| Possible(s, es) && StopIfIdle in es && TimerExpires !in es {
      if s.firing == 0 {
        NoExpiryNoStop(s, es);
      }
    }
  }

  lemma {:induction false} StartNextKeepsTimers(s: State, ended: map<JobId, Error>)
    ensures StartNext(s, ended).firing == s.firing
    decreases |s.queue|
  {
    if s.queue != [] && s.queue[0] in ended {
      StartNextKeepsTimers(Skip(s, ended[s.queue[0]]), ended);
    }
  }

  lemma StepKeepsTimers(s: State, e: Event)
    requires !e.TimerExpires? && !e.StopIfIdle?
    ensures Next(s, e).firing == s.firing
  {
    if e.RunEnd? {
      StartNextKeepsTimers(Finish(s, e.job, e.fate), e.ended);
    }
  }

  lemma {:induction false} NoExpiryNoStop(s: State, es: seq<Event>)
    requires Possible(s, es) && TimerExpires !in es && s.firing == 0
    ensures StopIfIdle !in es
    decreases es
  {
    if es != [] {
      StepKeepsTimers(s, es[0]);
      NoExpiryNoStop(Next(s, es[0]), es[1..]);
    }
  }

  // ---- The object ----

  class MasterServer {
    var active: Option<JobId>
    var queue: seq<JobId>
    var exiting: bool
    var stopped: bool
    var armed: bool
    var firing: nat
    var answers: map<JobId, Result>
    var admitted: nat
    ghost var workers: map<JobId, Phase>
    ghost var executed: seq<JobId>
    ghost var fates: map<JobId, Fate>
    ghost var failed: bool

    ghost function Abs(): State
      reads this
    {
      State(active, queue, exiting, stopped, armed, firing, answers, fates, workers, admitted, executed, failed)
    }

    ghost predicate Valid()
      reads this
    {
      Inv(Abs())
    }

    /** newMasterServer: the idle timer starts with the object. */
    constructor ()
      ensures Valid() && Abs() == INITIAL
    {
      active, queue, exiting, stopped, armed, firing := None, [], false, false, true, 0;
      answers, admitted := map[], 0;
      fates, workers, executed, failed := map[], map[], [], false;
    }

    /** close(job.done). Closing a closed channel would panic, so it must be open. */
    method CloseDone(job: JobId, result: Result, ghost fate: Fate)
      requires job !in answers
      modifies this`answers, this`fates
      ensures answers == old(answers)[job := result] && fates == old(fates)[job := fate]
    {
      answers, fates := answers[job := result], fates[job := fate];
    }

    method ShutdownLocked()
      requires stopped ==> exiting
      modifies this`exiting, this`armed, this`stopped
      ensures Abs() == Shutdown(old(Abs()))
    {
      if exiting {
        if stopped {
          return;
        }
      }
      exiting := true;
      armed := false;
      CloseStopped();
    }

    /** close(s.stopped), which must still be open. */
    method CloseStopped()
      requires !stopped
      modifies this`stopped
      ensures stopped
    {
      stopped := true;
    }

    method RejectQueueLocked()
      requires Increasing(queue) && forall job :: job in queue ==> job !in answers
      modifies this`answers, this`fates, this`queue
      ensures Abs() == RejectQueue(old(Abs()))
    {
      for i := 0 to |queue|
        invariant queue == old(queue)
        invariant forall k :: i <= k < |queue| ==> queue[k] !in answers
        invariant RejectQueue(Abs().(queue := queue[i..])) == RejectQueue(old(Abs()))
      {
        NamedOnce(queue, i);
        assert queue[i..][0] == queue[i] && queue[i..][1..] == queue[i + 1..];
        CloseDone(queue[i], Result(0, NotStarted), Rejected);
      }
      queue := [];
    }

    method StopIfIdleLocked()
      requires Valid() && firing > 0
      modifies this
      ensures Valid() && Abs() == Next(old(Abs()), StopIfIdle)
    {
      StepKeepsInv(Abs(), StopIfIdle);
      firing := firing - 1;
      if active.None? && |queue| == 0 {
        ShutdownLocked();
      }
    }

    /** The cancelled context's callback, and the end of the accept loop. */
    method TearDownLocked()
      requires Valid()
      modifies this
      ensures Valid() && Abs() == Next(old(Abs()), TearDown)
    {
      StepKeepsInv(Abs(), TearDown);
      RejectQueueLocked();
      ShutdownLocked();
    }

    /** An exit frame, or the first failed heartbeat. */
    method StopAdmissionLocked()
      requires Valid()
      modifies this
      ensures Valid() && Abs() == Next(old(Abs()), StopAdmission)
    {
      StepKeepsInv(Abs(), StopAdmission);
      exiting := true;
      RejectQueueLocked();
      if active.None? {
        ShutdownLocked();
      }
    }

    method EnqueueJob(ctx: Error) returns (category: Category)
      requires Valid() && (ctx.NoError? || ContextError(ctx))
      modifies this
      ensures Valid() && Abs() == Next(old(Abs()), Enqueue(ctx))
      ensures category == AdmissionAnswer(old(Abs()), ctx)
    {
      AdmitKeepsInv(Abs(), ctx);
      category := EnqueueLocked(ctx);
    }

    method EnqueueLocked(ctx: Error) returns (category: Category)
      modifies this
      ensures Abs() == Admit(old(Abs()), ctx)
      ensures category == AdmissionAnswer(old(Abs()), ctx)
    {
      if exiting {
        return NotStarted;
      }
      if ctx.Failure? {
        return CategoryFromError(ctx);
      }
      armed := false;
      if active.None? {
        active := Some(admitted);
        workers := workers[admitted := Starting];
        admitted := admitted + 1;
        return Success;
      }
      if |queue| >= QUEUE_LIMIT {
        return QueueFull;
      }
      queue := queue + [admitted];
      admitted := admitted + 1;
      return Success;
    }

    method CancelQueuedJob(job: JobId, ctx: Error)
      requires Valid() && job < admitted && ContextError(ctx)
      modifies this
      ensures Valid() && Abs() == Next(old(Abs()), CancelQueued(job, ctx))
      ensures job in answers || active == Some(job)
    {
      CancelFacts(Abs(), job, ctx);
      CancelQueuedLocked(job, ctx);
    }

    method CancelQueuedLocked(job: JobId, ctx: Error)
      requires job in queue ==> job !in answers && active.Some?
      modifies this`queue, this`answers, this`fates, this`armed
      ensures Abs() == Cancel(old(Abs()), job, ctx)
    {
      for i := 0 to |queue|
        invariant queue == old(queue) && answers == old(answers) && fates == old(fates) && armed == old(armed)
        invariant job !in queue[..i]
      {
        if queue[i] == job {
          WithoutAt(queue, job, i);
          queue := queue[..i] + queue[i + 1..];
          CloseDone(job, Result(0, CategoryFromError(ctx)), Expired(ctx));
          if active.None? && |queue| == 0 && !exiting {
            // The source re-arms the timer here. A queued job always has an active one ahead of it.
            assert false;
          }
          return;
        }
      }
    }

    /** The worker's call of the executor. */
    ghost method ExecuteJob(job: JobId)
      requires Valid() && Enabled(Abs(), Execute(job))
      modifies this
      ensures Valid() && Abs() == Next(old(Abs()), Execute(job))
    {
      StepKeepsInv(Abs(), Execute(job));
      workers := workers[job := Executing];
      executed := executed + [job];
    }

    /** The critical section that ends run. */
    method EndRunLocked(job: JobId, fate: Fate, ended: map<JobId, Error>)
      requires Valid() && Enabled(Abs(), RunEnd(job, fate, ended))
      modifies this
      ensures Valid() && Abs() == Next(old(Abs()), RunEnd(job, fate, ended))
    {
      RunEndFacts(Abs(), job, fate, ended);
      FinishLocked(job, fate);
      HandOverLocked(ended);
    }

    /** The end of run: stop, go on with the queue, or go idle. */
    method HandOverLocked(ended: map<JobId, Error>)
      requires Increasing(queue) && forall job :: job in queue ==> job !in answers
      requires active.None? && (stopped ==> exiting)
      modifies this
      ensures Abs() == HandOver(old(Abs()), ended)
    {
      if exiting {
        RejectQueueLocked();
        ShutdownLocked();
      } else {
        StartNextLocked(ended);
        if active.None? {
          armed := true;
        }
      }
    }

    method FinishLocked(job: JobId, fate: Fate)
      requires job !in answers
      modifies this`active, this`answers, this`fates, this`workers, this`exiting, this`failed
      ensures Abs() == Finish(old(Abs()), job, fate)
    {
      CloseDone(job, WorkResult(fate), fate);
      active := None;
      workers := workers - {job};
      if Terminal(fate) {
        exiting := true;
      }
      failed := failed || Terminal(fate);
    }

    /** The loop of run that looks for the next job whose context is alive. */
    method StartNextLocked(ended: map<JobId, Error>)
      requires Increasing(queue) && forall job :: job in queue ==> job !in answers
      requires active.None?
      modifies this`active, this`queue, this`answers, this`fates, this`workers
      ensures Abs() == StartNext(old(Abs()), ended)
    {
      while |queue| > 0
        invariant Increasing(queue) && forall job :: job in queue ==> job !in answers
        invariant active.None?
        invariant StartNext(Abs(), ended) == StartNext(old(Abs()), ended)
        decreases |queue|
      {
        ghost var before := Abs();
        var next := queue[0];
        assert queue == [next] + queue[1..];
        queue := queue[1..];
        if next in ended {
          CloseDone(next, Result(0, CategoryFromError(ended[next])), Expired(ended[next]));
          assert Abs() == Skip(before, ended[next]);
          continue;
        }
        active := Some(next);
        workers := workers[next := Starting];
        return;
      }
    }

    /** The timer's goroutine starts and waits for the mutex. */
    method TimerFires()
      requires Valid() && armed
      modifies this
      ensures Valid() && Abs() == Next(old(Abs()), TimerExpires)
    {
      StepKeepsInv(Abs(), TimerExpires);
      armed, firing := false, firing + 1;
    }
  }

  lemma CancelFacts(s: State, job: JobId, ctx: Error)
    requires Inv(s) && job < s.admitted && ContextError(ctx)
    ensures job in s.queue ==> job !in s.answers && s.active.Some?
    ensures var t := Cancel(s, job, ctx); Inv(t) && (job in t.answers || t.active == Some(job))
  {
    CancelKeepsInv(s, job, ctx);
  }

  lemma RunEndFacts(s: State, job: JobId, fate: Fate, ended: map<JobId, Error>)
    requires Inv(s) && Enabled(s, RunEnd(job, fate, ended))
    ensures s.active == Some(job) && !s.failed
    ensures job !in s.answers && (s.stopped ==> s.exiting)
    ensures Increasing(s.queue) && forall j :: j in s.queue ==> j !in s.answers && j != job
    ensures Inv(EndRun(s, job, fate, ended))
  {
    assert s.active == Some(job);
    EndRunKeepsInv(s, job, fate, ended);
  }

  lemma NamedOnce(queue: seq<JobId>, i: nat)
    requires i < |queue| && Increasing(queue)
    ensures forall k :: i < k < |queue| ==> queue[k] != queue[i]
  {
    forall k | i < k < |queue| ensures queue[k] != queue[i] {
      IncreasingPairs(queue, i, k);
    }
  }

  lemma {:induction false} WithoutAt(queue: seq<JobId>, job: JobId, i: nat)
    requires i < |queue| && queue[i] == job && job !in queue[..i]
    ensures Without(queue, job) == queue[..i] + queue[i + 1..]
  {
    if i > 0 {
      assert queue[1..][..i - 1] == queue[..i][1..];
      assert queue[0] in queue[..i];
      WithoutAt(queue[1..], job, i - 1);
    }
  }
}
