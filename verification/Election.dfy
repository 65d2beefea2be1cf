/**
 Electing one control master per socket path (internal/control/master_unix.go and socket_unix.go).

 Processes interleave between system calls, and any of them can crash at any point. A starter opens
 its own description of the lock file; flock belongs to the description, which the child inherits, and
 lasts while any process has the description open. The socket file is named by the process that bound
 it; a dial reaches a master only if that process still listens.
 */
module Election {
  import opened Failures

  type Pid = nat

  /** An open file description of the lock file. */
  type Description = nat

  datatype Pc =
    // StartOrConnect and launchMaster
    | Looking
    | Locking
    | Locked
    | Removing
    | Resolving
    | Launching
    | Waiting(child: Pid)
    | Found
    | Failed
    // serveWithAuth
    | Authenticating
    | Binding
    | Listening
    | Announcing
    | Serving
    | Unlinking
    | Closing
    | Draining
    | Gone

  datatype State = State(
    procs: map<Pid, Pc>,
    fds: map<Pid, Description>,       // who has which description open
    owner: Option<Description>,       // the description that holds the lock
    nextDescription: Description,
    path: Option<Pid>,                // the socket file, by the process that bound it
    listening: set<Pid>,
    ready: set<Pid>,                  // masters that have reported readiness
    resolves: map<Pid, nat>)          // passwords resolved by each start

  const INITIAL := State(map[], map[], None, 0, None, {}, {}, map[])

  /** What a starter can learn from inspecting and dialling the path. */
  datatype Probe = Absent | Refused | DialError | Live | Mismatch | Unresponsive

  datatype Action =
    | Start(p: Pid)
    | Look(p: Pid, probe: Probe)
    | TryLock(p: Pid)
    | Recheck(p: Pid, probe: Probe)
    | RemoveStale(p: Pid)
    | Resolve(p: Pid)
    | Launch(p: Pid, child: Pid)
    | SeeReady(p: Pid)
    | GiveUp(p: Pid)               // any error or the end of the start's context
    | Authenticate(p: Pid)
    | Bind(p: Pid)
    | Listen(p: Pid)
    | Announce(p: Pid)
    | StopServing(p: Pid)          // shutdown, or a failure after the bind
    | Unlink(p: Pid)
    | CloseListener(p: Pid)
    | Exit(p: Pid)
    | Crash(p: Pid)

  // ---- The system calls ----

  predicate Connected(probe: Probe) {
    probe.Live? || probe.Mismatch? || probe.Unresponsive?
  }

  /** A dial connects only to a listening process, is refused only by a file nobody listens on, and may
      fail in other ways whatever the state of the socket. */
  predicate Observable(s: State, probe: Probe) {
    match probe
    case Absent => s.path.None?
    case Refused => s.path.Some? && s.path.value !in s.listening
    case DialError => s.path.Some?
    case _ => s.path.Some? && s.path.value in s.listening
  }

  function At(s: State, p: Pid, pc: Pc): State {
    s.(procs := s.procs[p := pc])
  }

  /** Closing a descriptor: the lock goes with the description's last descriptor. */
  function CloseLock(s: State, p: Pid): State {
    var fds := s.fds - {p};
    s.(fds := fds, owner := if s.owner.Some? && s.owner.value in fds.Values then s.owner else None)
  }

  /** A process ends: the kernel closes its lock descriptor and its listener, and leaves the file. */
  function EndProcess(s: State, p: Pid, pc: Pc): State {
    At(CloseLock(s, p), p, pc).(listening := s.listening - {p})
  }

  predicate Is(s: State, p: Pid, pc: Pc) {
    p in s.procs && s.procs[p] == pc
  }

  predicate Enabled(s: State, a: Action) {
    match a
    case Start(p) => p !in s.procs
    case Look(p, probe) => Is(s, p, Looking) && Observable(s, probe)
    case TryLock(p) => Is(s, p, Locking)
    case Recheck(p, probe) => Is(s, p, Locked) && Observable(s, probe)
    case RemoveStale(p) => Is(s, p, Removing)
    case Resolve(p) => Is(s, p, Resolving)
    case Launch(p, child) => Is(s, p, Launching) && child !in s.procs && p in s.fds
    case SeeReady(p) => p in s.procs && s.procs[p].Waiting? && s.procs[p].child in s.ready
    case GiveUp(p) => p in s.procs && Starter(s.procs[p])
    case Authenticate(p) => Is(s, p, Authenticating)
    case Bind(p) => Is(s, p, Binding)
    case Listen(p) => Is(s, p, Listening)
    case Announce(p) => Is(s, p, Announcing)
    case StopServing(p) => Is(s, p, Announcing) || Is(s, p, Serving)
    case Unlink(p) => Is(s, p, Unlinking)
    case CloseListener(p) => Is(s, p, Closing)
    case Exit(p) => Is(s, p, Authenticating) || Is(s, p, Binding) || Is(s, p, Draining)
    case Crash(p) => p in s.procs
  }

  function Step(s: State, a: Action): State {
    match a
    case Start(p) => At(s, p, Looking).(resolves := s.resolves[p := 0])
    case Look(p, probe) =>
      At(s, p, match probe case Live => Found case Mismatch => Failed case DialError => Failed case _ => Locking)
    case TryLock(p) =>
      if s.owner.Some? then At(s, p, Looking)
      else At(s, p, Locked).(fds := s.fds[p := s.nextDescription],
      owner := Some(s.nextDescription), nextDescription := s.nextDescription + 1)
    case Recheck(p, probe) =>
      if probe.Absent? then At(s, p, Resolving)
      else if probe.Live? then At(CloseLock(s, p), p, Found)
      else if Connected(probe) then At(CloseLock(s, p), p, Failed)
      else At(s, p, Removing)
    case RemoveStale(p) => At(s, p, Resolving).(path := None)
    case Resolve(p) =>
      At(s, p, Launching).(resolves := s.resolves[p := if p in s.resolves then s.resolves[p] + 1 else 1])
    case Launch(p, child) =>
      At(At(s, p, Waiting(child)), child, Authenticating)
      .(fds := if p in s.fds then s.fds[child := s.fds[p]] else s.fds)
    case SeeReady(p) => At(CloseLock(s, p), p, Found)
    case GiveUp(p) =>
      // A start that gives up while it waits kills the child first.
      var killed :=
        if p in s.procs && s.procs[p].Waiting? && s.procs[p].child in s.procs
        then EndProcess(s, s.procs[p].child, Gone) else s;
      At(CloseLock(killed, p), p, Failed)
    case Authenticate(p) => At(s, p, Binding)
    case Bind(p) =>
      if s.path.Some? then EndProcess(s, p, Gone) else At(s, p, Listening).(path := Some(p))
    case Listen(p) => At(s, p, Announcing).(listening := s.listening + {p})
    case Announce(p) => At(s, p, Serving).(ready := s.ready + {p})
    case StopServing(p) => At(s, p, Unlinking)
    case Unlink(p) => At(s, p, Closing).(path := None)
    case CloseListener(p) => At(s, p, Draining).(listening := s.listening - {p})
    case Exit(p) => EndProcess(s, p, Gone)
    case Crash(p) => EndProcess(s, p, Gone)
  }

  // ---- The invariant ----

  predicate Starter(pc: Pc) {
    pc.Looking? || pc.Locking? || HoldsAlone(pc) || pc.Waiting?
  }

  /** A starter between taking the lock and sharing it. */
  predicate HoldsAlone(pc: Pc) {
    pc.Locked? || pc.Removing? || pc.Resolving? || pc.Launching?
  }

  predicate Master(pc: Pc) {
    pc.Authenticating? || pc.Binding? || pc.Draining? || pc.Closing? || OwnsPath(pc)
  }

  predicate OwnsPath(pc: Pc) {
    pc.Listening? || pc.Announcing? || pc.Serving? || pc.Unlinking?
  }

  predicate MayListen(pc: Pc) {
    pc.Announcing? || pc.Serving? || pc.Unlinking? || pc.Closing?
  }

  /** A master that has reported readiness, and what becomes of it. */
  predicate HasServed(pc: Pc) {
    pc.Serving? || pc.Unlinking? || pc.Closing? || pc.Draining? || pc.Gone?
  }

  predicate Unresolved(pc: Pc) {
    pc.Looking? || pc.Locking? || pc.Locked? || pc.Removing? || pc.Resolving?
  }

  predicate ProcInv(s: State, p: Pid)
    requires p in s.procs
  {
    var pc := s.procs[p];
    // Everyone with the lock file open shares the one locked description.
    && (p in s.fds <==> HoldsAlone(pc) || pc.Waiting? || Master(pc))
    && (p in s.fds ==> s.owner == Some(s.fds[p]))
    && (p in s.listening ==> MayListen(pc))
    && (OwnsPath(pc) ==> s.path == Some(p))
    && (Unresolved(pc) ==> p in s.resolves && s.resolves[p] == 0)
    && (pc.Launching? || pc.Waiting? ==> p in s.resolves && s.resolves[p] == 1)
    && (p in s.ready ==> HasServed(pc))
    && (p in s.resolves ==> s.resolves[p] <= 1)
    && (Master(pc) ==> p !in s.resolves)
    && (pc.Waiting? ==> pc.child in s.procs && !Starter(s.procs[pc.child]) && pc.child !in s.resolves)
  }

  /** Only a waiting starter and its child ever hold the lock together. */
  predicate PairInv(s: State, p: Pid, q: Pid)
    requires p in s.procs && q in s.procs
  {
    p in s.fds && q in s.fds && p != q ==> s.procs[p] == Waiting(q) || s.procs[q] == Waiting(p)
  }

  predicate SharedInv(s: State) {
    && (s.owner.Some? ==> s.owner.value in s.fds.Values)
    && (s.path.Some? ==> s.path.value in s.procs)
    && s.fds.Keys <= s.procs.Keys
    && s.listening <= s.procs.Keys
    && s.ready <= s.procs.Keys
    && s.resolves.Keys <= s.procs.Keys
  }

  predicate Inv(s: State) {
    && SharedInv(s)
    && (forall p {:trigger ProcInv(s, p)} :: p in s.procs ==> ProcInv(s, p))
    && (forall p, q {:trigger PairInv(s, p, q)} :: p in s.procs && q in s.procs ==> PairInv(s, p, q))
  }

  lemma HolderIsAlone(s: State, p: Pid)
    requires Inv(s) && p in s.procs && HoldsAlone(s.procs[p])
    ensures s.fds.Keys == {p}
    ensures forall q :: q in s.procs ==> !OwnsPath(s.procs[q])
    ensures s.listening == {}
  {
    assert ProcInv(s, p);
    forall q | q in s.procs ensures (q in s.fds ==> q == p) && !OwnsPath(s.procs[q]) && q !in s.listening {
      assert ProcInv(s, q) && PairInv(s, p, q);
    }
  }

  lemma OneMaster(s: State, p: Pid, q: Pid)
    requires Inv(s) && p in s.procs && q in s.procs
    requires Master(s.procs[p]) && Master(s.procs[q])
    ensures p == q
  {
    assert ProcInv(s, p) && ProcInv(s, q) && PairInv(s, p, q);
  }

  lemma EndKeepsInv(s: State, p: Pid, pc: Pc)
    requires Inv(s) && p in s.procs
    requires pc == Gone || (pc in {Found, Failed} && Starter(s.procs[p]))
    ensures Inv(EndProcess(s, p, pc))
  {
    var t := EndProcess(s, p, pc);
    forall q | q in t.procs ensures ProcInv(t, q) {
      assert ProcInv(s, q) && ProcInv(s, p);
      if q in t.fds {
        assert t.fds[q] in t.fds.Values;
      }
    }
    forall q, r | q in t.procs && r in t.procs ensures PairInv(t, q, r) {
      assert PairInv(s, q, r) && ProcInv(t, q) && ProcInv(t, r);
    }
    if s.owner.Some? && t.owner.Some? {
      assert t.owner.value in t.fds.Values;
    }
  }

  predicate Seeks(a: Action) {
    a.Start? || a.Look? || a.TryLock?
  }

  /** The steps of a starter that close no descriptor, from its own point of view: first without the
      lock, then with it. */
  lemma SeekingKeepsItself(s: State, a: Action)
    requires Inv(s) && Enabled(s, a) && Seeks(a)
    ensures ProcInv(Step(s, a), a.p)
  {
    if a.p in s.procs {
      assert ProcInv(s, a.p);
    }
  }

  lemma HoldingKeepsItself(s: State, a: Action)
    requires Inv(s) && Enabled(s, a) && !ClosesLock(s, a) && !MasterStep(a) && !Seeks(a)
    ensures ProcInv(Step(s, a), a.p)
  {
    assert ProcInv(s, a.p);
  }

  /** And from the point of view of another process: the launched child, or one that was there before. */
  lemma StarterStepKeepsOther(s: State, a: Action, q: Pid)
    requires Inv(s) && Enabled(s, a) && !ClosesLock(s, a) && !MasterStep(a)
    requires q in Step(s, a).procs && q != a.p
    ensures ProcInv(Step(s, a), q)
  {
    if q in s.procs {
      assert ProcInv(s, q);
    }
    if a.p in s.procs {
      assert ProcInv(s, a.p);
      if HoldsAlone(s.procs[a.p]) {
        HolderIsAlone(s, a.p);
      }
    }
  }

  /** What a master's step may change: itself, the path and its own listening. */
  predicate MasterEffect(s: State, t: State, p: Pid) {
    && p in s.procs && p in t.procs && Master(s.procs[p]) && Master(t.procs[p])
    && t == s.(procs := s.procs[p := t.procs[p]], path := t.path, listening := t.listening, ready := t.ready)
    && t.listening - {p} == s.listening - {p} && t.ready - {p} == s.ready - {p}
    && (p in t.ready ==> HasServed(t.procs[p]))
    && (p in t.listening ==> MayListen(t.procs[p]))
    && (OwnsPath(t.procs[p]) ==> t.path == Some(p))
  }

  lemma MasterStepHasEffect(s: State, a: Action)
    requires Inv(s) && Enabled(s, a) && !ClosesLock(s, a) && MasterStep(a)
    ensures MasterEffect(s, Step(s, a), a.p)
  {
    assert ProcInv(s, a.p);
  }

  lemma MasterEffectKeepsProc(s: State, t: State, p: Pid, q: Pid)
    requires Inv(s) && MasterEffect(s, t, p) && q in s.procs
    ensures ProcInv(t, q)
  {
    assert ProcInv(s, p) && ProcInv(s, q);
    if q != p {
      if Master(s.procs[q]) {
        OneMaster(s, p, q);
      }
      assert q in t.listening <==> q in t.listening - {p};
      assert q in s.listening <==> q in s.listening - {p};
      assert q in t.ready <==> q in t.ready - {p};
      assert q in s.ready <==> q in s.ready - {p};
    }
  }

  predicate MasterStep(a: Action) {
    a.Authenticate? || a.Bind? || a.Listen? || a.Announce? || a.StopServing? || a.Unlink? || a.CloseListener?
  }

  lemma StepKeepsShared(s: State, a: Action)
    requires Inv(s) && Enabled(s, a) && !ClosesLock(s, a)
    ensures SharedInv(Step(s, a))
  {
    var t := Step(s, a);
    if t.owner.Some? {
      if a.TryLock? && s.owner.None? {
        assert t.fds[a.p] == t.owner.value;
      } else {
        var p :| p in s.fds && s.fds[p] == s.owner.value;
        assert p in t.fds && t.fds[p] == t.owner.value;
      }
    }
  }

  lemma StepKeepsPair(s: State, a: Action, q: Pid, r: Pid)
    requires Inv(s) && Enabled(s, a) && !ClosesLock(s, a)
    requires q in Step(s, a).procs && r in Step(s, a).procs
    ensures PairInv(Step(s, a), q, r)
  {
    if a.TryLock? && s.owner.None? {
      forall p | p in s.procs ensures p !in s.fds {
        assert ProcInv(s, p);
      }
    } else if a.Launch? {
      HolderIsAlone(s, a.p);
    } else if q in s.procs && r in s.procs {
      assert PairInv(s, q, r) && PairInv(s, r, q);
      if a.p in s.procs {
        assert ProcInv(s, a.p);
      }
    }
  }

  predicate ClosesLock(s: State, a: Action) {
    || a.GiveUp? || a.SeeReady? || a.Exit? || a.Crash?
    || (a.Bind? && s.path.Some?)
    || (a.Recheck? && Connected(a.probe))
  }

  /** A start that gives up while it waits ends its child and then itself. */
  lemma GiveUpKeepsInv(s: State, p: Pid)
    requires Inv(s) && Enabled(s, GiveUp(p))
    ensures Inv(Step(s, GiveUp(p)))
  {
    assert ProcInv(s, p);
    if s.procs[p].Waiting? {
      var killed := EndProcess(s, s.procs[p].child, Gone);
      EndKeepsInv(s, s.procs[p].child, Gone);
      assert ProcInv(killed, p);
      LeaveKeepsInv(killed, p, Failed);
    } else {
      LeaveKeepsInv(s, p, Failed);
    }
  }

  /** A starter closes its lock file and is done. */
  lemma LeaveKeepsInv(s: State, p: Pid, pc: Pc)
    requires Inv(s) && p in s.procs && Starter(s.procs[p]) && pc in {Found, Failed}
    ensures Inv(At(CloseLock(s, p), p, pc))
  {
    assert ProcInv(s, p);
    EndKeepsInv(s, p, pc);
    assert s.listening - {p} == s.listening;
  }

  lemma ClosingStepKeepsInv(s: State, a: Action)
    requires Inv(s) && Enabled(s, a) && ClosesLock(s, a)
    ensures Inv(Step(s, a))
  {
    match a
    case GiveUp(p) => GiveUpKeepsInv(s, p);
    case SeeReady(p) => LeaveKeepsInv(s, p, Found);
    case Recheck(p, probe) => LeaveKeepsInv(s, p, if probe.Live? then Found else Failed);
    case _ => EndKeepsInv(s, a.p, Gone);
  }

  lemma StepKeepsInv(s: State, a: Action)
    requires Inv(s) && Enabled(s, a)
    ensures Inv(Step(s, a))
  {
    if ClosesLock(s, a) {
      ClosingStepKeepsInv(s, a);
    } else {
      var t := Step(s, a);
      forall q | q in t.procs ensures ProcInv(t, q) {
        if MasterStep(a) {
          MasterStepHasEffect(s, a);
          MasterEffectKeepsProc(s, t, a.p, q);
        } else {
          if q == a.p && Seeks(a) {
            SeekingKeepsItself(s, a);
          } else if q == a.p {
            HoldingKeepsItself(s, a);
          } else {
            StarterStepKeepsOther(s, a, q);
          }
        }
      }
      forall q, r | q in t.procs && r in t.procs ensures PairInv(t, q, r) {
        StepKeepsPair(s, a, q, r);
      }
      StepKeepsShared(s, a);
    }
  }

  // ---- All interleavings ----

  predicate Possible(s: State, run: seq<Action>)
    decreases run
  {
    run == [] || (Enabled(s, run[0]) && Possible(Step(s, run[0]), run[1..]))
  }

  function Run(s: State, run: seq<Action>): State
    decreases run
  {
    if run == [] then s else Run(Step(s, run[0]), run[1..])
  }

  lemma {:induction false} RunKeepsInv(s: State, run: seq<Action>)
    requires Inv(s) && Possible(s, run)
    ensures Inv(Run(s, run))
    decreases run
  {
    if run != [] {
      StepKeepsInv(s, run[0]);
      RunKeepsInv(Step(s, run[0]), run[1..]);
    }
  }

  // ---- What a start reports ----

  /** The path leads to a listening master, and p has asked for no password. */
  predicate MasterListens(s: State, p: Pid) {
    && s.path.Some? && s.path.value in s.listening
    && p in s.resolves && s.resolves[p] == 0
  }

  /** The master that p has launched, with a password asked for once, has reported readiness. */
  predicate ChildServed(s: State, p: Pid) {
    && p in s.procs && s.procs[p].Waiting? && var child := s.procs[p].child;
    && child in s.ready && child in s.procs && HasServed(s.procs[child])
    && p in s.resolves && s.resolves[p] == 1
  }

  /** A start comes to report a socket only by a probe that a listening master with its target has answered,
      or by the readiness of the master that it launched. */
  lemma FoundIsUsable(s: State, a: Action, p: Pid)
    requires Inv(s) && Enabled(s, a)
    requires Is(Step(s, a), p, Found) && !Is(s, p, Found)
    ensures (MasterListens(s, p) && (a == Look(p, Live) || a == Recheck(p, Live)))
         || (ChildServed(s, p) && a == SeeReady(p))
  {
    assert p in s.procs ==> ProcInv(s, p);
    if a.SeeReady? && a.p == p {
      assert ProcInv(s, s.procs[p].child);
    }
  }

  /** What a probe decides. Without the lock: found, given up, or on to the lock. With the lock a socket is
      taken for stale only when the dial has not connected. */
  lemma ProbeDecides(s: State, p: Pid, probe: Probe)
    requires Inv(s)
    ensures Enabled(s, Look(p, probe)) ==> var t := Step(s, Look(p, probe));
      && (Is(t, p, Found) <==> probe.Live?)
      && (Is(t, p, Failed) <==> probe.Mismatch? || probe.DialError?)
      && (Is(t, p, Locking) <==> probe.Absent? || probe.Refused? || probe.Unresponsive?)
    ensures Enabled(s, Recheck(p, probe)) ==> var t := Step(s, Recheck(p, probe));
      && (Is(t, p, Found) <==> probe.Live?)
      && (Is(t, p, Failed) <==> probe.Mismatch? || probe.Unresponsive?)
      && (Is(t, p, Removing) <==> probe.Refused? || probe.DialError?)
      && (Is(t, p, Resolving) <==> probe.Absent?)
      && (Is(t, p, Found) || Is(t, p, Failed) ==> p !in t.fds)
  {
  }

  /** The socket file appears only where there was none, and disappears only by a start that holds the lock
      or by its own master. */
  lemma PathChanges(s: State, a: Action)
    requires Inv(s) && Enabled(s, a) && Step(s, a).path != s.path
    ensures match a
      case Bind(p) => s.path.None? && Step(s, a).path == Some(p)
      case RemoveStale(p) => Step(s, a).path.None? && s.fds.Keys == {p} && s.listening == {}
      case Unlink(p) => Step(s, a).path.None? && s.path == Some(p)
      case _ => false
  {
    assert a.p in s.procs ==> ProcInv(s, a.p);
    if a.RemoveStale? {
      HolderIsAlone(s, a.p);
    }
  }

  /** A start that gives up while it waits leaves no master behind, and the lock free. */
  lemma GivingUpEndsTheChild(s: State, p: Pid)
    requires Inv(s) && Enabled(s, GiveUp(p)) && s.procs[p].Waiting?
    ensures var t := Step(s, GiveUp(p)); Is(t, s.procs[p].child, Gone) && Is(t, p, Failed) && t.fds == map[]
  {
    var child, t := s.procs[p].child, Step(s, GiveUp(p));
    assert ProcInv(s, p);
    forall q | q in s.fds && q != p ensures q == child {
      assert PairInv(s, p, q) && ProcInv(s, q);
    }
  }

  /** The first step of a run that lets this start report a socket. */
  lemma {:induction false} FoundAt(s: State, run: seq<Action>, p: Pid) returns (i: nat)
    requires Inv(s) && Possible(s, run) && !Is(s, p, Found) && Is(Run(s, run), p, Found)
    ensures i < |run| && (MasterListens(Run(s, run[..i]), p) || ChildServed(Run(s, run[..i]), p))
    decreases run
  {
    var t := Step(s, run[0]);
    if Is(t, p, Found) {
      FoundIsUsable(s, run[0], p);
      i := 0;
    } else {
      StepKeepsInv(s, run[0]);
      var k := FoundAt(t, run[1..], p);
      i := k + 1;
      assert run[..i][0] == run[0] && run[..i][1..] == run[1..][..k];
    }
  }

  // ---- A start can succeed ----

  lemma Prepend(s: State, a: Action, rest: seq<Action>)
    requires Enabled(s, a) && Possible(Step(s, a), rest)
    ensures Possible(s, [a] + rest) && Run(s, [a] + rest) == Run(Step(s, a), rest)
  {
    assert ([a] + rest)[1..] == rest;
  }

  lemma {:induction false} Appended(s: State, before: seq<Action>, after: seq<Action>)
    requires Possible(s, before) && Possible(Run(s, before), after)
    ensures Possible(s, before + after) && Run(s, before + after) == Run(Run(s, before), after)
    decreases before
  {
    if before == [] {
      assert before + after == after;
    } else {
      Appended(Step(s, before[0]), before[1..], after);
      assert (before + after)[1..] == before[1..] + after;
    }
  }

  lemma FreeLockMeansNoMaster(s: State, q: Pid)
    requires Inv(s) && s.owner.None?
    ensures q !in s.fds && q !in s.listening
  {
    if q in s.procs {
      assert ProcInv(s, q);
    }
  }

  /** The lock is free, so a socket file is stale: p locks, finds nobody and removes it. */
  lemma ReachesResolving(s: State, p: Pid) returns (run: seq<Action>)
    requires Inv(s) && Is(s, p, Looking) && s.owner.None?
    ensures Possible(s, run) && var t := Run(s, run);
      && Is(t, p, Resolving) && t.procs.Keys == s.procs.Keys && t.path.None? && p in t.fds && t.resolves == s.resolves
  {
    var probe := if s.path.None? then Absent else Refused;
    if s.path.Some? {
      FreeLockMeansNoMaster(s, s.path.value);
    }
    var s1 := Step(s, Look(p, probe));
    var s2 := Step(s1, TryLock(p));
    var s3 := Step(s2, Recheck(p, probe));
    run := if s.path.None? then [] else [RemoveStale(p)] + [];
    if s.path.Some? {
      Prepend(s3, RemoveStale(p), []);
    }
    Prepend(s2, Recheck(p, probe), run);
    run := [Recheck(p, probe)] + run;
    Prepend(s1, TryLock(p), run);
    run := [TryLock(p)] + run;
    Prepend(s, Look(p, probe), run);
    run := [Look(p, probe)] + run;
  }

  /** p waits for the master that it has launched, which has authenticated. */
  predicate Launched(s: State, p: Pid, child: Pid) {
    && p != child && Is(s, p, Waiting(child)) && Is(s, child, Binding)
    && s.path.None? && p in s.fds && child in s.fds && p in s.resolves
  }

  lemma ReachesLaunched(s: State, p: Pid, child: Pid) returns (run: seq<Action>)
    requires Is(s, p, Resolving) && s.path.None? && p in s.fds && child !in s.procs
    ensures Possible(s, run) && var t := Run(s, run);
      Launched(t, p, child) && t.resolves[p] == (if p in s.resolves then s.resolves[p] else 0) + 1
  {
    var s1 := Step(s, Resolve(p));
    var s2 := Step(s1, Launch(p, child));
    run := [Authenticate(child)] + [];
    Prepend(s2, Authenticate(child), []);
    Prepend(s1, Launch(p, child), run);
    run := [Launch(p, child)] + run;
    Prepend(s, Resolve(p), run);
    run := [Resolve(p)] + run;
  }

  /** A launched master binds, listens and reports readiness. */
  lemma ReachesFound(s: State, p: Pid, child: Pid) returns (run: seq<Action>)
    requires Launched(s, p, child)
    ensures Possible(s, run) && var t := Run(s, run);
      && Is(t, p, Found) && Is(t, child, Serving) && t.path == Some(child) && child in t.listening
      && child in t.fds && t.resolves == s.resolves
  {
    var s1 := Step(s, Bind(child));
    var s2 := Step(s1, Listen(child));
    var s3 := Step(s2, Announce(child));
    run := [SeeReady(p)] + [];
    Prepend(s3, SeeReady(p), []);
    Prepend(s2, Announce(child), run);
    run := [Announce(child)] + run;
    Prepend(s1, Listen(child), run);
    run := [Listen(child)] + run;
    Prepend(s, Bind(child), run);
    run := [Bind(child)] + run;
  }

  /** Whatever has crashed before, a start that finds the lock free can come to report a socket behind which
      its own master listens, with the lock, for one password. */
  lemma AStartCanSucceed(s: State, p: Pid, child: Pid)
    requires Inv(s) && Is(s, p, Looking) && s.owner.None? && child !in s.procs
    ensures exists run :: Possible(s, run) && var t := Run(s, run);
      && Is(t, p, Found) && Is(t, child, Serving) && t.path == Some(child) && child in t.listening && child in t.fds
      && p in t.resolves && t.resolves[p] == 1
  {
    assert ProcInv(s, p);
    var first := ReachesResolving(s, p);
    var second := ReachesLaunched(Run(s, first), p, child);
    Appended(s, first, second);
    var third := ReachesFound(Run(s, first + second), p, child);
    Appended(s, first + second, third);
    assert Possible(s, first + second + third);
  }

  /** At this point of the run the start has been answered by a listening master, or its own has served. */
  predicate Answered(run: seq<Action>, i: nat, p: Pid)
    requires i < |run|
  {
    MasterListens(Run(INITIAL, run[..i]), p) || ChildServed(Run(INITIAL, run[..i]), p)
  }

  /** Election safety, at every point of every interleaving with crashes. */
  lemma ElectionIsSafe(run: seq<Action>, p: Pid)
    requires Possible(INITIAL, run)
    requires p in Run(INITIAL, run).procs
    ensures var s := Run(INITIAL, run);
      // A listening process holds the lock, and there is at most one.
      && (p in s.listening ==> p in s.fds && s.owner == Some(s.fds[p]))
      && (forall q :: p in s.listening && q in s.listening ==> q == p)
      // What a starter is about to remove is nobody's live socket, nor one about to listen.
      && (s.procs[p].Removing? ==> s.listening == {} && forall q :: q in s.procs ==> !OwnsPath(s.procs[q]))
      // A stopping master unlinks its own socket.
      && (s.procs[p].Unlinking? ==> s.path == Some(p))
      // The password is resolved at most once a start, by the only holder of the lock, with no master.
      && (p in s.resolves ==> s.resolves[p] <= 1)
      && (s.procs[p].Resolving? ==> p in s.resolves && s.resolves[p] == 0 && s.fds.Keys == {p} && s.listening == {})
      // The lock is never stale: a live process has it.
      && (s.owner.Some? ==> exists q :: q in s.fds && s.fds[q] == s.owner.value)
      // A start that reports a socket has been answered by a listening master, or its own has served.
      && (s.procs[p].Found? ==> exists i :: 0 <= i < |run| && Answered(run, i, p))
  {
    RunKeepsInv(INITIAL, run);
    var s := Run(INITIAL, run);
    assert ProcInv(s, p);
    forall q | p in s.listening && q in s.listening ensures q == p {
      assert ProcInv(s, q);
      OneMaster(s, p, q);
    }
    if HoldsAlone(s.procs[p]) {
      HolderIsAlone(s, p);
    }
    if s.procs[p].Found? {
      var i := FoundAt(INITIAL, run, p);
      assert Answered(run, i, p);
    }
  }
}
