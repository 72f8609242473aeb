/**
 Any number of sessions and daemons racing over one data dir
 (crates/agmem-server/src/daemon/{serve,client}.rs, crates/agmem-server/src/lock.rs).

 A run is any sequence of steps, each one system call or one atomic piece of one process; a step
 whose guard is false changes nothing.  Deadlines are steps that may or may not fire, and a connect to
 a path somebody listens on may fail all the same.  History variables record what a run contained:
 `late` (a data-dir lock released while that process's engine still held the store), `faced` (a daemon
 opened onto a store that was still held), `orphans` (the daemons left starting with no session waiting
 for them under the spawn lock), `missed` (the daemons a session under the spawn lock failed to reach
 while they listened) and `cleared` (the daemons whose path a session removed while they listened).
 */
module DaemonProtocol {
  import opened Common
  import opened Handshake
  import opened ServeLoop

  type Pid = nat

  /** Where `serve` is. */
  datatype DaemonPhase =
    | Starting     // spawned, lock not asked for yet
    | Locked       // holds the data-dir lock, store not opened
    | Opened       // holds a store handle, socket path untouched
    | Cleared      // the socket path was removed, not bound yet
    | Serving      // bound, in the accept loop
    | Closing      // the loop broke
    | Unlinked     // sessions joined, listener dropped
    | Waiting      // own handle dropped, polling the store's lock
    | Failing      // returning an error: locals going, data-dir lock still held
    | Lingering    // data-dir lock released, process not gone
    | Dead

  /** Whether the daemon a session starts replaces one that retired for it. */
  datatype Takeover = No | FromRetired

  /** Where `attach` is; `starts` counts what `starts_left` still allows. */
  datatype SessionPhase =
    | Connecting(t: Takeover)
    | Queueing(t: Takeover)
    | Guarded(t: Takeover)
    | ClearingStale(t: Takeover)
    | AwaitingLock(t: Takeover, starts: nat)
    | Probing(t: Takeover, starts: nat)
    | Spawning(t: Takeover, starts: nat)
    | AwaitingReady(t: Takeover, starts: nat, child: Pid)
    | AwaitingAck(t: Takeover)
    | Attached
    | Gone

  datatype Proc =
    | Daemon(build: Handshake, phase: DaemonPhase, loop: Loop, drain: bool, engine: bool)
    | Session(at: SessionPhase)

  datatype State = State(
    lock: Option<Pid>,        // agmem.lock
    spawnLock: Option<Pid>,   // agmem.spawn.lock
    file: Option<Pid>,        // agmem.sock: whose socket the path names
    procs: map<Pid, Proc>,
    late: bool, faced: bool, orphans: set<Pid>, missed: set<Pid>, cleared: set<Pid>)

  const INIT: State := State(None, None, None, map[], false, false, {}, {}, {})
  const UNBOUND: Loop := BOUND.(listener := false)

  predicate DaemonHoldsLock(phase: DaemonPhase) {
    !phase.Starting? && !phase.Lingering? && !phase.Dead?
  }

  predicate HoldsLock(proc: Proc) {
    match proc
    case Daemon(_, phase, _, _, _) => DaemonHoldsLock(phase)
    case Session(at) => at.Probing?
  }

  predicate HoldsSpawnLock(proc: Proc) {
    proc.Session? &&
    (proc.at.Guarded? || proc.at.ClearingStale? || proc.at.AwaitingLock? || proc.at.Probing?
     || proc.at.Spawning? || proc.at.AwaitingReady?)
  }

  predicate Listening(proc: Proc) {
    proc.Daemon? && (proc.phase.Serving? || proc.phase.Closing?) && proc.loop.listener
  }

  predicate Starts(proc: Proc) {
    proc.Daemon? && (proc.phase.Starting? || proc.phase.Locked? || proc.phase.Opened? || proc.phase.Cleared?)
  }

  /** The handle `serve` itself keeps between opening the store and `drop(db)`. */
  predicate OwnHandle(phase: DaemonPhase) {
    phase.Opened? || phase.Cleared? || phase.Serving? || phase.Closing? || phase.Unlinked?
  }

  /** Every `Db` clone: its own, one per session task, and the background re-embed's. */
  function Handles(proc: Proc): nat {
    if proc.Session? then 0
    else (if OwnHandle(proc.phase) then 1 else 0) + |proc.loop.tasks| + (if proc.drain then 1 else 0)
  }

  predicate Engine(s: State, p: Pid) {
    p in s.procs && s.procs[p].Daemon? && s.procs[p].engine
  }

  /** Some process's engine still holds the store's own file lock. */
  predicate StoreHeld(s: State) {
    exists q | q in s.procs :: Engine(s, q)
  }

  /** A connect on the path succeeds: it names a socket somebody listens on. */
  predicate Reachable(s: State) {
    s.file.Some? && s.file.value in s.procs && Listening(s.procs[s.file.value])
  }

  datatype Step =
    // a session's `attach`
    | Arrive(p: Pid)
    | Connect(p: Pid, ok: bool)         // `ok` false: it fails whoever listens
    | TakeSpawnLock(p: Pid)
    | ConnectAgain(p: Pid, ok: bool)
    | ClearStale(p: Pid)
    | ProbeLock(p: Pid)
    | ProbeDone(p: Pid)
    | Spawn(p: Pid, child: Pid, build: Handshake)
    | PollReady(p: Pid, ok: bool)
    | AckRead(p: Pid, ok: bool, retiring: bool)
    | GiveUpAttach(p: Pid)              // any deadline, refusal or error
    // a daemon's `serve`
    | StartByHand(p: Pid, build: Handshake)
    | Acquire(p: Pid)
    | OpenStore(p: Pid)
    | RemovePath(p: Pid)
    | Bind(p: Pid, pending: bool)
    | Turn(p: Pid, event: Event)
    | CloseSessions(p: Pid)
    | DropHandle(p: Pid)
    | Exit(p: Pid)                      // the store let go, or the deadline passed
    | Fail(p: Pid)
    | AbortSessions(p: Pid)             // an error drops the session tasks with the other locals
    | ReleaseOnError(p: Pid)
    // either
    | DrainEnds(p: Pid)
    | EngineCloses(p: Pid)
    | End(p: Pid)                       // a lingering process goes
    | Crash(p: Pid)

  // ---- one process's move: what it observes, and what it does to the shared files ----

  /** What a step of one process can observe of the rest of the world. */
  datatype Seen = Seen(
    lockFree: bool, spawnFree: bool, pathThere: bool, listener: Option<Pid>, storeHeld: bool,
    childDead: bool, childStarting: bool)

  datatype LockAct = KeepLock | Take | Release
  datatype PathAct = KeepPath | Unlink | BindPath
  datatype Effect = Effect(
    lock: LockAct, spawn: LockAct, path: PathAct, late: bool, faced: bool,
    orphans: set<Pid>, missed: set<Pid>, cleared: set<Pid>)

  const QUIET: Effect := Effect(KeepLock, KeepLock, KeepPath, false, false, {}, {}, {})

  /** A session leaves its start section; a child still starting is then nobody's. */
  function LeaveStart(at: SessionPhase, seen: Seen): Effect {
    QUIET.(spawn := Release, orphans := if at.AwaitingReady? && seen.childStarting then {at.child} else {})
  }

  function Just(p: Option<Pid>): set<Pid> {
    if p.Some? then {p.value} else {}
  }

  function SessionMove(at: SessionPhase, step: Step, seen: Seen): (SessionPhase, Effect) {
    match step
    case Connect(_, ok) =>
      if !at.Connecting? then (at, QUIET)
      else (if seen.listener.Some? && ok then AwaitingAck(at.t) else Queueing(at.t), QUIET)
    case TakeSpawnLock(_) =>
      if at.Queueing? && seen.spawnFree then (Guarded(at.t), QUIET.(spawn := Take)) else (at, QUIET)
    case ConnectAgain(_, ok) =>
      if !at.Guarded? then (at, QUIET)
      else if seen.listener.Some? && ok then (AwaitingAck(at.t), LeaveStart(at, seen))
      else (ClearingStale(at.t), QUIET.(missed := Just(seen.listener)))
    case ClearStale(_) =>
      if at.ClearingStale?
      then (AwaitingLock(at.t, if at.t.No? then 1 else 2), QUIET.(path := Unlink, cleared := Just(seen.listener))) else (at, QUIET)
    case ProbeLock(_) =>
      if at.AwaitingLock? && seen.lockFree
      then (Probing(at.t, at.starts), QUIET.(lock := Take)) else (at, QUIET)
    case ProbeDone(_) =>
      if at.Probing? then (Spawning(at.t, at.starts), QUIET.(lock := Release)) else (at, QUIET)
    case PollReady(_, ok) =>
      if !at.AwaitingReady? then (at, QUIET)
      else if seen.listener.Some? && ok then (AwaitingAck(at.t), LeaveStart(at, seen))
      else if !seen.childDead then (at, QUIET)
      else if at.starts <= 1 then (Gone, LeaveStart(at, seen))
      else (AwaitingLock(at.t, at.starts - 1), QUIET)
    case AckRead(_, ok, retiring) =>
      if !at.AwaitingAck? then (at, QUIET)
      else (if ok then Attached else if retiring && at.t.No? then Connecting(FromRetired) else Gone, QUIET)
    case GiveUpAttach(_) =>
      if at.Probing? then (at, QUIET) else (Gone, LeaveStart(at, seen))
    case Crash(_) => (Gone, LeaveStart(at, seen).(lock := Release))
    case _ => (at, QUIET)
  }

  function DaemonMove(d: Proc, step: Step, seen: Seen): (Proc, Effect)
    requires d.Daemon?
  {
    match step
    case Acquire(_) =>
      if !d.phase.Starting? then (d, QUIET)
      else if seen.lockFree then (d.(phase := Locked), QUIET.(lock := Take))
      else (d.(phase := Dead), QUIET)
    case OpenStore(_) =>
      if !d.phase.Locked? then (d, QUIET)
      else if seen.storeHeld then (d.(phase := Failing), QUIET.(faced := true))
      else (d.(phase := Opened, engine := true), QUIET)
    case RemovePath(_) =>
      if d.phase.Opened? then (d.(phase := Cleared), QUIET.(path := Unlink)) else (d, QUIET)
    case Bind(_, pending) =>
      if !d.phase.Cleared? then (d, QUIET)
      else if seen.pathThere then (d.(phase := Failing), QUIET)
      else (d.(phase := Serving, loop := BOUND, drain := pending), QUIET.(path := BindPath))
    case Turn(_, event) =>
      if d.phase.Serving? then LoopTurn(d, event)
      else if d.phase.Closing? || d.phase.Failing? then (TaskTurn(d, event), QUIET)
      else (d, QUIET)
    case CloseSessions(_) =>
      if !d.phase.Closing? then (d, QUIET)
      else (d.(phase := Unlinked, loop := Close(d.loop)),
            if d.loop.drainUntil then QUIET else QUIET.(path := Unlink))
    case DropHandle(_) => if d.phase.Unlinked? then (d.(phase := Waiting), QUIET) else (d, QUIET)
    case Exit(_) => if d.phase.Waiting? then ReleaseLock(d) else (d, QUIET)
    case Fail(_) =>
      if d.phase.Locked? || d.phase.Opened? || d.phase.Cleared? || d.phase.Serving?
      then (d.(phase := Failing, loop := d.loop.(listener := false)), QUIET) else (d, QUIET)
    case AbortSessions(_) =>
      if d.phase.Failing? then (d.(loop := d.loop.(tasks := map[])), QUIET) else (d, QUIET)
    case ReleaseOnError(_) => if d.phase.Failing? then ReleaseLock(d) else (d, QUIET)
    case DrainEnds(_) => (d.(drain := false), QUIET)
    case EngineCloses(_) => if Handles(d) == 0 then (d.(engine := false), QUIET) else (d, QUIET)
    case End(_) => if d.phase.Lingering? then (Ended(d), QUIET) else (d, QUIET)
    case Crash(_) => (Ended(d), QUIET.(lock := Release))
    case _ => (d, QUIET)
  }

  function LoopTurn(d: Proc, event: Event): (Proc, Effect)
    requires d.Daemon?
  {
    var l := Next(d.build, d.loop, event);
    var effect := if l.unlinks != d.loop.unlinks then QUIET.(path := Unlink) else QUIET;
    if l.exit.None? then (d.(loop := l), effect)
    else if l.exit.value.Broke? then (d.(phase := Closing, loop := l), effect)
    else (d.(phase := Failing, loop := l.(listener := false)), effect)
  }

  /** Session tasks run on until they are joined or dropped. */
  function TaskTurn(d: Proc, event: Event): Proc
    requires d.Daemon?
  {
    if OfATask(event) then d.(loop := TaskStep(d.build, d.loop, event)) else d
  }

  /** `_lock` drops: late when the engine has not let go of the store. */
  function ReleaseLock(d: Proc): (Proc, Effect)
    requires d.Daemon?
  {
    (d.(phase := if d.engine then Lingering else Dead), QUIET.(lock := Release, late := d.engine))
  }

  /** Everything a process held goes with it. */
  function Ended(d: Proc): Proc
    requires d.Daemon?
  {
    Daemon(d.build, Dead, UNBOUND, false, false)
  }

  // ---- the shared state ----

  function LockAfter(lock: Option<Pid>, p: Pid, act: LockAct): Option<Pid> {
    match act
    case KeepLock => lock
    case Take => Some(p)
    case Release => if lock == Some(p) then None else lock
  }

  function PathAfter(file: Option<Pid>, p: Pid, act: PathAct): Option<Pid> {
    match act
    case KeepPath => file
    case Unlink => None
    case BindPath => Some(p)
  }

  function Look(s: State, p: Pid): Seen
    requires p in s.procs
  {
    var at := s.procs[p];
    var child := at.Session? && at.at.AwaitingReady? && at.at.child in s.procs;
    Seen(s.lock.None?, s.spawnLock.None?, s.file.Some?, if Reachable(s) then s.file else None, StoreHeld(s),
         child && s.procs[at.at.child].Daemon? && s.procs[at.at.child].phase.Dead?,
         child && Starts(s.procs[at.at.child]))
  }

  function Move(s: State, step: Step): (Proc, Effect)
    requires step.p in s.procs
  {
    var seen := Look(s, step.p);
    match s.procs[step.p]
    case Session(at) => var (at', effect) := SessionMove(at, step, seen); (Session(at'), effect)
    case Daemon(_, _, _, _, _) => DaemonMove(s.procs[step.p], step, seen)
  }

  function Commit(s: State, p: Pid, proc: Proc, e: Effect): State {
    State(LockAfter(s.lock, p, e.lock), LockAfter(s.spawnLock, p, e.spawn), PathAfter(s.file, p, e.path),
          s.procs[p := proc], s.late || e.late, s.faced || e.faced, s.orphans + e.orphans,
          s.missed + e.missed, s.cleared + e.cleared)
  }

  function Apply(s: State, step: Step): State {
    match step
    case Arrive(p) => if p in s.procs then s else Commit(s, p, Session(Connecting(No)), QUIET)
    case StartByHand(p, build) =>
      if p in s.procs then s
      else Commit(s, p, Daemon(build, Starting, UNBOUND, false, false), QUIET.(orphans := {p}))
    case Spawn(p, child, build) =>
      if p !in s.procs || child in s.procs || !s.procs[p].Session? || !s.procs[p].at.Spawning? then s
      else Commit(Commit(s, child, Daemon(build, Starting, UNBOUND, false, false), QUIET),
                  p, Session(AwaitingReady(s.procs[p].at.t, s.procs[p].at.starts, child)), QUIET)
    case _ =>
      if step.p !in s.procs then s
      else var (proc, effect) := Move(s, step); Commit(s, step.p, proc, effect)
  }

  function Run(steps: seq<Step>): State {
    if steps == [] then INIT else Apply(Run(steps[..|steps| - 1]), steps[|steps| - 1])
  }

  // ---- the invariant ----

  /** What one process's record always satisfies, whatever the others do. */
  predicate Sound(proc: Proc) {
    proc.Daemon? ==>
      && (Handles(proc) > 0 ==> proc.engine)
      && (proc.engine ==> !proc.phase.Starting? && !proc.phase.Locked? && !proc.phase.Dead?)
      && (proc.loop.listener ==> proc.phase.Serving? || proc.phase.Closing?)
      && (proc.phase.Serving? ==> Together(proc.loop) && proc.loop.exit.None?)
      && (proc.phase.Closing? ==> Together(proc.loop))
      && (proc.phase.Unlinked? || proc.phase.Waiting? ==> proc.loop.unlinks == 1 && proc.loop.tasks == map[])
  }

  ghost predicate Inv(s: State) {
    && (forall p :: p in s.procs ==> Sound(s.procs[p]))
    && (forall p :: p in s.procs && HoldsLock(s.procs[p]) ==> s.lock == Some(p))
    && (forall p :: p in s.procs && HoldsSpawnLock(s.procs[p]) ==> s.spawnLock == Some(p))
    && (forall p, q :: Engine(s, p) && Engine(s, q) ==> p == q)
    && (forall p :: p in s.procs && s.procs[p].Daemon? && s.procs[p].phase.Cleared? ==> s.file.None?)
    && (!s.late ==> !s.faced && forall p :: p in s.procs && s.procs[p].Daemon? ==> !s.procs[p].phase.Lingering?)
  }

  /** The part of the invariant that speaks of one process. */
  predicate InvOf(s: State, p: Pid, proc: Proc) {
    && Sound(proc)
    && (HoldsLock(proc) ==> s.lock == Some(p))
    && (HoldsSpawnLock(proc) ==> s.spawnLock == Some(p))
    && (proc.Daemon? && proc.phase.Cleared? ==> s.file.None?)
    && (!s.late ==> !(proc.Daemon? && proc.phase.Lingering?))
  }

  /**
   A move of `p` may take a lock only when it is free and bind only when it holds the data-dir lock;
   then nobody else's part of the invariant can notice it.
   */
  predicate Fair(s: State, p: Pid, proc: Proc, e: Effect) {
    && InvOf(Commit(s, p, proc, e), p, proc)
    && (e.lock.Take? ==> s.lock.None?)
    && (e.spawn.Take? ==> s.spawnLock.None?)
    && (e.path.BindPath? ==> s.lock == Some(p))
    && (proc.Daemon? && proc.engine ==> Engine(s, p) || !StoreHeld(s))
    && (e.faced ==> s.late)
  }

  lemma FairKeepsInv(s: State, p: Pid, proc: Proc, e: Effect)
    requires Inv(s) && Fair(s, p, proc, e)
    ensures Inv(Commit(s, p, proc, e))
  {
    var s' := Commit(s, p, proc, e);
    assert forall q :: q != p && Engine(s', q) ==> Engine(s, q);
  }

  /** What one move of a session may do, read off its own phase and what it saw. */
  predicate Permitted(at: SessionPhase, at': SessionPhase, e: Effect, seen: Seen) {
    && (at'.Probing? ==> e.lock.Take? || (at.Probing? && e.lock.KeepLock?))
    && (e.lock.Take? ==> seen.lockFree)
    && (HoldsSpawnLock(Session(at')) ==> e.spawn.Take? || (HoldsSpawnLock(Session(at)) && e.spawn.KeepLock?))
    && (e.spawn.Take? ==> seen.spawnFree)
    && !e.path.BindPath? && !e.faced
  }

  lemma SessionMoveIsPermitted(at: SessionPhase, step: Step, seen: Seen)
    ensures var (at', e) := SessionMove(at, step, seen); Permitted(at, at', e, seen)
  {
  }

  lemma SessionMoveIsFair(s: State, step: Step)
    requires step.p in s.procs && s.procs[step.p].Session? && InvOf(s, step.p, s.procs[step.p])
    ensures Fair(s, step.p, Move(s, step).0, Move(s, step).1)
  {
    SessionMoveIsPermitted(s.procs[step.p].at, step, Look(s, step.p));
  }

  /** What one move of a daemon may do, read off its own record and what it saw. */
  predicate Legal(d: Proc, d': Proc, e: Effect, seen: Seen)
    requires d.Daemon?
  {
    && d'.Daemon? && Sound(d')
    && (HoldsLock(d') ==> e.lock.Take? || (HoldsLock(d) && e.lock.KeepLock?))
    && (e.lock.Take? ==> seen.lockFree)
    && e.spawn.KeepLock?
    && (e.path.BindPath? ==> HoldsLock(d))
    && (d'.phase.Cleared? ==> e.path.Unlink? || (d.phase.Cleared? && e.path.KeepPath?))
    && (d'.phase.Lingering? ==> d.phase.Lingering? || e.late)
    && (d'.engine ==> d.engine || !seen.storeHeld)
    && (e.faced ==> d.phase.Locked? && seen.storeHeld)
  }

  lemma LoopTurnIsLegal(d: Proc, event: Event, seen: Seen)
    requires d.Daemon? && Sound(d) && d.phase.Serving?
    ensures Legal(d, LoopTurn(d, event).0, LoopTurn(d, event).1, seen)
  {
    assert Handles(d) >= 1;
    NextKeepsTogether(d.build, d.loop, event);
  }

  lemma TaskTurnIsLegal(d: Proc, event: Event, seen: Seen)
    requires d.Daemon? && Sound(d) && (d.phase.Closing? || d.phase.Failing?)
    ensures Legal(d, TaskTurn(d, event), QUIET, seen)
  {
    assert d.phase.Closing? ==> Handles(d) >= 1;
  }

  lemma TurnIsLegal(d: Proc, step: Step, seen: Seen)
    requires d.Daemon? && Sound(d) && step.Turn?
    ensures Legal(d, DaemonMove(d, step, seen).0, DaemonMove(d, step, seen).1, seen)
  {
    if d.phase.Serving? {
      LoopTurnIsLegal(d, step.event, seen);
    } else if d.phase.Closing? || d.phase.Failing? {
      TaskTurnIsLegal(d, step.event, seen);
    }
  }

  lemma OtherMoveIsLegal(d: Proc, step: Step, seen: Seen)
    requires d.Daemon? && Sound(d) && !step.Turn?
    ensures Legal(d, DaemonMove(d, step, seen).0, DaemonMove(d, step, seen).1, seen)
  {
  }

  lemma DaemonMoveIsLegal(d: Proc, step: Step, seen: Seen)
    requires d.Daemon? && Sound(d)
    ensures Legal(d, DaemonMove(d, step, seen).0, DaemonMove(d, step, seen).1, seen)
  {
    if step.Turn? {
      TurnIsLegal(d, step, seen);
    } else {
      OtherMoveIsLegal(d, step, seen);
    }
  }

  /** An error need not release the lock late: with no re-embed running, the dropped sessions let the engine close first. */
  lemma ErrorCanLetGoFirst(d: Proc, p: Pid, seen: Seen)
    requires d.Daemon? && d.phase.Failing? && !d.drain
    ensures var aborted := DaemonMove(d, AbortSessions(p), seen).0;
            var closed := DaemonMove(aborted, EngineCloses(p), seen).0;
            DaemonMove(closed, ReleaseOnError(p), seen) == (closed.(phase := Dead), QUIET.(lock := Release))
  {
  }

  lemma DaemonMoveIsFair(s: State, step: Step)
    requires step.p in s.procs && s.procs[step.p].Daemon? && InvOf(s, step.p, s.procs[step.p])
    requires s.procs[step.p].phase.Locked? && StoreHeld(s) ==> s.late
    ensures Fair(s, step.p, Move(s, step).0, Move(s, step).1)
  {
    DaemonMoveIsLegal(s.procs[step.p], step, Look(s, step.p));
  }

  /** While nothing was late, the only open engine is the lock holder's. */
  lemma EngineIsTheLockHolders(s: State, p: Pid)
    requires Inv(s) && !s.late && Engine(s, p)
    ensures s.lock == Some(p)
  {
    assert HoldsLock(s.procs[p]);
  }

  lemma ApplyKeepsInv(s: State, step: Step)
    requires Inv(s)
    ensures Inv(Apply(s, step))
  {
    if step.Arrive? || step.StartByHand? {
      if step.p !in s.procs {
        var s' := Apply(s, step);
        FairKeepsInv(s, step.p, s'.procs[step.p], if step.Arrive? then QUIET else QUIET.(orphans := {step.p}));
      }
    } else if step.Spawn? {
      SpawnKeepsInv(s, step);
    } else if step.p in s.procs {
      if s.procs[step.p].Session? {
        SessionMoveIsFair(s, step);
      } else {
        if s.procs[step.p].phase.Locked? && StoreHeld(s) && !s.late {
          var q :| q in s.procs && Engine(s, q);
          EngineIsTheLockHolders(s, q);
          assert HoldsLock(s.procs[step.p]);
          assert false;
        }
        DaemonMoveIsFair(s, step);
      }
      FairKeepsInv(s, step.p, Move(s, step).0, Move(s, step).1);
    }
  }

  lemma SpawnKeepsInv(s: State, step: Step)
    requires Inv(s) && step.Spawn?
    ensures Inv(Apply(s, step))
  {
    if Apply(s, step) != s {
      var child := Daemon(step.build, Starting, UNBOUND, false, false);
      var mid := Commit(s, step.child, child, QUIET);
      assert Fair(s, step.child, child, QUIET);
      FairKeepsInv(s, step.child, child, QUIET);
      SpawnerIsFair(mid, step.p, s.procs[step.p].at, step.child);
      FairKeepsInv(mid, step.p, Session(AwaitingReady(s.procs[step.p].at.t, s.procs[step.p].at.starts, step.child)), QUIET);
    }
  }

  lemma SpawnerIsFair(s: State, p: Pid, at: SessionPhase, child: Pid)
    requires Inv(s) && p in s.procs && s.procs[p] == Session(at) && at.Spawning?
    ensures Fair(s, p, Session(AwaitingReady(at.t, at.starts, child)), QUIET)
  {
    assert HoldsSpawnLock(s.procs[p]);
  }

  lemma {:induction false} EveryRunKeepsInv(steps: seq<Step>)
    ensures Inv(Run(steps))
  {
    if steps != [] {
      EveryRunKeepsInv(steps[..|steps| - 1]);
      ApplyKeepsInv(Run(steps[..|steps| - 1]), steps[|steps| - 1]);
    }
  }

  // ---- what every run guarantees ----

  /**
   Whatever happened, crashes included: one process at most holds store handles, one at most
   listens, and a connect can only reach the holder of the data-dir lock, whose store is open.
   */
  lemma StoreHasOneHolder(steps: seq<Step>, p: Pid, q: Pid)
    requires p in Run(steps).procs && q in Run(steps).procs
    ensures var s := Run(steps);
            && (Handles(s.procs[p]) > 0 && Handles(s.procs[q]) > 0 ==> p == q)
            && (Listening(s.procs[p]) ==> s.lock == Some(p) && Handles(s.procs[p]) > 0)
            && (Listening(s.procs[p]) && Listening(s.procs[q]) ==> p == q)
            && (Reachable(s) ==> s.lock == s.file)
  {
    EveryRunKeepsInv(steps);
    var s := Run(steps);
    assert forall r :: r in s.procs && Handles(s.procs[r]) > 0 ==> Engine(s, r);
  }

  /**
   In a run where every lock was released only after the store let go, the data-dir lock alone
   decides who has the store, and no daemon ever dies on a store its predecessor still held.
   */
  lemma LettingGoFirstIsEnough(steps: seq<Step>, p: Pid)
    requires !Run(steps).late
    ensures !Run(steps).faced
    ensures Engine(Run(steps), p) ==> Run(steps).lock == Some(p)
  {
    EveryRunKeepsInv(steps);
    if Engine(Run(steps), p) {
      EngineIsTheLockHolders(Run(steps), p);
    }
  }

  /** A daemon about to open meets a held store exactly when a late leaver is still closing it. */
  lemma MeetsAHeldStoreExactlyAfterALateExit(steps: seq<Step>, p: Pid)
    requires p in Run(steps).procs && Run(steps).procs[p].Daemon? && Run(steps).procs[p].phase.Locked?
    ensures var s := Run(steps);
            Apply(s, OpenStore(p)).procs[p].phase.Failing? <==>
            exists q :: Engine(s, q) && s.procs[q].phase.Lingering?
  {
    EveryRunKeepsInv(steps);
    var s := Run(steps);
    OpeningFailsWhenHeld(s, p);
    forall q | Engine(s, q)
      ensures s.procs[q].phase.Lingering?
    {
      OpenEngineLingers(s, p, q);
    }
    if exists q :: Engine(s, q) && s.procs[q].phase.Lingering? {
      var q :| Engine(s, q) && s.procs[q].phase.Lingering?;
      assert q in s.procs && Engine(s, q);
    }
  }

  lemma OpeningFailsWhenHeld(s: State, p: Pid)
    requires p in s.procs && s.procs[p].Daemon? && s.procs[p].phase.Locked?
    ensures p in Apply(s, OpenStore(p)).procs && Apply(s, OpenStore(p)).procs[p].Daemon?
    ensures Apply(s, OpenStore(p)).procs[p].phase.Failing? <==> StoreHeld(s)
  {
  }

  /** While somebody has the lock and has not opened, an open engine is one left behind. */
  lemma OpenEngineLingers(s: State, p: Pid, q: Pid)
    requires Inv(s) && p in s.procs && s.procs[p].Daemon? && s.procs[p].phase.Locked? && Engine(s, q)
    ensures s.procs[q].phase.Lingering?
  {
    assert HoldsLock(s.procs[p]) && Sound(s.procs[p]) && Sound(s.procs[q]);
    assert !HoldsLock(s.procs[q]);
  }

  /** A daemon removes the socket path only while it holds the data-dir lock, and never another listener's. */
  lemma DaemonsUnlinkUnderTheLock(steps: seq<Step>, step: Step)
    requires step.p in Run(steps).procs && Run(steps).procs[step.p].Daemon? && Move(Run(steps), step).1.path.Unlink?
    ensures var s := Run(steps); s.lock == Some(step.p) == Apply(s, step).lock
    ensures var s := Run(steps); forall q :: q in s.procs && Listening(s.procs[q]) ==> q == step.p
  {
    EveryRunKeepsInv(steps);
    UnlinkNeedsTheLock(Run(steps).procs[step.p], step, Look(Run(steps), step.p));
    OnlyTheHolderListens(Run(steps), step.p);
  }

  /** Binding never meets a path that is there. */
  lemma BindTakesThePath(steps: seq<Step>, p: Pid, pending: bool)
    requires p in Run(steps).procs && Run(steps).procs[p].Daemon? && Run(steps).procs[p].phase.Cleared?
    ensures Apply(Run(steps), Bind(p, pending)).file == Some(p)
  {
    EveryRunKeepsInv(steps);
    var s := Run(steps);
    assert s.file.None?;
    assert Move(s, Bind(p, pending)).1 == QUIET.(path := BindPath);
  }

  lemma UnlinkNeedsTheLock(d: Proc, step: Step, seen: Seen)
    requires d.Daemon?
    ensures var (d', e) := DaemonMove(d, step, seen);
            e.path.Unlink? ==> HoldsLock(d) && d'.Daemon? && e.lock.KeepLock?
  {
  }

  /** Every removal since binding is counted, so a loop that broke has unlinked exactly once. */
  lemma BrokenLoopUnlinkedOnce(steps: seq<Step>, p: Pid)
    requires p in Run(steps).procs && Run(steps).procs[p].Daemon?
    ensures var d := Run(steps).procs[p];
            d.phase.Unlinked? || d.phase.Waiting? ==>
              d.loop.unlinks == 1 && Run(steps).lock == Some(p) && !Listening(d)
  {
    EveryRunKeepsInv(steps);
    assert HoldsLock(Run(steps).procs[p]) ==> Run(steps).lock == Some(p);
  }

  lemma UnlinksCountRemovals(d: Proc, step: Step, seen: Seen)
    requires d.Daemon? && Sound(d) && (d.phase.Serving? || d.phase.Closing?)
    ensures var (d', e) := DaemonMove(d, step, seen);
            !step.Crash? ==>
              d'.Daemon? && d'.loop.unlinks == d.loop.unlinks + (if e.path.Unlink? then 1 else 0)
  {
    if step.Turn? && d.phase.Serving? {
      NextKeepsTogether(d.build, d.loop, step.event);
    }
  }

  // ---- a burst of sessions produces one daemon ----

  predicate Awaits(proc: Proc, child: Pid) {
    proc.Session? && proc.at.AwaitingReady? && proc.at.child == child
  }

  /** Who may be listening while this session is where it is. */
  predicate MayListen(proc: Proc, listener: Pid) {
    proc.Session? ==>
      && !proc.at.ClearingStale? && !proc.at.AwaitingLock? && !proc.at.Probing? && !proc.at.Spawning?
      && (proc.at.AwaitingReady? ==> proc.at.child == listener)
  }

  /** The daemon was left starting, or missed while it listened. */
  predicate Exempt(s: State, p: Pid) {
    p in s.orphans || p in s.missed
  }

  ghost predicate StartsAreAwaited(s: State) {
    forall p :: p in s.procs && Starts(s.procs[p]) && p !in s.orphans ==>
      s.spawnLock.Some? && s.spawnLock.value in s.procs && Awaits(s.procs[s.spawnLock.value], p)
  }

  /** Nobody has reason to take `q` off its path, and nobody has. */
  ghost predicate OnPath(s: State, q: Pid)
    requires q in s.procs
  {
    Listening(s.procs[q]) && !Exempt(s, q) ==>
      s.file == Some(q) && forall c :: c in s.procs ==> MayListen(s.procs[c], q)
  }

  ghost predicate ListenersAreOnThePath(s: State) {
    forall q :: q in s.procs ==> OnPath(s, q)
  }

  ghost predicate OneAtATime(s: State) {
    StartsAreAwaited(s) && ListenersAreOnThePath(s)
  }

  predicate ClearingOrSpawning(at: SessionPhase) {
    at.ClearingStale? || at.AwaitingLock? || at.Probing? || at.Spawning?
  }

  /** What one move of a session may do to the order of starts. */
  predicate Orderly(at: SessionPhase, at': SessionPhase, e: Effect, seen: Seen) {
    && (e.spawn.Take? ==> seen.spawnFree)
    && (if e.path.Unlink? then at.ClearingStale? && e.cleared == Just(seen.listener) else e.path.KeepPath? && e.cleared == {})
    && (at.AwaitingReady? ==> (at' == at && e.spawn.KeepLock?) || !seen.childStarting || at.child in e.orphans)
    && (at'.AwaitingReady? ==> at' == at)
    && (ClearingOrSpawning(at') ==>
          ClearingOrSpawning(at) || (at.Guarded? && Just(seen.listener) <= e.missed) || (at.AwaitingReady? && seen.childDead))
  }

  lemma SessionMoveIsOrderly(at: SessionPhase, step: Step, seen: Seen)
    requires !(seen.childDead && seen.childStarting)
    ensures var (at', e) := SessionMove(at, step, seen); Orderly(at, at', e, seen)
  {
  }

  lemma OrderlyKeepsStartsAwaited(s: State, p: Pid, at': SessionPhase, e: Effect)
    requires Inv(s) && StartsAreAwaited(s)
    requires p in s.procs && s.procs[p].Session? && Orderly(s.procs[p].at, at', e, Look(s, p))
    ensures StartsAreAwaited(Commit(s, p, Session(at'), e))
  {
    var s' := Commit(s, p, Session(at'), e);
    assert forall q :: q in s'.procs && q != p ==> s'.procs[q] == s.procs[q];
  }

  lemma OrderlyKeepsListeners(s: State, p: Pid, at': SessionPhase, e: Effect)
    requires ListenersAreOnThePath(s)
    requires p in s.procs && s.procs[p].Session? && Orderly(s.procs[p].at, at', e, Look(s, p))
    ensures ListenersAreOnThePath(Commit(s, p, Session(at'), e))
  {
    var s' := Commit(s, p, Session(at'), e);
    forall q | q in s'.procs
      ensures OnPath(s', q)
    {
      if Listening(s'.procs[q]) && !Exempt(s', q) {
        assert OnPath(s, q) && MayListen(s.procs[p], q);
        assert Reachable(s);
        assert forall c :: c in s'.procs && c != p ==> s'.procs[c] == s.procs[c];
      }
    }
  }

  /** What one move of a daemon may do to the order of starts. */
  predicate Ordered(d: Proc, d': Proc, e: Effect) {
    && d'.Daemon? && e.spawn.KeepLock? && e.cleared == {}
    && (Starts(d') ==> Starts(d))
    && (Listening(d') && !e.path.BindPath? ==> Listening(d) && !e.path.Unlink?)
    && (e.path.BindPath? ==> Starts(d))
    && (!e.path.KeepPath? ==> HoldsLock(d))
  }

  lemma DaemonMoveIsOrdered(d: Proc, step: Step, seen: Seen)
    requires d.Daemon? && Sound(d)
    ensures Ordered(d, DaemonMove(d, step, seen).0, DaemonMove(d, step, seen).1)
  {
    if step.Turn? && d.phase.Serving? {
      NextKeepsTogether(d.build, d.loop, step.event);
    }
  }

  lemma OrderedKeepsStartsAwaited(s: State, p: Pid, d': Proc, e: Effect)
    requires StartsAreAwaited(s) && p in s.procs && s.procs[p].Daemon? && Ordered(s.procs[p], d', e)
    ensures StartsAreAwaited(Commit(s, p, d', e))
  {
    var s' := Commit(s, p, d', e);
    assert forall q :: q in s'.procs && q != p ==> s'.procs[q] == s.procs[q];
  }

  /** Nobody but the session that awaits a starting daemon stands in its way. */
  lemma AwaitedMayListen(s: State, p: Pid, c: Pid)
    requires Inv(s) && StartsAreAwaited(s) && p in s.procs && Starts(s.procs[p]) && p !in s.orphans && c in s.procs
    ensures MayListen(s.procs[c], p)
  {
    assert MayListen(s.procs[c], p) || HoldsSpawnLock(s.procs[c]);
  }

  lemma OrderedKeepsListener(s: State, p: Pid, d': Proc, e: Effect, q: Pid)
    requires Inv(s) && StartsAreAwaited(s) && q in s.procs && OnPath(s, q)
    requires p in s.procs && s.procs[p].Daemon? && Ordered(s.procs[p], d', e)
    requires e.path.KeepPath? || forall o :: o in s.procs && Listening(s.procs[o]) ==> o == p
    ensures OnPath(Commit(s, p, d', e), q)
  {
    var s' := Commit(s, p, d', e);
    if Listening(s'.procs[q]) && !Exempt(s', q) {
      forall c | c in s'.procs
        ensures MayListen(s'.procs[c], q)
      {
        if c != p && !Listening(s.procs[q]) {
          AwaitedMayListen(s, q, c);
        }
      }
    }
  }

  lemma OrderedKeepsListeners(s: State, p: Pid, d': Proc, e: Effect)
    requires Inv(s) && OneAtATime(s)
    requires p in s.procs && s.procs[p].Daemon? && Ordered(s.procs[p], d', e)
    ensures ListenersAreOnThePath(Commit(s, p, d', e))
  {
    if !e.path.KeepPath? {
      OnlyTheHolderListens(s, p);
    }
    forall q | q in s.procs
      ensures OnPath(Commit(s, p, d', e), q)
    {
      OrderedKeepsListener(s, p, d', e, q);
    }
  }

  lemma OnlyTheHolderListens(s: State, p: Pid)
    requires Inv(s) && p in s.procs && HoldsLock(s.procs[p])
    ensures forall q :: q in s.procs && Listening(s.procs[q]) ==> q == p
  {
    assert forall q :: q in s.procs && Listening(s.procs[q]) ==> HoldsLock(s.procs[q]);
  }

  /** A session about to spawn stands alone: nobody it knows of is starting or listening. */
  lemma NobodyBesideASpawner(s: State, p: Pid, q: Pid)
    requires Inv(s) && OneAtATime(s) && p in s.procs && s.procs[p].Session? && s.procs[p].at.Spawning? && q in s.procs
    ensures !(Starts(s.procs[q]) && q !in s.orphans) && !(Listening(s.procs[q]) && !Exempt(s, q))
  {
    assert HoldsSpawnLock(s.procs[p]) && OnPath(s, q);
    assert !MayListen(s.procs[p], q);
  }

  lemma SpawnKeepsOneAtATime(s: State, step: Step)
    requires Inv(s) && OneAtATime(s) && step.Spawn?
    ensures OneAtATime(Apply(s, step))
  {
    var s' := Apply(s, step);
    if s' != s {
      assert HoldsSpawnLock(s.procs[step.p]);
      forall q | q in s.procs
        ensures !(Starts(s.procs[q]) && q !in s.orphans) && !(Listening(s.procs[q]) && !Exempt(s, q))
      {
        NobodyBesideASpawner(s, step.p, q);
      }
      SpawnAmongNobody(s, step);
    }
  }

  lemma SpawnAmongNobody(s: State, step: Step)
    requires step.Spawn? && Apply(s, step) != s && s.spawnLock == Some(step.p)
    requires forall q :: q in s.procs ==> !(Starts(s.procs[q]) && q !in s.orphans) && !(Listening(s.procs[q]) && !Exempt(s, q))
    ensures OneAtATime(Apply(s, step))
  {
    var s' := Apply(s, step);
    assert forall q :: q in s'.procs && q != step.p && q != step.child ==> q in s.procs && s'.procs[q] == s.procs[q];
  }

  lemma SessionMoveKeepsOneAtATime(s: State, step: Step)
    requires Inv(s) && OneAtATime(s) && step.p in s.procs && s.procs[step.p].Session?
    ensures OneAtATime(Commit(s, step.p, Move(s, step).0, Move(s, step).1))
  {
    var (proc, e) := Move(s, step);
    SessionMoveIsOrderly(s.procs[step.p].at, step, Look(s, step.p));
    OrderlyKeepsStartsAwaited(s, step.p, proc.at, e);
    OrderlyKeepsListeners(s, step.p, proc.at, e);
  }

  lemma DaemonMoveKeepsOneAtATime(s: State, step: Step)
    requires Inv(s) && OneAtATime(s) && step.p in s.procs && s.procs[step.p].Daemon?
    ensures OneAtATime(Commit(s, step.p, Move(s, step).0, Move(s, step).1))
  {
    DaemonMoveIsOrdered(s.procs[step.p], step, Look(s, step.p));
    OrderedKeepsStartsAwaited(s, step.p, Move(s, step).0, Move(s, step).1);
    OrderedKeepsListeners(s, step.p, Move(s, step).0, Move(s, step).1);
  }

  /** A process that comes in, a session at its beginning or an orphan, disturbs nobody. */
  lemma NewcomerKeepsOneAtATime(s: State, p: Pid, proc: Proc, e: Effect)
    requires OneAtATime(s) && p !in s.procs && e.lock.KeepLock? && e.spawn.KeepLock? && e.path.KeepPath?
    requires if proc.Session? then proc.at.Connecting? else Starts(proc) && p in e.orphans
    ensures OneAtATime(Commit(s, p, proc, e))
  {
    var s' := Commit(s, p, proc, e);
    assert forall q :: q in s'.procs && q != p ==> q in s.procs && s'.procs[q] == s.procs[q];
    forall q | q in s'.procs
      ensures OnPath(s', q)
    {
      assert q != p ==> OnPath(s, q);
    }
  }

  lemma ArrivalKeepsOneAtATime(s: State, step: Step)
    requires OneAtATime(s) && (step.Arrive? || step.StartByHand?)
    ensures OneAtATime(Apply(s, step))
  {
    if step.p in s.procs {
      assert Apply(s, step) == s;
    } else if step.Arrive? {
      NewcomerKeepsOneAtATime(s, step.p, Session(Connecting(No)), QUIET);
    } else {
      NewcomerKeepsOneAtATime(s, step.p, Daemon(step.build, Starting, UNBOUND, false, false), QUIET.(orphans := {step.p}));
    }
  }

  lemma ApplyKeepsOneAtATime(s: State, step: Step)
    requires Inv(s) && OneAtATime(s)
    ensures OneAtATime(Apply(s, step))
  {
    if step.Spawn? {
      SpawnKeepsOneAtATime(s, step);
    } else if step.Arrive? || step.StartByHand? {
      ArrivalKeepsOneAtATime(s, step);
    } else if step.p in s.procs {
      assert Apply(s, step) == Commit(s, step.p, Move(s, step).0, Move(s, step).1);
      if s.procs[step.p].Session? {
        SessionMoveKeepsOneAtATime(s, step);
      } else {
        DaemonMoveKeepsOneAtATime(s, step);
      }
    } else {
      assert Apply(s, step) == s;
    }
  }

  lemma {:induction false} EveryRunKeepsOneAtATime(steps: seq<Step>)
    ensures OneAtATime(Run(steps))
  {
    if steps != [] {
      var before := steps[..|steps| - 1];
      EveryRunKeepsInv(before);
      EveryRunKeepsOneAtATime(before);
      ApplyKeepsOneAtATime(Run(before), steps[|steps| - 1]);
    }
  }

  /**
   However many sessions arrive at once, and whatever went wrong before: of the daemons neither left
   starting nor missed while they listened, at most one is starting or listening, and a session that
   clears the path never takes one off it.
   */
  lemma BurstProducesOneDaemon(steps: seq<Step>, p: Pid, q: Pid)
    requires p in Run(steps).procs && q in Run(steps).procs && !Exempt(Run(steps), q)
    ensures var s := Run(steps);
            && !Exempt(s, p) && (Starts(s.procs[p]) || Listening(s.procs[p]))
            && (Starts(s.procs[q]) || Listening(s.procs[q])) ==>
              p == q
    ensures var s := Run(steps);
            s.procs[p].Session? && s.procs[p].at.ClearingStale? ==> !Listening(s.procs[q])
  {
    EveryRunKeepsInv(steps);
    EveryRunKeepsOneAtATime(steps);
    assert OnPath(Run(steps), p) && OnPath(Run(steps), q);
  }

  // ---- who is off its path ----

  /** A daemon that listens is on its path exactly if no session removed it since; and none was before it bound. */
  predicate PathOf(s: State, p: Pid, proc: Proc) {
    && (Listening(proc) ==> (s.file == Some(p) <==> p !in s.cleared))
    && (p in s.cleared ==> proc.Daemon? && !Starts(proc))
  }

  ghost predicate PathsAreKnown(s: State) {
    && s.cleared <= s.procs.Keys
    && forall p :: p in s.procs ==> PathOf(s, p, s.procs[p])
  }

  lemma SessionKeepsPaths(s: State, p: Pid, at': SessionPhase, e: Effect)
    requires PathsAreKnown(s)
    requires p in s.procs && s.procs[p].Session? && Orderly(s.procs[p].at, at', e, Look(s, p))
    ensures PathsAreKnown(Commit(s, p, Session(at'), e))
  {
    var s' := Commit(s, p, Session(at'), e);
    forall q | q in s'.procs
      ensures PathOf(s', q, s'.procs[q])
    {
      assert PathOf(s, q, s.procs[q]);
    }
  }

  lemma DaemonKeepsPaths(s: State, p: Pid, d': Proc, e: Effect)
    requires Inv(s) && PathsAreKnown(s)
    requires p in s.procs && s.procs[p].Daemon? && Ordered(s.procs[p], d', e)
    ensures PathsAreKnown(Commit(s, p, d', e))
  {
    var s' := Commit(s, p, d', e);
    if !e.path.KeepPath? {
      OnlyTheHolderListens(s, p);
    }
    forall q | q in s'.procs
      ensures PathOf(s', q, s'.procs[q])
    {
      assert PathOf(s, q, s.procs[q]);
    }
  }

  lemma NewcomerKeepsPaths(s: State, p: Pid, proc: Proc, e: Effect)
    requires PathsAreKnown(s) && p !in s.procs && !Listening(proc) && e.path.KeepPath? && e.cleared == {}
    ensures PathsAreKnown(Commit(s, p, proc, e))
  {
    var s' := Commit(s, p, proc, e);
    forall q | q in s'.procs
      ensures PathOf(s', q, s'.procs[q])
    {
      assert q in s.procs ==> PathOf(s, q, s.procs[q]);
    }
  }

  lemma SpawnKeepsPaths(s: State, step: Step)
    requires PathsAreKnown(s) && step.Spawn?
    ensures PathsAreKnown(Apply(s, step))
  {
    var s' := Apply(s, step);
    if s' != s {
      NewcomerKeepsPaths(s, step.child, Daemon(step.build, Starting, UNBOUND, false, false), QUIET);
      var mid := Commit(s, step.child, Daemon(step.build, Starting, UNBOUND, false, false), QUIET);
      forall q | q in s'.procs
        ensures PathOf(s', q, s'.procs[q])
      {
        assert PathOf(mid, q, mid.procs[q]);
      }
    }
  }

  lemma ApplyKeepsPaths(s: State, step: Step)
    requires Inv(s) && PathsAreKnown(s)
    ensures PathsAreKnown(Apply(s, step))
  {
    if step.Spawn? {
      SpawnKeepsPaths(s, step);
    } else if step.Arrive? || step.StartByHand? {
      if step.p !in s.procs {
        var s' := Apply(s, step);
        NewcomerKeepsPaths(s, step.p, s'.procs[step.p], if step.Arrive? then QUIET else QUIET.(orphans := {step.p}));
      }
    } else if step.p in s.procs {
      var (proc, e) := Move(s, step);
      if s.procs[step.p].Session? {
        SessionMoveIsOrderly(s.procs[step.p].at, step, Look(s, step.p));
        SessionKeepsPaths(s, step.p, proc.at, e);
      } else {
        DaemonMoveIsOrdered(s.procs[step.p], step, Look(s, step.p));
        DaemonKeepsPaths(s, step.p, proc, e);
      }
    }
  }

  lemma {:induction false} EveryRunKnowsThePaths(steps: seq<Step>)
    ensures PathsAreKnown(Run(steps))
  {
    if steps != [] {
      EveryRunKnowsThePaths(steps[..|steps| - 1]);
      EveryRunKeepsInv(steps[..|steps| - 1]);
      ApplyKeepsPaths(Run(steps[..|steps| - 1]), steps[|steps| - 1]);
    }
  }

  /**
   A daemon listens off its path if and only if a session cleared the path while it listened; and that
   happens only to one left starting, started by hand, or missed by a connect.
   */
  lemma OffItsPathExactlyWhenCleared(steps: seq<Step>, p: Pid)
    requires p in Run(steps).procs && Listening(Run(steps).procs[p])
    ensures Run(steps).file != Some(p) <==> p in Run(steps).cleared
    ensures p in Run(steps).cleared ==> Exempt(Run(steps), p)
  {
    EveryRunKnowsThePaths(steps);
    EveryRunKeepsOneAtATime(steps);
    assert OnPath(Run(steps), p);
    assert PathOf(Run(steps), p, Run(steps).procs[p]);
  }

  // ---- the hypotheses are needed: two runs the code allows ----

  lemma RunSnoc(steps: seq<Step>, step: Step)
    ensures Run(steps + [step]) == Apply(Run(steps), step)
  {
    assert (steps + [step])[..|steps|] == steps;
  }

  /** One more move of a daemon, with its effect spelled out. */
  lemma Does(steps: seq<Step>, step: Step, d: Proc, e: Effect) returns (more: seq<Step>)
    requires !step.Arrive? && !step.StartByHand? && !step.Spawn?
    requires step.p in Run(steps).procs && Run(steps).procs[step.p].Daemon?
    requires DaemonMove(Run(steps).procs[step.p], step, Look(Run(steps), step.p)) == (d, e)
    ensures Run(more) == Commit(Run(steps), step.p, d, e)
  {
    RunSnoc(steps, step);
    more := steps + [step];
  }

  lemma StaysUnheld(s: State, p: Pid, proc: Proc, e: Effect)
    requires !StoreHeld(s) && (proc.Daemon? ==> !proc.engine)
    ensures !StoreHeld(Commit(s, p, proc, e))
  {
    assert forall q :: Engine(Commit(s, p, proc, e), q) ==> Engine(s, q);
  }

  /** A daemon nobody is in the way of gets the lock, */
  lemma GetsTheLock(steps: seq<Step>, p: Pid, build: Handshake) returns (up: seq<Step>)
    requires var s := Run(steps); s.lock.None? && p !in s.procs && !StoreHeld(s)
    ensures Run(up) == Run(steps).(lock := Some(p), orphans := Run(steps).orphans + {p},
                                   procs := Run(steps).procs[p := Daemon(build, Locked, UNBOUND, false, false)])
    ensures !StoreHeld(Run(up))
  {
    var d, s := Daemon(build, Starting, UNBOUND, false, false), Run(steps);
    RunSnoc(steps, StartByHand(p, build));
    up := Does(steps + [StartByHand(p, build)], Acquire(p), d.(phase := Locked), QUIET.(lock := Take));
    Overrides(s.procs, p, d, d.(phase := Locked));
    StaysUnheld(s, p, d.(phase := Locked), QUIET.(lock := Take, orphans := {p}));
  }

  /** ... and the store. */
  lemma GetsTheStore(steps: seq<Step>, p: Pid, build: Handshake) returns (up: seq<Step>)
    requires var s := Run(steps); s.lock.None? && p !in s.procs && !StoreHeld(s)
    ensures Run(up) == Run(steps).(lock := Some(p), orphans := Run(steps).orphans + {p},
                                   procs := Run(steps).procs[p := Daemon(build, Opened, UNBOUND, false, true)])
  {
    var d := Daemon(build, Locked, UNBOUND, false, false);
    var locked := GetsTheLock(steps, p, build);
    up := Does(locked, OpenStore(p), d.(phase := Opened, engine := true), QUIET);
    Overrides(Run(steps).procs, p, d, d.(phase := Opened, engine := true));
  }

  lemma Overrides(procs: map<Pid, Proc>, p: Pid, first: Proc, last: Proc)
    ensures procs[p := first][p := last] == procs[p := last]
  {
  }

  /** ... and from there to its accept loop. */
  lemma Binds(up: seq<Step>, p: Pid, pending: bool) returns (bound: seq<Step>)
    requires p in Run(up).procs && Run(up).procs[p].Daemon? && Run(up).procs[p].phase.Opened?
    ensures var d := Run(up).procs[p].(phase := Serving, loop := BOUND, drain := pending);
            Run(bound) == Run(up).(file := Some(p), procs := Run(up).procs[p := d])
  {
    var d := Run(up).procs[p];
    var cleared, serving := d.(phase := Cleared), d.(phase := Serving, loop := BOUND, drain := pending);
    var up1 := Does(up, RemovePath(p), cleared, QUIET.(path := Unlink));
    bound := Does(up1, Bind(p, pending), serving, QUIET.(path := BindPath));
    Overrides(Run(up).procs, p, cleared, serving);
  }

  /** An idle daemon leaves its loop and its socket; */
  lemma GoesIdle(up: seq<Step>, p: Pid) returns (out: seq<Step>)
    requires p in Run(up).procs && Run(up).lock == Some(p)
    requires var d := Run(up).procs[p]; d.Daemon? && d.phase.Serving? && d.loop == BOUND && d.engine
    ensures var s' := Run(out);
            && s'.lock == Some(p) && s'.procs.Keys == Run(up).procs.Keys
            && s'.procs[p].Daemon? && s'.procs[p].phase.Unlinked? && s'.procs[p].engine
  {
    var d := Run(up).procs[p];
    var broke := BOUND.(exit := Some(Broke));
    var up1 := Does(up, Turn(p, Idle), d.(phase := Closing, loop := broke), QUIET);
    out := Does(up1, CloseSessions(p), d.(phase := Unlinked, loop := Close(broke)), QUIET.(path := Unlink));
  }

  /** ... and with its re-embed still running, leaves its engine open behind it. */
  lemma IdlesOut(up: seq<Step>, p: Pid) returns (out: seq<Step>)
    requires p in Run(up).procs && Run(up).lock == Some(p)
    requires var d := Run(up).procs[p]; d.Daemon? && d.phase.Serving? && d.loop == BOUND && d.engine
    ensures var s' := Run(out);
            && s'.late && s'.lock.None? && s'.procs.Keys == Run(up).procs.Keys
            && s'.procs[p].Daemon? && s'.procs[p].phase.Lingering? && s'.procs[p].engine
  {
    var up1 := GoesIdle(up, p);
    var d := Run(up1).procs[p];
    var up2 := Does(up1, DropHandle(p), d.(phase := Waiting), QUIET);
    out := Does(up2, Exit(p), d.(phase := Lingering), QUIET.(lock := Release, late := true));
  }

  /**
   A daemon that goes idle while its background re-embed still holds a handle runs out the deadline
   and releases its lock late; the next daemon dies on the store.
   */
  lemma ReembedOutlivingTheDeadlineIsFaced(build: Handshake) returns (steps: seq<Step>)
    ensures Run(steps).late && Run(steps).faced
  {
    var up := GetsTheStore([], 0, build);
    var bound := Binds(up, 0, true);
    var out := IdlesOut(bound, 0);
    RunSnoc(out, StartByHand(1, build));
    var d := Daemon(build, Starting, UNBOUND, false, false);
    var next := Does(out + [StartByHand(1, build)], Acquire(1), d.(phase := Locked), QUIET.(lock := Take));
    assert Engine(Run(next), 0);
    steps := Does(next, OpenStore(1), d.(phase := Failing), QUIET.(faced := true));
  }

  /**
   A daemon started outside the spawn lock can bind between a session's failed connect and its
   clearing of the "stale" path, and is then listening on a path that is gone.
   */
  lemma OrphanCanLoseItsPath(build: Handshake) returns (steps: seq<Step>)
    ensures 1 in Run(steps).orphans && 1 in Run(steps).procs
    ensures Listening(Run(steps).procs[1]) && !Reachable(Run(steps))
  {
    RunSnoc([], Arrive(0));
    var a1 := [] + [Arrive(0)];
    RunSnoc(a1, Connect(0, true));
    var a2 := a1 + [Connect(0, true)];
    RunSnoc(a2, TakeSpawnLock(0));
    var a3 := a2 + [TakeSpawnLock(0)];
    RunSnoc(a3, ConnectAgain(0, true));
    var a4 := a3 + [ConnectAgain(0, true)];
    var up := GetsTheStore(a4, 1, build);
    var bound := Binds(up, 1, false);
    RunSnoc(bound, ClearStale(0));
    steps := bound + [ClearStale(0)];
  }
}
