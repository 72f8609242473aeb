/**
 What a session's `attach` comes to (crates/agmem-server/src/daemon/client.rs), in every run of the
 protocol: when it is attached, how often it starts a daemon, and when it gives up; and that it gets
 there when nobody is in the way.
 */
module Attaching {
  import opened Common
  import opened Handshake
  import ServeLoop
  import opened DaemonProtocol

  // ---- what a session has done so far ----

  /** The step is a session's own, and starts a daemon. */
  predicate StartsOne(s: State, step: Step, p: Pid) {
    step.Spawn? && step.p == p && p in s.procs && s.procs[p].Session? && s.procs[p].at.Spawning? && step.child !in s.procs
  }

  /** The step reads a refusal from a daemon that is retiring. */
  predicate IsTurnedAway(s: State, step: Step, p: Pid) {
    && step.AckRead? && step.p == p && !step.ok && step.retiring
    && p in s.procs && s.procs[p].Session? && s.procs[p].at.AwaitingAck?
  }

  /** What the next step makes of the two counts. */
  function Away(s: State, step: Step, p: Pid, away: nat): nat {
    if IsTurnedAway(s, step, p) then away + 1 else away
  }

  function Since(s: State, step: Step, p: Pid, started: nat): nat {
    if IsTurnedAway(s, step, p) then 0 else if StartsOne(s, step, p) then started + 1 else started
  }

  function TurnedAway(steps: seq<Step>, p: Pid): nat {
    if steps == [] then 0
    else Away(Run(steps[..|steps| - 1]), steps[|steps| - 1], p, TurnedAway(steps[..|steps| - 1], p))
  }

  /** The daemons a session has started since it was last turned away. */
  function Started(steps: seq<Step>, p: Pid): nat {
    if steps == [] then 0
    else Since(Run(steps[..|steps| - 1]), steps[|steps| - 1], p, Started(steps[..|steps| - 1], p))
  }

  /** How often it may be turned away, and how many daemons it may have started since. */
  predicate Accounts(at: SessionPhase, away: nat, started: nat) {
    match at
    case Connecting(t) => away == Times(t) && started == 0
    case Queueing(t) => away == Times(t) && started == 0
    case Guarded(t) => away == Times(t) && started == 0
    case ClearingStale(t) => away == Times(t) && started == 0
    case AwaitingLock(t, starts) => away == Times(t) && starts >= 1 && started + starts == 1 + away
    case Probing(t, starts) => away == Times(t) && starts >= 1 && started + starts == 1 + away
    case Spawning(t, starts) => away == Times(t) && starts >= 1 && started + starts == 1 + away
    case AwaitingReady(t, starts, _) => away == Times(t) && starts >= 1 && started >= 1 && started + starts == 2 + away
    case AwaitingAck(t) => away == Times(t) && started <= 1 + away
    case Attached => away <= 1 && started <= 1 + away
    case Gone => away <= 2 && started <= 2 && started <= 1 + away
  }

  function Times(t: Takeover): nat {
    if t.No? then 0 else 1
  }

  predicate AccountsFor(s: State, p: Pid, away: nat, started: nat) {
    if p in s.procs && s.procs[p].Session? then Accounts(s.procs[p].at, away, started) else away == 0 && started == 0
  }

  lemma MoveAccounts(at: SessionPhase, step: Step, seen: Seen, away: nat, started: nat)
    requires Accounts(at, away, started) && !step.Spawn?
    ensures var turned := step.AckRead? && !step.ok && step.retiring && at.AwaitingAck?;
            Accounts(SessionMove(at, step, seen).0, if turned then away + 1 else away, if turned then 0 else started)
  {
  }

  lemma OwnMoveAccounts(s: State, step: Step, p: Pid, away: nat, started: nat)
    requires AccountsFor(s, p, away, started) && step.p == p && p in s.procs && s.procs[p].Session?
    requires !step.Spawn? && !step.Arrive? && !step.StartByHand?
    ensures AccountsFor(Apply(s, step), p, Away(s, step, p, away), Since(s, step, p, started))
  {
    MoveAccounts(s.procs[p].at, step, Look(s, p), away, started);
  }

  lemma OtherMoveAccounts(s: State, step: Step, p: Pid, away: nat, started: nat)
    requires AccountsFor(s, p, away, started) && (step.p != p || p !in s.procs || s.procs[p].Daemon?)
    ensures AccountsFor(Apply(s, step), p, away, started)
  {
    var s' := Apply(s, step);
    assert p in s.procs && s.procs[p].Session? ==> p in s'.procs && s'.procs[p] == s.procs[p];
  }

  lemma ApplyAccounts(s: State, step: Step, p: Pid, away: nat, started: nat)
    requires AccountsFor(s, p, away, started)
    ensures AccountsFor(Apply(s, step), p, Away(s, step, p, away), Since(s, step, p, started))
  {
    if step.p != p || p !in s.procs || s.procs[p].Daemon? {
      OtherMoveAccounts(s, step, p, away, started);
    } else if !step.Spawn? && !step.Arrive? && !step.StartByHand? {
      OwnMoveAccounts(s, step, p, away, started);
    }
  }

  lemma {:induction false} EveryRunAccounts(steps: seq<Step>, p: Pid)
    ensures AccountsFor(Run(steps), p, TurnedAway(steps, p), Started(steps, p))
  {
    if steps != [] {
      var before := steps[..|steps| - 1];
      EveryRunAccounts(before, p);
      ApplyAccounts(Run(before), steps[|steps| - 1], p, TurnedAway(before, p), Started(before, p));
    }
  }

  lemma AccountsAreSmall(s: State, p: Pid, away: nat, started: nat)
    requires AccountsFor(s, p, away, started)
    ensures away <= 2 && started <= 2 && started <= 1 + away
  {
  }

  /**
   In every run, whatever the others do, a session is turned away twice at most; it starts one daemon
   at most before it has been, and two at most after.
   */
  lemma StartsAreBounded(steps: seq<Step>, p: Pid)
    ensures var away, started := TurnedAway(steps, p), Started(steps, p);
            away <= 2 && started <= 2 && started <= 1 + away
  {
    EveryRunAccounts(steps, p);
    AccountsAreSmall(Run(steps), p, TurnedAway(steps, p), Started(steps, p));
  }

  /** The answer decides: `ok` attaches; a first retirement is waited out; anything else ends the attempt. */
  lemma AnswerDecides(steps: seq<Step>, p: Pid, ok: bool, retiring: bool)
    requires p in Run(steps).procs && Run(steps).procs[p].Session? && Run(steps).procs[p].at.AwaitingAck?
    ensures var s' := Run(steps + [AckRead(p, ok, retiring)]);
            && s' == Run(steps).(procs := s'.procs) && s'.procs == Run(steps).procs[p := s'.procs[p]]
            && s'.procs[p] == Session(if ok then Attached
                                      else if retiring && TurnedAway(steps, p) == 0 then Connecting(FromRetired) else Gone)
  {
    EveryRunAccounts(steps, p);
    RunSnoc(steps, AckRead(p, ok, retiring));
  }

  lemma PollAfterDeath(at: SessionPhase, p: Pid, ok: bool, seen: Seen, away: nat, started: nat)
    requires at.AwaitingReady? && Accounts(at, away, started) && seen.listener.None? && seen.childDead
    ensures var at' := SessionMove(at, PollReady(p, ok), seen).0;
            && (at'.Gone? <==> started == 1 + away)
            && (at'.AwaitingLock? <==> away == 1 && started == 1)
  {
  }

  /** A daemon that died before it listened is started again only by a session that was turned away, and only once. */
  lemma DeathDecides(steps: seq<Step>, p: Pid, ok: bool)
    requires var s := Run(steps); p in s.procs && s.procs[p].Session? && s.procs[p].at.AwaitingReady? && !Reachable(s)
    requires var s := Run(steps); var child := s.procs[p].at.child;
             child in s.procs && s.procs[child].Daemon? && s.procs[child].phase.Dead?
    ensures var proc := Run(steps + [PollReady(p, ok)]).procs[p];
            && proc.Session?
            && (proc.at.Gone? <==> Started(steps, p) == 1 + TurnedAway(steps, p))
            && (proc.at.AwaitingLock? <==> TurnedAway(steps, p) == 1 && Started(steps, p) == 1)
  {
    var s := Run(steps);
    EveryRunAccounts(steps, p);
    PollAfterDeath(s.procs[p].at, p, ok, Look(s, p), TurnedAway(steps, p), Started(steps, p));
    RunSnoc(steps, PollReady(p, ok));
  }

  lemma MoveAttaches(at: SessionPhase, step: Step, seen: Seen)
    requires SessionMove(at, step, seen).0.Attached? && !at.Attached?
    ensures step.AckRead? && step.ok
  {
  }

  lemma BecomesAttached(s: State, step: Step, p: Pid)
    requires p in Apply(s, step).procs && Apply(s, step).procs[p] == Session(Attached)
    requires p in s.procs ==> s.procs[p] != Session(Attached)
    ensures step.AckRead? && step.p == p && step.ok
  {
    if step.Spawn? || step.Arrive? || step.StartByHand? {
      BeginningsDoNotAttach(s, step, p);
    } else if step.p != p || p !in s.procs {
      MovesTouchTheirOwn(s, step, p);
    } else if s.procs[p].Daemon? {
      DaemonsDoNotAttach(s, step);
    } else {
      MoveAttaches(s.procs[p].at, step, Look(s, p));
    }
  }

  lemma DaemonStaysOne(d: Proc, step: Step, seen: Seen)
    requires d.Daemon?
    ensures DaemonMove(d, step, seen).0.Daemon?
  {
  }

  /** A step that begins a process leaves nobody attached who was not. */
  lemma BeginningsDoNotAttach(s: State, step: Step, p: Pid)
    requires step.Spawn? || step.Arrive? || step.StartByHand?
    requires p in s.procs ==> s.procs[p] != Session(Attached)
    ensures p in Apply(s, step).procs ==> Apply(s, step).procs[p] != Session(Attached)
  {
  }

  lemma MovesTouchTheirOwn(s: State, step: Step, p: Pid)
    requires !step.Spawn? && !step.Arrive? && !step.StartByHand? && (step.p != p || p !in s.procs)
    ensures p in Apply(s, step).procs ==> p in s.procs && Apply(s, step).procs[p] == s.procs[p]
  {
    if step.p in s.procs {
      var (proc, effect) := Move(s, step);
      assert Apply(s, step) == Commit(s, step.p, proc, effect);
    }
  }

  lemma DaemonsDoNotAttach(s: State, step: Step)
    requires !step.Spawn? && !step.Arrive? && !step.StartByHand? && step.p in s.procs && s.procs[step.p].Daemon?
    ensures Apply(s, step).procs[step.p].Daemon?
  {
    DaemonStaysOne(s.procs[step.p], step, Look(s, step.p));
  }

  /** A session is attached only because a daemon said so. */
  lemma {:induction false} AttachedMeansAccepted(steps: seq<Step>, p: Pid) returns (i: nat)
    requires p in Run(steps).procs && Run(steps).procs[p] == Session(Attached)
    ensures i < |steps| && steps[i].AckRead? && steps[i].p == p && steps[i].ok
  {
    var before, last := steps[..|steps| - 1], steps[|steps| - 1];
    if p in Run(before).procs && Run(before).procs[p] == Session(Attached) {
      i := AttachedMeansAccepted(before, p);
    } else {
      i := |steps| - 1;
      BecomesAttached(Run(before), last, p);
    }
  }

  // ---- nobody in the way ----

  /** One more move of a session, with its effect spelled out. */
  lemma Acts(steps: seq<Step>, step: Step, at: SessionPhase, e: Effect) returns (more: seq<Step>)
    requires !step.Arrive? && !step.StartByHand? && !step.Spawn?
    requires step.p in Run(steps).procs && Run(steps).procs[step.p].Session?
    requires SessionMove(Run(steps).procs[step.p].at, step, Look(Run(steps), step.p)) == (at, e)
    ensures Run(more) == Commit(Run(steps), step.p, Session(at), e)
  {
    RunSnoc(steps, step);
    more := steps + [step];
  }

  /** A daemon that listens is used: nothing is started, locked or unlinked. */
  lemma RunningDaemonIsUsed(steps: seq<Step>, p: Pid) returns (more: seq<Step>)
    requires p !in Run(steps).procs && Reachable(Run(steps))
    ensures Run(more) == Run(steps).(procs := Run(steps).procs[p := Session(Attached)])
  {
    var s := Run(steps);
    RunSnoc(steps, Arrive(p));
    var one := Acts(steps + [Arrive(p)], Connect(p, true), AwaitingAck(No), QUIET);
    Overrides(s.procs, p, Session(Connecting(No)), Session(AwaitingAck(No)));
    more := Acts(one, AckRead(p, true, false), Attached, QUIET);
    Overrides(s.procs, p, Session(AwaitingAck(No)), Session(Attached));
  }

  lemma GuardedHoldsTheSpawnLock(steps: seq<Step>, p: Pid)
    requires p in Run(steps).procs && Run(steps).procs[p].Session? && Run(steps).procs[p].at.Guarded?
    ensures Run(steps).spawnLock == Some(p)
  {
    EveryRunKeepsInv(steps);
    assert HoldsSpawnLock(Run(steps).procs[p]);
  }

  /** One that came up while the session queued is used as well: a burst of sessions starts one daemon. */
  lemma QueuedSessionUsesIt(steps: seq<Step>, p: Pid, t: Takeover) returns (more: seq<Step>)
    requires var s := Run(steps); p in s.procs && s.procs[p] == Session(Guarded(t)) && Reachable(s)
    ensures Run(more) == Run(steps).(spawnLock := None, procs := Run(steps).procs[p := Session(Attached)])
  {
    var s := Run(steps);
    GuardedHoldsTheSpawnLock(steps, p);
    var one := Acts(steps, ConnectAgain(p, true), AwaitingAck(t), QUIET.(spawn := Release));
    more := Acts(one, AckRead(p, true, false), Attached, QUIET);
    Overrides(s.procs, p, Session(AwaitingAck(t)), Session(Attached));
  }

  /** A daemon that finds the data-dir lock held is gone at once, and has touched nothing. */
  lemma LoserDies(steps: seq<Step>, p: Pid)
    requires var s := Run(steps); p in s.procs && s.procs[p].Daemon? && s.procs[p].phase.Starting? && s.lock.Some?
    ensures var s := Run(steps);
            Run(steps + [Acquire(p)]) == s.(procs := s.procs[p := s.procs[p].(phase := Dead)])
  {
    RunSnoc(steps, Acquire(p));
  }

  /** Everything but `p` is as in `s`, and `p` is a session at `at`. */
  predicate With(s: State, p: Pid, at: SessionPhase, s': State) {
    s' == s.(procs := s.procs[p := Session(at)])
  }

  lemma StaysUnreachable(s: State, p: Pid, at: SessionPhase)
    requires !Reachable(s)
    ensures !Reachable(s.(procs := s.procs[p := Session(at)]))
  {
  }

  /** With nobody listening a session gets to the start section, */
  lemma GetsTheSpawnLock(steps: seq<Step>, p: Pid) returns (more: seq<Step>)
    requires p !in Run(steps).procs && Run(steps).spawnLock.None? && !Reachable(Run(steps))
    ensures With(Run(steps).(spawnLock := Some(p)), p, Guarded(No), Run(more))
  {
    var s := Run(steps);
    RunSnoc(steps, Arrive(p));
    StaysUnreachable(s, p, Connecting(No));
    var one := Acts(steps + [Arrive(p)], Connect(p, true), Queueing(No), QUIET);
    Overrides(s.procs, p, Session(Connecting(No)), Session(Queueing(No)));
    more := Acts(one, TakeSpawnLock(p), Guarded(No), QUIET.(spawn := Take));
    Overrides(s.procs, p, Session(Queueing(No)), Session(Guarded(No)));
  }

  /** ... clears a path nobody answers, */
  lemma ClearsThePath(steps: seq<Step>, p: Pid) returns (more: seq<Step>)
    requires var s := Run(steps); p in s.procs && s.procs[p] == Session(Guarded(No)) && !Reachable(s)
    ensures With(Run(steps).(file := None), p, AwaitingLock(No, 1), Run(more))
  {
    var s := Run(steps);
    var one := Acts(steps, ConnectAgain(p, true), ClearingStale(No), QUIET);
    StaysUnreachable(s, p, ClearingStale(No));
    more := Acts(one, ClearStale(p), AwaitingLock(No, 1), QUIET.(path := Unlink));
    Overrides(s.procs, p, Session(ClearingStale(No)), Session(AwaitingLock(No, 1)));
  }

  /** ... finds the data-dir lock free, */
  lemma FindsTheLockFree(steps: seq<Step>, p: Pid) returns (more: seq<Step>)
    requires var s := Run(steps); p in s.procs && s.procs[p] == Session(AwaitingLock(No, 1)) && s.lock.None?
    ensures With(Run(steps), p, Spawning(No, 1), Run(more))
  {
    var s := Run(steps);
    var one := Acts(steps, ProbeLock(p), Probing(No, 1), QUIET.(lock := Take));
    more := Acts(one, ProbeDone(p), Spawning(No, 1), QUIET.(lock := Release));
    Overrides(s.procs, p, Session(Probing(No, 1)), Session(Spawning(No, 1)));
  }

  lemma ReachesSpawning(steps: seq<Step>, p: Pid) returns (more: seq<Step>)
    requires p !in Run(steps).procs
    requires var s := Run(steps); s.lock.None? && s.spawnLock.None? && !Reachable(s)
    ensures With(Run(steps).(spawnLock := Some(p), file := None), p, Spawning(No, 1), Run(more))
  {
    var s := Run(steps);
    var guarded := GetsTheSpawnLock(steps, p);
    StaysUnreachable(s, p, Guarded(No));
    var clear := ClearsThePath(guarded, p);
    Overrides(s.procs, p, Session(Guarded(No)), Session(AwaitingLock(No, 1)));
    more := FindsTheLockFree(clear, p);
    Overrides(s.procs, p, Session(AwaitingLock(No, 1)), Session(Spawning(No, 1)));
  }

  /** ... and starts a daemon, which gets the lock and the store, */
  lemma ChildGetsTheStore(steps: seq<Step>, p: Pid, child: Pid, build: Handshake) returns (more: seq<Step>)
    requires var s := Run(steps); p in s.procs && s.procs[p] == Session(Spawning(No, 1)) && s.lock.None? && !StoreHeld(s)
    requires child !in Run(steps).procs
    ensures var s := Run(steps);
            Run(more) == s.(lock := Some(child),
                            procs := s.procs[p := Session(AwaitingReady(No, 1, child))][child := Daemon(build, Opened, UNBOUND, false, true)])
  {
    var s := Run(steps);
    var d := Daemon(build, Starting, UNBOUND, false, false);
    var waiting := Session(AwaitingReady(No, 1, child));
    RunSnoc(steps, Spawn(p, child, build));
    var one := steps + [Spawn(p, child, build)];
    var procs := s.procs[p := waiting];
    assert s.procs[child := d][p := waiting] == procs[child := d];
    var two := Does(one, Acquire(child), d.(phase := Locked), QUIET.(lock := Take));
    Overrides(procs, child, d, d.(phase := Locked));
    var locked := s.(lock := Some(child), procs := procs[child := d.(phase := Locked)]);
    assert !StoreHeld(locked) by {
      assert forall q :: Engine(locked, q) ==> Engine(s, q);
    }
    more := Does(two, OpenStore(child), d.(phase := Opened, engine := true), QUIET);
    Overrides(procs, child, d.(phase := Locked), d.(phase := Opened, engine := true));
  }

  /** ... and is attached to it once it listens. */
  lemma AttachesToItsChild(steps: seq<Step>, p: Pid, child: Pid) returns (more: seq<Step>)
    requires var s := Run(steps); p in s.procs && s.procs[p] == Session(AwaitingReady(No, 1, child)) && s.spawnLock == Some(p)
    requires var s := Run(steps); s.file == Some(child) && Reachable(s)
    ensures With(Run(steps).(spawnLock := None), p, Attached, Run(more))
  {
    var s := Run(steps);
    var one := Acts(steps, PollReady(p, true), AwaitingAck(No), QUIET.(spawn := Release));
    more := Acts(one, AckRead(p, true, false), Attached, QUIET);
    Overrides(s.procs, p, Session(AwaitingAck(No)), Session(Attached));
  }

  /**
   Where nobody listens and nobody holds a lock or the store, whatever the path still names, a session
   can start a daemon and be attached to it; the daemon is then on the path, and the spawn lock free.
   */
  lemma ColdStartAttaches(steps: seq<Step>, p: Pid, child: Pid, build: Handshake, pending: bool) returns (more: seq<Step>)
    requires p != child && p !in Run(steps).procs && child !in Run(steps).procs
    requires var s := Run(steps); s.lock.None? && s.spawnLock.None? && !StoreHeld(s) && !Reachable(s)
    ensures var s, s' := Run(steps), Run(more);
            && p in s'.procs && s'.procs[p] == Session(Attached)
            && child in s'.procs && s'.procs[child] == Daemon(build, Serving, ServeLoop.BOUND, pending, true)
            && s'.lock == Some(child) && s'.file == Some(child) && s'.spawnLock.None?
            && (forall q | q in s.procs :: q in s'.procs && s'.procs[q] == s.procs[q])
            && s'.late == s.late && s'.faced == s.faced && s'.orphans == s.orphans
            && s'.missed == s.missed && s'.cleared == s.cleared
  {
    var s := Run(steps);
    var spawning := ReachesSpawning(steps, p);
    assert !StoreHeld(Run(spawning)) by {
      assert forall q :: Engine(Run(spawning), q) ==> Engine(s, q);
    }
    var up := ChildGetsTheStore(spawning, p, child, build);
    var bound := Binds(up, child, pending);
    more := AttachesToItsChild(bound, p, child);
  }

  /** A daemon with nobody attached and no re-embed under way can go and leave nothing held: socket, store or lock. */
  lemma IdleDaemonLetsGo(steps: seq<Step>, p: Pid) returns (more: seq<Step>)
    requires p in Run(steps).procs && Run(steps).lock == Some(p)
    requires var d := Run(steps).procs[p]; d.Daemon? && d.phase.Serving? && d.loop == ServeLoop.BOUND && !d.drain
    ensures var s, s' := Run(steps), Run(more);
            && s'.lock.None? && s'.file.None? && s'.late == s.late && s'.spawnLock == s.spawnLock
            && p in s'.procs && s'.procs[p].Daemon? && s'.procs[p].phase.Dead? && !s'.procs[p].engine
            && s'.procs == s.procs[p := s'.procs[p]]
  {
    var d := Run(steps).procs[p];
    var broke := ServeLoop.BOUND.(exit := Some(ServeLoop.Broke));
    var closed := d.(phase := Unlinked, loop := ServeLoop.Close(broke));
    var one := Does(steps, Turn(p, ServeLoop.Idle), d.(phase := Closing, loop := broke), QUIET);
    var two := Does(one, CloseSessions(p), closed, QUIET.(path := Unlink));
    Overrides(Run(steps).procs, p, d.(phase := Closing, loop := broke), closed);
    more := LetsGo(two, p);
    Overrides(Run(steps).procs, p, closed, Run(more).procs[p]);
  }

  lemma LetsGo(steps: seq<Step>, p: Pid) returns (more: seq<Step>)
    requires p in Run(steps).procs && Run(steps).lock == Some(p)
    requires var d := Run(steps).procs[p]; d.Daemon? && d.phase.Unlinked? && d.loop.tasks == map[] && !d.drain
    ensures var s := Run(steps);
            Run(more) == s.(lock := None, procs := s.procs[p := s.procs[p].(phase := Dead, engine := false)])
  {
    var d, procs := Run(steps).procs[p], Run(steps).procs;
    var shut := ClosesTheStore(steps, p);
    var e := d.(phase := Waiting, engine := false);
    more := Does(shut, Exit(p), e.(phase := Dead), QUIET.(lock := Release));
    Overrides(procs, p, e, e.(phase := Dead));
  }

  lemma ClosesTheStore(steps: seq<Step>, p: Pid) returns (more: seq<Step>)
    requires p in Run(steps).procs
    requires var d := Run(steps).procs[p]; d.Daemon? && d.phase.Unlinked? && d.loop.tasks == map[] && !d.drain
    ensures var s := Run(steps);
            Run(more) == s.(procs := s.procs[p := s.procs[p].(phase := Waiting, engine := false)])
  {
    var d, procs := Run(steps).procs[p], Run(steps).procs;
    var waiting, shut := d.(phase := Waiting), d.(phase := Waiting, engine := false);
    var one := Does(steps, DropHandle(p), waiting, QUIET);
    NothingHeldCloses(waiting, p, Look(Run(one), p));
    more := Does(one, EngineCloses(p), shut, QUIET);
    Overrides(procs, p, waiting, shut);
  }

  lemma NothingHeldCloses(d: Proc, p: Pid, seen: Seen)
    requires d.Daemon? && d.phase.Waiting? && d.loop.tasks == map[] && !d.drain
    ensures DaemonMove(d, EngineCloses(p), seen) == (d.(engine := false), QUIET)
  {
    assert Handles(d) == 0;
  }
}
