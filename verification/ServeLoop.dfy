/**
 The accept loop of a daemon that has bound its socket
 (crates/agmem-server/src/daemon/serve.rs).

 One event is one `select!` branch completing, or one step of a session task.  The tasks run on
 threads of their own: a task reads the retiring flag, decides, and only then awaits the write of
 its answer, and turns of the loop fit between any two of its steps.  The environment picks the
 events; an event whose guard is false is one that could not happen, and changes nothing.
 */
module ServeLoop {
  import opened Common
  import opened Handshake

  type Conn = nat

  datatype SessionEnd = Detached | Retiring

  /** A session task: asking, writing the answer it decided on, served, or over and not yet joined. */
  datatype Task = Asking | Decided(verdict: Verdict) | Pumping | Ended(end: SessionEnd)

  datatype Exit = Broke | Errored

  datatype Loop = Loop(
    listener: bool,         // still accepting
    drainUntil: bool,       // the drain deadline has been set
    retiring: bool,         // the flag every handshake in flight reads
    tasks: map<Conn, Task>,
    unlinks: nat,           // how often this daemon removed its socket since it bound it
    exit: Option<Exit>)

  datatype Event =
    | Connected(conn: Conn)
    | AcceptFails
    /** The task read its line (None: nothing, or not a handshake), then the flag, and decided. */
    | Answer(conn: Conn, asked: Option<Handshake>)
    /** The write of the ack returned. */
    | Written(conn: Conn, ok: bool)
    /** The session ended, however: client gone, store error, panic. */
    | Finish(conn: Conn)
    | Join(conn: Conn)
    | DrainOver
    | Idle

  const BOUND: Loop := Loop(true, false, false, map[], 0, None)

  /** What a task answers: the flag is read before the handshake is compared. */
  function Decide(daemon: Handshake, l: Loop, asked: Handshake): Verdict {
    if l.retiring then Refused(true, AlreadyRetiring) else Accept(daemon, asked)
  }

  function AfterAnswer(daemon: Handshake, l: Loop, asked: Option<Handshake>): Task {
    if asked.None? then Ended(Detached) else Decided(Decide(daemon, l, asked.value))
  }

  function AfterWrite(verdict: Verdict, ok: bool): Task {
    if !ok then Ended(Detached)
    else match verdict
         case Accepted => Pumping
         case Refused(retire, _) => Ended(if retire then Retiring else Detached)
  }

  /** The steps of the session tasks; the others are the loop's. */
  predicate OfATask(e: Event) {
    e.Answer? || e.Written? || e.Finish?
  }

  /** One task's step; it goes on while the loop waits, and after the loop has left. */
  function TaskStep(daemon: Handshake, l: Loop, e: Event): Loop
    requires OfATask(e)
  {
    if e.conn !in l.tasks then l
    else
      var task := l.tasks[e.conn];
      match e
      case Answer(c, asked) =>
        if task.Asking? then l.(tasks := l.tasks[c := AfterAnswer(daemon, l, asked)]) else l
      case Written(c, ok) =>
        if task.Decided? then l.(tasks := l.tasks[c := AfterWrite(task.verdict, ok)]) else l
      case Finish(c) =>
        if !task.Ended? then l.(tasks := l.tasks[c := Ended(Detached)]) else l
  }

  /** A task was joined; `l` no longer holds it. */
  function AfterJoin(l: Loop, end: SessionEnd): Loop {
    if end.Retiring? && !l.drainUntil then
      l.(retiring := true, listener := false, unlinks := l.unlinks + 1, drainUntil := true,
         exit := if l.tasks == map[] then Some(Broke) else None)
    else if l.drainUntil && l.tasks == map[] then l.(exit := Some(Broke))
    else l
  }

  function Next(daemon: Handshake, l: Loop, e: Event): Loop {
    if OfATask(e) then TaskStep(daemon, l, e)
    else if l.exit.Some? then l
    else match e
      case Connected(c) => if l.listener && c !in l.tasks then l.(tasks := l.tasks[c := Asking]) else l
      case AcceptFails => if l.listener then l.(exit := Some(Errored)) else l
      case Join(c) =>
        if c in l.tasks && l.tasks[c].Ended? then AfterJoin(l.(tasks := l.tasks - {c}), l.tasks[c].end) else l
      case DrainOver => if l.drainUntil then l.(exit := Some(Broke)) else l
      case Idle => if !l.drainUntil && l.tasks == map[] then l.(exit := Some(Broke)) else l
  }

  /** After the loop: abort and join every session, drop the listener, unlink unless retired. */
  function Close(l: Loop): Loop {
    l.(tasks := map[], listener := false, unlinks := if l.drainUntil then l.unlinks else l.unlinks + 1)
  }

  /** An error instead: the locals go, sessions and listener with them, and the socket path stays. */
  function Dropped(l: Loop): Loop {
    l.(tasks := map[], listener := false)
  }

  function Run(daemon: Handshake, events: seq<Event>): Loop {
    if events == [] then BOUND
    else Next(daemon, Run(daemon, events[..|events| - 1]), events[|events| - 1])
  }

  /** Retiring, listener closed and drain deadline set are one fact, and so is the first unlink. */
  predicate Together(l: Loop) {
    && l.retiring == l.drainUntil == !l.listener
    && l.unlinks == (if l.retiring then 1 else 0)
  }

  lemma NextKeepsTogether(daemon: Handshake, l: Loop, e: Event)
    requires Together(l)
    ensures Together(Next(daemon, l, e))
    ensures l.retiring ==> Next(daemon, l, e).retiring && Next(daemon, l, e).tasks.Keys <= l.tasks.Keys
  {
  }

  lemma {:induction false} RunKeepsTogether(daemon: Handshake, events: seq<Event>)
    ensures Together(Run(daemon, events))
  {
    if events != [] {
      RunKeepsTogether(daemon, events[..|events| - 1]);
    }
  }

  /**
   In every run, from the turn that sets the flag on: the listener stays closed, the deadline stays
   set, no task joins the set, and no handshake is accepted.
   */
  lemma {:induction false} RetirementIsForever(daemon: Handshake, events: seq<Event>, turn: nat, asked: Handshake)
    requires turn <= |events|
    requires Run(daemon, events[..turn]).retiring
    ensures var l := Run(daemon, events);
            && l.retiring && !l.listener && l.drainUntil && l.unlinks == 1
            && l.tasks.Keys <= Run(daemon, events[..turn]).tasks.Keys
            && Decide(daemon, l, asked) == Refused(true, AlreadyRetiring)
    decreases |events|
  {
    RunKeepsTogether(daemon, events);
    if turn == |events| {
      assert events[..turn] == events;
    } else {
      var before := events[..|events| - 1];
      assert before[..turn] == events[..turn];
      RetirementIsForever(daemon, before, turn, asked);
      RunKeepsTogether(daemon, before);
    }
  }

  /** A task that is served, or whose acceptance is on its way out. */
  predicate AsGoodAsAttached(tasks: map<Conn, Task>, c: Conn) {
    c in tasks && (tasks[c].Pumping? || tasks[c] == Decided(Accepted))
  }

  /** With the flag set, a task as good as attached was so before its last step. */
  lemma NoNewAcceptance(daemon: Handshake, l: Loop, e: Event, c: Conn)
    requires l.retiring && Together(l) && AsGoodAsAttached(Next(daemon, l, e).tasks, c)
    ensures AsGoodAsAttached(l.tasks, c)
  {
  }

  /** Whoever is served after the flag was set was served, or had been decided on, when it was. */
  lemma {:induction false} NobodyIsAcceptedByARetiringDaemon(daemon: Handshake, events: seq<Event>, turn: nat, c: Conn)
    requires turn <= |events| && Run(daemon, events[..turn]).retiring
    requires AsGoodAsAttached(Run(daemon, events).tasks, c)
    ensures AsGoodAsAttached(Run(daemon, events[..turn]).tasks, c)
    decreases |events|
  {
    if turn == |events| {
      assert events[..turn] == events;
    } else {
      var before := events[..|events| - 1];
      assert before[..turn] == events[..turn];
      RetirementIsForever(daemon, before, turn, daemon);
      RunKeepsTogether(daemon, before);
      NoNewAcceptance(daemon, Run(daemon, before), events[|events| - 1], c);
      NobodyIsAcceptedByARetiringDaemon(daemon, before, turn, c);
    }
  }

  lemma RunSnoc(daemon: Handshake, events: seq<Event>, e: Event)
    ensures Run(daemon, events + [e]) == Next(daemon, Run(daemon, events), e)
  {
    assert (events + [e])[..|events|] == events;
  }

  /** The run goes on from `events` to a state in which `c` is served. */
  ghost predicate CanBeServed(daemon: Handshake, events: seq<Event>, c: Conn) {
    exists more :: events <= more && ServedAfter(daemon, more, c)
  }

  predicate ServedAfter(daemon: Handshake, events: seq<Event>, c: Conn) {
    var tasks := Run(daemon, events).tasks;
    c in tasks && tasks[c].Pumping?
  }

  /**
   From a run that has set the flag, a task can yet be served if and only if it is served already or
   its acceptance was decided and is still being written.
   */
  lemma CanBeServedExactly(daemon: Handshake, events: seq<Event>, c: Conn)
    requires Run(daemon, events).retiring
    ensures CanBeServed(daemon, events, c) <==> AsGoodAsAttached(Run(daemon, events).tasks, c)
  {
    if CanBeServed(daemon, events, c) {
      var more :| events <= more && ServedAfter(daemon, more, c);
      assert more[..|events|] == events;
      NobodyIsAcceptedByARetiringDaemon(daemon, more, |events|, c);
    }
    if AsGoodAsAttached(Run(daemon, events).tasks, c) {
      if Run(daemon, events).tasks[c].Pumping? {
        assert events <= events && ServedAfter(daemon, events, c);
      } else {
        RunSnoc(daemon, events, Written(c, true));
        assert events <= events + [Written(c, true)] && ServedAfter(daemon, events + [Written(c, true)], c);
      }
    }
  }

  /** Two sessions are decided on in turn, one of this build and one of another. */
  lemma TwoAreDecided(daemon: Handshake, other: Handshake) returns (events: seq<Event>)
    ensures Run(daemon, events)
         == BOUND.(tasks := map[0 := Decided(Accept(daemon, daemon)), 1 := Decided(Accept(daemon, other))])
  {
    var e1 := [Connected(0)];
    assert e1[..0] == [] && Run(daemon, e1) == BOUND.(tasks := map[0 := Asking]);
    RunSnoc(daemon, e1, Connected(1));
    var e2 := e1 + [Connected(1)];
    RunSnoc(daemon, e2, Answer(0, Some(daemon)));
    var e3 := e2 + [Answer(0, Some(daemon))];
    RunSnoc(daemon, e3, Answer(1, Some(other)));
    events := e3 + [Answer(1, Some(other))];
  }

  /**
   And it happens: whatever the builds, a session decided on before the loop learns of a newer one is
   answered `ok`, and served, by a daemon that is already retiring.
   */
  lemma AcceptanceCanOutliveTheFlag(daemon: Handshake, newer: Handshake) returns (events: seq<Event>, turn: nat)
    requires daemon.release.Readable? && RetiresFor(daemon, newer)
    ensures turn < |events| && Run(daemon, events[..turn]).retiring
    ensures !ServedAfter(daemon, events[..turn], 0) && ServedAfter(daemon, events, 0)
  {
    AcceptedExactlyWhenAllAgree(daemon, daemon);
    var decided := TwoAreDecided(daemon, newer);
    RunSnoc(daemon, decided, Written(1, true));
    var answered := decided + [Written(1, true)];
    RunSnoc(daemon, answered, Join(1));
    var retired := answered + [Join(1)];
    RunSnoc(daemon, retired, Written(0, true));
    events, turn := retired + [Written(0, true)], |retired|;
    assert events[..turn] == retired;
  }

  // ---- why a daemon retires, and whom it serves ----

  /** Some session asked with a handshake the daemon steps aside for. */
  predicate AskedToRetire(daemon: Handshake, events: seq<Event>) {
    exists i :: 0 <= i < |events| && events[i].Answer? && events[i].asked.Some? && RetiresFor(daemon, events[i].asked.value)
  }

  /** The flag is set, or some task will set it when it is joined. */
  predicate OnItsWay(l: Loop) {
    l.retiring || exists c :: c in l.tasks && Retires(l.tasks[c])
  }

  predicate Retires(task: Task) {
    task == Ended(Retiring) || (task.Decided? && task.verdict.Refused? && task.verdict.retire)
  }

  lemma NothingElseRetires(daemon: Handshake, l: Loop, e: Event)
    requires OnItsWay(Next(daemon, l, e)) && !OnItsWay(l)
    ensures e.Answer? && e.asked.Some? && RetiresFor(daemon, e.asked.value)
  {
    var l' := Next(daemon, l, e);
    if !l'.retiring {
      var c :| c in l'.tasks && Retires(l'.tasks[c]);
      assert c in l.tasks ==> !Retires(l.tasks[c]);
    }
  }

  /**
   In every run, a daemon retires only because some session asked with a handshake it steps aside for:
   among readable builds, a newer one.
   */
  lemma {:induction false} RetiresOnlyWhenAsked(daemon: Handshake, events: seq<Event>)
    requires OnItsWay(Run(daemon, events))
    ensures AskedToRetire(daemon, events)
  {
    var before, last := events[..|events| - 1], events[|events| - 1];
    if OnItsWay(Run(daemon, before)) {
      RetiresOnlyWhenAsked(daemon, before);
      var i :| 0 <= i < |before| && before[i].Answer? && before[i].asked.Some? && RetiresFor(daemon, before[i].asked.value);
      assert events[i] == before[i];
    } else {
      NothingElseRetires(daemon, Run(daemon, before), last);
      assert events[|events| - 1].Answer?;
    }
  }

  lemma RetiredForANewerBuild(daemon: Handshake, events: seq<Event>) returns (i: nat)
    requires Run(daemon, events).retiring
    ensures i < |events| && events[i].Answer? && events[i].asked.Some?
    ensures var asked := events[i].asked.value;
            daemon.release.Unreadable? || asked.release.Unreadable? || CompareBuild(daemon, asked).Less?
  {
    RetiresOnlyWhenAsked(daemon, events);
    i :| 0 <= i < |events| && events[i].Answer? && events[i].asked.Some? && RetiresFor(daemon, events[i].asked.value);
    if daemon.release.Readable? && events[i].asked.value.release.Readable? {
      RetiresExactlyForNewerBuild(daemon, events[i].asked.value);
    }
  }

  /** And it does, once the session that asked has its answer and is joined; a session it accepts is served. */
  lemma AnsweredSessionDecides(daemon: Handshake, events: seq<Event>, c: Conn, asked: Handshake)
    requires var l := Run(daemon, events);
             l.exit.None? && !l.retiring && c in l.tasks && l.tasks[c].Asking?
    ensures var answered := events + [Answer(c, Some(asked))] + [Written(c, true)];
            && (ServedAfter(daemon, answered, c) <==> asked == daemon && daemon.release.Readable?)
            && (Run(daemon, answered + [Join(c)]).retiring <==> RetiresFor(daemon, asked))
  {
    AcceptedExactlyWhenAllAgree(daemon, asked);
    RunKeepsTogether(daemon, events);
    var one := events + [Answer(c, Some(asked))];
    RunSnoc(daemon, events, Answer(c, Some(asked)));
    RunSnoc(daemon, one, Written(c, true));
    RunSnoc(daemon, one + [Written(c, true)], Join(c));
  }

  /** Why the loop leaves: an accept failed; nobody is attached; or the drain of a retiring daemon is over. */
  predicate LeavesFor(l: Loop, events: seq<Event>) {
    match l.exit
    case None => !(l.retiring && l.tasks == map[])
    case Some(Errored) => AcceptFails in events
    case Some(Broke) => l.tasks == map[] || (l.retiring && DrainOver in events)
  }

  lemma NextLeavesFor(daemon: Handshake, l: Loop, events: seq<Event>, e: Event)
    requires Together(l) && LeavesFor(l, events)
    ensures LeavesFor(Next(daemon, l, e), events + [e])
  {
    assert forall x :: x in events ==> x in events + [e];
    assert e in events + [e];
  }

  /** In every run the loop leaves for one of those reasons, and a retiring daemon with nobody left has left. */
  lemma {:induction false} LoopLeavesOnlyFor(daemon: Handshake, events: seq<Event>)
    ensures LeavesFor(Run(daemon, events), events)
  {
    if events != [] {
      var before := events[..|events| - 1];
      LoopLeavesOnlyFor(daemon, before);
      RunKeepsTogether(daemon, before);
      NextLeavesFor(daemon, Run(daemon, before), before, events[|events| - 1]);
      assert before + [events[|events| - 1]] == events;
    }
  }

  /**
   The loop itself, on the locals the source keeps.  However it was fed, it ends in the state the
   specification gives: closed after a `break`, with the socket unlinked exactly once, and dropped
   after an error.
   */
  method Serve(daemon: Handshake, events: seq<Event>) returns (end: Loop)
    ensures end.exit == Run(daemon, events).exit
    ensures end.exit.None? ==> end == Run(daemon, events)
    ensures end.exit == Some(Errored) ==> end == Dropped(Run(daemon, events))
    ensures end.exit == Some(Broke) ==>
              end == Close(Run(daemon, events)) && end.unlinks == 1 && !end.listener && end.tasks == map[]
  {
    var listener, drainUntil, retiring := true, false, false;
    var sessions: map<Conn, Task> := map[];
    var unlinks, exit := 0, None;
    var i := 0;
    while i < |events| && exit.None?
      invariant i <= |events|
      invariant Run(daemon, events[..i]) == Loop(listener, drainUntil, retiring, sessions, unlinks, exit)
    {
      assert events[..i + 1][..i] == events[..i];
      match events[i] {
        case Connected(c) =>
          if listener && c !in sessions {
            sessions := sessions[c := Asking];
          }
        case AcceptFails =>
          if listener {
            exit := Some(Errored);
          }
        case Answer(c, asked) =>
          if c in sessions && sessions[c].Asking? {
            var now := Loop(listener, drainUntil, retiring, sessions, unlinks, exit);
            sessions := sessions[c := AfterAnswer(daemon, now, asked)];
          }
        case Written(c, ok) =>
          if c in sessions && sessions[c].Decided? {
            sessions := sessions[c := AfterWrite(sessions[c].verdict, ok)];
          }
        case Finish(c) =>
          if c in sessions && !sessions[c].Ended? {
            sessions := sessions[c := Ended(Detached)];
          }
        case Join(c) =>
          if c in sessions && sessions[c].Ended? {
            var end := sessions[c].end;
            sessions := sessions - {c};
            if end.Retiring? && !drainUntil {
              retiring := true;
              listener := false;
              unlinks := unlinks + 1;
              drainUntil := true;
              if sessions == map[] {
                exit := Some(Broke);
              }
            } else if drainUntil {
              if sessions == map[] {
                exit := Some(Broke);
              }
            }
          }
        case DrainOver =>
          if drainUntil {
            exit := Some(Broke);
          }
        case Idle =>
          if !drainUntil && sessions == map[] {
            exit := Some(Broke);
          }
      }
      i := i + 1;
    }
    ExitIsFinal(daemon, events, i);
    RunKeepsTogether(daemon, events);
    if exit == Some(Broke) {
      sessions := map[];
      listener := false;
      if !drainUntil {
        unlinks := unlinks + 1;
      }
    } else if exit == Some(Errored) {
      sessions := map[];
      listener := false;
    }
    end := Loop(listener, drainUntil, retiring, sessions, unlinks, exit);
  }

  /** Once the loop has left, only its session tasks move, and none is added. */
  lemma {:induction false} ExitIsFinal(daemon: Handshake, events: seq<Event>, i: nat)
    requires i <= |events|
    requires i == |events| || Run(daemon, events[..i]).exit.Some?
    ensures var left, now := Run(daemon, events[..i]), Run(daemon, events);
            now == left.(tasks := now.tasks) && now.tasks.Keys == left.tasks.Keys && (i == |events| ==> now == left)
    decreases |events|
  {
    if i == |events| {
      assert events[..i] == events;
    } else {
      var before := events[..|events| - 1];
      assert before[..i] == events[..i];
      ExitIsFinal(daemon, before, i);
    }
  }
}
