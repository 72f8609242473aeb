/**
 Moving a store between vector spaces (crates/agmem-server/src/startup.rs), over any history of
 lock-serialised opens, session writes, drain batches, and crashes between any two statements.
 */
module Migration {
  import opened Common
  import opened VectorStore

  datatype Phase =
    | Closed
    | Opening(e: Embedder, todo: Todo)
    | Serving(e: Embedder)

  datatype World = World(db: Db, phase: Phase, interrupted: bool)

  datatype Event =
    | Open(e: Embedder, door: Door)
    | Statement                 // the next statement of the open
    | Serve(stmt: Stmt)         // a session's or the drain's, while serving
    | Leave                     // exit or crash, wherever the process is

  function Apply(w: World, event: Event): World {
    match event
    case Open(e, door) =>
      if w.phase.Closed? then w.(phase := Opening(e, Plan(w.db, e, door))) else w
    case Statement =>
      if !w.phase.Opening? then w
      else if Finished(w.phase.todo) then w.(phase := Serving(w.phase.e))
      else
        var next := Exec(w.db, Head(w.phase.todo, w.phase.e.space.dim));
        if next.None? then w.(phase := Closed, interrupted := true)
        else w.(db := next.value, phase := w.phase.(todo := Tail(w.phase.todo)))
    case Serve(stmt) =>
      if w.phase.Serving? && FromServing(w.phase.e, stmt) && Exec(w.db, stmt).Some?
      then w.(db := Exec(w.db, stmt).value) else w
    case Leave =>
      w.(phase := Closed,
         interrupted := w.interrupted || (w.phase.Opening? && !Finished(w.phase.todo)))
  }

  function Run(start: Db, history: seq<Event>): World {
    if history == [] then World(start, Closed, false)
    else Apply(Run(start, history[..|history| - 1]), history[|history| - 1])
  }

  predicate Inv(w: World) {
    && OneSpace(w.db)
    && (w.phase.Opening? ==> Midway(w.db, w.phase.e, w.phase.todo))
    && (w.phase.Serving? && w.phase.e.space.dim > 0 ==> Settled(w.db, w.phase.e))
  }

  lemma ApplyKeepsInv(w: World, event: Event)
    requires Inv(w)
    ensures Inv(Apply(w, event))
  {
    match event {
      case Open(e, door) =>
        PlanStartsMidway(w.db, e, door);
      case Statement =>
        if w.phase.Opening? && !Finished(w.phase.todo) {
          PlanStep(w.db, w.phase.e, w.phase.todo);
        }
      case Serve(stmt) =>
        if w.phase.Serving? && FromServing(w.phase.e, stmt) {
          ServingKeepsOneSpace(w.db, w.phase.e, stmt);
        }
      case Leave =>
    }
  }

  lemma {:induction false} EveryHistoryKeepsInv(start: Db, history: seq<Event>)
    requires OneSpace(start)
    ensures Inv(Run(start, history))
  {
    if history != [] {
      EveryHistoryKeepsInv(start, history[..|history| - 1]);
      ApplyKeepsInv(Run(start, history[..|history| - 1]), history[|history| - 1]);
    }
  }

  /**
   Wherever a history stops, every vector was made in the recorded space, so no two vectors are of
   different spaces; and no statement of an open is ever rejected.
   */
  lemma TwoSpacesNeverCoexist(history: seq<Event>, a: Id, b: Id)
    ensures var w := Run(FRESH, history);
            && OneSpace(w.db)
            && (a in w.db.rows && b in w.db.rows && w.db.rows[a].vector.Some? && w.db.rows[b].vector.Some?
                ==> w.db.rows[a].vector.value.space == w.db.rows[b].vector.value.space)
            && (w.phase.Opening? && !Finished(w.phase.todo)
                ==> Exec(w.db, Head(w.phase.todo, w.phase.e.space.dim)).Some?)
  {
    EveryHistoryKeepsInv(FRESH, history);
    var w := Run(FRESH, history);
    if w.phase.Opening? && !Finished(w.phase.todo) {
      PlanStep(w.db, w.phase.e, w.phase.todo);
    }
  }

  // ---- index width against recorded width ----

  predicate BothWidths(db: Db, dim: nat) {
    db.memoryWidth == dim && db.chunkWidth == dim
  }

  lemma {:induction false} FinishSettles(db: Db, e: Embedder, todo: Todo)
    requires OneSpace(db) && Midway(db, e, todo) && e.space.dim > 0
    ensures var end := Finish(db, e.space.dim, todo);
            && end.Some? && OneSpace(end.value) && Settled(end.value, e)
            && end.value.rows.Keys == db.rows.Keys
            && (todo.reset == 0 ==> end.value.memoryWidth == db.memoryWidth && end.value.chunkWidth == db.chunkWidth)
            && (todo.reset == 1 ==> end.value.memoryWidth == db.memoryWidth && end.value.chunkWidth == e.space.dim)
            && (todo.reset >= 2 ==> BothWidths(end.value, e.space.dim))
    decreases todo.reset, if todo.last.None? then 0 else 1
  {
    if !Finished(todo) {
      PlanStep(db, e, todo);
      FinishSettles(Exec(db, Head(todo, e.space.dim)).value, e, Tail(todo));
    }
  }

  /**
   A completed open always leaves the store recorded in the configured space; the indexes have that
   width exactly when the open reset the vectors or found them at that width already.
   */
  lemma OpenAlignsExactlyWhenItResets(db: Db, e: Embedder, door: Door)
    requires OneSpace(db) && e.space.dim > 0
    ensures var end := Finish(db, e.space.dim, Plan(db, e, door));
            && end.Some? && Settled(end.value, e)
            && (BothWidths(end.value, e.space.dim) <==> Resets(db, e, door) || BothWidths(db, e.space.dim))
  {
    PlanStartsMidway(db, e, door);
    FinishSettles(db, e, Plan(db, e, door));
  }

  /** What is left of an open touches no text, and the vectors of exactly the tables it has yet to clear. */
  lemma {:induction false} FinishTouches(db: Db, e: Embedder, todo: Todo, id: Id)
    requires OneSpace(db) && Midway(db, e, todo) && id in db.rows
    ensures var end := Finish(db, e.space.dim, todo);
            && end.Some? && SameTexts(db.rows, end.value.rows)
            && end.value.rows[id].vector ==
               if todo.reset >= (if db.rows[id].table.Memory? then 4 else 3) then None else db.rows[id].vector
    decreases todo.reset, if todo.last.None? then 0 else 1
  {
    if !Finished(todo) {
      var stmt := Head(todo, e.space.dim);
      PlanStep(db, e, todo);
      OpeningTouches(db, stmt, id);
      FinishTouches(Exec(db, stmt).value, e, Tail(todo), id);
    }
  }

  /**
   An open keeps every row with its table and text.  Its vector goes exactly when the store records
   another model or width, or two named revisions differ, or nothing is recorded and the indexes are
   to be rebuilt.
   */
  lemma OpenKeepsEveryText(db: Db, e: Embedder, door: Door, id: Id)
    requires OneSpace(db) && id in db.rows
    ensures var end := Finish(db, e.space.dim, Plan(db, e, door)); var moves :=
              match db.meta
              case Some(was) => was.space != e.space || (was.revision.Some? && e.revision.Some? && was.revision != e.revision)
              case None => door.Reindex? || e.space.dim != 384;
            && end.Some? && SameTexts(db.rows, end.value.rows)
            && end.value.rows[id].vector == if e.space.dim > 0 && moves then None else db.rows[id].vector
  {
    PlanStartsMidway(db, e, door);
    FinishTouches(db, e, Plan(db, e, door), id);
  }

  lemma {:induction false} ResetRecords(db: Db, e: Embedder, todo: Todo)
    requires OneSpace(db) && Midway(db, e, todo) && todo.last.Some?
    ensures var end := Finish(db, e.space.dim, todo);
            && end.Some?
            && end.value.meta == match todo.last.value
                                 case Backfill(_) => Exec(db, todo.last.value).value.meta
                                 case _ => Some(Recorded(e.space, e.revision))
    decreases todo.reset
  {
    PlanStep(db, e, todo);
    if todo.reset > 0 {
      ResetRecords(Exec(db, Head(todo, e.space.dim)).value, e, Tail(todo));
    }
  }

  /**
   What a completed open records: its own space; its own revision if it moved the store or found it
   unrecorded; otherwise the revision recorded before, where a startup fills in a missing one.
   */
  lemma OpenRecords(db: Db, e: Embedder, door: Door)
    requires OneSpace(db) && e.space.dim > 0
    ensures var end := Finish(db, e.space.dim, Plan(db, e, door)); var kept :=
              db.meta.Some? && db.meta.value.space == e.space
              && (db.meta.value.revision.Some? && (e.revision.None? || e.revision == db.meta.value.revision));
            && end.Some? && end.value.meta.Some? && end.value.meta.value.space == e.space
            && end.value.meta.value.revision ==
               if kept then db.meta.value.revision
               else if door.Reindex? && db.meta == Some(Recorded(e.space, None)) then None
               else e.revision
  {
    PlanStartsMidway(db, e, door);
    if !Finished(Plan(db, e, door)) {
      ResetRecords(db, e, Plan(db, e, door));
    }
  }

  /** And so does every step of a history but the statements of the sessions and the drain: no crash loses a text. */
  lemma OnlyServingTouchesTexts(start: Db, history: seq<Event>, event: Event)
    requires OneSpace(start) && !event.Serve?
    ensures SameTexts(Run(start, history).db.rows, Run(start, history + [event]).db.rows)
  {
    RunSnoc(start, history, event);
    EveryHistoryKeepsInv(start, history);
    var w := Run(start, history);
    if event.Statement? && w.phase.Opening? && !Finished(w.phase.todo) {
      PlanStep(w.db, w.phase.e, w.phase.todo);
      forall id | id in w.db.rows
        ensures SameTexts(w.db.rows, Run(start, history + [event]).db.rows)
      {
        OpeningTouches(w.db, Head(w.phase.todo, w.phase.e.space.dim), id);
      }
    }
  }

  /** Off its recorded width, a table takes no vector at all: every write of one is rejected. */
  lemma MisalignedTableRejectsEveryVector(db: Db, e: Embedder, id: Id, row: Row, batch: map<Id, Vector>)
    requires e.space.dim > 0 && Width(db, row.table) != e.space.dim
    requires row.vector.Some? && FromServing(e, Put(id, row)) && FromServing(e, Attach(batch))
    requires id in batch && id in db.rows && db.rows[id].table == row.table
    ensures Exec(db, Put(id, row)).None? && Exec(db, Attach(batch)).None?
  {
    assert id in batch && id in db.rows && batch[id].space.dim != Width(db, db.rows[id].table);
  }

  /** With no open interrupted, the indexes always carry the recorded width once the open is over. */
  predicate Aligned(db: Db) {
    BothWidths(db, if db.meta.Some? then db.meta.value.space.dim else EMBEDDING_DIM)
  }

  predicate AlignedOrMoving(w: World) {
    match w.phase
    case Opening(e, todo) =>
      if todo.last.Some? && (todo.last.value.Record? || todo.last.value.RecordIfAbsent?) then
        && (todo.reset <= 1 ==> w.db.memoryWidth == e.space.dim)
        && (todo.reset == 0 ==> w.db.chunkWidth == e.space.dim)
      else Aligned(w.db)
    case _ => Aligned(w.db)
  }

  lemma ApplyKeepsAligned(w: World, event: Event)
    requires Inv(w) && AlignedOrMoving(w) && !Apply(w, event).interrupted
    ensures AlignedOrMoving(Apply(w, event))
  {
    if event.Statement? && w.phase.Opening? && !Finished(w.phase.todo) {
      PlanStep(w.db, w.phase.e, w.phase.todo);
    }
  }

  lemma {:induction false} UninterruptedHistoriesStayAligned(history: seq<Event>)
    requires !Run(FRESH, history).interrupted
    ensures AlignedOrMoving(Run(FRESH, history))
  {
    if history != [] {
      UninterruptedHistoriesStayAligned(history[..|history| - 1]);
      EveryHistoryKeepsInv(FRESH, history[..|history| - 1]);
      ApplyKeepsAligned(Run(FRESH, history[..|history| - 1]), history[|history| - 1]);
    }
  }

  lemma RunSnoc(start: Db, history: seq<Event>, event: Event)
    ensures Run(start, history + [event]) == Apply(Run(start, history), event)
  {
    assert (history + [event])[..|history|] == history;
  }

  /** One more statement of an open that is resetting. */
  lemma StepReset(start: Db, history: seq<Event>)
    requires OneSpace(start)
    requires var w := Run(start, history); w.phase.Opening? && w.phase.todo.reset > 0
    ensures var w := Run(start, history); var next := Exec(w.db, Head(w.phase.todo, w.phase.e.space.dim));
            && next.Some?
            && Run(start, history + [Statement]) == w.(db := next.value, phase := w.phase.(todo := Tail(w.phase.todo)))
  {
    EveryHistoryKeepsInv(start, history);
    var w := Run(start, history);
    PlanStep(w.db, w.phase.e, w.phase.todo);
    RunSnoc(start, history, Statement);
  }

  /**
   The hypothesis is needed.  From any store settled and aligned under `a`: a crash after `b`'s reset
   and before `b` is recorded, then a reopen under `a`, serves with indexes of the other width.
   */
  lemma CrashBeforeRecordMisaligns(start: Db, a: Embedder, b: Embedder) returns (history: seq<Event>)
    requires OneSpace(start) && start.meta == Some(Recorded(a.space, a.revision)) && Aligned(start)
    requires a.space.dim > 0 && b.space.dim > 0 && a.space.dim != b.space.dim
    ensures var w := Run(start, history);
            w.phase == Serving(a) && Settled(w.db, a) && BothWidths(w.db, b.space.dim) && w.interrupted
  {
    var h: seq<Event> := [];
    RunSnoc(start, h, Open(b, Startup));
    var h1 := h + [Open(b, Startup)];
    StepReset(start, h1);
    StepReset(start, h1 + [Statement]);
    StepReset(start, h1 + [Statement] + [Statement]);
    StepReset(start, h1 + [Statement] + [Statement] + [Statement]);
    var h5 := h1 + [Statement] + [Statement] + [Statement] + [Statement];
    assert Run(start, h5).db.meta == start.meta && BothWidths(Run(start, h5).db, b.space.dim);
    history := Reopens(start, h5, a);
  }

  /** Leaving and reopening under the recorded embedder executes nothing. */
  lemma Reopens(start: Db, history: seq<Event>, e: Embedder) returns (more: seq<Event>)
    requires Run(start, history).db.meta == Some(Recorded(e.space, e.revision))
    requires Run(start, history).phase.Opening? && !Finished(Run(start, history).phase.todo)
    ensures Run(start, more) == World(Run(start, history).db, Serving(e), true)
  {
    RunSnoc(start, history, Leave);
    var left := history + [Leave];
    RunSnoc(start, left, Open(e, Startup));
    var again := left + [Open(e, Startup)];
    RunSnoc(start, again, Statement);
    more := again + [Statement];
  }

  // ---- the revision ----

  /** A revision is recorded with the space, and every vector is of it. */
  predicate OneRevision(db: Db) {
    && (db.meta.Some? ==> db.meta.value.revision.Some?)
    && forall id | id in db.rows :: db.rows[id].vector.Some? ==>
         db.meta.Some? && db.rows[id].vector.value.revision == db.meta.value.revision
  }

  predicate RecordsRevision(db: Db, e: Embedder) {
    e.space.dim > 0 ==> db.meta.Some? && db.meta.value.revision == e.revision
  }

  predicate RevisionInv(w: World) {
    && OneRevision(w.db)
    && (w.phase.Serving? ==> RecordsRevision(w.db, w.phase.e))
    && (w.phase.Opening? ==>
          match w.phase.todo.last
          case None => RecordsRevision(w.db, w.phase.e)
          case Some(last) => (last == Record(w.phase.e) || last == RecordIfAbsent(w.phase.e)) && w.phase.e.revision.Some?)
  }

  /** Every embedder that produces vectors says which revision it is. */
  predicate AllNamed(history: seq<Event>) {
    forall i | 0 <= i < |history| :: Named(history[i])
  }

  predicate Named(event: Event) {
    event.Open? && event.e.space.dim > 0 ==> event.e.revision.Some?
  }

  lemma ApplyKeepsRevision(w: World, event: Event)
    requires Inv(w) && RevisionInv(w) && Named(event)
    ensures RevisionInv(Apply(w, event))
  {
    if event.Statement? && w.phase.Opening? && !Finished(w.phase.todo) {
      PlanStep(w.db, w.phase.e, w.phase.todo);
    }
  }

  /**
   When every embedder that produces vectors names its revision, every vector is of the recorded one,
   wherever a history of opens, writes, drains and crashes stops.
   */
  lemma {:induction false} NamedRevisionsNeverMix(history: seq<Event>)
    requires AllNamed(history)
    ensures RevisionInv(Run(FRESH, history))
  {
    if history != [] {
      NamedRevisionsNeverMix(history[..|history| - 1]);
      EveryHistoryKeepsInv(FRESH, history[..|history| - 1]);
      ApplyKeepsRevision(Run(FRESH, history[..|history| - 1]), history[|history| - 1]);
    }
  }

  /** The condition is needed: a vector made under no named revision is taken over by the first that is named. */
  lemma UnnamedVectorsAreAdopted(model: string, revision: string, text: string) returns (history: seq<Event>)
    ensures var w := Run(FRESH, history);
            && w.db.meta == Some(Recorded(Space(model, EMBEDDING_DIM), Some(revision)))
            && 0 in w.db.rows && w.db.rows[0].vector == Some(Vector(Space(model, EMBEDDING_DIM), None, text))
  {
    var space := Space(model, EMBEDDING_DIM);
    var unnamed, named := Embedder(space, None), Embedder(space, Some(revision));
    var served := ServesFresh(unnamed);
    var row := Row(Memory, text, Some(Embed(unnamed, text)));
    RunSnoc(FRESH, served, Serve(Put(0, row)));
    var written := served + [Serve(Put(0, row))];
    RunSnoc(FRESH, written, Leave);
    var left := written + [Leave];
    RunSnoc(FRESH, left, Open(named, Startup));
    var begun := left + [Open(named, Startup)];
    RunSnoc(FRESH, begun, Statement);
    history := begun + [Statement];
  }

  lemma ServesFresh(e: Embedder) returns (history: seq<Event>)
    requires e.space.dim == EMBEDDING_DIM
    ensures Run(FRESH, history) == World(FRESH.(meta := Some(Recorded(e.space, e.revision))), Serving(e), false)
  {
    RunSnoc(FRESH, [], Open(e, Startup));
    var begun := [] + [Open(e, Startup)];
    RunSnoc(FRESH, begun, Statement);
    var recorded := begun + [Statement];
    RunSnoc(FRESH, recorded, Statement);
    history := recorded + [Statement];
  }
}
