/**
 The part of the store that holds vectors, statement by statement
 (crates/agmem-store/src/repo/reindex.rs, crates/agmem-store/src/migrate.rs).

 The engine is a map of rows, two vector indexes that reject every width but their own, and the
 `meta` row naming the vector space.  A vector remembers the space, the revision and the text it was
 made from.
 */
module VectorStore {
  import opened Common

  type Id = nat

  datatype Table = Memory | Chunk

  /** A geometry vectors can be compared in: a model id and a width. */
  datatype Space = Space(model: string, dim: nat)

  datatype Vector = Vector(space: Space, revision: Option<string>, text: string)

  datatype Row = Row(table: Table, text: string, vector: Option<Vector>)

  /** `meta:main`: the recorded space, and the revision when one was ever recorded. */
  datatype Recorded = Recorded(space: Space, revision: Option<string>)

  datatype Embedder = Embedder(space: Space, revision: Option<string>)

  /** What the embedder makes of a text. */
  function Embed(e: Embedder, text: string): Vector {
    Vector(e.space, e.revision, text)
  }

  datatype Db = Db(meta: Option<Recorded>, memoryWidth: nat, chunkWidth: nat, rows: map<Id, Row>)

  /** The width the first schema bakes into both indexes. */
  const EMBEDDING_DIM: nat := 384
  const FRESH: Db := Db(None, EMBEDDING_DIM, EMBEDDING_DIM, map[])

  function Width(db: Db, table: Table): nat {
    if table.Memory? then db.memoryWidth else db.chunkWidth
  }

  /** Same model and width; revisions are compared only where both are known. */
  predicate Matches(stored: Recorded, e: Embedder) {
    && stored.space == e.space
    && (stored.revision.Some? && e.revision.Some? ==> stored.revision == e.revision)
  }

  datatype Stmt =
    | Clear(table: Table)
    | Redefine(table: Table, dim: nat)
    | Record(e: Embedder)                      // UPSERT, unconditional
    | RecordIfAbsent(e: Embedder)              // UPDATE ... WHERE the pair IS NONE
    | Backfill(revision: string)               // UPDATE ... WHERE the revision IS NONE
    | Put(id: Id, row: Row)                    // a session's write
    | Remove(id: Id)
    | Attach(batch: map<Id, Vector>)           // UPDATE over ids; rows no longer there are skipped

  function Cleared(rows: map<Id, Row>, table: Table): map<Id, Row> {
    map id | id in rows :: if rows[id].table == table then rows[id].(vector := None) else rows[id]
  }

  function Attached(rows: map<Id, Row>, batch: map<Id, Vector>): map<Id, Row> {
    map id | id in rows :: if id in batch then rows[id].(vector := Some(batch[id])) else rows[id]
  }

  /** Every vector in `table` has width `dim`. */
  predicate AllOfWidth(rows: map<Id, Row>, table: Table, dim: nat) {
    forall id | id in rows :: rows[id].table == table && rows[id].vector.Some? ==> rows[id].vector.value.space.dim == dim
  }

  /** One statement; None when the engine rejects it, and then nothing changed. */
  function Exec(db: Db, stmt: Stmt): Option<Db> {
    match stmt
    case Clear(table) => Some(db.(rows := Cleared(db.rows, table)))
    case Redefine(table, dim) =>
      if dim == 0 || !AllOfWidth(db.rows, table, dim) then None
      else Some(if table.Memory? then db.(memoryWidth := dim) else db.(chunkWidth := dim))
    case Record(e) => Some(db.(meta := Some(Recorded(e.space, e.revision))))
    case RecordIfAbsent(e) =>
      Some(if db.meta.None? then db.(meta := Some(Recorded(e.space, e.revision))) else db)
    case Backfill(revision) =>
      Some(if db.meta.Some? && db.meta.value.revision.None?
           then db.(meta := Some(db.meta.value.(revision := Some(revision)))) else db)
    case Put(id, row) =>
      if row.vector.Some? && row.vector.value.space.dim != Width(db, row.table) then None
      else Some(db.(rows := db.rows[id := row]))
    case Remove(id) => Some(db.(rows := db.rows - {id}))
    case Attach(batch) =>
      if exists id | id in batch :: id in db.rows && batch[id].space.dim != Width(db, db.rows[id].table) then None
      else Some(db.(rows := Attached(db.rows, batch)))
  }

  /**
   What is left of an open: some tail of `reset_vectors` (clear both tables, then redefine both
   indexes), then one write to `meta`, if any.
   */
  datatype Todo = Todo(reset: nat, last: Option<Stmt>)

  predicate Finished(todo: Todo) {
    todo.reset == 0 && todo.last.None?
  }

  function Head(todo: Todo, dim: nat): Stmt
    requires !Finished(todo)
  {
    match todo.reset
    case 0 => todo.last.value
    case 1 => Redefine(Chunk, dim)
    case 2 => Redefine(Memory, dim)
    case 3 => Clear(Chunk)
    case _ => Clear(Memory)
  }

  function Tail(todo: Todo): Todo
    requires !Finished(todo)
  {
    if todo.reset > 0 then todo.(reset := todo.reset - 1) else todo.(last := None)
  }

  /** The whole of it, stopping at the first rejection. */
  function Finish(db: Db, dim: nat, todo: Todo): Option<Db>
    decreases todo.reset, if todo.last.None? then 0 else 1
  {
    if Finished(todo) then Some(db)
    else match Exec(db, Head(todo, dim))
         case None => None
         case Some(next) => Finish(next, dim, Tail(todo))
  }

  /** The two doors onto the store: `startup::resolve` and `agmem reindex`. */
  datatype Door = Startup | Reindex

  /** Whether the open takes the road that resets the vectors. */
  predicate Resets(db: Db, e: Embedder, door: Door) {
    match db.meta
    case Some(stored) => !Matches(stored, e)
    case None => door.Reindex? || e.space.dim != EMBEDDING_DIM
  }

  /** Everything an open under `e` will execute, read off the store it finds. */
  function Plan(db: Db, e: Embedder, door: Door): Todo {
    if e.space.dim == 0 then Todo(0, None)
    else match db.meta
      case Some(stored) =>
        if !Matches(stored, e) then Todo(4, Some(Record(e)))
        else if door.Startup? && stored.revision.None? && e.revision.Some?
             then Todo(0, Some(Backfill(e.revision.value)))
        else Todo(0, None)
      case None =>
        if door.Reindex? then Todo(4, Some(Record(e)))
        else Todo(if e.space.dim != EMBEDDING_DIM then 4 else 0, Some(RecordIfAbsent(e)))
  }

  // ---- what a statement leaves alone ----

  /** The same rows, tables and texts; only vectors may differ. */
  predicate SameTexts(before: map<Id, Row>, after: map<Id, Row>) {
    && before.Keys == after.Keys
    && forall id | id in before :: after[id].table == before[id].table && after[id].text == before[id].text
  }

  /** No statement of an open touches a text, and only a clear touches a vector: those of its own table go. */
  lemma OpeningTouches(db: Db, stmt: Stmt, id: Id)
    requires stmt.Clear? || stmt.Redefine? || stmt.Record? || stmt.RecordIfAbsent? || stmt.Backfill?
    requires Exec(db, stmt).Some? && id in db.rows
    ensures var rows := Exec(db, stmt).value.rows;
            && SameTexts(db.rows, rows)
            && rows[id].vector == if stmt.Clear? && stmt.table == db.rows[id].table then None else db.rows[id].vector
  {
  }

  /** A session's statement touches the row it names, a drain's the vectors of the rows it names, and neither `meta`. */
  lemma ServingTouches(db: Db, stmt: Stmt, id: Id)
    requires (stmt.Put? || stmt.Remove? || stmt.Attach?) && Exec(db, stmt).Some?
    ensures var next := Exec(db, stmt).value; var was := if id in db.rows then Some(db.rows[id]) else None;
            && next == db.(rows := next.rows)
            && (if id in next.rows then Some(next.rows[id]) else None) ==
               match stmt
               case Put(at, row) => if at == id then Some(row) else was
               case Remove(at) => if at == id then None else was
               case Attach(batch) => if was.Some? && id in batch then Some(was.value.(vector := Some(batch[id]))) else was
  {
  }

  // ---- one vector space ----

  /** Every vector present was made in the space `meta` records. */
  predicate OneSpace(db: Db) {
    forall id | id in db.rows :: db.rows[id].vector.Some? ==>
      db.meta.Some? && db.rows[id].vector.value.space == db.meta.value.space
  }

  predicate NoVectors(rows: map<Id, Row>, table: Table) {
    forall id | id in rows :: rows[id].table == table ==> rows[id].vector.None?
  }

  /** The store has been settled for `e`. */
  predicate Settled(db: Db, e: Embedder) {
    db.meta.Some? && db.meta.value.space == e.space
  }

  /** What holds with `todo` still to run. */
  predicate Midway(db: Db, e: Embedder, todo: Todo) {
    match todo.last
    case None => todo.reset == 0 && (e.space.dim > 0 ==> Settled(db, e))
    case Some(Backfill(_)) => todo.reset == 0 && e.space.dim > 0 && Settled(db, e)
    case Some(last) =>
      && (last == Record(e) || (last == RecordIfAbsent(e) && db.meta.None?))
      && e.space.dim > 0 && todo.reset <= 4
      && (todo.reset <= 3 ==> NoVectors(db.rows, Memory))
      && (todo.reset <= 2 ==> NoVectors(db.rows, Chunk))
  }

  lemma PlanStartsMidway(db: Db, e: Embedder, door: Door)
    requires OneSpace(db)
    ensures Midway(db, e, Plan(db, e, door))
  {
  }

  /** A statement of the plan is never rejected, keeps one space, and leaves the rest midway. */
  lemma PlanStep(db: Db, e: Embedder, todo: Todo)
    requires OneSpace(db) && Midway(db, e, todo) && !Finished(todo)
    ensures var next := Exec(db, Head(todo, e.space.dim));
            && next.Some? && OneSpace(next.value) && Midway(next.value, e, Tail(todo))
  {
  }

  /** What a session or the drain of a process running `e` may send while the store is open. */
  predicate FromServing(e: Embedder, stmt: Stmt) {
    match stmt
    case Put(_, row) =>
      row.vector == (if e.space.dim == 0 then None else Some(Embed(e, row.text)))
    case Attach(batch) => e.space.dim > 0 && forall id | id in batch :: batch[id] == Embed(e, batch[id].text)
    case Remove(_) => true
    case _ => false
  }

  lemma ServingKeepsOneSpace(db: Db, e: Embedder, stmt: Stmt)
    requires OneSpace(db) && (e.space.dim > 0 ==> Settled(db, e)) && FromServing(e, stmt)
    ensures var next := Exec(db, stmt);
            next.Some? ==> OneSpace(next.value) && next.value.meta == db.meta
  {
  }
}
