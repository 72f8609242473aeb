/**
 The imperative side of the vector store: `reset_vectors`, `pending`, `write_vectors`,
 `set_embedder`, `ensure_embedder`, `resolve`, `execute` and the background `drain`
 (crates/agmem-store/src/repo/reindex.rs, crates/agmem-store/src/migrate.rs,
 crates/agmem-server/src/startup.rs, crates/agmem-server/src/reindex.rs).
 */
module Reindexer {
  import opened Common
  import opened VectorStore
  import opened Migration

  datatype Result<+T> = Ok(value: T) | Err(error: Error)
  datatype Error = Mismatch(stored: Recorded) | Rejected | NothingRecorded | NoDimension | EmbedFailed | Stuck

  const BATCH: nat := 128
  const TABLES: seq<Table> := [Memory, Chunk]

  function Pending(db: Db): set<Id> {
    set id | id in db.rows && db.rows[id].vector.None?
  }

  function PendingIn(db: Db, table: Table): set<Id> {
    set id | id in db.rows && db.rows[id].vector.None? && db.rows[id].table == table
  }

  /** `now` is `was` with some pending rows given the vector of their own text, and nothing else. */
  predicate Filled(was: Db, now: Db, e: Embedder) {
    && now == was.(rows := now.rows)
    && now.rows.Keys == was.rows.Keys
    && forall id | id in was.rows ::
         || now.rows[id] == was.rows[id]
         || (was.rows[id].vector.None? && now.rows[id] == was.rows[id].(vector := Some(Embed(e, was.rows[id].text))))
  }

  /** The row has the vector of its own text, made anew if the store moved or it had none. */
  predicate Reembedded(was: Db, now: Db, e: Embedder, id: Id)
    requires id in was.rows && id in now.rows
  {
    var row := was.rows[id];
    now.rows[id].vector == if Resets(was, e, Reindex) || row.vector.None? then Some(Embed(e, row.text)) else row.vector
  }

  /** What the plan of a reindex leaves of the rows. */
  predicate Started(was: Db, start: Db, e: Embedder) {
    && start.rows.Keys == was.rows.Keys
    && forall id | id in was.rows ::
         start.rows[id] == if Resets(was, e, Reindex) then was.rows[id].(vector := None) else was.rows[id]
  }

  lemma FilledAreReembedded(was: Db, start: Db, now: Db, e: Embedder)
    requires Started(was, start, e) && Filled(start, now, e)
    ensures SameTexts(was.rows, now.rows)
    ensures Pending(now) == {} ==> forall id | id in was.rows :: Reembedded(was, now, e, id)
  {
    if Pending(now) == {} {
      forall id | id in was.rows
        ensures Reembedded(was, now, e, id)
      {
        assert id !in Pending(now);
      }
    }
  }

  lemma FilledIsTransitive(a: Db, b: Db, c: Db, e: Embedder)
    requires Filled(a, b, e) && Filled(b, c, e)
    ensures Filled(a, c, e)
  {
  }

  lemma SubsetSize<T>(small: set<T>, large: set<T>)
    requires small <= large
    ensures |small| <= |large| && (small != large ==> |small| < |large|)
  {
    if small != large {
      assert large == small + (large - small);
      assert large - small != {};
    }
  }

  /** Both tables cleared and both indexes at `dim`. */
  function AfterReset(db: Db, dim: nat): Db {
    Db(db.meta, dim, dim, Cleared(Cleared(db.rows, Memory), Chunk))
  }

  lemma ResetThenFinish(db: Db, dim: nat, last: Option<Stmt>)
    requires dim > 0
    ensures Finish(db, dim, Todo(4, last)) == Finish(AfterReset(db, dim), dim, Todo(0, last))
  {
    var db1 := db.(rows := Cleared(db.rows, Memory));
    var db2 := db1.(rows := Cleared(db1.rows, Chunk));
    assert Finish(db, dim, Todo(4, last)) == Finish(db1, dim, Todo(3, last)) == Finish(db2, dim, Todo(2, last));
    var db3 := db2.(memoryWidth := dim);
    assert Finish(db2, dim, Todo(2, last)) == Finish(db3, dim, Todo(1, last));
  }

  class Store {
    var meta: Option<Recorded>
    var memoryWidth: nat
    var chunkWidth: nat
    var rows: map<Id, Row>

    function View(): Db
      reads this
    {
      Db(meta, memoryWidth, chunkWidth, rows)
    }

    /** The engine. */
    method Query(stmt: Stmt) returns (ok: bool)
      modifies this
      ensures ok == Exec(old(View()), stmt).Some?
      ensures View() == if ok then Exec(old(View()), stmt).value else old(View())
    {
      var next := Exec(View(), stmt);
      ok := next.Some?;
      if ok {
        meta, memoryWidth, chunkWidth, rows :=
          next.value.meta, next.value.memoryWidth, next.value.chunkWidth, next.value.rows;
      }
    }

    method ResetVectors(dim: nat) returns (ok: bool)
      requires dim > 0
      modifies this
      ensures ok && View() == AfterReset(old(View()), dim)
      ensures View().meta == old(View()).meta && BothWidths(View(), dim) && View().rows.Keys == old(View()).rows.Keys
      ensures forall id | id in old(View()).rows :: View().rows[id] == old(View()).rows[id].(vector := None)
    {
      ok := true;
      for i := 0 to |TABLES|
        invariant meta == old(meta) && memoryWidth == old(memoryWidth) && chunkWidth == old(chunkWidth)
        invariant rows == (if i == 0 then old(rows) else if i == 1 then Cleared(old(rows), Memory)
                           else Cleared(Cleared(old(rows), Memory), Chunk))
      {
        var _ := Query(Clear(TABLES[i]));
      }
      for i := 0 to |TABLES|
        invariant ok && meta == old(meta) && rows == Cleared(Cleared(old(rows), Memory), Chunk)
        invariant memoryWidth == (if i == 0 then old(memoryWidth) else dim)
        invariant chunkWidth == (if i < 2 then old(chunkWidth) else dim)
      {
        var defined := Query(Redefine(TABLES[i], dim));
        ok := ok && defined;
      }
    }

    method SetEmbedder(e: Embedder)
      modifies this
      ensures View() == old(View()).(meta := Some(Recorded(e.space, e.revision)))
    {
      var _ := Query(Record(e));
    }

    /** Record the space or refuse; with the store to itself it refuses exactly a mismatch. */
    method EnsureEmbedder(e: Embedder) returns (r: Result<()>)
      modifies this
      ensures var db := old(View());
              if e.space.dim > 0 && db.meta.Some? && !Matches(db.meta.value, e)
              then r == Err(Mismatch(db.meta.value)) && View() == db
              else r.Ok? && Finish(db, e.space.dim, Plan(db, e, Startup)) == Some(View())
      ensures SameTexts(old(View()).rows, View().rows)
    {
      if e.space.dim == 0 {
        return Ok(());
      }
      match meta
      case Some(stored) =>
        if !Matches(stored, e) {
          return Err(Mismatch(stored));
        }
        if stored.revision.None? && e.revision.Some? {
          var _ := Query(Backfill(e.revision.value));
        }
        return Ok(());
      case None =>
        if e.space.dim != EMBEDDING_DIM {
          ResetThenFinish(View(), e.space.dim, Some(RecordIfAbsent(e)));
          var ok := ResetVectors(e.space.dim);
        }
        var _ := Query(RecordIfAbsent(e));
        match meta
        case Some(stored) => return if Matches(stored, e) then Ok(()) else Err(Mismatch(stored));
        case None => return Err(NothingRecorded);
    }

    /** The configured model wins: the whole plan is executed, and the pending rows are counted. */
    method Resolve(e: Embedder) returns (r: Result<nat>)
      modifies this
      ensures Finish(old(View()), e.space.dim, Plan(old(View()), e, Startup)) == Some(View())
      ensures r == Ok(if e.space.dim == 0 then 0 else |Pending(View())|)
      ensures SameTexts(old(View()).rows, View().rows)
    {
      if e.space.dim == 0 {
        return Ok(0);
      }
      if meta.Some? && !Matches(meta.value, e) {
        ResetThenFinish(View(), e.space.dim, Some(Record(e)));
        var ok := ResetVectors(e.space.dim);
        SetEmbedder(e);
      } else {
        var settled := EnsureEmbedder(e);
      }
      var pending := PendingCount();
      return Ok(pending);
    }

    method PendingCount() returns (total: nat)
      ensures total == |Pending(View())|
    {
      total := 0;
      ghost var counted: set<Id> := {};
      for i := 0 to |TABLES|
        invariant counted == (if i == 0 then {} else if i == 1 then PendingIn(View(), Memory) else Pending(View()))
        invariant total == |counted|
      {
        var here := PendingIn(View(), TABLES[i]);
        assert counted !! here;
        counted := counted + here;
        total := total + |here|;
      }
    }

    /** The next rows to embed: none twice, memories before chunks, and short only when it is all of them. */
    method NextPending(limit: nat) returns (batch: seq<Id>)
      ensures |batch| <= limit
      ensures forall i, j :: 0 <= i < j < |batch| ==> batch[i] != batch[j]
      ensures forall id :: id in batch ==> id in Pending(View())
      ensures |batch| < limit ==> forall id :: id in Pending(View()) ==> id in batch
      ensures (exists id :: id in batch && id in PendingIn(View(), Chunk)) ==> forall id :: id in PendingIn(View(), Memory) ==> id in batch
    {
      batch := [];
      var memories := PendingIn(View(), Memory);
      while memories != {} && |batch| < limit
        invariant |batch| <= limit && memories <= PendingIn(View(), Memory)
        invariant forall i, j :: 0 <= i < j < |batch| ==> batch[i] != batch[j]
        invariant forall id :: id in batch <==> id in PendingIn(View(), Memory) - memories
        decreases memories
      {
        var id :| id in memories;
        assert id !in batch;
        batch := batch + [id];
        memories := memories - {id};
      }
      var chunks := PendingIn(View(), Chunk);
      while chunks != {} && |batch| < limit
        invariant |batch| <= limit && chunks <= PendingIn(View(), Chunk)
        invariant |batch| < limit ==> memories == {}
        invariant chunks != PendingIn(View(), Chunk) ==> memories == {}
        invariant forall i, j :: 0 <= i < j < |batch| ==> batch[i] != batch[j]
        invariant forall id :: id in batch <==> id in Pending(View()) - memories - chunks
        decreases chunks
      {
        var id :| id in chunks;
        assert id !in batch;
        batch := batch + [id];
        chunks := chunks - {id};
      }
    }

    /** Vectors for the next batch; None when the embedder or the engine refuses, and then nothing changed. */
    method EmbedBatch(e: Embedder, limit: nat, answers: bool) returns (left: Result<nat>)
      requires limit > 0 && e.space.dim > 0
      modifies this
      ensures left.Ok? ==> Filled(old(View()), View(), e) && left.value == |Pending(View())|
      ensures left.Ok? && Pending(old(View())) != {} ==> left.value < |Pending(old(View()))|
      ensures left.Err? ==> View() == old(View())
      ensures answers && BothWidths(old(View()), e.space.dim) ==> left.Ok?
    {
      var batch := NextPending(limit);
      if batch == [] {
        return Ok(0);
      }
      if !answers {
        return Err(EmbedFailed);
      }
      var vectors := map id | id in batch :: Embed(e, rows[id].text);
      ghost var was := View();
      var ok := Query(Attach(vectors));
      if !ok {
        return Err(Rejected);
      }
      assert Pending(View()) <= Pending(was);
      assert batch[0] in batch;
      assert batch[0] in Pending(was) && batch[0] !in Pending(View());
      SubsetSize(Pending(View()), Pending(was));
      var count := PendingCount();
      return Ok(count);
    }

    /**
     `agmem reindex` with the store to itself: it ends; success means nothing is pending, the store
     is in the requested space, and exactly the rows pending at the start were given their own
     vector; and it fails only if the embedder does or the indexes are off the requested width.
     */
    method Execute(e: Embedder, answers: nat -> bool) returns (r: Result<nat>, ghost start: Db)
      modifies this
      ensures e.space.dim == 0 ==> r == Err(NoDimension) && View() == old(View())
      ensures e.space.dim > 0 ==> Finish(old(View()), e.space.dim, Plan(old(View()), e, Reindex)) == Some(start)
      ensures e.space.dim > 0 ==> Filled(start, View(), e)
      ensures r.Ok? ==> Pending(View()) == {} && r.value == |Pending(start)|
      ensures SameTexts(old(View()).rows, View().rows)
      ensures r.Ok? ==> forall id | id in old(View()).rows :: Reembedded(old(View()), View(), e, id)
      ensures e.space.dim > 0 && BothWidths(start, e.space.dim) && (forall n: nat :: answers(n)) ==> r.Ok?
    {
      start := View();
      if e.space.dim == 0 {
        return Err(NoDimension), start;
      }
      var moved := meta.None? || !Matches(meta.value, e);
      if moved {
        ResetThenFinish(View(), e.space.dim, Some(Record(e)));
        var ok := ResetVectors(e.space.dim);
        SetEmbedder(e);
      }
      start := View();
      r := EmbedAll(e, answers);
      FilledAreReembedded(old(View()), start, View(), e);
    }

    /** The loop: batch after batch until nothing is pending. */
    method EmbedAll(e: Embedder, answers: nat -> bool) returns (r: Result<nat>)
      requires e.space.dim > 0
      modifies this
      ensures Filled(old(View()), View(), e)
      ensures r.Ok? ==> Pending(View()) == {} && r.value == |Pending(old(View()))|
      ensures BothWidths(old(View()), e.space.dim) && (forall n: nat :: answers(n)) ==> r.Ok?
    {
      ghost var start := View();
      var total := PendingCount();
      var remaining, embedded := total, 0;
      var turn: nat := 0;
      while remaining > 0
        invariant Filled(start, View(), e)
        invariant remaining == |Pending(View())| && embedded + remaining == total
        decreases remaining
      {
        ghost var was := View();
        var left := EmbedBatch(e, BATCH, answers(turn));
        if left.Err? {
          return Err(left.error);
        }
        FilledIsTransitive(start, was, View(), e);
        if left.value >= remaining {
          return Err(Stuck);
        }
        embedded := embedded + (remaining - left.value);
        remaining := left.value;
        turn := turn + 1;
      }
      return Ok(embedded);
    }
  }

  // ---- the background drain, against any environment ----

  /** What one batch came to: rows still pending, or an error. */
  datatype Outcome = Left(count: nat) | Failed

  const DRAIN_GIVE_UP: nat := 5

  datatype Drained = Complete | GaveUp

  /** A batch that moved nothing while `previous` rows were pending. */
  predicate Barren(outcome: Outcome, previous: nat) {
    outcome.Failed? || (outcome.count >= previous && outcome.count != 0)
  }

  /**
   Whatever the batches answer, with sessions writing and removing rows in between, the drain ends
   within five batches per row pending at its start; it completes exactly when a batch reports
   nothing left, and gives up only after five barren batches in a row.
   */
  method Drain(pending: nat, batches: nat -> Outcome) returns (end: Drained, reported: nat, turns: nat)
    ensures 1 <= turns <= 5 * (pending + 1)
    ensures end.Complete? <==> batches(turns - 1) == Left(0)
    ensures forall t: nat :: t < turns - 1 ==> batches(t) != Left(0)
    ensures end.Complete? ==> reported == 0
    ensures end.GaveUp? ==>
              && turns >= 5 && reported <= pending
              && forall t: nat :: turns - 5 <= t < turns ==> Barren(batches(t), reported)
  {
    var failures := 0;
    var previous := pending;
    reported := pending;
    turns := 0;
    while true
      invariant failures < DRAIN_GIVE_UP && failures <= turns && previous <= pending
      invariant turns <= DRAIN_GIVE_UP * (pending - previous) + failures
      invariant reported == previous
      invariant forall t: nat :: t < turns ==> batches(t) != Left(0)
      invariant forall t: nat :: turns - failures <= t < turns ==> Barren(batches(t), previous)
      decreases previous, DRAIN_GIVE_UP - failures
    {
      var outcome := batches(turns);
      turns := turns + 1;
      if outcome.Left? && (outcome.count < previous || outcome.count == 0) {
        failures := 0;
        previous := outcome.count;
        reported := outcome.count;
        if outcome.count == 0 {
          return Complete, reported, turns;
        }
      } else {
        failures := failures + 1;
      }
      if failures >= DRAIN_GIVE_UP {
        return GaveUp, reported, turns;
      }
    }
  }
}
