/**
 Any number of `ensure_embedder` runs on one shared store, where no lock serialises them
 (crates/agmem-store/src/migrate.rs).

 Every statement is a step of its own, `reset_vectors` being four of them, and so is each of the three
 columns a read takes: another run fits between any two of them.
 */
module EmbedderRace {
  import opened Common
  import opened VectorStore

  type RunId = nat

  /** The three `meta` columns. */
  datatype Meta = Meta(model: Option<string>, dim: Option<nat>, revision: Option<string>)

  datatype At =
    | Start
    /** Reading the columns in order, for the first time or again after the guarded write. */
    | ReadModel(again: bool)
    | ReadDim(again: bool, model: Option<string>)
    | ReadRevision(again: bool, model: Option<string>, dim: Option<nat>)
    | Resetting(left: nat)         // this many statements of `reset_vectors` to go
    | Writing                      // about to send the guarded write
    | Backfilling                  // about to send the guarded revision write
    | Agreed                       // Ok(())
    | Refused                      // EmbedderMismatch
    | NothingRecorded              // UnexpectedResponse

  datatype Run = Run(e: Embedder, at: At)

  /** The two widths are what the vector indexes are defined at. */
  datatype World = World(meta: Meta, memoryWidth: nat, chunkWidth: nat, runs: map<RunId, Run>)

  datatype Event = Begin(r: RunId, e: Embedder) | Step(r: RunId)

  /** What `stored_embedder` makes of the columns it read. */
  function Stored(model: Option<string>, dim: Option<nat>, revision: Option<string>): Option<Recorded> {
    if model.Some? && dim.Some? then Some(Recorded(Space(model.value, dim.value), revision)) else None
  }

  /** The branch taken once the columns have been read. */
  function Decide(e: Embedder, again: bool, stored: Option<Recorded>): At {
    match stored
    case Some(s) =>
      if !Matches(s, e) then Refused
      else if !again && s.revision.None? && e.revision.Some? then Backfilling
      else Agreed
    case None =>
      if again then NothingRecorded
      else if e.space.dim != EMBEDDING_DIM then Resetting(4) else Writing
  }

  function StepAt(run: Run, meta: Meta): At {
    match run.at
    case Start => if run.e.space.dim == 0 then Agreed else ReadModel(false)
    case ReadModel(again) => ReadDim(again, meta.model)
    case ReadDim(again, model) => ReadRevision(again, model, meta.dim)
    case ReadRevision(again, model, dim) => Decide(run.e, again, Stored(model, dim, meta.revision))
    case Resetting(left) => if left > 1 then Resetting(left - 1) else Writing
    case Writing => ReadModel(true)
    case Backfilling => Agreed
    case _ => run.at
  }

  function StepMeta(run: Run, meta: Meta): Meta {
    if run.at.Writing? && meta.model.None? && meta.dim.None? then
      Meta(Some(run.e.space.model), Some(run.e.space.dim), run.e.revision)
    else if run.at.Backfilling? && meta.revision.None? then meta.(revision := run.e.revision)
    else meta
  }

  function Apply(w: World, event: Event): World {
    match event
    case Begin(r, e) => if r in w.runs then w else w.(runs := w.runs[r := Run(e, Start)])
    case Step(r) =>
      if r !in w.runs then w
      else World(StepMeta(w.runs[r], w.meta),
                 if w.runs[r].at == Resetting(2) then w.runs[r].e.space.dim else w.memoryWidth,
                 if w.runs[r].at == Resetting(1) then w.runs[r].e.space.dim else w.chunkWidth,
                 w.runs[r := w.runs[r].(at := StepAt(w.runs[r], w.meta))])
  }

  function Play(meta: Meta, events: seq<Event>): World {
    if events == [] then World(meta, EMBEDDING_DIM, EMBEDDING_DIM, map[])
    else Apply(Play(meta, events[..|events| - 1]), events[|events| - 1])
  }

  /** The pair is written whole, and by vector-producing runs only. */
  predicate Whole(meta: Meta) {
    (meta.model.Some? <==> meta.dim.Some?)
  }

  /** Another model or width, or two named revisions that differ. */
  predicate Clashes(space: Space, revision: Option<string>, e: Embedder) {
    space != e.space || (revision.Some? && e.revision.Some? && revision != e.revision)
  }

  /** What a run has learnt agrees with the pair that is there now. */
  predicate Sound(run: Run, meta: Meta) {
    var pair := Stored(meta.model, meta.dim, None);
    match run.at
    case Start => true
    case ReadModel(again) => run.e.space.dim > 0 && (again ==> pair.Some?)
    case ReadDim(again, model) =>
      run.e.space.dim > 0 && (again ==> model.Some?) && (model.Some? ==> model == meta.model)
    case ReadRevision(again, model, dim) =>
      && run.e.space.dim > 0 && (again ==> model.Some?)
      && (model.Some? ==> model == meta.model && dim == meta.dim)
    case Backfilling => run.e.space.dim > 0 && pair.Some? && pair.value.space == run.e.space
    case Agreed => run.e.space.dim > 0 ==> pair.Some? && pair.value.space == run.e.space
    case Refused => run.e.space.dim > 0 && pair.Some? && Clashes(pair.value.space, meta.revision, run.e)
    case NothingRecorded => false
    case _ => run.e.space.dim > 0
  }

  predicate Inv(w: World) {
    Whole(w.meta) && forall r | r in w.runs :: Sound(w.runs[r], w.meta)
  }

  lemma ApplyKeepsInv(w: World, event: Event)
    requires Inv(w)
    ensures Inv(Apply(w, event))
    ensures var w' := Apply(w, event);
            w.meta.model.Some? ==> w'.meta.model == w.meta.model && w'.meta.dim == w.meta.dim
    ensures w.meta.revision.Some? && w.meta.model.Some? ==> Apply(w, event).meta.revision == w.meta.revision
  {
    var w' := Apply(w, event);
    forall r | r in w'.runs
      ensures Sound(w'.runs[r], w'.meta)
    {
      if event != Step(r) && r in w.runs {
        assert w'.runs[r] == w.runs[r];
      }
    }
  }

  lemma {:induction false} EveryPlayKeepsInv(meta: Meta, events: seq<Event>)
    requires Whole(meta)
    ensures Inv(Play(meta, events))
  {
    if events != [] {
      EveryPlayKeepsInv(meta, events[..|events| - 1]);
      ApplyKeepsInv(Play(meta, events[..|events| - 1]), events[|events| - 1]);
    }
  }

  /** Once a pair is recorded it stays the pair, and a recorded revision stays the revision. */
  lemma {:induction false} PairIsRecordedOnce(meta: Meta, events: seq<Event>, k: nat)
    requires Whole(meta) && k <= |events|
    requires Play(meta, events[..k]).meta.model.Some?
    ensures var then' := Play(meta, events[..k]).meta; var now := Play(meta, events).meta;
            && now.model == then'.model && now.dim == then'.dim
            && (then'.revision.Some? ==> now.revision == then'.revision)
    decreases |events|
  {
    if k == |events| {
      assert events[..k] == events;
    } else {
      var before := events[..|events| - 1];
      assert before[..k] == events[..k];
      PairIsRecordedOnce(meta, before, k);
      EveryPlayKeepsInv(meta, before);
      ApplyKeepsInv(Play(meta, before), events[|events| - 1]);
    }
  }

  /**
   In every interleaving: runs that succeeded with vectors agree with the recorded pair, hence with
   each other, and no run ever finds nothing recorded after its write.
   */
  lemma SuccessMeansTheRecordedSpace(meta: Meta, events: seq<Event>, r: RunId, q: RunId)
    requires Whole(meta)
    requires r in Play(meta, events).runs && q in Play(meta, events).runs
    ensures var w := Play(meta, events);
            && !w.runs[r].at.NothingRecorded?
            && (w.runs[r].at.Agreed? && w.runs[r].e.space.dim > 0 ==>
                  w.meta.model == Some(w.runs[r].e.space.model) && w.meta.dim == Some(w.runs[r].e.space.dim))
            && (w.runs[r].at.Agreed? && w.runs[q].at.Agreed? && w.runs[r].e.space.dim > 0 && w.runs[q].e.space.dim > 0 ==>
                  w.runs[r].e.space == w.runs[q].e.space)
  {
    EveryPlayKeepsInv(meta, events);
  }

  /** A run is refused only by a store that records another space, or another revision than its own. */
  lemma RefusedMeansAnotherSpace(meta: Meta, events: seq<Event>, r: RunId)
    requires Whole(meta)
    requires r in Play(meta, events).runs && Play(meta, events).runs[r].at.Refused?
    ensures var w := Play(meta, events); var e := w.runs[r].e;
            || (w.meta.model.Some? && w.meta.model.value != e.space.model)
            || (w.meta.dim.Some? && w.meta.dim.value != e.space.dim)
            || (w.meta.revision.Some? && e.revision.Some? && w.meta.revision != e.revision)
  {
    EveryPlayKeepsInv(meta, events);
    assert Sound(Play(meta, events).runs[r], Play(meta, events).meta);
  }

  // ---- the revision: only as good as the backfills that race ----

  /** A run succeeded with a revision of its own, and the store records another. */
  predicate Disagrees(w: World, r: RunId) {
    && r in w.runs && w.runs[r].at.Agreed? && w.runs[r].e.space.dim > 0
    && w.runs[r].e.revision.Some? && w.meta.revision.Some? && w.meta.revision != w.runs[r].e.revision
  }

  /** A run about to backfill, and another revision has landed since it looked. */
  predicate Overtaken(w: World, r: RunId) {
    && r in w.runs && w.runs[r].at.Backfilling?
    && w.runs[r].e.revision.Some? && w.meta.revision.Some? && w.meta.revision != w.runs[r].e.revision
  }

  /** A run that succeeded while no revision was recorded. */
  predicate AgreedWithNone(w: World, r: RunId) {
    r in w.runs && w.runs[r].at.Agreed? && w.runs[r].e.space.dim > 0 && w.meta.revision.None?
  }

  /** Disagreement begins with a run overtaken while backfilling, or done while nothing was recorded. */
  lemma DisagreementBegins(w: World, event: Event, r: RunId)
    requires Inv(w) && Disagrees(Apply(w, event), r) && !Disagrees(w, r)
    ensures Overtaken(w, r) || AgreedWithNone(w, r)
  {
  }

  /**
   A run that succeeded disagrees with the recorded revision only if another run's backfill landed
   either while it was itself about to backfill, or after it had succeeded with nothing recorded.
   */
  lemma {:induction false} DisagreesOnlyWhenOvertaken(meta: Meta, events: seq<Event>, r: RunId) returns (k: nat)
    requires Whole(meta) && Disagrees(Play(meta, events), r)
    ensures k < |events| && (Overtaken(Play(meta, events[..k]), r) || AgreedWithNone(Play(meta, events[..k]), r))
  {
    var before := events[..|events| - 1];
    if Disagrees(Play(meta, before), r) {
      k := DisagreesOnlyWhenOvertaken(meta, before, r);
      assert before[..k] == events[..k];
    } else {
      k := |events| - 1;
      EveryPlayKeepsInv(meta, before);
      DisagreementBegins(Play(meta, before), events[|events| - 1], r);
    }
  }

  /** And being overtaken is enough: the run succeeds all the same. */
  lemma OvertakenDisagrees(meta: Meta, events: seq<Event>, r: RunId)
    requires Whole(meta) && Overtaken(Play(meta, events), r)
    ensures Disagrees(Play(meta, events + [Step(r)]), r)
  {
    PlaySnoc(meta, events, Step(r));
    EveryPlayKeepsInv(meta, events);
  }

  /** So is a later backfill of another revision, for a run that succeeded while none was recorded. */
  lemma LaterBackfillDisagrees(meta: Meta, events: seq<Event>, r: RunId, q: RunId)
    requires Whole(meta) && AgreedWithNone(Play(meta, events), r) && Play(meta, events).runs[r].e.revision.Some?
    requires var w := Play(meta, events);
             && q in w.runs && w.runs[q].at.Backfilling? && w.runs[q].e.revision.Some?
             && w.runs[q].e.revision != w.runs[r].e.revision
    ensures Disagrees(Play(meta, events + [Step(q)]), r)
  {
    PlaySnoc(meta, events, Step(q));
  }

  /** After its own guarded write a run reads again and is done: refused on a clash, agreed otherwise, and it never backfills. */
  lemma RereadDecides(meta: Meta, events: seq<Event>, r: RunId)
    requires Whole(meta) && r in Play(meta, events).runs
    requires Play(meta, events).runs[r].at.ReadRevision? && Play(meta, events).runs[r].at.again
    ensures var w, w' := Play(meta, events), Play(meta, events + [Step(r)]); var e := w.runs[r].e;
            && w'.meta == w.meta && w.meta.model.Some? && w.meta.dim.Some?
            && w'.runs[r].at == if Clashes(Space(w.meta.model.value, w.meta.dim.value), w.meta.revision, e) then Refused else Agreed
  {
    PlaySnoc(meta, events, Step(r));
    EveryPlayKeepsInv(meta, events);
    assert Sound(Play(meta, events).runs[r], Play(meta, events).meta);
  }

  // ---- building runs ----

  lemma PlaySnoc(meta: Meta, events: seq<Event>, event: Event)
    ensures Play(meta, events + [event]) == Apply(Play(meta, events), event)
  {
    assert (events + [event])[..|events|] == events;
  }

  /** A run alone takes `n` steps. */
  function Ahead(run: Run, meta: Meta, n: nat): At {
    if n == 0 then run.at else StepAt(run.(at := Ahead(run, meta, n - 1)), meta)
  }

  function WithAt(w: World, r: RunId, at: At): World
    requires r in w.runs
  {
    w.(runs := w.runs[r := w.runs[r].(at := at)])
  }

  predicate OnlyReads(at: At) {
    !at.Resetting? && !at.Writing? && !at.Backfilling?
  }

  lemma ReadStep(w: World, r: RunId, at: At, next: At)
    requires r in w.runs && OnlyReads(at) && next == StepAt(w.runs[r].(at := at), w.meta)
    ensures Apply(WithAt(w, r, at), Step(r)) == WithAt(w, r, next)
  {
    assert w.runs[r := w.runs[r].(at := at)][r := w.runs[r].(at := next)] == w.runs[r := w.runs[r].(at := next)];
  }

  /** While no statement of it writes, a run's steps change nothing but the run. */
  lemma {:induction false} ReadsAhead(meta: Meta, events: seq<Event>, w: World, r: RunId, n: nat) returns (more: seq<Event>)
    requires w == Play(meta, events) && r in w.runs
    requires forall k: nat | k < n :: OnlyReads(Ahead(w.runs[r], w.meta, k))
    ensures Play(meta, more) == WithAt(w, r, Ahead(w.runs[r], w.meta, n))
  {
    if n == 0 {
      more := events;
      assert w.runs == w.runs[r := w.runs[r].(at := w.runs[r].at)];
    } else {
      var most := ReadsAhead(meta, events, w, r, n - 1);
      PlaySnoc(meta, most, Step(r));
      ReadStep(w, r, Ahead(w.runs[r], w.meta, n - 1), Ahead(w.runs[r], w.meta, n));
      more := most + [Step(r)];
    }
  }

  /** From the start, four steps read the three columns and decide. */
  lemma FourSteps(e: Embedder, meta: Meta)
    requires e.space.dim > 0
    ensures var run := Run(e, Start);
            && Ahead(run, meta, 0) == Start
            && Ahead(run, meta, 1) == ReadModel(false)
            && Ahead(run, meta, 2) == ReadDim(false, meta.model)
            && Ahead(run, meta, 3) == ReadRevision(false, meta.model, meta.dim)
            && Ahead(run, meta, 4) == Decide(e, false, Stored(meta.model, meta.dim, meta.revision))
  {
    var run := Run(e, Start);
    assert Ahead(run, meta, 1) == ReadModel(false);
    assert Ahead(run, meta, 2) == ReadDim(false, meta.model);
    assert Ahead(run, meta, 3) == ReadRevision(false, meta.model, meta.dim);
  }

  /** Brings a fresh run to the branch it takes on what is recorded now. */
  lemma ReadsAndDecides(meta: Meta, events: seq<Event>, r: RunId, e: Embedder) returns (more: seq<Event>)
    requires r !in Play(meta, events).runs && e.space.dim > 0
    ensures var w := Play(meta, events);
            var at := Decide(e, false, Stored(w.meta.model, w.meta.dim, w.meta.revision));
            Play(meta, more) == w.(runs := w.runs[r := Run(e, at)])
  {
    var w := Play(meta, events);
    PlaySnoc(meta, events, Begin(r, e));
    FourSteps(e, w.meta);
    var w' := w.(runs := w.runs[r := Run(e, Start)]);
    more := ReadsAhead(meta, events + [Begin(r, e)], w', r, 4);
    var at := Ahead(Run(e, Start), w.meta, 4);
    assert w.runs[r := Run(e, Start)][r := Run(e, at)] == w.runs[r := Run(e, at)];
  }

  /** A run that begins once the pair is recorded ends without a write to the pair: refused exactly when they clash. */
  lemma LateRunEnds(meta: Meta, events: seq<Event>, r: RunId, e: Embedder) returns (more: seq<Event>)
    requires Whole(meta) && Play(meta, events).meta.model.Some? && r !in Play(meta, events).runs && e.space.dim > 0
    ensures var was, w := Play(meta, events).meta, Play(meta, more);
            var clashes := || was.model != Some(e.space.model) || was.dim != Some(e.space.dim)
                           || (was.revision.Some? && e.revision.Some? && was.revision != e.revision);
            && r in w.runs && w.runs[r] == Run(e, if clashes then Refused else Agreed)
            && w.meta == was.(revision := if was.revision.None? && !clashes then e.revision else was.revision)
  {
    EveryPlayKeepsInv(meta, events);
    more := ReadsAndDecides(meta, events, r, e);
    if Play(meta, more).runs[r].at.Backfilling? {
      PlaySnoc(meta, more, Step(r));
      more := more + [Step(r)];
    }
  }

  /**
   Over a store that records no revision, two runs of the same space and different revisions can both
   succeed: both look before either backfills, and the store keeps the first.
   */
  lemma TwoBackfillsCanBothSucceed(space: Space, a: string, b: string) returns (events: seq<Event>)
    requires space.dim > 0 && a != b
    ensures var w := Play(Meta(Some(space.model), Some(space.dim), None), events);
            && 0 in w.runs && 1 in w.runs && w.runs[0].at.Agreed? && w.runs[1].at.Agreed?
            && w.runs[0].e == Embedder(space, Some(a)) && w.runs[1].e == Embedder(space, Some(b))
            && w.meta.revision == Some(a) && Disagrees(w, 1)
  {
    var meta := Meta(Some(space.model), Some(space.dim), None);
    var one := ReadsAndDecides(meta, [], 0, Embedder(space, Some(a)));
    var two := ReadsAndDecides(meta, one, 1, Embedder(space, Some(b)));
    PlaySnoc(meta, two, Step(0));
    var three := two + [Step(0)];
    OvertakenDisagrees(meta, three, 1);
    PlaySnoc(meta, three, Step(1));
    events := three + [Step(1)];
  }

  // ---- the index widths: only as good as the widths that race ----

  const ABSENT: Meta := Meta(None, None, None)

  /** Every vector-producing run that ever begins has width `d`. */
  predicate WidthsAre(events: seq<Event>, d: nat) {
    forall i | 0 <= i < |events| :: events[i].Begin? ==> events[i].e.space.dim == 0 || events[i].e.space.dim == d
  }

  predicate BothAre(w: World, d: nat) {
    w.memoryWidth == d && w.chunkWidth == d
  }

  /** What a run of width `d` has done to the indexes by where it is. */
  predicate Widened(w: World, run: Run, d: nat) {
    && (run.e.space.dim == 0 || run.e.space.dim == d)
    && (run.at.Resetting? && run.at.left <= 1 ==> w.memoryWidth == d)
    && (run.at.Resetting? ==> run.at.left >= 1)
    && (run.at.Writing? ==> BothAre(w, d))
  }

  predicate WidthInv(w: World, d: nat) {
    && (w.memoryWidth == d || w.memoryWidth == EMBEDDING_DIM)
    && (w.chunkWidth == d || w.chunkWidth == EMBEDDING_DIM)
    && (w.meta.dim.Some? ==> w.meta.dim.value == d && BothAre(w, d))
    && forall r | r in w.runs :: Widened(w, w.runs[r], d)
  }

  /** With one width among the runs, what is recorded is what both indexes carry. */
  lemma {:induction false} OneWidthKeepsTheIndex(events: seq<Event>, d: nat)
    requires WidthsAre(events, d) && d > 0
    ensures var w := Play(ABSENT, events);
            WidthInv(w, d) && (w.meta.dim.Some? ==> w.meta.dim == Some(w.memoryWidth) == Some(w.chunkWidth))
  {
    if events != [] {
      var before := Play(ABSENT, events[..|events| - 1]);
      var event := events[|events| - 1];
      OneWidthKeepsTheIndex(events[..|events| - 1], d);
      EveryPlayKeepsInv(ABSENT, events[..|events| - 1]);
      StepKeepsWidth(before, event, d);
    }
  }

  lemma StepKeepsWidth(w: World, event: Event, d: nat)
    requires WidthInv(w, d) && Inv(w) && WidthsAre([event], d)
    ensures WidthInv(Apply(w, event), d)
  {
    var w' := Apply(w, event);
    assert event == [event][0];
    forall r | r in w'.runs
      ensures Widened(w', w'.runs[r], d)
    {
      if r in w.runs {
        assert Widened(w, w.runs[r], d);
      }
    }
  }

  /** Sends the rest of a reset: both indexes then have the run's width. */
  lemma {:induction false} Resets(events: seq<Event>, r: RunId, left: nat) returns (more: seq<Event>)
    requires r in Play(ABSENT, events).runs && Play(ABSENT, events).runs[r].at == Resetting(left) && left >= 1
    ensures var w, w' := Play(ABSENT, events), Play(ABSENT, more); var dim := w.runs[r].e.space.dim;
            && w' == w.(memoryWidth := w'.memoryWidth, chunkWidth := dim, runs := w.runs[r := w.runs[r].(at := Writing)])
            && w'.memoryWidth == if left >= 2 then dim else w.memoryWidth
    decreases left
  {
    PlaySnoc(ABSENT, events, Step(r));
    more := events + [Step(r)];
    if left > 1 {
      var w, w1 := Play(ABSENT, events), Play(ABSENT, more);
      more := Resets(more, r, left - 1);
      assert w.runs[r := w1.runs[r]][r := w.runs[r].(at := Writing)] == w.runs[r := w.runs[r].(at := Writing)];
    }
  }

  /** Sends the guarded write, and the reset before it if there is one: the pair is now recorded. */
  lemma Records(events: seq<Event>, r: RunId) returns (more: seq<Event>)
    requires var w := Play(ABSENT, events);
             && w.meta == ABSENT && r in w.runs && w.runs[r].e.space.dim > 0
             && (w.runs[r].at == Resetting(4) || w.runs[r].at.Writing?)
    ensures var w := Play(ABSENT, events); var w' := Play(ABSENT, more);
            && w'.meta.dim == Some(w.runs[r].e.space.dim)
            && (forall q | q in w.runs && q != r :: q in w'.runs && w'.runs[q] == w.runs[q])
  {
    var next := events;
    if Play(ABSENT, events).runs[r].at.Resetting? {
      next := Resets(events, r, 4);
    }
    PlaySnoc(ABSENT, next, Step(r));
    more := next + [Step(r)];
  }

  /**
   Two first runs of different widths can end with the winner's width recorded and the loser's on
   the indexes: the loser resets them after reading that nothing was there.
   */
  lemma TwoWidthsCanPartIndexAndRecord(winner: Embedder, loser: Embedder) returns (events: seq<Event>)
    requires winner.space.dim > 0 && loser.space.dim > 0 && winner.space.dim != loser.space.dim
    requires loser.space.dim != EMBEDDING_DIM
    ensures var w := Play(ABSENT, events);
            w.meta.dim == Some(winner.space.dim) && BothAre(w, loser.space.dim)
  {
    var a := ReadsAndDecides(ABSENT, [], 1, loser);
    var b := ReadsAndDecides(ABSENT, a, 0, winner);
    var c := Records(b, 0);
    events := Resets(c, 1, 4);
  }
}
