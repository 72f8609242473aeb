/**
 The page a recall returns (crates/agmem-server/src/tools/recall.rs, steps 2b to 2d): rank order,
 capped by source, capped on verbatim text, one slot kept for a hop-voted row, cut at `k`, and cut
 again where nothing matched.
 */
module RecallPage {
  import opened Common
  import Occupancy
  import HopTail
  import Abstain
  import Ranking

  /** A claim, with its source unless an agent wrote it itself; or a slice of a stored document. */
  datatype Hit = Memory(id: string, source: Option<string>) | Chunk(id: string, episode: string)

  datatype Candidate = Candidate(hit: Hit, similarity: Option<real>, rrf: real, score: real)

  const VERBATIM_CAP: nat := 1
  const VERBATIM_KEY: string := "verbatim"

  function BySource(c: Candidate): Option<string> {
    match c.hit
    case Memory(_, source) => source
    case Chunk(_, episode) => Some("episode:" + episode)
  }

  function Verbatim(c: Candidate): Option<string> {
    if c.hit.Chunk? then Some(VERBATIM_KEY) else None
  }

  function HopVoted(hopped: set<string>): Candidate -> bool {
    (c: Candidate) => c.hit.Memory? && c.hit.id in hopped
  }

  // ---- the stages ----

  function Capped(ranked: seq<Candidate>, k: nat): seq<Candidate> {
    Occupancy.Reordered(ranked, BySource, Occupancy.Cap(k), k)
  }

  function Diluted(ranked: seq<Candidate>, k: nat): seq<Candidate> {
    Occupancy.Reordered(Capped(ranked, k), Verbatim, VERBATIM_CAP, k)
  }

  function Promoted(ranked: seq<Candidate>, k: nat, hopped: set<string>): seq<Candidate> {
    HopTail.Reserved(Diluted(ranked, k), k, HopVoted(hopped))
  }

  function FirstK<T>(rows: seq<T>, k: nat): seq<T> {
    if |rows| <= k then rows else rows[..k]
  }

  /** The page before anything is cut for not matching. */
  function Considered(ranked: seq<Candidate>, k: nat, hopped: set<string>): seq<Candidate> {
    FirstK(Promoted(ranked, k, hopped), k)
  }

  /** A row no score placed on the page: pulled up by a cap, or voted for by the hop. */
  predicate Guarded(byScore: seq<Candidate>, hopped: set<string>, c: Candidate) {
    (forall i | 0 <= i < |byScore| :: byScore[i].hit.id != c.hit.id) || HopVoted(hopped)(c)
  }

  /** What the cut is told of each row. */
  function Judge(page: seq<Candidate>, byScore: seq<Candidate>, hopped: set<string>): seq<Abstain.Row<Candidate>> {
    seq(|page|, i requires 0 <= i < |page| =>
      Abstain.Row(page[i], page[i].similarity, page[i].rrf, Guarded(byScore, hopped, page[i])))
  }

  function Judged(ranked: seq<Candidate>, k: nat, hopped: set<string>): seq<Abstain.Row<Candidate>> {
    Judge(Considered(ranked, k, hopped), FirstK(ranked, k), hopped)
  }

  function Hits(rows: seq<Abstain.Row<Candidate>>): seq<Candidate> {
    seq(|rows|, i requires 0 <= i < |rows| => rows[i].hit)
  }

  // ---- counting slices through the stages ----

  function Slices(rows: seq<Candidate>, n: nat): nat
    requires n <= |rows|
  {
    Occupancy.CountOf(rows, Verbatim, VERBATIM_KEY, n)
  }

  function Memories(rows: seq<Candidate>): int {
    |rows| - Slices(rows, |rows|)
  }

  lemma ReslicingKeepsSlices(rows: seq<Candidate>, key: Occupancy.Keying<Candidate>, cap: nat, k: nat)
    ensures var after := Occupancy.Reordered(rows, key, cap, k);
            |after| == |rows| && Slices(after, |after|) == Slices(rows, |rows|)
  {
    Occupancy.ReslicingKeepsCounts(rows, key, cap, k, Verbatim, VERBATIM_KEY);
  }

  lemma MovingKeepsCounts(rows: seq<Candidate>, at: nat, j: nat, key: Occupancy.Keying<Candidate>, source: string)
    requires at <= j < |rows|
    ensures Occupancy.Total(HopTail.Move(rows, at, j), key, source) == Occupancy.Total(rows, key, source)
  {
    var a, x, b, c := rows[..at], [rows[j]], rows[at..j], rows[j + 1..];
    assert rows == a + b + x + c;
    Occupancy.TotalIgnoresOrder(a, x, b, c, key, source);
  }

  /** Everything but the slices past the first is within the verbatim quota. */
  lemma {:induction false} WithinVerbatimQuota(rows: seq<Candidate>, n: nat)
    requires n <= |rows|
    ensures |Occupancy.Taken(rows, Verbatim, VERBATIM_CAP, n)|
         == n - Slices(rows, n) + (if Slices(rows, n) == 0 then 0 else 1)
  {
    if n > 0 {
      WithinVerbatimQuota(rows, n - 1);
    }
  }

  lemma VerbatimPassLeavesOneSlice(rows: seq<Candidate>, k: nat)
    requires |rows| > k && Memories(rows) >= k - 1
    ensures var after := Occupancy.Reordered(rows, Verbatim, VERBATIM_CAP, k);
            k <= |after| && Slices(after, k) <= 1
  {
    ReslicingKeepsSlices(rows, Verbatim, VERBATIM_CAP, k);
    WithinVerbatimQuota(rows, |rows|);
    Occupancy.PageObeysTheCap(rows, Verbatim, VERBATIM_CAP, k, VERBATIM_KEY, k);
  }

  lemma SlotTakesAClaim(after: seq<Candidate>, rows: seq<Candidate>, slot: nat)
    requires slot < |rows| && slot < |after| && after[..slot] == rows[..slot] && after[slot].hit.Memory?
    ensures Slices(after, slot + 1) <= Slices(rows, slot + 1)
  {
    Occupancy.SameRowsSameCount(after, rows, Verbatim, VERBATIM_KEY, slot);
  }

  /** As many slices in all, and no more of them among the first `k`. */
  predicate NoSliceAdded(after: seq<Candidate>, rows: seq<Candidate>, k: nat) {
    && k <= |rows| == |after|
    && Slices(after, k) <= Slices(rows, k) && Slices(after, |after|) == Slices(rows, |rows|)
  }

  lemma MoveAddsNoSlice(rows: seq<Candidate>, at: nat, j: nat, k: nat)
    requires at + 1 == k && at <= j < |rows| && rows[j].hit.Memory?
    ensures NoSliceAdded(HopTail.Move(rows, at, j), rows, k)
  {
    HopTail.MoveKeepsAbove(rows, at, j);
    SlotTakesAClaim(HopTail.Move(rows, at, j), rows, at);
    MovingKeepsCounts(rows, at, j, Verbatim, VERBATIM_KEY);
  }

  /** The reserve never puts a slice on the page. */
  lemma ReserveAddsNoSlice(rows: seq<Candidate>, k: nat, hopped: set<string>)
    requires k <= |rows|
    ensures NoSliceAdded(HopTail.Reserved(rows, k, HopVoted(hopped)), rows, k)
  {
    var hop := HopVoted(hopped);
    if HopTail.Promotes(rows, k, hop) {
      MoveAddsNoSlice(rows, k - 1, HopTail.FirstHop(rows, hop, 0), k);
    }
  }

  /**
   The page considered holds at most one verbatim slice exactly when there are claims enough to fill
   all its slots but one, or no second slice to show.
   */
  lemma OneSliceExactly(ranked: seq<Candidate>, k: nat, hopped: set<string>)
    ensures var page := Considered(ranked, k, hopped);
            Slices(page, |page|) <= 1 <==> Memories(ranked) >= k - 1 || Slices(ranked, |ranked|) <= 1
  {
    var capped, diluted, promoted := Capped(ranked, k), Diluted(ranked, k), Promoted(ranked, k, hopped);
    ReslicingKeepsSlices(ranked, BySource, Occupancy.Cap(k), k);
    ReslicingKeepsSlices(capped, Verbatim, VERBATIM_CAP, k);
    if |ranked| > k {
      ReserveAddsNoSlice(diluted, k, hopped);
      Occupancy.SameRowsSameCount(promoted, promoted[..k], Verbatim, VERBATIM_KEY, k);
      Occupancy.CountGrowsByAtMostOne(promoted, Verbatim, VERBATIM_KEY, k, |promoted|);
      if Memories(ranked) >= k - 1 {
        VerbatimPassLeavesOneSlice(capped, k);
      }
    }
  }

  // ---- the cut ----

  /** The page a search returns: cut where nothing matched. */
  ghost function Shown(ranked: seq<Candidate>, k: nat, hopped: set<string>, floor: real): seq<Candidate> {
    Hits(Abstain.Cut(Judged(ranked, k, hopped), floor))
  }

  /** The hits a trim leaves of the first `n` rows. */
  function Left(rows: seq<Abstain.Row<Candidate>>, knee: nat, floor: real, n: nat): seq<Candidate>
    requires n <= |rows|
  {
    Abstain.KeptAscends(rows, knee, floor, n);
    Hits(Abstain.Pick(rows, Abstain.Kept(rows, knee, floor, n)))
  }

  lemma LeftStep(rows: seq<Abstain.Row<Candidate>>, knee: nat, floor: real, n: nat)
    requires n < |rows|
    ensures var before, after := Left(rows, knee, floor, n), Left(rows, knee, floor, n + 1);
            after == if Abstain.Keeps(rows, knee, floor, n) then before + [rows[n].hit] else before
  {
    Abstain.KeptAscends(rows, knee, floor, n);
    Abstain.KeptAscends(rows, knee, floor, n + 1);
  }

  lemma LeftIsTrimmed(rows: seq<Abstain.Row<Candidate>>, knee: nat, floor: real)
    ensures Left(rows, knee, floor, |rows|) == Hits(Abstain.Trimmed(rows, knee, floor))
  {
    Abstain.KeptAscends(rows, knee, floor, |rows|);
    assert Abstain.Trimmed(rows, knee, floor) == Abstain.Pick(rows, Abstain.Kept(rows, knee, floor, |rows|));
  }

  /** What a trim leaves are rows that were there, so no source is found more often. */
  ghost predicate OnlyDrops(left: seq<Candidate>, rows: seq<Candidate>, n: nat, key: Occupancy.Keying<Candidate>, source: string)
    requires n <= |rows|
  {
    Occupancy.Total(left, key, source) <= Occupancy.CountOf(rows, key, source, n) && multiset(left) <= multiset(rows[..n])
  }

  lemma OnlyDropsStep(left: seq<Candidate>, rows: seq<Candidate>, n: nat, key: Occupancy.Keying<Candidate>, source: string)
    requires n < |rows| && OnlyDrops(left, rows, n, key, source)
    ensures OnlyDrops(left, rows, n + 1, key, source) && OnlyDrops(left + [rows[n]], rows, n + 1, key, source)
  {
    Occupancy.CountSnoc(left, rows[n], key, source);
    assert rows[..n + 1] == rows[..n] + [rows[n]];
  }

  ghost predicate LeftOnlyDrops(
    rows: seq<Abstain.Row<Candidate>>, knee: nat, floor: real, n: nat, key: Occupancy.Keying<Candidate>, source: string)
    requires n <= |rows|
  {
    OnlyDrops(Left(rows, knee, floor, n), Hits(rows), n, key, source)
  }

  lemma TrimStep(
    rows: seq<Abstain.Row<Candidate>>, knee: nat, floor: real, m: nat, n: nat, key: Occupancy.Keying<Candidate>, source: string)
    requires m + 1 == n <= |rows| && LeftOnlyDrops(rows, knee, floor, m, key, source)
    ensures LeftOnlyDrops(rows, knee, floor, n, key, source)
  {
    LeftStep(rows, knee, floor, m);
    OnlyDropsStep(Left(rows, knee, floor, m), Hits(rows), m, key, source);
  }

  lemma {:induction false} TrimOnlyDrops(
    rows: seq<Abstain.Row<Candidate>>, knee: nat, floor: real, n: nat, key: Occupancy.Keying<Candidate>, source: string)
    requires n <= |rows|
    ensures LeftOnlyDrops(rows, knee, floor, n, key, source)
  {
    if n > 0 {
      TrimOnlyDrops(rows, knee, floor, n - 1, key, source);
      TrimStep(rows, knee, floor, n - 1, n, key, source);
    }
  }

  lemma NothingOnlyDrops(rows: seq<Candidate>, key: Occupancy.Keying<Candidate>, source: string)
    ensures OnlyDrops([], rows, |rows|, key, source) && OnlyDrops(rows, rows, |rows|, key, source)
  {
    assert rows[..|rows|] == rows;
  }

  /** The cut only drops rows of the page it was given. */
  lemma CutOnlyDrops(rows: seq<Abstain.Row<Candidate>>, floor: real, key: Occupancy.Keying<Candidate>, source: string)
    ensures OnlyDrops(Hits(Abstain.Cut(rows, floor)), Hits(rows), |rows|, key, source)
  {
    NothingOnlyDrops(Hits(rows), key, source);
    if Abstain.Abstains(rows, floor) {
      assert Hits(Abstain.Cut(rows, floor)) == [];
    } else if exists knee: nat :: Abstain.IsKnee(rows, knee) {
      var knee: nat :| Abstain.IsKnee(rows, knee) && Abstain.Cut(rows, floor) == Abstain.Trimmed(rows, knee, floor);
      TrimOnlyDrops(rows, knee, floor, |rows|, key, source);
      LeftIsTrimmed(rows, knee, floor);
    }
  }

  /** The page returned holds no more of any source than the page considered, by any keying. */
  lemma ShownOnlyDrops(
    ranked: seq<Candidate>, k: nat, hopped: set<string>, floor: real, key: Occupancy.Keying<Candidate>, source: string)
    ensures var page := Considered(ranked, k, hopped);
            OnlyDrops(Shown(ranked, k, hopped, floor), page, |page|, key, source)
  {
    CutOnlyDrops(Judged(ranked, k, hopped), floor, key, source);
    assert Hits(Judged(ranked, k, hopped)) == Considered(ranked, k, hopped);
  }

  lemma FirstKIsPart<T>(rows: seq<T>, k: nat)
    ensures multiset(FirstK(rows, k)) <= multiset(rows)
  {
    if |rows| > k {
      assert rows == rows[..k] + rows[k..];
    }
  }

  /** The page considered is made of the candidates, none shown twice, and is full when they suffice. */
  lemma PageComesFromTheCandidates(ranked: seq<Candidate>, k: nat, hopped: set<string>)
    ensures multiset(Considered(ranked, k, hopped)) <= multiset(ranked)
    ensures |Considered(ranked, k, hopped)| == if |ranked| <= k then |ranked| else k
  {
    Occupancy.ResliceIsAPermutation(ranked, BySource, Occupancy.Cap(k), k);
    Occupancy.ResliceIsAPermutation(Capped(ranked, k), Verbatim, VERBATIM_CAP, k);
    HopTail.ReserveIsAPermutation(Diluted(ranked, k), k, HopVoted(hopped));
    FirstKIsPart(Promoted(ranked, k, hopped), k);
  }

  /**
   The page a search returns, through both caps, the reserve, the truncation and the trim: candidates
   only, none twice, and at most one verbatim slice whenever `k - 1` claims were found.
   */
  lemma ShownPage(ranked: seq<Candidate>, k: nat, hopped: set<string>, floor: real)
    ensures multiset(Shown(ranked, k, hopped, floor)) <= multiset(ranked)
    ensures var shown := Shown(ranked, k, hopped, floor);
            Memories(ranked) >= k - 1 || Slices(ranked, |ranked|) <= 1 ==> Slices(shown, |shown|) <= 1
  {
    var page := Considered(ranked, k, hopped);
    ShownOnlyDrops(ranked, k, hopped, floor, Verbatim, VERBATIM_KEY);
    PageComesFromTheCandidates(ranked, k, hopped);
    OneSliceExactly(ranked, k, hopped);
    assert page[..|page|] == page;
  }

  /** A row placed by policy is on the page returned, unless the whole page was refused. */
  lemma GuardedRowsAreShown(ranked: seq<Candidate>, k: nat, hopped: set<string>, floor: real, i: nat)
    requires i < |Considered(ranked, k, hopped)| && !Abstain.Abstains(Judged(ranked, k, hopped), floor)
    requires Guarded(FirstK(ranked, k), hopped, Considered(ranked, k, hopped)[i])
    ensures Considered(ranked, k, hopped)[i] in Shown(ranked, k, hopped, floor)
  {
    var page, rows := Considered(ranked, k, hopped), Judged(ranked, k, hopped);
    if exists knee: nat :: Abstain.IsKnee(rows, knee) {
      var knee: nat :| Abstain.IsKnee(rows, knee) && Abstain.Cut(rows, floor) == Abstain.Trimmed(rows, knee, floor);
      Abstain.TrimKeeps(rows, knee, floor, i);
      var left := Abstain.Trimmed(rows, knee, floor);
      var x :| 0 <= x < |left| && left[x] == rows[i];
      assert Hits(left)[x] == page[i];
    } else {
      assert Hits(rows)[i] == page[i];
    }
  }

  /**
   The row at `i` of the page considered is cut exactly when the page is not refused, has a knee above
   it, and the row was on the page by score, is not hop-voted, and measured under the floor.
   */
  predicate FallsAt(ranked: seq<Candidate>, k: nat, hopped: set<string>, floor: real, knee: nat, i: nat)
    requires i < |Considered(ranked, k, hopped)|
  {
    var c := Considered(ranked, k, hopped)[i];
    && knee < i && c.similarity.Some? && c.similarity.value < floor
    && !(c.hit.Memory? && c.hit.id in hopped)
    && exists j :: 0 <= j < k && j < |ranked| && ranked[j].hit.id == c.hit.id
  }

  lemma CutExactly(ranked: seq<Candidate>, k: nat, hopped: set<string>, floor: real, knee: nat, i: nat)
    requires i < |Considered(ranked, k, hopped)| && !Abstain.Abstains(Judged(ranked, k, hopped), floor)
    requires Abstain.IsKnee(Judged(ranked, k, hopped), knee)
    ensures Shown(ranked, k, hopped, floor) == Hits(Abstain.Trimmed(Judged(ranked, k, hopped), knee, floor))
    ensures i !in Abstain.Kept(Judged(ranked, k, hopped), knee, floor, |Judged(ranked, k, hopped)|) <==>
            FallsAt(ranked, k, hopped, floor, knee, i)
  {
    var rows := Judged(ranked, k, hopped);
    var other: nat :| Abstain.IsKnee(rows, other) && Abstain.Cut(rows, floor) == Abstain.Trimmed(rows, other, floor);
    if other != knee {
      Abstain.KneeIsStrictlyWidest(rows, knee, other);
      assert false;
    }
    Abstain.FallsExactly(rows, knee, floor, i);
    var c := Considered(ranked, k, hopped)[i];
    GuardedExactly(ranked, k, hopped, c);
  }

  lemma GuardedExactly(ranked: seq<Candidate>, k: nat, hopped: set<string>, c: Candidate)
    ensures Guarded(FirstK(ranked, k), hopped, c) <==>
            || (c.hit.Memory? && c.hit.id in hopped)
            || forall j | 0 <= j < k && j < |ranked| :: ranked[j].hit.id != c.hit.id
  {
    var top := FirstK(ranked, k);
    assert forall j | 0 <= j < |top| :: top[j] == ranked[j];
    if forall j | 0 <= j < |top| :: top[j].hit.id != c.hit.id {
      forall j | 0 <= j < k && j < |ranked|
        ensures ranked[j].hit.id != c.hit.id
      {
        assert top[j] == ranked[j];
      }
    }
  }

  /** A claim distilled from a document and a slice of that document share one quota. */
  lemma DocumentAndItsClaimsShareAQuota(a: Candidate, b: Candidate, episode: string)
    requires a.hit.Chunk? && a.hit.episode == episode && b.hit.Memory?
    ensures BySource(b) == BySource(a) <==> b.hit.source == Some("episode:" + episode)
    ensures BySource(b) == None <==> b.hit.source.None?
  {
  }

  /** What the hop fetched is seen: some hop-voted claim is on the page returned, or the page was refused. */
  lemma HopIsSeen(ranked: seq<Candidate>, k: nat, hopped: set<string>, floor: real, c: Candidate)
    requires k >= 2 && c in ranked && HopVoted(hopped)(c)
    requires !Abstain.Abstains(Judged(ranked, k, hopped), floor)
    ensures exists seen :: seen in Shown(ranked, k, hopped, floor) && HopVoted(hopped)(seen)
  {
    var hop, diluted := HopVoted(hopped), Diluted(ranked, k);
    Occupancy.ResliceIsAPermutation(ranked, BySource, Occupancy.Cap(k), k);
    Occupancy.ResliceIsAPermutation(Capped(ranked, k), Verbatim, VERBATIM_CAP, k);
    assert c in multiset(ranked);
    assert c in multiset(diluted);
    var j :| 0 <= j < |diluted| && diluted[j] == c;
    HopTail.ReserveShowsAHop(diluted, k, hop, j);
    var promoted := Promoted(ranked, k, hopped);
    var i :| 0 <= i < k && i < |promoted| && hop(promoted[i]);
    assert Considered(ranked, k, hopped)[i] == promoted[i];
    GuardedRowsAreShown(ranked, k, hopped, floor, i);
  }

  // ---- the page does not see the scale of its retrieval scores ----

  /** Ranked hits as the later stages read them. */
  function Candidates(scored: seq<Ranking.Scored<Hit>>): seq<Candidate> {
    seq(|scored|, i requires 0 <= i < |scored| =>
      var row := scored[i];
      Candidate(row.item, row.ranked.signals.similarity, row.ranked.normalized, row.ranked.score))
  }

  lemma AlikeRowsAlikeCandidates(x: seq<Ranking.Scored<Hit>>, y: seq<Ranking.Scored<Hit>>)
    requires Ranking.SameScores(x, y)
    ensures Candidates(x) == Candidates(y)
  {
    forall i | 0 <= i < |x|
      ensures Candidates(x)[i] == Candidates(y)[i]
    {
      assert Ranking.Alike(x[i], y[i]);
    }
  }

  /** From ranking to the final cut: a positive affine rescaling that keeps the best positive shows the same page. */
  lemma RescalingShowsTheSamePage(
    pool: Ranking.Pool<Hit>, pool': Ranking.Pool<Hit>, a: real, b: real, weight: real, k: nat, hopped: set<string>, floor: real)
    requires a > 0.0 && Ranking.IsRescaled(pool, pool', a, b)
    requires pool != [] ==> Ranking.Best(pool) > 0.0 && Ranking.Best(pool') > 0.0
    ensures Shown(Candidates(Ranking.Rank(pool, weight)), k, hopped, floor)
         == Shown(Candidates(Ranking.Rank(pool', weight)), k, hopped, floor)
  {
    Ranking.RescalingChangesNothing(pool, pool', a, b, weight);
    AlikeRowsAlikeCandidates(Ranking.Rank(pool, weight), Ranking.Rank(pool', weight));
  }

  // ---- the code ----

  method Promote(ranked: seq<Candidate>, k: nat, hopped: set<string>) returns (rows: seq<Candidate>)
    ensures rows == Promoted(ranked, k, hopped)
  {
    var capped, _ := Occupancy.Apply(ranked, k, Occupancy.Cap(k), BySource);
    var diluted, _ := Occupancy.Apply(capped, k, VERBATIM_CAP, Verbatim);
    rows := HopTail.ReserveTail(diluted, k, HopVoted(hopped));
  }

  method Recall(ranked: seq<Candidate>, k: nat, hopped: set<string>, search: bool, floor: real) returns (page: seq<Candidate>)
    ensures page == if search then Shown(ranked, k, hopped, floor) else Considered(ranked, k, hopped)
  {
    var byScore := FirstK(ranked, k);
    var rows := Promote(ranked, k, hopped);
    page := FirstK(rows, k);
    if search {
      var cut, _ := Abstain.Apply(Judge(page, byScore, hopped), floor);
      page := Hits(cut);
    }
  }
}
