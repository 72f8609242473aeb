/**
 Rescoring a candidate pool (crates/agmem-core/src/scoring.rs), over the reals.  Retention is given;
 the weight of the novelty term is a parameter, held at zero in the source.
 */
module Ranking {
  import opened Common

  datatype Signals = Signals(
    rrf: real, similarity: Option<real>, temporal: Option<real>, novelty: Option<real>,
    retention: real, importance: real)

  datatype Ranked = Ranked(signals: Signals, normalized: real, score: real)

  datatype Scored<T> = Scored(item: T, ranked: Ranked)

  type Pool<T> = seq<(T, Signals)>

  const WEIGHT_RRF: real := 0.6
  const WEIGHT_RETENTION: real := 0.25
  const WEIGHT_IMPORTANCE: real := 0.15
  const WEIGHT_TEMPORAL: real := 0.15

  function Worst<T>(pool: Pool<T>): real
    requires pool != []
  {
    var last := pool[|pool| - 1].1.rrf;
    if |pool| == 1 then last
    else if last < Worst(pool[..|pool| - 1]) then last else Worst(pool[..|pool| - 1])
  }

  function Best<T>(pool: Pool<T>): real
    requires pool != []
  {
    var last := pool[|pool| - 1].1.rrf;
    if |pool| == 1 then last
    else if last > Best(pool[..|pool| - 1]) then last else Best(pool[..|pool| - 1])
  }

  function NoveltySum<T>(pool: Pool<T>): real {
    if pool == [] then 0.0
    else NoveltySum(pool[..|pool| - 1]) + (if pool[|pool| - 1].1.novelty.Some? then pool[|pool| - 1].1.novelty.value else 0.0)
  }

  function NoveltyCount<T>(pool: Pool<T>): nat {
    if pool == [] then 0
    else NoveltyCount(pool[..|pool| - 1]) + (if pool[|pool| - 1].1.novelty.Some? then 1 else 0)
  }

  function NoveltyMean<T>(pool: Pool<T>): real {
    if NoveltyCount(pool) > 0 then NoveltySum(pool) / NoveltyCount(pool) as real else 0.0
  }

  /** Nothing retrieved is 0 throughout, a tie at a positive score is 1. */
  function MinMax(lo: real, hi: real, x: real): real {
    if hi <= 0.0 then 0.0 else if hi - lo > 0.0 then (x - lo) / (hi - lo) else 1.0
  }

  /** Min-max across the pool. */
  function Normalized<T>(pool: Pool<T>, rrf: real): real
    requires pool != []
  {
    MinMax(Worst(pool), Best(pool), rrf)
  }

  /** The pool-centred term; an unmeasured row adds nothing. */
  function NoveltyTerm(weight: real, novelty: Option<real>, mean: real): real {
    weight * (if novelty.Some? then novelty.value - mean else 0.0)
  }

  function Score<T>(pool: Pool<T>, s: Signals, weight: real): real
    requires pool != []
  {
    WEIGHT_RRF * Normalized(pool, s.rrf)
    + WEIGHT_RETENTION * s.retention
    + WEIGHT_IMPORTANCE * s.importance
    + WEIGHT_TEMPORAL * (if s.temporal.Some? then s.temporal.value else 0.0)
    + NoveltyTerm(weight, s.novelty, NoveltyMean(pool))
  }

  /** The first `n` candidates with their score breakdown. */
  function ScoreAll<T>(pool: Pool<T>, n: nat, weight: real): seq<Scored<T>>
    requires n <= |pool|
  {
    if n == 0 then []
    else ScoreAll(pool, n - 1, weight)
         + [var (item, s) := pool[n - 1]; Scored(item, Ranked(s, Normalized(pool, s.rrf), Score(pool, s, weight)))]
  }

  /** A stable descending sort: each goes after everything that scores at least as much. */
  function Insert<T>(sorted: seq<Scored<T>>, x: Scored<T>): seq<Scored<T>> {
    if sorted == [] then [x]
    else if sorted[|sorted| - 1].ranked.score >= x.ranked.score then sorted + [x]
    else Insert(sorted[..|sorted| - 1], x) + [sorted[|sorted| - 1]]
  }

  function SortDesc<T>(s: seq<Scored<T>>): seq<Scored<T>> {
    if s == [] then [] else Insert(SortDesc(s[..|s| - 1]), s[|s| - 1])
  }

  function Rank<T>(pool: Pool<T>, weight: real): seq<Scored<T>> {
    SortDesc(ScoreAll(pool, |pool|, weight))
  }

  // ---- the order ----

  predicate Descending<T>(s: seq<Scored<T>>) {
    forall i, j | 0 <= i < j < |s| :: s[i].ranked.score >= s[j].ranked.score
  }

  function Tie<T>(x: Scored<T>, v: real): seq<Scored<T>> {
    if x.ranked.score == v then [x] else []
  }

  /** The rows scoring exactly `v`, in order. */
  function Tied<T>(s: seq<Scored<T>>, v: real): seq<Scored<T>> {
    if s == [] then [] else Tied(s[..|s| - 1], v) + Tie(s[|s| - 1], v)
  }

  lemma TiedSnoc<T>(s: seq<Scored<T>>, x: Scored<T>, v: real)
    ensures Tied(s + [x], v) == Tied(s, v) + Tie(x, v)
  {
    assert (s + [x])[..|s|] == s;
  }

  lemma {:induction false} InsertKeepsDescending<T>(sorted: seq<Scored<T>>, x: Scored<T>, top: real)
    requires Descending(sorted) && x.ranked.score <= top && forall i | 0 <= i < |sorted| :: sorted[i].ranked.score <= top
    ensures Descending(Insert(sorted, x))
    ensures forall i | 0 <= i < |Insert(sorted, x)| :: Insert(sorted, x)[i].ranked.score <= top
    ensures forall i | 0 <= i < |Insert(sorted, x)| ::
              Insert(sorted, x)[i].ranked.score >= x.ranked.score ||
              (sorted != [] && Insert(sorted, x)[i].ranked.score >= sorted[|sorted| - 1].ranked.score)
  {
    if sorted != [] && sorted[|sorted| - 1].ranked.score < x.ranked.score {
      InsertKeepsDescending(sorted[..|sorted| - 1], x, top);
    }
  }

  lemma {:induction false} InsertAddsOne<T>(sorted: seq<Scored<T>>, x: Scored<T>)
    ensures multiset(Insert(sorted, x)) == multiset(sorted) + multiset{x}
  {
    if sorted != [] {
      assert sorted == sorted[..|sorted| - 1] + [sorted[|sorted| - 1]];
      if sorted[|sorted| - 1].ranked.score < x.ranked.score {
        InsertAddsOne(sorted[..|sorted| - 1], x);
      }
    }
  }

  /** Rows of different scores do not tie, so their order does not show. */
  lemma TiesPass<T>(ties: seq<Scored<T>>, x: Scored<T>, y: Scored<T>, v: real)
    requires x.ranked.score != y.ranked.score
    ensures ties + Tie(x, v) + Tie(y, v) == ties + Tie(y, v) + Tie(x, v)
  {
  }

  lemma TiedLast<T>(sorted: seq<Scored<T>>, v: real)
    requires sorted != []
    ensures Tied(sorted, v) == Tied(sorted[..|sorted| - 1], v) + Tie(sorted[|sorted| - 1], v)
  {
  }

  /** The new row comes last among its equals. */
  lemma {:induction false} InsertIsStable<T>(sorted: seq<Scored<T>>, x: Scored<T>, v: real)
    ensures Tied(Insert(sorted, x), v) == Tied(sorted, v) + Tie(x, v)
  {
    if sorted == [] || sorted[|sorted| - 1].ranked.score >= x.ranked.score {
      TiedSnoc(sorted, x, v);
    } else {
      var most, last := sorted[..|sorted| - 1], sorted[|sorted| - 1];
      InsertIsStable(most, x, v);
      TiedSnoc(Insert(most, x), last, v);
      TiesPass(Tied(most, v), x, last, v);
      TiedLast(sorted, v);
    }
  }

  lemma {:induction false} InsertLength<T>(sorted: seq<Scored<T>>, x: Scored<T>)
    ensures |Insert(sorted, x)| == |sorted| + 1
  {
    if sorted != [] {
      InsertLength(sorted[..|sorted| - 1], x);
    }
  }

  /** `rank` is a permutation of its input, best first, and equal scores keep the order they came in. */
  lemma {:induction false} SortIsStableDescending<T>(s: seq<Scored<T>>, v: real)
    ensures Descending(SortDesc(s)) && |SortDesc(s)| == |s|
    ensures multiset(SortDesc(s)) == multiset(s)
    ensures Tied(SortDesc(s), v) == Tied(s, v)
  {
    if s != [] {
      var most, last := s[..|s| - 1], s[|s| - 1];
      assert s == most + [last];
      SortIsStableDescending(most, v);
      var top := if most == [] || last.ranked.score > SortDesc(most)[0].ranked.score
                 then last.ranked.score else SortDesc(most)[0].ranked.score;
      InsertKeepsDescending(SortDesc(most), last, top);
      InsertAddsOne(SortDesc(most), last);
      InsertIsStable(SortDesc(most), last, v);
      InsertLength(SortDesc(most), last);
    }
  }

  lemma RankIsStableDescending<T>(pool: Pool<T>, weight: real, v: real)
    ensures var scored := ScoreAll(pool, |pool|, weight);
            && Descending(Rank(pool, weight))
            && multiset(Rank(pool, weight)) == multiset(scored)
            && Tied(Rank(pool, weight), v) == Tied(scored, v)
  {
    SortIsStableDescending(ScoreAll(pool, |pool|, weight), v);
  }

  // ---- the normalisation ----

  lemma {:induction false} BetweenWorstAndBest<T>(pool: Pool<T>, i: nat)
    requires i < |pool|
    ensures Worst(pool) <= pool[i].1.rrf <= Best(pool)
  {
    if |pool| > 1 {
      if i < |pool| - 1 {
        BetweenWorstAndBest(pool[..|pool| - 1], i);
      } else {
        BetweenWorstAndBest(pool[..|pool| - 1], 0);
      }
    }
  }

  lemma QuotientInUnit(x: real, d: real)
    requires 0.0 <= x <= d && d > 0.0
    ensures 0.0 <= x / d <= 1.0
  {
  }

  lemma NormalizedInUnit<T>(pool: Pool<T>, i: nat)
    requires i < |pool|
    ensures 0.0 <= Normalized(pool, pool[i].1.rrf) <= 1.0
  {
    BetweenWorstAndBest(pool, i);
    if Best(pool) > 0.0 && Best(pool) - Worst(pool) > 0.0 {
      QuotientInUnit(pool[i].1.rrf - Worst(pool), Best(pool) - Worst(pool));
    }
  }

  // ---- rescaling ----

  /** A retrieval score on another scale. */
  function Moved(a: real, b: real, x: real): real {
    a * x + b
  }

  /** The same candidates with every retrieval score moved. */
  predicate IsRescaled<T(==)>(pool: Pool<T>, pool': Pool<T>, a: real, b: real) {
    && |pool'| == |pool|
    && forall i | 0 <= i < |pool| ::
         pool'[i].0 == pool[i].0 && pool'[i].1 == pool[i].1.(rrf := Moved(a, b, pool[i].1.rrf))
  }

  lemma {:induction false} RescaledNovelty<T>(pool: Pool<T>, pool': Pool<T>, a: real, b: real)
    requires IsRescaled(pool, pool', a, b)
    ensures NoveltySum(pool') == NoveltySum(pool) && NoveltyCount(pool') == NoveltyCount(pool)
  {
    if pool != [] {
      RescaledNovelty(pool[..|pool| - 1], pool'[..|pool| - 1], a, b);
    }
  }

  lemma MovingIncreases(a: real, b: real, x: real, y: real)
    requires a > 0.0
    ensures x < y <==> Moved(a, b, x) < Moved(a, b, y)
  {
    assert a * y - a * x == a * (y - x);
  }

  lemma {:induction false} RescaledEnds<T>(pool: Pool<T>, pool': Pool<T>, a: real, b: real)
    requires pool != [] && IsRescaled(pool, pool', a, b) && a > 0.0
    ensures Worst(pool') == Moved(a, b, Worst(pool)) && Best(pool') == Moved(a, b, Best(pool))
  {
    if |pool| > 1 {
      var most, last := pool[..|pool| - 1], pool[|pool| - 1].1.rrf;
      RescaledEnds(most, pool'[..|pool| - 1], a, b);
      MovingIncreases(a, b, last, Worst(most));
      MovingIncreases(a, b, Best(most), last);
    }
  }

  lemma CommonFactor(a: real, x: real, d: real)
    requires a > 0.0 && d > 0.0
    ensures a * d > 0.0 && (a * x) / (a * d) == x / d
  {
    var q := x / d;
    assert q * d == x;
    assert q * (a * d) == a * x;
  }

  /** Min-max of affinely moved numbers is min-max of the numbers. */
  lemma MinMaxIgnoresMoving(a: real, b: real, lo: real, hi: real, x: real)
    requires a > 0.0 && lo <= hi && hi > 0.0 && Moved(a, b, hi) > 0.0
    ensures MinMax(Moved(a, b, lo), Moved(a, b, hi), Moved(a, b, x)) == MinMax(lo, hi, x)
  {
    assert Moved(a, b, hi) - Moved(a, b, lo) == a * (hi - lo);
    assert Moved(a, b, x) - Moved(a, b, lo) == a * (x - lo);
    if hi - lo > 0.0 {
      CommonFactor(a, x - lo, hi - lo);
    }
  }

  /** Normalised retrieval does not see the scale it came in, as long as the best stays positive. */
  lemma RescalingChangesNoNormalized<T>(pool: Pool<T>, pool': Pool<T>, a: real, b: real, x: real)
    requires pool != [] && a > 0.0 && IsRescaled(pool, pool', a, b)
    requires Best(pool) > 0.0 && Best(pool') > 0.0
    ensures Normalized(pool', Moved(a, b, x)) == Normalized(pool, x)
  {
    RescaledEnds(pool, pool', a, b);
    BetweenWorstAndBest(pool, 0);
    MinMaxIgnoresMoving(a, b, Worst(pool), Best(pool), x);
  }

  /** The same in everything but the raw retrieval score: item, other signals, normalised retrieval, score. */
  predicate Alike<T(==)>(a: Scored<T>, b: Scored<T>) {
    a == b.(ranked := b.ranked.(signals := b.ranked.signals.(rrf := a.ranked.signals.rrf)))
  }

  predicate SameScores<T(==)>(x: seq<Scored<T>>, y: seq<Scored<T>>) {
    |x| == |y| && forall i | 0 <= i < |x| :: Alike(x[i], y[i])
  }

  lemma {:induction false} InsertSeesScores<T>(x: seq<Scored<T>>, y: seq<Scored<T>>, a: Scored<T>, b: Scored<T>)
    requires SameScores(x, y) && Alike(a, b)
    ensures SameScores(Insert(x, a), Insert(y, b))
  {
    if x != [] && x[|x| - 1].ranked.score < a.ranked.score {
      InsertSeesScores(x[..|x| - 1], y[..|y| - 1], a, b);
    }
  }

  lemma {:induction false} SortSeesScores<T>(x: seq<Scored<T>>, y: seq<Scored<T>>)
    requires SameScores(x, y)
    ensures SameScores(SortDesc(x), SortDesc(y))
  {
    if x != [] {
      SortSeesScores(x[..|x| - 1], y[..|y| - 1]);
      InsertSeesScores(SortDesc(x[..|x| - 1]), SortDesc(y[..|y| - 1]), x[|x| - 1], y[|y| - 1]);
    }
  }

  lemma {:induction false} RescaledScoreAll<T>(pool: Pool<T>, pool': Pool<T>, a: real, b: real, n: nat, weight: real)
    requires a > 0.0 && IsRescaled(pool, pool', a, b) && n <= |pool|
    requires pool != [] ==> Best(pool) > 0.0 && Best(pool') > 0.0
    ensures SameScores(ScoreAll(pool, n, weight), ScoreAll(pool', n, weight))
  {
    if n > 0 {
      RescaledScoreAll(pool, pool', a, b, n - 1, weight);
      RescaledNovelty(pool, pool', a, b);
      RescalingChangesNoNormalized(pool, pool', a, b, pool[n - 1].1.rrf);
    }
  }

  /**
   Any positive affine rescaling of a pool's retrieval scores that keeps the best positive leaves
   every row as it was but for the raw retrieval score: normalised retrieval, score and order.
   */
  lemma RescalingChangesNothing<T>(pool: Pool<T>, pool': Pool<T>, a: real, b: real, weight: real)
    requires a > 0.0 && IsRescaled(pool, pool', a, b)
    requires pool != [] ==> Best(pool) > 0.0 && Best(pool') > 0.0
    ensures SameScores(Rank(pool, weight), Rank(pool', weight))
  {
    RescaledScoreAll(pool, pool', a, b, |pool|, weight);
    SortSeesScores(ScoreAll(pool, |pool|, weight), ScoreAll(pool', |pool|, weight));
  }

  // ---- which way the scale runs, and what each signal is worth ----

  /** The ends of the scale are retrieval scores of the pool. */
  lemma {:induction false} EndsAreOfThePool<T>(pool: Pool<T>) returns (w: nat, b: nat)
    requires pool != []
    ensures w < |pool| && pool[w].1.rrf == Worst(pool) && b < |pool| && pool[b].1.rrf == Best(pool)
  {
    w, b := |pool| - 1, |pool| - 1;
    if |pool| > 1 {
      var w', b' := EndsAreOfThePool(pool[..|pool| - 1]);
      w := if pool[|pool| - 1].1.rrf < Worst(pool[..|pool| - 1]) then |pool| - 1 else w';
      b := if pool[|pool| - 1].1.rrf > Best(pool[..|pool| - 1]) then |pool| - 1 else b';
    }
  }

  lemma QuotientsKeepOrder(x: real, y: real, d: real)
    requires x < y && d > 0.0
    ensures x / d < y / d && d / d == 1.0 && 0.0 / d == 0.0
  {
  }

  /**
   Normalised retrieval runs from 0 at the worst retrieved row to 1 at the best, and a better score is
   always better; a tie at a positive score is 1, and nothing retrieved is 0.
   */
  lemma NormalizedRunsUpwards<T>(pool: Pool<T>, x: real, y: real)
    requires pool != []
    ensures Best(pool) > 0.0 && Worst(pool) < Best(pool) ==>
              && Normalized(pool, Worst(pool)) == 0.0 && Normalized(pool, Best(pool)) == 1.0
              && (x < y ==> Normalized(pool, x) < Normalized(pool, y))
    ensures Best(pool) > 0.0 && Worst(pool) >= Best(pool) ==> Normalized(pool, x) == 1.0
    ensures Best(pool) <= 0.0 ==> Normalized(pool, x) == 0.0
  {
    if Best(pool) > 0.0 && Worst(pool) < Best(pool) {
      QuotientsKeepOrder(0.0, 1.0, Best(pool) - Worst(pool));
      if x < y {
        QuotientsKeepOrder(x - Worst(pool), y - Worst(pool), Best(pool) - Worst(pool));
      }
    }
  }

  function OrZero(x: Option<real>): real {
    if x.Some? then x.value else 0.0
  }

  /** The difference of two scores, signal by signal, at the documented weights. */
  lemma ScoresDifferByTheWeights<T>(pool: Pool<T>, s: Signals, t: Signals, weight: real)
    requires pool != [] && s.novelty == t.novelty
    ensures Score(pool, s, weight) - Score(pool, t, weight)
         == 0.6 * (Normalized(pool, s.rrf) - Normalized(pool, t.rrf)) + 0.25 * (s.retention - t.retention)
            + 0.15 * (s.importance - t.importance) + 0.15 * (OrZero(s.temporal) - OrZero(t.temporal))
  {
  }

  /** At a positive weight, the more novel of two measured rows is worth more by exactly that; an unmeasured one is average. */
  lemma NoveltyIsWorthItsWeight<T>(pool: Pool<T>, s: Signals, a: real, b: real, weight: real)
    requires pool != []
    ensures Score(pool, s.(novelty := Some(a)), weight) - Score(pool, s.(novelty := Some(b)), weight) == weight * (a - b)
    ensures Score(pool, s.(novelty := None), weight) == Score(pool, s.(novelty := Some(NoveltyMean(pool))), weight)
  {
    assert weight * (a - NoveltyMean(pool)) - weight * (b - NoveltyMean(pool)) == weight * (a - b);
  }

  lemma {:induction false} ScoredAt<T>(pool: Pool<T>, n: nat, weight: real, i: nat)
    requires i < n <= |pool|
    ensures |ScoreAll(pool, n, weight)| == n
    ensures var (item, s) := pool[i];
            ScoreAll(pool, n, weight)[i] == Scored(item, Ranked(s, Normalized(pool, s.rrf), Score(pool, s, weight)))
  {
    if i < n - 1 {
      ScoredAt(pool, n - 1, weight, i);
    } else if n > 1 {
      ScoredAt(pool, n - 1, weight, 0);
    }
  }

  /** Every ranked row is some candidate with its own breakdown. */
  lemma RankedRowIsACandidate<T>(pool: Pool<T>, weight: real, x: nat) returns (i: nat)
    requires x < |Rank(pool, weight)|
    ensures i < |pool|
    ensures var (item, s) := pool[i];
            Rank(pool, weight)[x] == Scored(item, Ranked(s, Normalized(pool, s.rrf), Score(pool, s, weight)))
  {
    var scored := ScoreAll(pool, |pool|, weight);
    RankIsStableDescending(pool, weight, 0.0);
    assert Rank(pool, weight)[x] in multiset(Rank(pool, weight));
    assert Rank(pool, weight)[x] in multiset(scored);
    var j :| 0 <= j < |scored| && scored[j] == Rank(pool, weight)[x];
    ScoredLength(pool, |pool|, weight);
    i := j;
    ScoredAt(pool, |pool|, weight, i);
  }

  lemma {:induction false} ScoredLength<T>(pool: Pool<T>, n: nat, weight: real)
    requires n <= |pool|
    ensures |ScoreAll(pool, n, weight)| == n
  {
    if n > 0 {
      ScoredLength(pool, n - 1, weight);
    }
  }

  /** Of two rows alike but for retrieval, in a pool where anything was retrieved, the better retrieved comes first. */
  lemma BetterRetrievedComesFirst<T>(pool: Pool<T>, weight: real, x: nat, y: nat)
    requires x < |Rank(pool, weight)| && y < |Rank(pool, weight)| && pool != [] && Best(pool) > 0.0
    requires var s, t := Rank(pool, weight)[x].ranked.signals, Rank(pool, weight)[y].ranked.signals;
             s == t.(rrf := s.rrf) && s.rrf > t.rrf
    ensures x < y
  {
    var i := RankedRowIsACandidate(pool, weight, x);
    var j := RankedRowIsACandidate(pool, weight, y);
    var s, t := pool[i].1, pool[j].1;
    BetweenWorstAndBest(pool, i);
    BetweenWorstAndBest(pool, j);
    NormalizedRunsUpwards(pool, t.rrf, s.rrf);
    ScoresDifferByTheWeights(pool, s, t, weight);
    RankIsStableDescending(pool, weight, 0.0);
  }

  // ---- novelty ----

  /** The novelty terms of a pool, about a given origin. */
  function TermSum<T>(pool: Pool<T>, weight: real, mean: real): real {
    if pool == [] then 0.0
    else TermSum(pool[..|pool| - 1], weight, mean) + NoveltyTerm(weight, pool[|pool| - 1].1.novelty, mean)
  }

  function Centred(weight: real, sum: real, mean: real, count: real): real {
    weight * (sum - mean * count)
  }

  lemma CentredGrows(weight: real, sum: real, mean: real, count: real, v: real)
    ensures Centred(weight, sum, mean, count) + weight * (v - mean) == Centred(weight, sum + v, mean, count + 1.0)
  {
    assert mean * (count + 1.0) == mean * count + mean;
  }

  lemma {:induction false} TermSumIs<T>(pool: Pool<T>, weight: real, mean: real)
    ensures TermSum(pool, weight, mean) == Centred(weight, NoveltySum(pool), mean, NoveltyCount(pool) as real)
    ensures NoveltyCount(pool) == 0 ==> NoveltySum(pool) == 0.0
  {
    if pool != [] {
      var most, last := pool[..|pool| - 1], pool[|pool| - 1].1.novelty;
      TermSumIs(most, weight, mean);
      if last.Some? {
        CentredGrows(weight, NoveltySum(most), mean, NoveltyCount(most) as real, last.value);
      }
    }
  }

  /** At any weight, centring on the pool's own mean shifts nothing overall. */
  lemma NoveltyTermsSumToZero<T>(pool: Pool<T>, weight: real)
    ensures TermSum(pool, weight, NoveltyMean(pool)) == 0.0
  {
    var sum, count, mean := NoveltySum(pool), NoveltyCount(pool) as real, NoveltyMean(pool);
    TermSumIs(pool, weight, mean);
    if NoveltyCount(pool) > 0 {
      assert mean * count == sum;
    }
    assert sum - mean * count == 0.0;
  }
}
