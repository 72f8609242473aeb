/**
 The honest empty page (crates/agmem-server/src/tools/abstain.rs): a floor that clears a page nothing
 on it answers, and a knee that trims the tail that merely ranked.
 */
module Abstain {
  import opened Common

  /** What a row is judged by: cosine similarity when measured, normalised retrieval, placed by policy. */
  datatype Row<+T> = Row(hit: T, similarity: Option<real>, rrf: real, guarded: bool)

  datatype Verdict = Verdict(kept: nat, considered: nat, best: Option<real>)

  const MIN_GAP: real := 0.1
  const DOMINANCE: real := 2.0

  predicate Under<T>(row: Row<T>, floor: real) {
    row.similarity.Some? && row.similarity.value < floor
  }

  /** The best measured similarity among the first `n` rows. */
  function Best<T>(page: seq<Row<T>>, n: nat): Option<real>
    requires n <= |page|
  {
    if n == 0 then None
    else
      var before, here := Best(page, n - 1), page[n - 1].similarity;
      if here.None? || (before.Some? && before.value > here.value) then before else here
  }

  lemma {:induction false} BestIsBest<T>(page: seq<Row<T>>, n: nat)
    requires n <= |page|
    ensures Best(page, n).None? <==> forall i | 0 <= i < n :: page[i].similarity.None?
    ensures Best(page, n).Some? ==>
              && (exists i :: 0 <= i < n && page[i].similarity == Best(page, n))
              && (forall i | 0 <= i < n :: page[i].similarity.Some? ==> page[i].similarity.value <= Best(page, n).value)
  {
    if n > 0 {
      BestIsBest(page, n - 1);
    }
  }

  /** The floor fires: the top row was measured, and the best measured row is under it. */
  predicate Abstains<T>(page: seq<Row<T>>, floor: real) {
    page != [] && page[0].similarity.Some? && Best(page, |page|).Some? && Best(page, |page|).value < floor
  }

  lemma AbstainsExactly<T>(page: seq<Row<T>>, floor: real)
    ensures Abstains(page, floor) <==>
            && page != [] && page[0].similarity.Some?
            && forall i | 0 <= i < |page| :: page[i].similarity.Some? ==> page[i].similarity.value < floor
  {
    BestIsBest(page, |page|);
  }

  // ---- the knee ----

  /** The prefix minimum of normalised retrieval. */
  function Envelope<T>(page: seq<Row<T>>, i: nat): real
    requires i < |page|
  {
    if i == 0 then page[0].rrf
    else if page[i].rrf < Envelope(page, i - 1) then page[i].rrf else Envelope(page, i - 1)
  }

  function Gap<T>(page: seq<Row<T>>, i: nat): real
    requires i + 1 < |page|
  {
    Envelope(page, i) - Envelope(page, i + 1)
  }

  function Spread<T>(page: seq<Row<T>>): real
    requires page != []
  {
    Envelope(page, 0) - Envelope(page, |page| - 1)
  }

  /** A gap wide enough to cut at: a floor's worth, and most of the page's whole spread. */
  predicate IsKnee<T>(page: seq<Row<T>>, k: nat) {
    |page| >= 3 && k + 1 < |page| && Gap(page, k) >= MIN_GAP && Gap(page, k) * DOMINANCE > Spread(page)
  }

  lemma {:induction false} EnvelopeFalls<T>(page: seq<Row<T>>, i: nat, j: nat)
    requires i <= j < |page|
    ensures Envelope(page, i) >= Envelope(page, j)
  {
    if i < j {
      EnvelopeFalls(page, i, j - 1);
    }
  }

  /** The envelope is the least retrieval so far: no row above goes below it, and one of them is on it. */
  lemma {:induction false} EnvelopeIsTheLeastSoFar<T>(page: seq<Row<T>>, i: nat) returns (least: nat)
    requires i < |page|
    ensures forall j | 0 <= j <= i :: Envelope(page, i) <= page[j].rrf
    ensures least <= i && Envelope(page, i) == page[least].rrf
  {
    least := i;
    if i > 0 {
      var above := EnvelopeIsTheLeastSoFar(page, i - 1);
      least := if page[i].rrf < Envelope(page, i - 1) then i else above;
    }
  }

  /** A knee needs three rows, a drop of a tenth, and more than half of everything the page drops. */
  lemma KneeExactly<T>(page: seq<Row<T>>, k: nat)
    ensures IsKnee(page, k) <==>
            && |page| >= 3 && k + 1 < |page|
            && Envelope(page, k) - Envelope(page, k + 1) >= 0.1
            && 2.0 * (Envelope(page, k) - Envelope(page, k + 1)) > Envelope(page, 0) - Envelope(page, |page| - 1)
  {
  }

  /** Two different gaps are disjoint parts of the spread. */
  lemma TwoGapsFitTheSpread<T>(page: seq<Row<T>>, i: nat, j: nat)
    requires i < j && j + 1 < |page|
    ensures Gap(page, i) + Gap(page, j) <= Spread(page)
  {
    EnvelopeFalls(page, 0, i);
    EnvelopeFalls(page, i + 1, j);
    EnvelopeFalls(page, j + 1, |page| - 1);
  }

  /** Where the knee fires its gap is strictly wider than every other, so ties cannot matter. */
  lemma KneeIsStrictlyWidest<T>(page: seq<Row<T>>, k: nat, j: nat)
    requires IsKnee(page, k) && j + 1 < |page| && j != k
    ensures Gap(page, j) < Gap(page, k) && !IsKnee(page, j)
  {
    TwoGapsFitTheSpread(page, if j < k then j else k, if j < k then k else j);
  }

  // ---- the trim ----

  /** Past the knee a row falls only if it was measured, is under the floor, and no policy placed it. */
  predicate Keeps<T>(page: seq<Row<T>>, k: nat, floor: real, i: nat)
    requires i < |page|
  {
    i <= k || page[i].guarded || !Under(page[i], floor)
  }

  /** The indices below `n` that stay, ascending. */
  function Kept<T>(page: seq<Row<T>>, k: nat, floor: real, n: nat): seq<nat>
    requires n <= |page|
  {
    if n == 0 then []
    else Kept(page, k, floor, n - 1) + (if Keeps(page, k, floor, n - 1) then [n - 1] else [])
  }

  function Pick<T>(page: seq<Row<T>>, indices: seq<nat>): seq<Row<T>>
    requires forall x | 0 <= x < |indices| :: indices[x] < |page|
  {
    seq(|indices|, x requires 0 <= x < |indices| => page[indices[x]])
  }

  lemma {:induction false} KeptIsExact<T>(page: seq<Row<T>>, k: nat, floor: real, n: nat)
    requires n <= |page|
    ensures forall i: nat :: i in Kept(page, k, floor, n) <==> i < n && Keeps(page, k, floor, i)
  {
    if n > 0 {
      KeptIsExact(page, k, floor, n - 1);
    }
  }

  lemma {:induction false} KeptAscends<T>(page: seq<Row<T>>, k: nat, floor: real, n: nat)
    requires n <= |page|
    ensures forall x | 0 <= x < |Kept(page, k, floor, n)| :: Kept(page, k, floor, n)[x] < n
    ensures forall x, y | 0 <= x < y < |Kept(page, k, floor, n)| ::
              Kept(page, k, floor, n)[x] < Kept(page, k, floor, n)[y]
    ensures |Kept(page, k, floor, n)| <= n
  {
    if n > 0 {
      KeptAscends(page, k, floor, n - 1);
    }
  }

  /** The page the knee at `k` leaves. */
  function Trimmed<T>(page: seq<Row<T>>, k: nat, floor: real): seq<Row<T>> {
    KeptAscends(page, k, floor, |page|);
    Pick(page, Kept(page, k, floor, |page|))
  }

  /**
   A trim leaves a non-empty subsequence that still has every unmeasured, guarded or above-floor row,
   and everything up to the knee.
   */
  lemma TrimKeeps<T>(page: seq<Row<T>>, k: nat, floor: real, i: nat)
    requires i < |page|
    ensures Trimmed(page, k, floor) != []
    ensures Keeps(page, k, floor, i) ==> exists x :: 0 <= x < |Trimmed(page, k, floor)| && Trimmed(page, k, floor)[x] == page[i]
  {
    var kept := Kept(page, k, floor, |page|);
    KeptIsExact(page, k, floor, |page|);
    KeptAscends(page, k, floor, |page|);
    assert 0 in kept;
    if Keeps(page, k, floor, i) {
      var x :| 0 <= x < |kept| && kept[x] == i;
      assert Trimmed(page, k, floor)[x] == page[i];
    }
  }

  /** The page after the cut: emptied by the floor, trimmed at the knee, or as it came. */
  ghost function Cut<T>(page: seq<Row<T>>, floor: real): seq<Row<T>> {
    if Abstains(page, floor) then []
    else if exists k: nat :: IsKnee(page, k) then
      var k: nat :| IsKnee(page, k);
      Trimmed(page, k, floor)
    else page
  }

  /** A row falls exactly when it is past the knee, measured, under the floor, and no policy placed it. */
  lemma FallsExactly<T>(page: seq<Row<T>>, k: nat, floor: real, i: nat)
    requires i < |page|
    ensures i !in Kept(page, k, floor, |page|) <==>
            i > k && !page[i].guarded && page[i].similarity.Some? && page[i].similarity.value < floor
  {
    KeptIsExact(page, k, floor, |page|);
  }

  /** What is left are the rows that do not fall, in their order, each once. */
  lemma TrimmedAreTheKept<T>(page: seq<Row<T>>, k: nat, floor: real, x: nat, y: nat)
    requires x < y < |Trimmed(page, k, floor)|
    ensures var kept := Kept(page, k, floor, |page|);
            && |kept| == |Trimmed(page, k, floor)| && kept[x] < kept[y] < |page|
            && Trimmed(page, k, floor)[x] == page[kept[x]] && Trimmed(page, k, floor)[y] == page[kept[y]]
  {
    KeptAscends(page, k, floor, |page|);
  }

  // ---- the code ----

  /** The widest gap and where it is; the last one on a tie, as `max_by` has it. */
  method WidestGap(envelope: seq<real>) returns (knee: nat, widest: real)
    requires |envelope| >= 2
    ensures knee + 1 < |envelope| && widest == envelope[knee] - envelope[knee + 1]
    ensures forall j | 0 <= j < |envelope| - 1 :: envelope[j] - envelope[j + 1] <= widest
  {
    knee, widest := 0, envelope[0] - envelope[1];
    for j := 1 to |envelope| - 1
      invariant knee + 1 < |envelope| && widest == envelope[knee] - envelope[knee + 1]
      invariant forall i | 0 <= i < j :: envelope[i] - envelope[i + 1] <= widest
    {
      if envelope[j] - envelope[j + 1] >= widest {
        knee, widest := j, envelope[j] - envelope[j + 1];
      }
    }
  }

  method EnvelopeOf<T>(page: seq<Row<T>>) returns (envelope: seq<real>)
    ensures |envelope| == |page| && forall i | 0 <= i < |page| :: envelope[i] == Envelope(page, i)
  {
    envelope := [];
    for i := 0 to |page|
      invariant |envelope| == i && forall j | 0 <= j < i :: envelope[j] == Envelope(page, j)
    {
      var running := if i == 0 || page[i].rrf < envelope[i - 1] then page[i].rrf else envelope[i - 1];
      envelope := envelope + [running];
    }
  }

  method Retain<T>(page: seq<Row<T>>, knee: nat, floor: real) returns (left: seq<Row<T>>)
    ensures left == Trimmed(page, knee, floor)
  {
    left := [];
    KeptAscends(page, knee, floor, |page|);
    for index := 0 to |page|
      invariant |left| == |Kept(page, knee, floor, index)|
      invariant forall x | 0 <= x < |left| :: Kept(page, knee, floor, index)[x] < |page| && left[x] == page[Kept(page, knee, floor, index)[x]]
    {
      if index <= knee || page[index].guarded || !Under(page[index], floor) {
        left := left + [page[index]];
      }
    }
  }

  /**
   The cut.  The page comes back empty exactly on the floor's condition, trimmed at the knee if there
   is one, and otherwise as it came; the verdict is there exactly when the page changed.
   */
  method Apply<T>(page: seq<Row<T>>, floor: real) returns (cut: seq<Row<T>>, verdict: Option<Verdict>)
    ensures Abstains(page, floor) ==> cut == []
    ensures !Abstains(page, floor) ==> forall k :: IsKnee(page, k) ==> cut == Trimmed(page, k, floor)
    ensures !Abstains(page, floor) && (forall k: nat :: !IsKnee(page, k)) ==> cut == page
    ensures cut == Cut(page, floor)
    ensures verdict.Some? ==> verdict.value == Verdict(|cut|, |page|, Best(page, |page|)) && |cut| < |page|
    ensures verdict.None? ==> cut == page
    ensures page != [] ==> (cut == [] <==> Abstains(page, floor))
  {
    if page == [] {
      return page, None;
    }
    var best: Option<real> := None;
    for i := 0 to |page|
      invariant best == Best(page, i)
    {
      var here := page[i].similarity;
      if here.Some? && (best.None? || best.value <= here.value) {
        best := here;
      }
    }
    if page[0].similarity.Some? && best.Some? && best.value < floor {
      return [], Some(Verdict(0, |page|, best));
    }
    if |page| < 3 {
      return page, None;
    }
    var envelope := EnvelopeOf(page);
    var knee, widest := WidestGap(envelope);
    KneeIsFound(page, knee);
    if widest < MIN_GAP || widest * DOMINANCE <= envelope[0] - envelope[|page| - 1] {
      return page, None;
    }
    assert IsKnee(page, knee);
    cut := Retain(page, knee, floor);
    TrimShrinks(page, knee, floor);
    verdict := if |cut| < |page| then Some(Verdict(|cut|, |page|, best)) else None;
  }

  /** If any gap is a knee, the widest one is it. */
  lemma KneeIsFound<T>(page: seq<Row<T>>, widest: nat)
    requires |page| >= 3 && widest + 1 < |page|
    requires forall j | 0 <= j < |page| - 1 :: Gap(page, j) <= Gap(page, widest)
    ensures forall k: nat :: IsKnee(page, k) ==> k == widest
  {
    forall k: nat | IsKnee(page, k)
      ensures k == widest
    {
      if k != widest {
        KneeIsStrictlyWidest(page, k, widest);
      }
    }
  }

  /** A trim that drops nothing is the page itself. */
  lemma {:induction false} KeptAll<T>(page: seq<Row<T>>, k: nat, floor: real, n: nat)
    requires n <= |page| && |Kept(page, k, floor, n)| == n
    ensures forall x | 0 <= x < n :: Kept(page, k, floor, n)[x] == x
  {
    if n > 0 {
      KeptAscends(page, k, floor, n - 1);
      KeptAll(page, k, floor, n - 1);
    }
  }

  lemma TrimShrinks<T>(page: seq<Row<T>>, k: nat, floor: real)
    requires page != []
    ensures Trimmed(page, k, floor) != [] && |Trimmed(page, k, floor)| <= |page|
    ensures |Trimmed(page, k, floor)| == |page| ==> Trimmed(page, k, floor) == page
  {
    TrimKeeps(page, k, floor, 0);
    KeptAscends(page, k, floor, |page|);
    if |Trimmed(page, k, floor)| == |page| {
      KeptAll(page, k, floor, |page|);
    }
  }
}
