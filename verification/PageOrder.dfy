/**
 Whether the page a recall returns is in score order (crates/agmem-server/src/tools/recall.rs, steps
 2b to 2d).  Both caps and the reserve move rows; counted here, exactly, is when the order survives.
 */
module PageOrder {
  import opened Common
  import opened Occupancy
  import opened RecallPage
  import HopTail

  function ByScore(c: Candidate): real {
    c.score
  }

  /** Where the capped list passes from rows within the source quota to deferred ones. */
  function Seam(ranked: seq<Candidate>, k: nat): nat {
    if Floods(ranked, BySource, Cap(k), k) then |Taken(ranked, BySource, Cap(k), |ranked|)| else |ranked|
  }

  lemma CappedIsTwoRuns(ranked: seq<Candidate>, k: nat)
    requires Sorted(ranked, ByScore, |ranked|)
    ensures |Capped(ranked, k)| == |ranked| && TwoRuns(Capped(ranked, k), ByScore, Seam(ranked, k))
  {
    ResliceKeepsSortedExactly(ranked, BySource, Cap(k), k, ByScore, |ranked|);
  }

  /** The first `n` rows of either part of the verbatim pass go on from one run to the next. */
  predicate WithinMeets(rows: seq<Candidate>, seam: nat, n: nat)
    requires seam <= |rows| && n <= |Taken(rows, Verbatim, VERBATIM_CAP, |rows|)|
  {
    TakenGrows(rows, Verbatim, VERBATIM_CAP, seam, |rows|);
    Meets(Taken(rows, Verbatim, VERBATIM_CAP, |rows|), ByScore, |Taken(rows, Verbatim, VERBATIM_CAP, seam)|, n)
  }

  predicate OverMeets(rows: seq<Candidate>, seam: nat, n: nat)
    requires seam <= |rows| && n <= |Deferred(rows, Verbatim, VERBATIM_CAP, |rows|)|
  {
    TakenGrows(rows, Verbatim, VERBATIM_CAP, seam, |rows|);
    Meets(Deferred(rows, Verbatim, VERBATIM_CAP, |rows|), ByScore, |Deferred(rows, Verbatim, VERBATIM_CAP, seam)|, n)
  }

  /** The order of the first `n` rows after the verbatim pass, for a list of two runs. */
  predicate PassInOrder(rows: seq<Candidate>, k: nat, seam: nat, n: nat)
    requires seam <= |rows| && n <= |rows|
  {
    TakenAndDeferredSizes(rows, Verbatim, VERBATIM_CAP, |rows|);
    var within, over := Taken(rows, Verbatim, VERBATIM_CAP, |rows|), Deferred(rows, Verbatim, VERBATIM_CAP, |rows|);
    if !Floods(rows, Verbatim, VERBATIM_CAP, k) then Meets(rows, ByScore, seam, n)
    else if n <= |within| then WithinMeets(rows, seam, n)
    else && WithinMeets(rows, seam, |within|) && OverMeets(rows, seam, n - |within|)
         && Meets(within + over, ByScore, |within|, n)
  }

  lemma PassSortedExactly(rows: seq<Candidate>, k: nat, seam: nat, n: nat)
    requires TwoRuns(rows, ByScore, seam) && n <= |rows|
    ensures |Reordered(rows, Verbatim, VERBATIM_CAP, k)| == |rows|
    ensures Sorted(Reordered(rows, Verbatim, VERBATIM_CAP, k), ByScore, n) <==> PassInOrder(rows, k, seam, n)
  {
    var within, over := Taken(rows, Verbatim, VERBATIM_CAP, |rows|), Deferred(rows, Verbatim, VERBATIM_CAP, |rows|);
    TakenAndDeferredSizes(rows, Verbatim, VERBATIM_CAP, |rows|);
    if Floods(rows, Verbatim, VERBATIM_CAP, k) {
      PartsOfTwoRuns(rows, Verbatim, VERBATIM_CAP, ByScore, seam);
      var a, b := |Taken(rows, Verbatim, VERBATIM_CAP, seam)|, |Deferred(rows, Verbatim, VERBATIM_CAP, seam)|;
      JoinedSortedExactly(within, over, ByScore, n);
      if n <= |within| {
        TwoRunsSortedExactly(within, ByScore, a, n);
      } else {
        TwoRunsSortedExactly(within, ByScore, a, |within|);
        TwoRunsSortedExactly(over, ByScore, b, n - |within|);
      }
    } else {
      TwoRunsSortedExactly(rows, ByScore, seam, n);
    }
  }

  /**
   The page considered is in score order if and only if the runs the two caps leave meet in order as
   far as the page reads them and, when the reserve promotes a row, it scores no more than the slot
   above the one it takes.
   */
  lemma PageSortedExactly(ranked: seq<Candidate>, k: nat, hopped: set<string>)
    requires Sorted(ranked, ByScore, |ranked|) && |ranked| > k
    ensures |Considered(ranked, k, hopped)| == k <= |Diluted(ranked, k)| == |Capped(ranked, k)| && Seam(ranked, k) <= |Capped(ranked, k)|
    ensures var hop, diluted := HopVoted(hopped), Diluted(ranked, k);
            Sorted(Considered(ranked, k, hopped), ByScore, k) <==>
            if HopTail.Promotes(diluted, k, hop)
            then && PassInOrder(Capped(ranked, k), k, Seam(ranked, k), k - 1)
                 && ByScore(diluted[HopTail.FirstHop(diluted, hop, 0)]) <= ByScore(diluted[k - 2])
            else PassInOrder(Capped(ranked, k), k, Seam(ranked, k), k)
  {
    var hop, diluted := HopVoted(hopped), Diluted(ranked, k);
    CappedIsTwoRuns(ranked, k);
    PageComesFromTheCandidates(ranked, k, hopped);
    PassSortedExactly(Capped(ranked, k), k, Seam(ranked, k), if k == 0 then 0 else k - 1);
    PassSortedExactly(Capped(ranked, k), k, Seam(ranked, k), k);
    if HopTail.Promotes(diluted, k, hop) {
      HopTail.ReserveKeepsSortedExactly(diluted, k, hop, ByScore);
    }
    HopTail.ReserveIsAPermutation(diluted, k, hop);
    FirstRowsSorted(Promoted(ranked, k, hopped), k);
  }

  lemma FirstRowsSorted(rows: seq<Candidate>, k: nat)
    requires k <= |rows|
    ensures Sorted(FirstK(rows, k), ByScore, k) <==> Sorted(rows, ByScore, k)
  {
    assert forall i | 0 <= i < k :: FirstK(rows, k)[i] == rows[i];
  }

  // ---- two ways to lose the order ----

  const ORIGIN: string := "external:notes"

  function Claim(id: string, source: Option<string>, score: real): Candidate {
    Candidate(Memory(id, source), None, score, score)
  }

  /**
   A hop-voted row the source cap pushed below the cut outscores the rows pulled up over it, so the
   reserve puts it back under lower ones: the page need not be sorted, however the candidates were.
   */
  lemma ReserveCanUnsortACappedPage() returns (ranked: seq<Candidate>, hopped: set<string>)
    ensures Sorted(ranked, ByScore, |ranked|)
    ensures var page := Considered(ranked, 4, hopped); !Sorted(page, ByScore, |page|)
  {
    var s1, s2, s3 := Claim("1", Some(ORIGIN), 0.9), Claim("2", Some(ORIGIN), 0.8), Claim("3", Some(ORIGIN), 0.7);
    var a, b := Claim("4", None, 0.6), Claim("5", None, 0.5);
    ranked, hopped := [s1, s2, s3, a, b], {"3"};
    assert "1"[0] != '3' && "2"[0] != '3' && "4"[0] != '3' && "5"[0] != '3';
    DeferredHopUnsorts(ranked, s1, s2, s3, a, b, hopped);
  }

  lemma DeferredHopUnsorts(
    ranked: seq<Candidate>, s1: Candidate, s2: Candidate, s3: Candidate, a: Candidate, b: Candidate, hopped: set<string>)
    requires ranked == [s1, s2, s3, a, b]
    requires s1.hit.Memory? && s2.hit.Memory? && s3.hit.Memory? && a.hit.Memory? && b.hit.Memory?
    requires BySource(s1) == BySource(s2) == BySource(s3) == Some(ORIGIN) && BySource(a) == BySource(b) == None
    requires s1.hit.id !in hopped && s2.hit.id !in hopped && a.hit.id !in hopped && b.hit.id !in hopped
    requires s3.hit.id in hopped && a.score < s3.score
    ensures var page := Considered(ranked, 4, hopped); !Sorted(page, ByScore, |page|)
  {
    OneSource(ranked, s1, s2, s3, a, b);
    NoSlicesNoPass([s1, s2, a, b, s3], 4);
    LastTakesTheSlot(Diluted(ranked, 4), HopVoted(hopped));
    var page := Considered(ranked, 4, hopped);
    assert ByScore(page[2]) < ByScore(page[3]);
  }

  lemma LastTakesTheSlot(rows: seq<Candidate>, hop: Candidate -> bool)
    requires |rows| == 5 && !hop(rows[0]) && !hop(rows[1]) && !hop(rows[2]) && !hop(rows[3]) && hop(rows[4])
    ensures FirstK(HopTail.Reserved(rows, 4, hop), 4) == [rows[0], rows[1], rows[2], rows[4]]
  {
    HopTail.FirstHopIs(rows, hop, 4);
  }

  lemma OneSource(ranked: seq<Candidate>, s1: Candidate, s2: Candidate, s3: Candidate, a: Candidate, b: Candidate)
    requires ranked == [s1, s2, s3, a, b]
    requires BySource(s1) == BySource(s2) == BySource(s3) == Some(ORIGIN) && BySource(a) == BySource(b) == None
    ensures Capped(ranked, 4) == [s1, s2, a, b, s3]
  {
    ThirdIsOver(ranked);
    SortedIntoOne(ranked, BySource, 2, 0);
    SortedIntoOne(ranked, BySource, 2, 1);
    SortedIntoOne(ranked, BySource, 2, 2);
    SortedIntoOne(ranked, BySource, 2, 3);
    SortedIntoOne(ranked, BySource, 2, 4);
    assert Taken(ranked, BySource, 2, 2) == [s1, s2];
    assert Deferred(ranked, BySource, 2, 3) == [s3];
  }

  lemma ThirdIsOver(rows: seq<Candidate>)
    requires |rows| == 5 && BySource(rows[0]) == BySource(rows[1]) == BySource(rows[2]) == Some(ORIGIN)
    requires BySource(rows[3]) == BySource(rows[4]) == None
    ensures forall i | 0 <= i < 5 :: Over(rows, BySource, 2, i) <==> i == 2
  {
    assert CountOf(rows, BySource, ORIGIN, 0) == 0;
    assert CountOf(rows, BySource, ORIGIN, 1) == 1;
    assert CountOf(rows, BySource, ORIGIN, 2) == 2;
  }

  lemma NoSlicesNoPass(rows: seq<Candidate>, k: nat)
    requires forall i | 0 <= i < |rows| :: rows[i].hit.Memory?
    ensures Reordered(rows, Verbatim, VERBATIM_CAP, k) == rows
  {
  }

  /** And with no hop at all, when the rows within quota do not fill the page. */
  lemma CapAloneCanUnsortThePage() returns (ranked: seq<Candidate>)
    ensures Sorted(ranked, ByScore, |ranked|)
    ensures var page := Considered(ranked, 4, {}); !Sorted(page, ByScore, |page|)
  {
    var s1, s2, s3 := Claim("1", Some(ORIGIN), 0.9), Claim("2", Some(ORIGIN), 0.8), Claim("3", Some(ORIGIN), 0.7);
    var s4, a := Claim("4", Some(ORIGIN), 0.6), Claim("5", None, 0.1);
    ranked := [s1, s2, s3, s4, a];
    TwoAreDeferred(ranked, s1, s2, s3, s4, a);
    NoSlicesNoPass([s1, s2, a, s3, s4], 4);
    HopTail.FirstHopIs(Diluted(ranked, 4), HopVoted({}), 5);
    var page := Considered(ranked, 4, {});
    assert ByScore(page[2]) < ByScore(page[3]);
  }

  lemma TwoAreDeferred(ranked: seq<Candidate>, s1: Candidate, s2: Candidate, s3: Candidate, s4: Candidate, a: Candidate)
    requires ranked == [s1, s2, s3, s4, a]
    requires BySource(s1) == BySource(s2) == BySource(s3) == BySource(s4) == Some(ORIGIN) && BySource(a) == None
    ensures Capped(ranked, 4) == [s1, s2, a, s3, s4]
  {
    ThirdAndFourthAreOver(ranked);
    SortedIntoOne(ranked, BySource, 2, 0);
    SortedIntoOne(ranked, BySource, 2, 1);
    SortedIntoOne(ranked, BySource, 2, 2);
    SortedIntoOne(ranked, BySource, 2, 3);
    SortedIntoOne(ranked, BySource, 2, 4);
    assert Taken(ranked, BySource, 2, 2) == [s1, s2];
    assert Deferred(ranked, BySource, 2, 4) == [s3, s4];
  }

  lemma ThirdAndFourthAreOver(rows: seq<Candidate>)
    requires |rows| == 5 && BySource(rows[4]) == None
    requires BySource(rows[0]) == BySource(rows[1]) == BySource(rows[2]) == BySource(rows[3]) == Some(ORIGIN)
    ensures forall i | 0 <= i < 5 :: Over(rows, BySource, 2, i) <==> i == 2 || i == 3
  {
    assert CountOf(rows, BySource, ORIGIN, 0) == 0;
    assert CountOf(rows, BySource, ORIGIN, 1) == 1;
    assert CountOf(rows, BySource, ORIGIN, 2) == 2;
    assert CountOf(rows, BySource, ORIGIN, 3) == 3;
  }
}
