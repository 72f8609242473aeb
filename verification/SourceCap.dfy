/**
 How much of a page one source can hold (crates/agmem-server/src/tools/recall.rs, steps 2b to 2d).

 The source cap is applied first; the verbatim pass and the reserve then move rows past it.  Counted
 here, exactly, is what each of them makes of it.
 */
module SourceCap {
  import opened Common
  import opened Occupancy
  import opened RecallPage
  import HopTail

  /** The claims among the first `n` rows, in order. */
  function Claims(rows: seq<Candidate>, n: nat): seq<Candidate>
    requires n <= |rows|
  {
    if n == 0 then []
    else if rows[n - 1].hit.Memory? then Claims(rows, n - 1) + [rows[n - 1]] else Claims(rows, n - 1)
  }

  /** The first slice among the first `n` rows. */
  function FirstSlice(rows: seq<Candidate>, n: nat): Option<Candidate>
    requires n <= |rows|
  {
    if n == 0 then None
    else if FirstSlice(rows, n - 1).None? && rows[n - 1].hit.Chunk? then Some(rows[n - 1])
    else FirstSlice(rows, n - 1)
  }

  function Credit(slice: Option<Candidate>, source: string): nat {
    if slice.Some? && BySource(slice.value) == Some(source) then 1 else 0
  }

  lemma {:induction false} ClaimsAreTheRest(rows: seq<Candidate>, n: nat)
    requires n <= |rows|
    ensures |Claims(rows, n)| == n - Slices(rows, n)
    ensures FirstSlice(rows, n).Some? <==> Slices(rows, n) > 0
  {
    if n > 0 {
      ClaimsAreTheRest(rows, n - 1);
    }
  }

  lemma {:induction false} ClaimsGrow(rows: seq<Candidate>, m: nat, n: nat)
    requires m <= n <= |rows|
    ensures Claims(rows, m) <= Claims(rows, n)
    ensures FirstSlice(rows, m).Some? ==> FirstSlice(rows, n) == FirstSlice(rows, m)
  {
    if m < n {
      ClaimsGrow(rows, m, n - 1);
    }
  }

  /** Within the verbatim quota are the claims and the first slice. */
  ghost predicate SliceAndClaims(rows: seq<Candidate>, n: nat, source: string)
    requires n <= |rows|
  {
    Total(Taken(rows, Verbatim, VERBATIM_CAP, n), BySource, source)
    == Total(Claims(rows, n), BySource, source) + Credit(FirstSlice(rows, n), source)
  }

  lemma SliceAndClaimsStep(rows: seq<Candidate>, m: nat, n: nat, source: string)
    requires m + 1 == n <= |rows| && SliceAndClaims(rows, m, source)
    ensures SliceAndClaims(rows, n, source)
  {
    SortedIntoOne(rows, Verbatim, VERBATIM_CAP, m);
    ClaimsAreTheRest(rows, m);
    CountSnoc(Taken(rows, Verbatim, VERBATIM_CAP, m), rows[m], BySource, source);
    CountSnoc(Claims(rows, m), rows[m], BySource, source);
  }

  lemma {:induction false} TakenIsSliceAndClaims(rows: seq<Candidate>, n: nat, source: string)
    requires n <= |rows|
    ensures SliceAndClaims(rows, n, source)
  {
    if n > 0 {
      TakenIsSliceAndClaims(rows, n - 1, source);
      SliceAndClaimsStep(rows, n - 1, n, source);
    }
  }

  /** Any first rows within quota are those of some first rows. */
  lemma {:induction false} Reaches(rows: seq<Candidate>, k: nat, n: nat) returns (m: nat)
    requires n <= |rows| && k <= |Taken(rows, Verbatim, VERBATIM_CAP, n)|
    ensures m <= n && |Taken(rows, Verbatim, VERBATIM_CAP, m)| == k
  {
    if |Taken(rows, Verbatim, VERBATIM_CAP, n)| == k {
      m := n;
    } else {
      m := Reaches(rows, k, n - 1);
    }
  }

  /** Flooding slices are two at least, and the first of them is above the last of the first `k` rows. */
  lemma FloodHasASlice(rows: seq<Candidate>, k: nat, n: nat)
    requires Floods(rows, Verbatim, VERBATIM_CAP, k) && k - 1 <= n <= |rows|
    ensures 2 <= k && FirstSlice(rows, n).Some? && Slices(rows, n) > 0
  {
    var i :| 0 <= i < k && Over(rows, Verbatim, VERBATIM_CAP, i);
    CountGrows(rows, Verbatim, VERBATIM_KEY, i, n);
    ClaimsAreTheRest(rows, n);
  }

  lemma PrefixCount(a: seq<Candidate>, b: seq<Candidate>, source: string)
    requires a <= b
    ensures CountOf(b, BySource, source, |a|) == Total(a, BySource, source)
  {
    assert a[..|a|] == b[..|a|];
    SameRowsSameCount(a, b, BySource, source, |a|);
  }

  /**
   With enough rows within the verbatim quota, the first `n` of them are a slice and `n - 1` claims:
   for the whole page, and for all of it but the slot a promotion takes.
   */
  lemma SliceAndFirstClaims(rows: seq<Candidate>, k: nat, n: nat, source: string)
    requires Floods(rows, Verbatim, VERBATIM_CAP, k) && k - 1 <= n <= k && n <= |Taken(rows, Verbatim, VERBATIM_CAP, |rows|)|
    ensures 1 <= n <= |Claims(rows, |rows|)| + 1
    ensures CountOf(Taken(rows, Verbatim, VERBATIM_CAP, |rows|), BySource, source, n)
         == CountOf(Claims(rows, |rows|), BySource, source, n - 1) + Credit(FirstSlice(rows, |rows|), source)
  {
    var m := Reaches(rows, n, |rows|);
    TakenAndDeferredSizes(rows, Verbatim, VERBATIM_CAP, m);
    FloodHasASlice(rows, k, m);
    WithinVerbatimQuota(rows, m);
    ClaimsAreTheRest(rows, m);
    ClaimsGrow(rows, m, |rows|);
    TakenGrows(rows, Verbatim, VERBATIM_CAP, m, |rows|);
    PrefixCount(Taken(rows, Verbatim, VERBATIM_CAP, m), Taken(rows, Verbatim, VERBATIM_CAP, |rows|), source);
    PrefixCount(Claims(rows, m), Claims(rows, |rows|), source);
    TakenIsSliceAndClaims(rows, m, source);
  }

  /**
   What the first `n` rows of a page flooded by slices hold of a source, read off the list before the
   verbatim pass: the first slice, the first `n - 1` claims, and, only when the claims run out, later
   slices.
   */
  function OfSource(rows: seq<Candidate>, n: nat, source: string): nat
    requires 1 <= n < |rows|
  {
    var claims, over := Claims(rows, |rows|), Deferred(rows, Verbatim, VERBATIM_CAP, |rows|);
    var room := if n - 1 <= |claims| then 0 else n - 1 - |claims|;
    Credit(FirstSlice(rows, |rows|), source)
    + CountOf(claims, BySource, source, if n - 1 <= |claims| then n - 1 else |claims|)
    + CountOf(over, BySource, source, if room <= |over| then room else |over|)
  }

  lemma VerbatimPassHoldsExactly(rows: seq<Candidate>, k: nat, n: nat, source: string)
    requires Floods(rows, Verbatim, VERBATIM_CAP, k) && k - 1 <= n <= k
    ensures 1 <= n && |Reordered(rows, Verbatim, VERBATIM_CAP, k)| == |rows|
    ensures CountOf(Reordered(rows, Verbatim, VERBATIM_CAP, k), BySource, source, n) == OfSource(rows, n, source)
  {
    var within := Taken(rows, Verbatim, VERBATIM_CAP, |rows|);
    PageCount(rows, Verbatim, VERBATIM_CAP, k, BySource, source, n);
    FloodHasASlice(rows, k, |rows|);
    WithinVerbatimQuota(rows, |rows|);
    ClaimsAreTheRest(rows, |rows|);
    if |within| >= n {
      SliceAndFirstClaims(rows, k, n, source);
    } else {
      TakenIsSliceAndClaims(rows, |rows|, source);
    }
  }

  /** How many deferred rows of a source fill up the first `n` rows once those within quota run out. */
  function Refill(ranked: seq<Candidate>, k: nat, n: nat, source: string): nat
    requires n <= |ranked|
  {
    var within, over := Taken(ranked, BySource, Cap(k), |ranked|), Deferred(ranked, BySource, Cap(k), |ranked|);
    TakenAndDeferredSizes(ranked, BySource, Cap(k), |ranked|);
    if Floods(ranked, BySource, Cap(k), k) && |within| < n then CountOf(over, BySource, source, n - |within|) else 0
  }

  /** Where the first pass moved rows, refilling is all that can take a source past its cap. */
  lemma FloodedHolds(ranked: seq<Candidate>, k: nat, n: nat, source: string)
    requires n <= |ranked| && Floods(ranked, BySource, Cap(k), k)
    ensures |Capped(ranked, k)| == |ranked|
    ensures var held, refill := CountOf(Capped(ranked, k), BySource, source, n), Refill(ranked, k, n, source);
            held <= Cap(k) + refill && (refill > 0 ==> held == Cap(k) + refill)
  {
    var within, over := Taken(ranked, BySource, Cap(k), |ranked|), Deferred(ranked, BySource, Cap(k), |ranked|);
    PageCount(ranked, BySource, Cap(k), k, BySource, source, n);
    TakenHoldsAtMostCap(ranked, BySource, Cap(k), |ranked|, source);
    if |within| >= n {
      CountGrows(within, BySource, source, n, |within|);
    } else {
      DeferredMeansFull(ranked, BySource, Cap(k), source);
      CountGrows(over, BySource, source, n - |within|, |over|);
    }
  }

  /** Of the first `n` rows the source cap leaves, a source holds more than its cap plus `extra` exactly by refilling. */
  lemma CappedHoldsExactly(ranked: seq<Candidate>, k: nat, n: nat, source: string, extra: nat)
    requires n <= k < |ranked|
    ensures |Capped(ranked, k)| == |ranked|
    ensures CountOf(Capped(ranked, k), BySource, source, n) <= Cap(k) + Refill(ranked, k, n, source)
    ensures CountOf(Capped(ranked, k), BySource, source, n) > Cap(k) + extra <==> Refill(ranked, k, n, source) > extra
  {
    if Floods(ranked, BySource, Cap(k), k) {
      FloodedHolds(ranked, k, n, source);
    } else {
      NobodyOverMeansWithinCap(ranked, BySource, Cap(k), n, source);
    }
  }

  /** Before the reserve: the page is over a source's cap exactly on a condition on the list it was cut from. */
  lemma OverTheCapExactly(ranked: seq<Candidate>, k: nat, source: string)
    requires |ranked| > k
    ensures |Capped(ranked, k)| == |Diluted(ranked, k)| == |ranked|
    ensures Floods(Capped(ranked, k), Verbatim, VERBATIM_CAP, k) ==> k >= 2
    ensures CountOf(Diluted(ranked, k), BySource, source, k) > Cap(k) <==>
            if Floods(Capped(ranked, k), Verbatim, VERBATIM_CAP, k) then OfSource(Capped(ranked, k), k, source) > Cap(k)
            else Refill(ranked, k, k, source) > 0
  {
    CappedHoldsExactly(ranked, k, k, source, 0);
    ResliceIsAPermutation(Capped(ranked, k), Verbatim, VERBATIM_CAP, k);
    if Floods(Capped(ranked, k), Verbatim, VERBATIM_CAP, k) {
      FloodHasASlice(Capped(ranked, k), k, k);
      VerbatimPassHoldsExactly(Capped(ranked, k), k, k, source);
    }
  }

  // ---- the reserve ----

  lemma MoveCounts(rows: seq<Candidate>, at: nat, j: nat, k: nat, source: string)
    requires at + 1 == k && at <= j < |rows|
    ensures CountOf(HopTail.Move(rows, at, j), BySource, source, k)
         == CountOf(rows, BySource, source, at) + (if BySource(rows[j]) == Some(source) then 1 else 0)
  {
    HopTail.MoveKeepsAbove(rows, at, j);
    SameRowsSameCount(HopTail.Move(rows, at, j), rows, BySource, source, at);
  }

  /** A promotion trades the last slot's row for the hop-voted one: one row, so one source gains one. */
  lemma ReserveCounts(rows: seq<Candidate>, k: nat, hopped: set<string>, source: string)
    requires k <= |rows|
    ensures |HopTail.Reserved(rows, k, HopVoted(hopped))| == |rows|
    ensures var hop := HopVoted(hopped);
            CountOf(HopTail.Reserved(rows, k, hop), BySource, source, k) ==
            if HopTail.Promotes(rows, k, hop)
            then CountOf(rows, BySource, source, k - 1)
                 + (if BySource(rows[HopTail.FirstHop(rows, hop, 0)]) == Some(source) then 1 else 0)
            else CountOf(rows, BySource, source, k)
  {
    var hop := HopVoted(hopped);
    HopTail.ReserveIsAPermutation(rows, k, hop);
    if HopTail.Promotes(rows, k, hop) {
      MoveCounts(rows, k - 1, HopTail.FirstHop(rows, hop, 0), k, source);
    }
  }

  /** What the page considered holds of a source. */
  lemma PageHolds(ranked: seq<Candidate>, k: nat, hopped: set<string>, source: string)
    requires |ranked| > k
    ensures |Diluted(ranked, k)| == |ranked|
    ensures var hop, diluted := HopVoted(hopped), Diluted(ranked, k);
            Total(Considered(ranked, k, hopped), BySource, source) ==
            if HopTail.Promotes(diluted, k, hop)
            then CountOf(diluted, BySource, source, k - 1)
                 + (if BySource(diluted[HopTail.FirstHop(diluted, hop, 0)]) == Some(source) then 1 else 0)
            else CountOf(diluted, BySource, source, k)
    ensures Total(Considered(ranked, k, hopped), BySource, source) <= CountOf(Diluted(ranked, k), BySource, source, k) + 1
  {
    ResliceIsAPermutation(ranked, BySource, Cap(k), k);
    ResliceIsAPermutation(Capped(ranked, k), Verbatim, VERBATIM_CAP, k);
    ReserveCounts(Diluted(ranked, k), k, hopped, source);
    var promoted := Promoted(ranked, k, hopped);
    assert promoted[..k] <= promoted;
    PrefixCount(promoted[..k], promoted, source);
    CountGrows(Diluted(ranked, k), BySource, source, if k == 0 then 0 else k - 1, k);
  }

  /** The row a promotion brings, if there is one. */
  function PromotedRow(ranked: seq<Candidate>, k: nat, hopped: set<string>): Option<Candidate> {
    var hop, diluted := HopVoted(hopped), Diluted(ranked, k);
    if HopTail.Promotes(diluted, k, hop) then Some(diluted[HopTail.FirstHop(diluted, hop, 0)]) else None
  }

  /** How many rows of the page were there before the reserve: all, or all but the slot it gave away. */
  function Untouched(ranked: seq<Candidate>, k: nat, hopped: set<string>): nat {
    if PromotedRow(ranked, k, hopped).Some? && k > 0 then k - 1 else k
  }

  /**
   The bound the code documents, one row over the cap, is broken on the page considered if and only if:
   where slices flood it, the first slice, the claims after it and the slices after those, as far as the
   page reads them, hold more with the promoted row; and otherwise, two deferred rows of the source, or
   one beside the promoted one, fill the page up when the rows within quota run out.
   */
  lemma OverCapPlusOneExactly(ranked: seq<Candidate>, k: nat, hopped: set<string>, source: string)
    requires |ranked| > k
    ensures |Capped(ranked, k)| == |ranked|
    ensures Floods(Capped(ranked, k), Verbatim, VERBATIM_CAP, k) ==> Untouched(ranked, k, hopped) >= 1
    ensures var n, promoted := Untouched(ranked, k, hopped), Credit(PromotedRow(ranked, k, hopped), source);
            Total(Considered(ranked, k, hopped), BySource, source) > Cap(k) + 1 <==>
            if Floods(Capped(ranked, k), Verbatim, VERBATIM_CAP, k)
            then OfSource(Capped(ranked, k), n, source) + promoted > Cap(k) + 1
            else Refill(ranked, k, n, source) + promoted > 1
  {
    var n, promoted := Untouched(ranked, k, hopped), Credit(PromotedRow(ranked, k, hopped), source);
    PageHolds(ranked, k, hopped, source);
    CappedHoldsExactly(ranked, k, n, source, 1 - promoted);
    if Floods(Capped(ranked, k), Verbatim, VERBATIM_CAP, k) {
      FloodHasASlice(Capped(ranked, k), k, k);
      VerbatimPassHoldsExactly(Capped(ranked, k), k, n, source);
    }
  }

  /** So it holds of the page returned whenever `k` rows are within the source quota and the slices do not flood the page. */
  lemma WithinCapPlusOne(ranked: seq<Candidate>, k: nat, hopped: set<string>, floor: real, source: string)
    requires |ranked| > k && |Taken(ranked, BySource, Cap(k), |ranked|)| >= k
    requires !Floods(Capped(ranked, k), Verbatim, VERBATIM_CAP, k)
    ensures Total(Considered(ranked, k, hopped), BySource, source) <= Cap(k) + 1
    ensures Total(Shown(ranked, k, hopped, floor), BySource, source) <= Cap(k) + 1
  {
    OverCapPlusOneExactly(ranked, k, hopped, source);
    ShownOnlyDrops(ranked, k, hopped, floor, BySource, source);
  }

  // ---- the two ways to break the bound ----

  lemma {:induction false} AllOfOneSource(rows: seq<Candidate>, n: nat, source: string)
    requires n <= |rows| && forall i | 0 <= i < n :: BySource(rows[i]) == Some(source)
    ensures CountOf(rows, BySource, source, n) == n
  {
    if n > 0 {
      AllOfOneSource(rows, n - 1, source);
    }
  }

  /**
   Candidates of one source alone fill the page with it: the cap defers rows, and nothing else is there
   to pull up.  With four slots or more that is past `cap + 1`, and no slice is needed.
   */
  lemma OneSourceAloneFillsThePage(ranked: seq<Candidate>, k: nat, hopped: set<string>, source: string)
    requires |ranked| > k && forall i | 0 <= i < |ranked| :: BySource(ranked[i]) == Some(source)
    ensures Total(Considered(ranked, k, hopped), BySource, source) == k
    ensures k >= 4 ==> Total(Considered(ranked, k, hopped), BySource, source) > Cap(k) + 1
  {
    var page := Considered(ranked, k, hopped);
    PageComesFromTheCandidates(ranked, k, hopped);
    forall i | 0 <= i < |page|
      ensures BySource(page[i]) == Some(source)
    {
      assert page[i] in multiset(page);
      assert page[i] in multiset(ranked);
    }
    AllOfOneSource(page, k, source);
  }

  /** Such candidates: claims of one source, no two the same. */
  lemma ClaimsAloneBreakTheBound(k: nat, ids: seq<string>, source: string) returns (ranked: seq<Candidate>)
    requires k >= 4 && |ids| == k + 1 && NoRepeats(ids)
    ensures |ranked| == k + 1 && Slices(ranked, k + 1) == 0
    ensures forall i | 0 <= i <= k :: ranked[i].hit == Memory(ids[i], Some(source))
    ensures Total(Considered(ranked, k, {}), BySource, source) == k > Cap(k) + 1
  {
    ranked := seq(k + 1, i requires 0 <= i < k + 1 => At(i, Memory(ids[i], Some(source))));
    OneSourceAloneFillsThePage(ranked, k, {}, source);
    Unseen(ranked, Verbatim, VERBATIM_KEY, 0, k + 1);
  }

  /** A candidate at rank `i`, unmeasured. */
  function At(i: nat, hit: Hit): Candidate {
    Candidate(hit, None, 1.0 / (i + 1) as real, 1.0 / (i + 1) as real)
  }

  /** `k - 1` slices of as many documents, then `k - 1` claims of one source. */
  function Swamped(k: nat, episodes: seq<string>, ids: seq<string>, source: string): seq<Candidate>
    requires k >= 1 && |episodes| == k - 1 && |ids| == 2 * (k - 1)
  {
    seq(2 * (k - 1), i requires 0 <= i < 2 * (k - 1) =>
      At(i, if i < k - 1 then Chunk(ids[i], episodes[i]) else Memory(ids[i], Some(source))))
  }

  /** Documents and rows are told apart, and the claims are distilled from none of those documents. */
  predicate ToldApart(episodes: seq<string>, ids: seq<string>, source: string) {
    NoRepeats(episodes) && NoRepeats(ids) && forall i | 0 <= i < |episodes| :: source != "episode:" + episodes[i]
  }

  lemma {:induction false} Unseen(rows: seq<Candidate>, key: Keying<Candidate>, source: string, m: nat, n: nat)
    requires m <= n <= |rows| && forall i | m <= i < n :: key(rows[i]) != Some(source)
    ensures CountOf(rows, key, source, n) == CountOf(rows, key, source, m)
  {
    if m < n {
      Unseen(rows, key, source, m, n - 1);
    }
  }

  lemma {:induction false} ClaimsOfOneSource(rows: seq<Candidate>, n: nat, source: string)
    requires n <= |rows| && forall i | 0 <= i < n && rows[i].hit.Memory? :: BySource(rows[i]) == Some(source)
    ensures Total(Claims(rows, n), BySource, source) == |Claims(rows, n)|
  {
    if n > 0 {
      ClaimsOfOneSource(rows, n - 1, source);
      CountSnoc(Claims(rows, n - 1), rows[n - 1], BySource, source);
    }
  }

  lemma FirstOfItsKind(rows: seq<Candidate>, cap: nat, i: nat)
    requires i < |rows| && cap >= 1 && forall j | 0 <= j < i :: BySource(rows[j]) != BySource(rows[i])
    ensures !Over(rows, BySource, cap, i)
  {
    if BySource(rows[i]).Some? {
      Unseen(rows, BySource, BySource(rows[i]).value, 0, i);
    }
  }

  lemma EpisodesTellApart(a: string, b: string)
    requires a != b
    ensures "episode:" + a != "episode:" + b
  {
    assert ("episode:" + a)[8..] == a && ("episode:" + b)[8..] == b;
  }

  /** The source cap sees nothing to do: the first `k` rows are of `k` sources. */
  lemma SwampedIsLeftAlone(k: nat, episodes: seq<string>, ids: seq<string>, source: string)
    requires k >= 3 && |episodes| == k - 1 && |ids| == 2 * (k - 1) && ToldApart(episodes, ids, source)
    ensures Capped(Swamped(k, episodes, ids, source), k) == Swamped(k, episodes, ids, source)
    ensures forall i | 0 <= i < k :: !Over(Swamped(k, episodes, ids, source), BySource, Cap(k), i)
  {
    var rows := Swamped(k, episodes, ids, source);
    forall i | 0 <= i < k
      ensures !Over(rows, BySource, Cap(k), i)
    {
      forall j | 0 <= j < i
        ensures BySource(rows[j]) != BySource(rows[i])
      {
        if i < k - 1 {
          EpisodesTellApart(episodes[j], episodes[i]);
        }
      }
      FirstOfItsKind(rows, Cap(k), i);
    }
  }

  lemma SwampedFloods(k: nat, episodes: seq<string>, ids: seq<string>, source: string)
    requires k >= 3 && |episodes| == k - 1 && |ids| == 2 * (k - 1)
    ensures Floods(Swamped(k, episodes, ids, source), Verbatim, VERBATIM_CAP, k)
  {
    var rows := Swamped(k, episodes, ids, source);
    assert Slices(rows, 0) == 0 && Slices(rows, 1) == 1;
    assert Over(rows, Verbatim, VERBATIM_CAP, 1);
  }

  lemma SwampedClaims(k: nat, episodes: seq<string>, ids: seq<string>, source: string)
    requires k >= 3 && |episodes| == k - 1 && |ids| == 2 * (k - 1)
    ensures var rows := Swamped(k, episodes, ids, source);
            |Claims(rows, |rows|)| >= k - 1 && Total(Claims(rows, |rows|), BySource, source) == |Claims(rows, |rows|)|
  {
    var rows := Swamped(k, episodes, ids, source);
    ClaimsAreTheRest(rows, |rows|);
    ClaimsOfOneSource(rows, |rows|, source);
    Unseen(rows, Verbatim, VERBATIM_KEY, k - 1, |rows|);
    CountGrowsByAtMostOne(rows, Verbatim, VERBATIM_KEY, 0, k - 1);
  }

  lemma SwampedPage(k: nat, episodes: seq<string>, ids: seq<string>, source: string)
    requires k >= 3 && |episodes| == k - 1 && |ids| == 2 * (k - 1)
    ensures var rows := Swamped(k, episodes, ids, source);
            |Reordered(rows, Verbatim, VERBATIM_CAP, k)| == |rows|
            && CountOf(Reordered(rows, Verbatim, VERBATIM_CAP, k), BySource, source, k) >= k - 1
  {
    var rows := Swamped(k, episodes, ids, source);
    SwampedFloods(k, episodes, ids, source);
    SwampedClaims(k, episodes, ids, source);
    var claims := Claims(rows, |rows|);
    CountGrowsByAtMostOne(claims, BySource, source, k - 1, |claims|);
    VerbatimPassHoldsExactly(rows, k, k, source);
  }

  /**
   At every page size and for every source, it can hold every slot but one: the cap leaves its claims
   below the cut, and the verbatim pass then pulls them all up.  From six slots on that is past `cap + 1`.
   */
  lemma OneSourceCanHoldAllButOneSlot(k: nat, episodes: seq<string>, ids: seq<string>, source: string) returns (ranked: seq<Candidate>)
    requires k >= 3 && |episodes| == k - 1 && |ids| == 2 * (k - 1) && ToldApart(episodes, ids, source)
    ensures |ranked| > k && |Taken(ranked, BySource, Cap(k), |ranked|)| >= k
    ensures Total(Considered(ranked, k, {}), BySource, source) >= k - 1
    ensures k >= 6 ==> Total(Considered(ranked, k, {}), BySource, source) > Cap(k) + 1
  {
    ranked := Swamped(k, episodes, ids, source);
    SwampedIsLeftAlone(k, episodes, ids, source);
    SwampedPage(k, episodes, ids, source);
    EnoughWithin(ranked, k);
    PageHolds(ranked, k, {}, source);
    NobodyIsVoted(Diluted(ranked, k), k);
  }

  /** A list whose first `k` rows are left alone has `k` rows within quota. */
  lemma EnoughWithin(ranked: seq<Candidate>, k: nat)
    requires |ranked| > k && forall i | 0 <= i < k :: !Over(ranked, BySource, Cap(k), i)
    ensures |Taken(ranked, BySource, Cap(k), |ranked|)| >= k
  {
    TakenAndDeferredSizes(ranked, BySource, Cap(k), k);
    DeferringMeansOver(ranked, BySource, Cap(k), k);
    TakenGrows(ranked, BySource, Cap(k), k, |ranked|);
  }

  lemma NobodyIsVoted(rows: seq<Candidate>, k: nat)
    ensures !HopTail.Promotes(rows, k, HopVoted({}))
  {
    HopTail.FirstHopIs(rows, HopVoted({}), |rows|);
  }
}
