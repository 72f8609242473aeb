/**
 No source may flood a page (crates/agmem-server/src/tools/occupancy.rs): rows over their source's
 quota are deferred below the others, never dropped.
 */
module Occupancy {
  import opened Common

  /** Half the page, rounded up, and never below two. */
  function Cap(k: nat): (cap: nat)
    ensures cap >= 2 && 2 * cap >= k && (k >= 3 ==> 2 * (cap - 1) < k)
  {
    var half := (k + 1) / 2;
    if half < 2 then 2 else half
  }

  datatype Resliced = Resliced(displaced: nat, sources: seq<string>)

  type Keying<!T> = T -> Option<string>

  /** How many of the first `n` rows carry `source`. */
  function CountOf<T>(rows: seq<T>, key: Keying<T>, source: string, n: nat): nat
    requires n <= |rows|
  {
    if n == 0 then 0
    else CountOf(rows, key, source, n - 1) + (if key(rows[n - 1]) == Some(source) then 1 else 0)
  }

  /** A row is over quota when its source already fills its cap above it. */
  predicate Over<T>(rows: seq<T>, key: Keying<T>, cap: nat, i: nat)
    requires i < |rows|
  {
    key(rows[i]).Some? && CountOf(rows, key, key(rows[i]).value, i) >= cap
  }

  /** The rows below `n` within quota, in order; and those over it, in order. */
  function Taken<T>(rows: seq<T>, key: Keying<T>, cap: nat, n: nat): seq<T>
    requires n <= |rows|
  {
    if n == 0 then []
    else Taken(rows, key, cap, n - 1) + (if Over(rows, key, cap, n - 1) then [] else [rows[n - 1]])
  }

  function Deferred<T>(rows: seq<T>, key: Keying<T>, cap: nat, n: nat): seq<T>
    requires n <= |rows|
  {
    if n == 0 then []
    else Deferred(rows, key, cap, n - 1) + (if Over(rows, key, cap, n - 1) then [rows[n - 1]] else [])
  }

  /** Some row of the first `k` is over quota. */
  predicate Floods<T>(rows: seq<T>, key: Keying<T>, cap: nat, k: nat) {
    |rows| > k && exists i :: 0 <= i < k && Over(rows, key, cap, i)
  }

  /** The list after the pass. */
  function Reordered<T>(rows: seq<T>, key: Keying<T>, cap: nat, k: nat): seq<T> {
    if Floods(rows, key, cap, k)
    then Taken(rows, key, cap, |rows|) + Deferred(rows, key, cap, |rows|) else rows
  }

  // ---- what the re-slice is ----

  predicate Split<T(==)>(a: seq<T>, b: seq<T>, all: seq<T>) {
    multiset(a) + multiset(b) == multiset(all)
  }

  predicate SplitBelow<T(==)>(rows: seq<T>, key: Keying<T>, cap: nat, n: nat)
    requires n <= |rows|
  {
    Split(Taken(rows, key, cap, n), Deferred(rows, key, cap, n), rows[..n])
  }

  lemma SplitStart<T>(rows: seq<T>, key: Keying<T>, cap: nat)
    ensures SplitBelow(rows, key, cap, 0)
  {
  }

  lemma SplitGrows<T>(a: seq<T>, b: seq<T>, all: seq<T>, x: T, a': seq<T>, b': seq<T>, all': seq<T>)
    requires Split(a, b, all) && all' == all + [x]
    requires (a' == a + [x] && b' == b) || (a' == a && b' == b + [x])
    ensures Split(a', b', all')
  {
    assert multiset(all + [x]) == multiset(all) + multiset{x};
  }

  /** One more row goes to exactly one of the two lists. */
  lemma SortedIntoOne<T>(rows: seq<T>, key: Keying<T>, cap: nat, n: nat)
    requires n < |rows|
    ensures Taken(rows, key, cap, n + 1)
         == if Over(rows, key, cap, n) then Taken(rows, key, cap, n) else Taken(rows, key, cap, n) + [rows[n]]
    ensures Deferred(rows, key, cap, n + 1)
         == if Over(rows, key, cap, n) then Deferred(rows, key, cap, n) + [rows[n]] else Deferred(rows, key, cap, n)
  {
    var taken, deferred := Taken(rows, key, cap, n), Deferred(rows, key, cap, n);
    assert taken + [] == taken && deferred + [] == deferred;
  }

  lemma SplitStep<T>(rows: seq<T>, key: Keying<T>, cap: nat, m: nat, n: nat)
    requires m + 1 == n <= |rows| && SplitBelow(rows, key, cap, m)
    ensures SplitBelow(rows, key, cap, n)
  {
    SortedIntoOne(rows, key, cap, m);
    assert rows[..n] == rows[..m] + [rows[m]];
    SplitGrows(Taken(rows, key, cap, m), Deferred(rows, key, cap, m), rows[..m], rows[m],
               Taken(rows, key, cap, n), Deferred(rows, key, cap, n), rows[..n]);
  }

  lemma {:induction false} TakenAndDeferredAreAll<T>(rows: seq<T>, key: Keying<T>, cap: nat, n: nat)
    requires n <= |rows|
    ensures SplitBelow(rows, key, cap, n)
  {
    if n == 0 {
      SplitStart(rows, key, cap);
    } else {
      TakenAndDeferredAreAll(rows, key, cap, n - 1);
      SplitStep(rows, key, cap, n - 1, n);
    }
  }

  lemma {:induction false} TakenAndDeferredSizes<T>(rows: seq<T>, key: Keying<T>, cap: nat, n: nat)
    requires n <= |rows|
    ensures |Taken(rows, key, cap, n)| + |Deferred(rows, key, cap, n)| == n
  {
    if n > 0 {
      TakenAndDeferredSizes(rows, key, cap, n - 1);
    }
  }

  /** Nothing is dropped: the re-slice is a permutation. */
  lemma ResliceIsAPermutation<T>(rows: seq<T>, key: Keying<T>, cap: nat, k: nat)
    ensures multiset(Reordered(rows, key, cap, k)) == multiset(rows)
    ensures |Reordered(rows, key, cap, k)| == |rows|
  {
    TakenAndDeferredAreAll(rows, key, cap, |rows|);
    TakenAndDeferredSizes(rows, key, cap, |rows|);
    assert rows[..|rows|] == rows;
  }

  /** Below the cap, the taken rows carry a source exactly as often as the rows did. */
  lemma {:induction false} TakenHoldsAtMostCap<T>(rows: seq<T>, key: Keying<T>, cap: nat, n: nat, source: string)
    requires n <= |rows|
    ensures var taken := Taken(rows, key, cap, n); var all := CountOf(rows, key, source, n);
            CountOf(taken, key, source, |taken|) == (if all < cap then all else cap)
  {
    if n > 0 {
      TakenHoldsAtMostCap(rows, key, cap, n - 1, source);
      var before := Taken(rows, key, cap, n - 1);
      assert before + [] == before;
      if !Over(rows, key, cap, n - 1) {
        CountSnoc(before, rows[n - 1], key, source);
      }
    }
  }

  lemma {:induction false} CountPrefix<T>(rows: seq<T>, more: seq<T>, key: Keying<T>, source: string, n: nat)
    requires n <= |rows|
    ensures CountOf(rows + more, key, source, n) == CountOf(rows, key, source, n)
  {
    if n > 0 {
      CountPrefix(rows, more, key, source, n - 1);
    }
  }

  lemma CountSnoc<T>(rows: seq<T>, row: T, key: Keying<T>, source: string)
    ensures CountOf(rows + [row], key, source, |rows| + 1)
         == CountOf(rows, key, source, |rows|) + (if key(row) == Some(source) then 1 else 0)
  {
    CountPrefix(rows, [row], key, source, |rows|);
  }

  lemma {:induction false} CountGrows<T>(rows: seq<T>, key: Keying<T>, source: string, m: nat, n: nat)
    requires m <= n <= |rows|
    ensures CountOf(rows, key, source, m) <= CountOf(rows, key, source, n)
  {
    if m < n {
      CountGrows(rows, key, source, m, n - 1);
    }
  }

  /** With nobody over quota among the first `n`, no source fills more than its cap there. */
  lemma {:induction false} NobodyOverMeansWithinCap<T>(rows: seq<T>, key: Keying<T>, cap: nat, n: nat, source: string)
    requires n <= |rows| && forall i | 0 <= i < n :: !Over(rows, key, cap, i)
    ensures CountOf(rows, key, source, n) <= cap
  {
    if n > 0 {
      NobodyOverMeansWithinCap(rows, key, cap, n - 1, source);
      assert !Over(rows, key, cap, n - 1);
    }
  }

  /**
   After the pass no source holds more than its cap of the first min(k, rows within quota); with k
   or more rows within quota, of the whole page.
   */
  lemma PageObeysTheCap<T>(rows: seq<T>, key: Keying<T>, cap: nat, k: nat, source: string, n: nat)
    requires |rows| > k && n <= k && n <= |Taken(rows, key, cap, |rows|)|
    ensures n <= |Reordered(rows, key, cap, k)|
    ensures CountOf(Reordered(rows, key, cap, k), key, source, n) <= cap
  {
    ResliceIsAPermutation(rows, key, cap, k);
    if Floods(rows, key, cap, k) {
      var taken := Taken(rows, key, cap, |rows|);
      CountPrefix(taken, Deferred(rows, key, cap, |rows|), key, source, n);
      TakenHoldsAtMostCap(rows, key, cap, |rows|, source);
      CountGrows(taken, key, source, n, |taken|);
    } else {
      NobodyOverMeansWithinCap(rows, key, cap, n, source);
    }
  }

  /** The first `k` rows already obey the cap. */
  ghost predicate Obeys<T>(rows: seq<T>, key: Keying<T>, cap: nat, k: nat)
    requires k <= |rows|
  {
    forall source :: CountOf(rows, key, source, k) <= cap
  }

  /** Left alone exactly when the list does not overflow the page, or its page already obeys the cap. */
  lemma LeftAloneExactlyWhenObeyed<T>(rows: seq<T>, key: Keying<T>, cap: nat, k: nat)
    ensures Floods(rows, key, cap, k) <==> |rows| > k && !Obeys(rows, key, cap, k)
  {
    if |rows| > k {
      if i :| 0 <= i < k && Over(rows, key, cap, i) {
        var source := key(rows[i]).value;
        CountGrows(rows, key, source, i + 1, k);
        assert CountOf(rows, key, source, k) > cap;
      } else {
        forall source
          ensures CountOf(rows, key, source, k) <= cap
        {
          NobodyOverMeansWithinCap(rows, key, cap, k, source);
        }
      }
    }
  }

  // ---- counting through the pass, by any keying ----

  lemma {:induction false} SameRowsSameCount<T>(a: seq<T>, b: seq<T>, key: Keying<T>, source: string, n: nat)
    requires n <= |a| && n <= |b| && a[..n] == b[..n]
    ensures CountOf(a, key, source, n) == CountOf(b, key, source, n)
  {
    if n > 0 {
      assert a[..n][n - 1] == b[..n][n - 1];
      assert a[..n - 1] == a[..n][..n - 1] && b[..n - 1] == b[..n][..n - 1];
      SameRowsSameCount(a, b, key, source, n - 1);
    }
  }

  lemma {:induction false} CountOfBoth<T>(a: seq<T>, b: seq<T>, key: Keying<T>, source: string, n: nat)
    requires n <= |b|
    ensures CountOf(a + b, key, source, |a| + n) == CountOf(a, key, source, |a|) + CountOf(b, key, source, n)
  {
    if n > 0 {
      CountOfBoth(a, b, key, source, n - 1);
      assert (a + b)[|a| + n - 1] == b[n - 1];
    } else {
      CountPrefix(a, b, key, source, |a|);
    }
  }

  function Total<T>(rows: seq<T>, key: Keying<T>, source: string): nat {
    CountOf(rows, key, source, |rows|)
  }

  lemma TotalOfBoth<T>(a: seq<T>, b: seq<T>, key: Keying<T>, source: string)
    ensures Total(a + b, key, source) == Total(a, key, source) + Total(b, key, source)
  {
    CountOfBoth(a, b, key, source, |b|);
  }

  /** Two neighbouring stretches may change places. */
  lemma TotalIgnoresOrder<T>(a: seq<T>, x: seq<T>, b: seq<T>, c: seq<T>, key: Keying<T>, source: string)
    ensures Total(a + x + b + c, key, source) == Total(a + b + x + c, key, source)
  {
    TotalOfBoth(a, x, key, source);
    TotalOfBoth(a + x, b, key, source);
    TotalOfBoth(a + x + b, c, key, source);
    TotalOfBoth(a, b, key, source);
    TotalOfBoth(a + b, x, key, source);
    TotalOfBoth(a + b + x, c, key, source);
  }

  lemma {:induction false} CountGrowsByAtMostOne<T>(rows: seq<T>, key: Keying<T>, source: string, m: nat, n: nat)
    requires m <= n <= |rows|
    ensures CountOf(rows, key, source, m) <= CountOf(rows, key, source, n) <= CountOf(rows, key, source, m) + (n - m)
  {
    if m < n {
      CountGrowsByAtMostOne(rows, key, source, m, n - 1);
    }
  }

  /** However the pass sorts the rows, it keeps how often any other keying finds a source among them. */
  ghost predicate CountsKept<T>(rows: seq<T>, key: Keying<T>, cap: nat, seen: Keying<T>, source: string, n: nat)
    requires n <= |rows|
  {
    var taken, deferred := Taken(rows, key, cap, n), Deferred(rows, key, cap, n);
    CountOf(taken, seen, source, |taken|) + CountOf(deferred, seen, source, |deferred|) == CountOf(rows, seen, source, n)
  }

  lemma CountsKeptStep<T>(rows: seq<T>, key: Keying<T>, cap: nat, seen: Keying<T>, source: string, m: nat, n: nat)
    requires m + 1 == n <= |rows| && CountsKept(rows, key, cap, seen, source, m)
    ensures CountsKept(rows, key, cap, seen, source, n)
  {
    SortedIntoOne(rows, key, cap, m);
    CountSnoc(Taken(rows, key, cap, m), rows[m], seen, source);
    CountSnoc(Deferred(rows, key, cap, m), rows[m], seen, source);
  }

  lemma {:induction false} SortingKeepsCounts<T>(rows: seq<T>, key: Keying<T>, cap: nat, seen: Keying<T>, source: string, n: nat)
    requires n <= |rows|
    ensures CountsKept(rows, key, cap, seen, source, n)
  {
    if n > 0 {
      SortingKeepsCounts(rows, key, cap, seen, source, n - 1);
      CountsKeptStep(rows, key, cap, seen, source, n - 1, n);
    }
  }

  lemma ReslicingKeepsCounts<T>(rows: seq<T>, key: Keying<T>, cap: nat, k: nat, seen: Keying<T>, source: string)
    ensures var after := Reordered(rows, key, cap, k);
            |after| == |rows| && CountOf(after, seen, source, |after|) == CountOf(rows, seen, source, |rows|)
  {
    ResliceIsAPermutation(rows, key, cap, k);
    if Floods(rows, key, cap, k) {
      var taken, deferred := Taken(rows, key, cap, |rows|), Deferred(rows, key, cap, |rows|);
      SortingKeepsCounts(rows, key, cap, seen, source, |rows|);
      CountOfBoth(taken, deferred, seen, source, |deferred|);
    }
  }

  /** What any keying finds in the first `n` rows of the new list: rows within quota first, then deferred ones. */
  lemma PageCount<T>(rows: seq<T>, key: Keying<T>, cap: nat, k: nat, seen: Keying<T>, source: string, n: nat)
    requires Floods(rows, key, cap, k) && n <= |rows|
    ensures |Reordered(rows, key, cap, k)| == |rows|
    ensures |Taken(rows, key, cap, |rows|)| + |Deferred(rows, key, cap, |rows|)| == |rows|
    ensures var within, over := Taken(rows, key, cap, |rows|), Deferred(rows, key, cap, |rows|);
            CountOf(Reordered(rows, key, cap, k), seen, source, n) ==
            if |within| >= n then CountOf(within, seen, source, n)
            else CountOf(within, seen, source, |within|) + CountOf(over, seen, source, n - |within|)
  {
    var within, over := Taken(rows, key, cap, |rows|), Deferred(rows, key, cap, |rows|);
    TakenAndDeferredSizes(rows, key, cap, |rows|);
    if |within| >= n {
      CountPrefix(within, over, seen, source, n);
    } else {
      CountOfBoth(within, over, seen, source, n - |within|);
    }
  }

  /** A source with a deferred row fills its cap among the rows within quota. */
  lemma DeferredMeansFull<T>(rows: seq<T>, key: Keying<T>, cap: nat, source: string)
    ensures var taken, deferred := Taken(rows, key, cap, |rows|), Deferred(rows, key, cap, |rows|);
            CountOf(deferred, key, source, |deferred|) > 0 ==> CountOf(taken, key, source, |taken|) == cap
  {
    SortingKeepsCounts(rows, key, cap, key, source, |rows|);
    TakenHoldsAtMostCap(rows, key, cap, |rows|, source);
  }

  /**
   The page holds more than the cap of a source if and only if the rows within quota run out and one
   of the deferred rows that fill it up is of that source.
   */
  lemma PageOverTheCapExactly<T>(rows: seq<T>, key: Keying<T>, cap: nat, k: nat, source: string)
    requires |rows| > k
    ensures |Reordered(rows, key, cap, k)| == |rows|
    ensures |Taken(rows, key, cap, |rows|)| + |Deferred(rows, key, cap, |rows|)| == |rows|
    ensures var within, over := Taken(rows, key, cap, |rows|), Deferred(rows, key, cap, |rows|);
            CountOf(Reordered(rows, key, cap, k), key, source, k) > cap <==>
            Floods(rows, key, cap, k) && |within| < k && CountOf(over, key, source, k - |within|) > 0
  {
    var within, over := Taken(rows, key, cap, |rows|), Deferred(rows, key, cap, |rows|);
    TakenAndDeferredSizes(rows, key, cap, |rows|);
    TakenHoldsAtMostCap(rows, key, cap, |rows|, source);
    if Floods(rows, key, cap, k) {
      PageCount(rows, key, cap, k, key, source, k);
      DeferredMeansFull(rows, key, cap, source);
      if |within| >= k {
        CountGrows(within, key, source, k, |within|);
      } else {
        CountGrows(over, key, source, k - |within|, |over|);
      }
    } else {
      NobodyOverMeansWithinCap(rows, key, cap, k, source);
    }
  }

  // ---- the order of the new list ----

  predicate NoneBelow<T>(rows: seq<T>, score: T -> real, from: nat, to: nat, v: real)
    requires from <= to <= |rows|
  {
    forall i | from <= i < to :: score(rows[i]) >= v
  }

  lemma RunTakesOne<T>(part: seq<T>, score: T -> real, from: nat, x: T)
    requires from <= |part| && SortedFrom(part, score, from, |part|) && NoneBelow(part, score, from, |part|, score(x))
    ensures SortedFrom(part + [x], score, from, |part| + 1) && NoneBelow(part + [x], score, from, |part| + 1, score(x))
  {
  }

  /** A sorted run of rows goes into each part as a sorted run. */
  lemma {:induction false} RunStaysSorted<T>(rows: seq<T>, key: Keying<T>, cap: nat, score: T -> real, from: nat, to: nat, v: real)
    requires from <= to <= |rows| && SortedFrom(rows, score, from, to) && NoneBelow(rows, score, from, to, v)
    ensures var a, b := |Taken(rows, key, cap, from)|, |Deferred(rows, key, cap, from)|;
            var taken, deferred := Taken(rows, key, cap, to), Deferred(rows, key, cap, to);
            && a <= |taken| && SortedFrom(taken, score, a, |taken|) && NoneBelow(taken, score, a, |taken|, v)
            && b <= |deferred| && SortedFrom(deferred, score, b, |deferred|) && NoneBelow(deferred, score, b, |deferred|, v)
  {
    if from < to {
      RunStaysSorted(rows, key, cap, score, from, to - 1, score(rows[to - 1]));
      SortedIntoOne(rows, key, cap, to - 1);
      if Over(rows, key, cap, to - 1) {
        RunTakesOne(Deferred(rows, key, cap, to - 1), score, |Deferred(rows, key, cap, from)|, rows[to - 1]);
      } else {
        RunTakesOne(Taken(rows, key, cap, to - 1), score, |Taken(rows, key, cap, from)|, rows[to - 1]);
      }
    }
  }

  /** Both parts of the pass, when the list is two sorted runs that meet at `seam`. */
  lemma PartsOfTwoRuns<T>(rows: seq<T>, key: Keying<T>, cap: nat, score: T -> real, seam: nat)
    requires TwoRuns(rows, score, seam)
    ensures TwoRuns(Taken(rows, key, cap, |rows|), score, |Taken(rows, key, cap, seam)|)
    ensures TwoRuns(Deferred(rows, key, cap, |rows|), score, |Deferred(rows, key, cap, seam)|)
  {
    TakenGrows(rows, key, cap, seam, |rows|);
    if seam > 0 {
      RunStaysSorted(rows, key, cap, score, 0, seam, score(rows[seam - 1]));
    }
    if seam < |rows| {
      RunStaysSorted(rows, key, cap, score, seam, |rows|, score(rows[|rows| - 1]));
    }
  }

  predicate TwoRuns<T>(rows: seq<T>, score: T -> real, seam: nat) {
    seam <= |rows| && SortedFrom(rows, score, 0, seam) && SortedFrom(rows, score, seam, |rows|)
  }

  /** The two runs go on from one to the other, or the first `n` rows do not reach the second. */
  predicate Meets<T>(rows: seq<T>, score: T -> real, seam: nat, n: nat)
    requires seam <= |rows| && n <= |rows|
  {
    n <= seam || seam == 0 || score(rows[seam - 1]) >= score(rows[seam])
  }

  lemma TwoRunsSortedExactly<T>(rows: seq<T>, score: T -> real, seam: nat, n: nat)
    requires TwoRuns(rows, score, seam) && n <= |rows|
    ensures Sorted(rows, score, n) <==> Meets(rows, score, seam, n)
  {
  }

  lemma JoinedSortedExactly<T>(a: seq<T>, b: seq<T>, score: T -> real, n: nat)
    requires n <= |a| + |b|
    ensures Sorted(a + b, score, n) <==>
            if n <= |a| then Sorted(a, score, n)
            else Sorted(a, score, |a|) && Sorted(b, score, n - |a|) && Meets(a + b, score, |a|, n)
  {
    var ab := a + b;
    assert forall i | 0 <= i < |a| :: ab[i] == a[i];
    assert forall i | 0 <= i < |b| :: ab[|a| + i] == b[i];
  }

  /**
   A sorted list leaves the pass with its first `n` rows sorted if and only if nothing moved, they are
   all within quota, or no deferred row outscores the last row within quota.
   */
  lemma ResliceKeepsSortedExactly<T>(rows: seq<T>, key: Keying<T>, cap: nat, k: nat, score: T -> real, n: nat)
    requires Sorted(rows, score, |rows|) && n <= |rows|
    ensures |Reordered(rows, key, cap, k)| == |rows| >= |Taken(rows, key, cap, |rows|)|
    ensures Sorted(Reordered(rows, key, cap, k), score, n) <==>
            !Floods(rows, key, cap, k) || Meets(Reordered(rows, key, cap, k), score, |Taken(rows, key, cap, |rows|)|, n)
    ensures Floods(rows, key, cap, k) ==> TwoRuns(Reordered(rows, key, cap, k), score, |Taken(rows, key, cap, |rows|)|)
  {
    TakenAndDeferredSizes(rows, key, cap, |rows|);
    if Floods(rows, key, cap, k) {
      RunStaysSorted(rows, key, cap, score, 0, |rows|, score(rows[|rows| - 1]));
      JoinedAreTwoRuns(Taken(rows, key, cap, |rows|), Deferred(rows, key, cap, |rows|), score);
      TwoRunsSortedExactly(Reordered(rows, key, cap, k), score, |Taken(rows, key, cap, |rows|)|, n);
    }
  }

  lemma JoinedAreTwoRuns<T>(a: seq<T>, b: seq<T>, score: T -> real)
    requires Sorted(a, score, |a|) && Sorted(b, score, |b|)
    ensures TwoRuns(a + b, score, |a|)
  {
    var ab := a + b;
    assert forall i | 0 <= i < |b| :: ab[|a| + i] == b[i];
    forall i, j | |a| <= i < j < |ab|
      ensures score(ab[i]) >= score(ab[j])
    {
      assert ab[i] == b[i - |a|] && ab[j] == b[j - |a|];
    }
  }

  // ---- what `displaced` says ----

  /** How many of the first `n` rows are over quota: what the pass reports as displaced at `n == k`. */
  function OverCount<T>(rows: seq<T>, key: Keying<T>, cap: nat, n: nat): nat
    requires n <= |rows|
  {
    |Deferred(rows, key, cap, n)|
  }

  lemma {:induction false} TakenGrows<T>(rows: seq<T>, key: Keying<T>, cap: nat, m: nat, n: nat)
    requires m <= n <= |rows|
    ensures Taken(rows, key, cap, m) <= Taken(rows, key, cap, n)
    ensures Deferred(rows, key, cap, m) <= Deferred(rows, key, cap, n)
  {
    if m < n {
      TakenGrows(rows, key, cap, m, n - 1);
    }
  }

  /**
   The new page, row by row: the old page's rows within quota, then rows within quota pulled up from
   below, and, only when those run out, old page rows over quota again.  So every reported row left
   the page exactly when `k` rows are within quota; otherwise `k - within` of them are back.
   */
  lemma DisplacedIsAnUpperBound<T>(rows: seq<T>, key: Keying<T>, cap: nat, k: nat)
    requires Floods(rows, key, cap, k)
    ensures |Reordered(rows, key, cap, k)| == |rows|
    ensures var within := Taken(rows, key, cap, |rows|);
            && Taken(rows, key, cap, k) <= within && |Taken(rows, key, cap, k)| == k - OverCount(rows, key, cap, k)
            && k - |within| <= OverCount(rows, key, cap, k)
            && Reordered(rows, key, cap, k)[..k] ==
               if |within| >= k then within[..k] else within + Deferred(rows, key, cap, k)[..k - |within|]
  {
    ResliceIsAPermutation(rows, key, cap, k);
    TakenAndDeferredSizes(rows, key, cap, k);
    TakenGrows(rows, key, cap, k, |rows|);
  }

  /** The sources the first `n` of these rows carry, each once, in order. */
  function Distinct<T>(rows: seq<T>, key: Keying<T>, n: nat): seq<string>
    requires n <= |rows|
  {
    if n == 0 then []
    else
      var above := Distinct(rows, key, n - 1);
      var source := key(rows[n - 1]);
      if source.Some? && source.value !in above then above + [source.value] else above
  }

  lemma {:induction false} DistinctPrefix<T>(rows: seq<T>, more: seq<T>, key: Keying<T>, n: nat)
    requires n <= |rows|
    ensures Distinct(rows + more, key, n) == Distinct(rows, key, n)
  {
    if n > 0 {
      DistinctPrefix(rows, more, key, n - 1);
    }
  }

  lemma DistinctSnoc<T>(rows: seq<T>, row: T, key: Keying<T>)
    requires key(row).Some?
    ensures var named, grown := Distinct(rows, key, |rows|), Distinct(rows + [row], key, |rows| + 1);
            grown == if key(row).value in named then named else named + [key(row).value]
  {
    DistinctPrefix(rows, [row], key, |rows|);
  }

  /** The sources of the rows over quota among the first `n`, each once: what the pass reports at `n == k`. */
  function Reported<T>(rows: seq<T>, key: Keying<T>, cap: nat, n: nat): seq<string>
    requires n <= |rows|
  {
    if n == 0 then []
    else
      var named := Reported(rows, key, cap, n - 1);
      if Over(rows, key, cap, n - 1) && key(rows[n - 1]).value !in named then named + [key(rows[n - 1]).value] else named
  }

  /** The loop over the deferred rows finds them. */
  lemma {:induction false} ReportedIsDistinct<T>(rows: seq<T>, key: Keying<T>, cap: nat, n: nat)
    requires n <= |rows|
    ensures var over := Deferred(rows, key, cap, n); Distinct(over, key, |over|) == Reported(rows, key, cap, n)
  {
    if n > 0 {
      ReportedIsDistinct(rows, key, cap, n - 1);
      SortedIntoOne(rows, key, cap, n - 1);
      if Over(rows, key, cap, n - 1) {
        DistinctSnoc(Deferred(rows, key, cap, n - 1), rows[n - 1], key);
      }
    }
  }

  /** The sources reported are exactly those holding more than the cap of the first rows; */
  lemma {:induction false} ReportedExactlyWhenOverTheCap<T>(rows: seq<T>, key: Keying<T>, cap: nat, n: nat, source: string)
    requires n <= |rows|
    ensures source in Reported(rows, key, cap, n) <==> CountOf(rows, key, source, n) > cap
  {
    if n > 0 {
      ReportedExactlyWhenOverTheCap(rows, key, cap, n - 1, source);
    }
  }

  /** ... each once. */
  lemma {:induction false} ReportedOnce<T>(rows: seq<T>, key: Keying<T>, cap: nat, n: nat)
    requires n <= |rows|
    ensures NoRepeats(Reported(rows, key, cap, n))
  {
    if n > 0 {
      ReportedOnce(rows, key, cap, n - 1);
    }
  }

  // ---- the code ----

  /** What the counting loop knows after `index` rows: how full each source is, */
  ghost predicate Counted<T(!new)>(rows: seq<T>, key: Keying<T>, cap: nat, index: nat, counts: map<string, nat>)
    requires index <= |rows|
  {
    forall s :: Held(counts, s) == Least(CountOf(rows, key, s, index), cap)
  }

  /** and which rows went where. */
  ghost predicate Listed<T>(rows: seq<T>, key: Keying<T>, cap: nat, k: nat, index: nat, taken: seq<nat>, deferred: seq<nat>)
    requires index <= |rows|
  {
    && Below(taken, index) && Below(deferred, index)
    && At(rows, index, taken) == Taken(rows, key, cap, index)
    && At(rows, index, deferred) == Deferred(rows, key, cap, index)
    && forall x | 0 <= x < |deferred| :: deferred[x] < k <==> x < OverCount(rows, key, cap, Least(index, k))
  }

  function Held(counts: map<string, nat>, source: string): nat {
    if source in counts then counts[source] else 0
  }

  lemma ListTaken<T>(rows: seq<T>, key: Keying<T>, cap: nat, k: nat, index: nat, taken: seq<nat>, deferred: seq<nat>)
    requires index < |rows| && Listed(rows, key, cap, k, index, taken, deferred) && !Over(rows, key, cap, index)
    ensures Listed(rows, key, cap, k, index + 1, taken + [index], deferred)
  {
    SortedIntoOne(rows, key, cap, index);
    AtSnoc(rows, index, taken);
    AtSnoc(rows, index, deferred);
  }

  lemma ListDeferred<T>(rows: seq<T>, key: Keying<T>, cap: nat, k: nat, index: nat, taken: seq<nat>, deferred: seq<nat>)
    requires index < |rows| && Listed(rows, key, cap, k, index, taken, deferred) && Over(rows, key, cap, index)
    ensures Listed(rows, key, cap, k, index + 1, taken, deferred + [index])
  {
    SortedIntoOne(rows, key, cap, index);
    AtSnoc(rows, index, taken);
    AtSnoc(rows, index, deferred);
    assert |At(rows, index, deferred)| == |deferred|;
    if k <= index {
      TakenGrows(rows, key, cap, k, index);
    }
  }

  /** A row counts for its own source alone, and not past the cap. */
  lemma CountRow<T(!new)>(rows: seq<T>, key: Keying<T>, cap: nat, index: nat, counts: map<string, nat>, counts': map<string, nat>)
    requires index < |rows| && Counted(rows, key, cap, index, counts)
    requires var source := key(rows[index]);
             counts' == if source.Some? && Held(counts, source.value) < cap
                        then counts[source.value := Held(counts, source.value) + 1] else counts
    ensures Counted(rows, key, cap, index + 1, counts')
  {
    forall s
      ensures Held(counts', s) == Least(CountOf(rows, key, s, index + 1), cap)
    {
      assert Held(counts, s) == Least(CountOf(rows, key, s, index), cap);
      assert key(rows[index]) == Some(s) <==> key(rows[index]).Some? && key(rows[index]).value == s;
    }
  }

  method SortRow<T(!new)>(
    rows: seq<T>, key: Keying<T>, cap: nat, ghost k: nat, index: nat,
    counts: map<string, nat>, taken: seq<nat>, deferred: seq<nat>)
    returns (counts': map<string, nat>, taken': seq<nat>, deferred': seq<nat>)
    requires index < |rows| && Counted(rows, key, cap, index, counts) && Listed(rows, key, cap, k, index, taken, deferred)
    ensures Counted(rows, key, cap, index + 1, counts') && Listed(rows, key, cap, k, index + 1, taken', deferred')
  {
    counts', taken', deferred' := counts, taken, deferred;
    match key(rows[index]) {
    case Some(source) =>
      var count := Held(counts, source);
      if count < cap {
        ListTaken(rows, key, cap, k, index, taken, deferred);
        counts' := counts[source := count + 1];
        taken' := taken + [index];
      } else {
        ListDeferred(rows, key, cap, k, index, taken, deferred);
        deferred' := deferred + [index];
      }
    case None =>
      ListTaken(rows, key, cap, k, index, taken, deferred);
      taken' := taken + [index];
    }
    CountRow(rows, key, cap, index, counts, counts');
  }

  method Sort<T(!new)>(rows: seq<T>, key: Keying<T>, cap: nat, ghost k: nat) returns (taken: seq<nat>, deferred: seq<nat>)
    ensures Listed(rows, key, cap, k, |rows|, taken, deferred)
  {
    var counts := map[];
    taken, deferred := [], [];
    for index := 0 to |rows|
      invariant Counted(rows, key, cap, index, counts)
      invariant Listed(rows, key, cap, k, index, taken, deferred)
    {
      counts, taken, deferred := SortRow(rows, key, cap, k, index, counts, taken, deferred);
    }
  }

  /** Defer every row past the cap for its source; say how many left the page and whose they were. */
  method Apply<T(!new)>(ranked: seq<T>, k: nat, cap: nat, key: Keying<T>) returns (rows: seq<T>, report: Option<Resliced>)
    ensures rows == Reordered(ranked, key, cap, k)
    ensures report.Some? <==> Floods(ranked, key, cap, k)
    ensures report.Some? ==>
              report.value == Resliced(OverCount(ranked, key, cap, k), Reported(ranked, key, cap, k))
  {
    if |ranked| <= k {
      return ranked, None;
    }
    var taken, deferred := Sort(ranked, key, cap, k);
    ghost var over := Deferred(ranked, key, cap, k);
    ReportedIsDistinct(ranked, key, cap, k);
    TakenGrows(ranked, key, cap, k, |ranked|);
    var displaced := 0;
    while displaced < |deferred| && deferred[displaced] < k
      invariant displaced <= |over|
    {
      displaced := displaced + 1;
    }
    FloodsExactlyWhenDeferring(ranked, key, cap, k);
    if displaced == 0 {
      return ranked, None;
    }
    var sources := [];
    for x := 0 to displaced
      invariant sources == Distinct(over, key, x)
    {
      assert At(ranked, |ranked|, deferred)[x] == over[x];
      var source := key(ranked[deferred[x]]);
      if source.Some? && source.value !in sources {
        sources := sources + [source.value];
      }
    }
    rows := At(ranked, |ranked|, taken) + At(ranked, |ranked|, deferred);
    report := Some(Resliced(displaced, sources));
  }

  lemma {:induction false} DeferringMeansOver<T>(rows: seq<T>, key: Keying<T>, cap: nat, n: nat)
    requires n <= |rows|
    ensures |Deferred(rows, key, cap, n)| > 0 <==> exists i :: 0 <= i < n && Over(rows, key, cap, i)
  {
    if n > 0 {
      DeferringMeansOver(rows, key, cap, n - 1);
    }
  }

  lemma FloodsExactlyWhenDeferring<T>(rows: seq<T>, key: Keying<T>, cap: nat, k: nat)
    requires |rows| > k
    ensures Floods(rows, key, cap, k) <==> |Deferred(rows, key, cap, k)| > 0
  {
    DeferringMeansOver(rows, key, cap, k);
  }

  function Least(a: nat, b: nat): nat {
    if a < b then a else b
  }

  predicate Below(indices: seq<nat>, n: nat) {
    forall x | 0 <= x < |indices| :: indices[x] < n
  }

  function At<T>(rows: seq<T>, n: nat, indices: seq<nat>): seq<T>
    requires n <= |rows| && Below(indices, n)
  {
    seq(|indices|, x requires 0 <= x < |indices| => rows[indices[x]])
  }

  lemma AtSnoc<T>(rows: seq<T>, i: nat, indices: seq<nat>)
    requires i < |rows| && Below(indices, i)
    ensures Below(indices + [i], i + 1) && Below(indices, i + 1)
    ensures At(rows, i + 1, indices) == At(rows, i, indices)
    ensures At(rows, i + 1, indices + [i]) == At(rows, i, indices) + [rows[i]]
  {
  }
}
