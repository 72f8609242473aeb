/**
 The slot a full page keeps for the hop arm (`reserve_tail` in crates/agmem-server/src/tools/hop.rs):
 a row only the hop fetched ranks near the cut, and is seen all the same.
 */
module HopTail {
  import opened Common

  /** The first index from `from` on whose row the hop arm voted for, or the length. */
  function FirstHop<T>(rows: seq<T>, hop: T -> bool, from: nat): (j: nat)
    requires from <= |rows|
    ensures from <= j <= |rows|
    ensures j < |rows| ==> hop(rows[j])
    ensures forall i | from <= i < j :: !hop(rows[i])
    decreases |rows| - from
  {
    if from == |rows| || hop(rows[from]) then from else FirstHop(rows, hop, from + 1)
  }

  /** The row at `j` moves up to `at`. */
  function Move<T(==)>(rows: seq<T>, at: nat, j: nat): (moved: seq<T>)
    requires at <= j < |rows|
    ensures Permutes(moved, rows)
  {
    assert rows == rows[..at] + rows[at..j] + [rows[j]] + rows[j + 1..];
    rows[..at] + [rows[j]] + rows[at..j] + rows[j + 1..]
  }

  /** The same rows, each as often. */
  predicate Permutes<T(==)>(after: seq<T>, rows: seq<T>) {
    multiset(after) == multiset(rows) && |after| == |rows|
  }

  /** A full page without a hop-voted row has one waiting below the cut. */
  predicate Promotes<T>(rows: seq<T>, k: nat, hop: T -> bool) {
    2 <= k < |rows| && k <= FirstHop(rows, hop, 0) < |rows|
  }

  /** The list after the reserve: the row moved up, or the list as it came. */
  function Reserved<T(==)>(rows: seq<T>, k: nat, hop: T -> bool): seq<T> {
    if Promotes(rows, k, hop) then Move(rows, k - 1, FirstHop(rows, hop, 0)) else rows
  }

  method Position<T>(rows: seq<T>, hop: T -> bool, from: nat, to: nat) returns (j: nat)
    requires from <= to <= |rows|
    ensures from <= j <= to && (j < to ==> hop(rows[j])) && forall i | from <= i < j :: !hop(rows[i])
  {
    j := from;
    while j < to && !hop(rows[j])
      invariant from <= j <= to && forall i | from <= i < j :: !hop(rows[i])
    {
      j := j + 1;
    }
  }

  method RemoveAndInsert<T(==)>(rows: seq<T>, at: nat, from: nat) returns (moved: seq<T>)
    requires at <= from < |rows|
    ensures moved == Move(rows, at, from)
  {
    var row := rows[from];
    var removed := rows[..from] + rows[from + 1..];
    moved := removed[..at] + [row] + removed[at..];
    assert removed[..at] == rows[..at];
    assert removed[at..] == rows[at..from] + rows[from + 1..];
  }

  lemma FirstHopIs<T>(rows: seq<T>, hop: T -> bool, j: nat)
    requires j <= |rows| && (j < |rows| ==> hop(rows[j])) && forall i | 0 <= i < j :: !hop(rows[i])
    ensures FirstHop(rows, hop, 0) == j
  {
  }

  method ReserveTail<T(==)>(ranked: seq<T>, k: nat, hop: T -> bool) returns (rows: seq<T>)
    ensures rows == Reserved(ranked, k, hop)
  {
    rows := ranked;
    if k < 2 || |ranked| <= k {
      return;
    }
    var any := Position(ranked, hop, 0, k);
    if any < k {
      FirstHopIs(ranked, hop, any);
      return;
    }
    var waiting := Position(ranked, hop, k, |ranked|);
    FirstHopIs(ranked, hop, waiting);
    if waiting < |ranked| {
      rows := RemoveAndInsert(rows, k - 1, waiting);
    }
  }

  // ---- what the reserve does ----

  lemma MoveKeepsAbove<T>(rows: seq<T>, at: nat, j: nat)
    requires at <= j < |rows|
    ensures Move(rows, at, j)[..at] == rows[..at] && Move(rows, at, j)[at] == rows[j]
  {
  }

  lemma ReserveIsAPermutation<T>(rows: seq<T>, k: nat, hop: T -> bool)
    ensures Permutes(Reserved(rows, k, hop), rows)
  {
    if Promotes(rows, k, hop) {
      assert Permutes(Move(rows, k - 1, FirstHop(rows, hop, 0)), rows);
    }
  }

  /** Nothing is lost, the rows above the last slot stay, and a hop-voted row is on the page if there is one. */
  lemma ReserveShowsAHop<T>(rows: seq<T>, k: nat, hop: T -> bool, j: nat)
    requires 2 <= k && j < |rows| && hop(rows[j])
    ensures Permutes(Reserved(rows, k, hop), rows)
    ensures exists i :: 0 <= i < k && i < |rows| && hop(Reserved(rows, k, hop)[i])
    ensures k <= |rows| ==> Reserved(rows, k, hop)[..k - 1] == rows[..k - 1]
  {
    var first := FirstHop(rows, hop, 0);
    ReserveIsAPermutation(rows, k, hop);
    if Promotes(rows, k, hop) {
      assert Reserved(rows, k, hop)[k - 1] == rows[first];
    } else {
      assert hop(rows[first]);
    }
  }

  /**
   The page stays sorted exactly when it was sorted above its last slot and the promoted row scores no
   more than the slot above it: which a list sorted as a whole guarantees.
   */
  lemma ReserveKeepsSortedExactly<T>(rows: seq<T>, k: nat, hop: T -> bool, score: T -> real)
    requires Promotes(rows, k, hop)
    ensures |Reserved(rows, k, hop)| == |rows|
    ensures Sorted(Reserved(rows, k, hop), score, k) <==>
            Sorted(rows, score, k - 1) && score(rows[FirstHop(rows, hop, 0)]) <= score(rows[k - 2])
    ensures Sorted(rows, score, |rows|) ==> Sorted(Reserved(rows, k, hop), score, k)
  {
    var after := Reserved(rows, k, hop);
    assert forall i | 0 <= i < k - 1 :: after[i] == rows[i];
    assert after[k - 1] == rows[FirstHop(rows, hop, 0)];
  }
}
