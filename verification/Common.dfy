/** What the components share. */
module Common {
  datatype Option<+T> = None | Some(value: T)

  predicate NoRepeats<T(==)>(items: seq<T>) {
    forall i, j | 0 <= i < j < |items| :: items[i] != items[j]
  }

  /** The rows from `from` up to `to` come best first. */
  predicate SortedFrom<T>(rows: seq<T>, score: T -> real, from: nat, to: nat)
    requires from <= to <= |rows|
  {
    forall i, j | from <= i < j < to :: score(rows[i]) >= score(rows[j])
  }

  predicate Sorted<T>(rows: seq<T>, score: T -> real, n: nat)
    requires n <= |rows|
  {
    SortedFrom(rows, score, 0, n)
  }
}
