/**
 Near-duplicate clusters (crates/agmem-server/src/tools/consolidate.rs): an in-place union-find with
 path halving over every close pair, against the connected components of the "close enough" graph.
 */
module Clusters {
  import opened Common

  // ---- parents and roots ----

  /** Parents never point upwards, so climbing ends. */
  predicate Forest(parent: seq<nat>) {
    forall i | 0 <= i < |parent| :: parent[i] <= i
  }

  function RootOf(parent: seq<nat>, i: nat): (root: nat)
    requires Forest(parent) && i < |parent|
    ensures root <= i && parent[root] == root
    decreases i
  {
    if parent[i] == i then i else RootOf(parent, parent[i])
  }

  predicate SameRoots(p: seq<nat>, q: seq<nat>)
    requires Forest(p) && Forest(q)
  {
    |p| == |q| && forall i | 0 <= i < |p| :: RootOf(p, i) == RootOf(q, i)
  }

  /** Pointing a node at its grandparent moves no root. */
  lemma {:induction false} HalvingKeepsRoots(p: seq<nat>, at: nat, i: nat)
    requires Forest(p) && at < |p| && i < |p|
    ensures var q := p[at := p[p[at]]]; Forest(q) && RootOf(q, i) == RootOf(p, i)
    decreases i
  {
    var q := p[at := p[p[at]]];
    if q[i] != i {
      HalvingKeepsRoots(p, at, q[i]);
    }
  }

  /** Linking one root under a smaller one moves exactly the first one's class. */
  lemma {:induction false} LinkingMovesOneClass(p: seq<nat>, lo: nat, hi: nat, i: nat)
    requires Forest(p) && lo < hi < |p| && p[lo] == lo && p[hi] == hi && i < |p|
    ensures var q := p[hi := lo];
            Forest(q) && RootOf(q, i) == (if RootOf(p, i) == hi then lo else RootOf(p, i))
    decreases i
  {
    var q := p[hi := lo];
    if i != hi && p[i] != i {
      LinkingMovesOneClass(p, lo, hi, p[i]);
    }
  }

  /** Disjoint sets over row indices. */
  class Union {
    const parent: array<nat>

    ghost predicate Valid()
      reads this, parent
    {
      Forest(parent[..])
    }

    constructor (size: nat)
      ensures Valid() && fresh(parent) && parent.Length == size
      ensures forall i | 0 <= i < size :: RootOf(parent[..], i) == i
    {
      parent := new nat[size](i => i);
    }

    method Root(index: nat) returns (root: nat)
      requires Valid() && index < parent.Length
      modifies parent
      ensures Valid() && SameRoots(old(parent[..]), parent[..])
      ensures root == RootOf(old(parent[..]), index)
    {
      root := index;
      while parent[root] != root
        invariant root < parent.Length && Valid() && SameRoots(old(parent[..]), parent[..])
        invariant RootOf(old(parent[..]), index) == RootOf(parent[..], root)
        decreases root
      {
        ghost var before := parent[..];
        forall i: nat | i < |before|
          ensures Forest(before[root := before[before[root]]])
          ensures RootOf(before[root := before[before[root]]], i) == RootOf(before, i)
        {
          HalvingKeepsRoots(before, root, i);
        }
        parent[root] := parent[parent[root]];
        assert parent[..] == before[root := before[before[root]]];
        root := parent[root];
      }
    }

    /** The two classes become one, under the smaller of their roots; every other stays. */
    method Join(left: nat, right: nat)
      requires Valid() && left < parent.Length && right < parent.Length
      modifies parent
      ensures Valid() && |parent[..]| == |old(parent[..])|
      ensures var p := old(parent[..]); var a := RootOf(p, left); var b := RootOf(p, right);
              forall i | 0 <= i < parent.Length :: RootOf(parent[..], i) == Merged(RootOf(p, i), a, b)
    {
      var a := Root(left);
      var b := Root(right);
      if a != b {
        var lo, hi := if a < b then a else b, if a < b then b else a;
        ghost var before := parent[..];
        assert RootOf(before, left) == a && RootOf(before, right) == b;
        forall i: nat | i < |before|
          ensures Forest(before[hi := lo])
          ensures RootOf(before[hi := lo], i) == Merged(RootOf(before, i), a, b)
        {
          LinkingMovesOneClass(before, lo, hi, i);
        }
        parent[hi] := lo;
        assert parent[..] == before[hi := lo];
      }
    }
  }

  /** Where a root goes when the classes of `a` and `b` merge. */
  function Merged(root: nat, a: nat, b: nat): nat {
    if root == a || root == b then (if a < b then a else b) else root
  }

  // ---- connectivity ----

  type Edges = set<(nat, nat)>

  predicate Adjacent(edges: Edges, i: nat, j: nat) {
    (i, j) in edges || (j, i) in edges
  }

  predicate Path(edges: Edges, path: seq<nat>) {
    |path| > 0 && forall k | 0 < k < |path| :: Adjacent(edges, path[k - 1], path[k])
  }

  ghost predicate Linked(edges: Edges, i: nat, j: nat) {
    exists path :: Path(edges, path) && path[0] == i && path[|path| - 1] == j
  }

  lemma LinkedToItself(edges: Edges, i: nat)
    ensures Linked(edges, i, i)
  {
    assert Path(edges, [i]);
  }

  lemma LinkedByEdge(edges: Edges, i: nat, j: nat)
    requires Adjacent(edges, i, j)
    ensures Linked(edges, i, j)
  {
    assert Path(edges, [i, j]);
  }

  lemma {:induction false} PathReversed(edges: Edges, path: seq<nat>) returns (back: seq<nat>)
    requires Path(edges, path)
    ensures Path(edges, back) && back[0] == path[|path| - 1] && back[|back| - 1] == path[0]
    decreases |path|
  {
    if |path| == 1 {
      back := path;
    } else {
      var rest := PathReversed(edges, path[1..]);
      back := rest + [path[0]];
    }
  }

  lemma LinkedIsSymmetric(edges: Edges, i: nat, j: nat)
    requires Linked(edges, i, j)
    ensures Linked(edges, j, i)
  {
    var path :| Path(edges, path) && path[0] == i && path[|path| - 1] == j;
    var back := PathReversed(edges, path);
  }

  lemma LinkedIsTransitive(edges: Edges, i: nat, j: nat, k: nat)
    requires Linked(edges, i, j) && Linked(edges, j, k)
    ensures Linked(edges, i, k)
  {
    var there :| Path(edges, there) && there[0] == i && there[|there| - 1] == j;
    var on :| Path(edges, on) && on[0] == j && on[|on| - 1] == k;
    var all := there + on[1..];
    assert forall n | 0 < n < |all| :: Adjacent(edges, all[n - 1], all[n]);
    assert Path(edges, all) && all[0] == i && all[|all| - 1] == k;
  }

  lemma LinkedGrows(edges: Edges, more: Edges, i: nat, j: nat)
    requires edges <= more && Linked(edges, i, j)
    ensures Linked(more, i, j)
  {
    var path :| Path(edges, path) && path[0] == i && path[|path| - 1] == j;
    assert Path(more, path);
  }

  /** Every row is linked to its root, and close rows share one: then roots are the components. */
  ghost predicate Represents(parent: seq<nat>, edges: Edges) {
    && Forest(parent)
    && (forall e | e in edges :: e.0 < |parent| && e.1 < |parent| && RootOf(parent, e.0) == RootOf(parent, e.1))
    && (forall i: nat | i < |parent| :: Linked(edges, i, RootOf(parent, i)))
  }

  lemma {:induction false} PathSharesARoot(parent: seq<nat>, edges: Edges, path: seq<nat>)
    requires Represents(parent, edges) && Path(edges, path) && path[0] < |parent|
    ensures path[|path| - 1] < |parent| && RootOf(parent, path[|path| - 1]) == RootOf(parent, path[0])
    decreases |path|
  {
    if |path| > 1 {
      assert Adjacent(edges, path[0], path[1]);
      PathSharesARoot(parent, edges, path[1..]);
    }
  }

  /** Two rows have the same root exactly when they are in the same component. */
  lemma RootsAreComponents(parent: seq<nat>, edges: Edges, i: nat, j: nat)
    requires Represents(parent, edges) && i < |parent| && j < |parent|
    ensures RootOf(parent, i) == RootOf(parent, j) <==> Linked(edges, i, j)
  {
    if Linked(edges, i, j) {
      var path :| Path(edges, path) && path[0] == i && path[|path| - 1] == j;
      PathSharesARoot(parent, edges, path);
    }
    if RootOf(parent, i) == RootOf(parent, j) {
      LinkedIsSymmetric(edges, j, RootOf(parent, j));
      LinkedIsTransitive(edges, i, RootOf(parent, i), j);
    }
  }

  /** Merging the classes of an edge's ends represents the graph with that edge. */
  lemma JoiningRepresents(p: seq<nat>, q: seq<nat>, edges: Edges, left: nat, right: nat)
    requires Represents(p, edges) && left < |p| && right < |p| && Forest(q) && |q| == |p|
    requires var a := RootOf(p, left); var b := RootOf(p, right);
             forall i | 0 <= i < |q| :: RootOf(q, i) == Merged(RootOf(p, i), a, b)
    ensures Represents(q, edges + {(left, right)})
  {
    var more := edges + {(left, right)};
    var a, b := RootOf(p, left), RootOf(p, right);
    BridgeLinksRoots(p, edges, left, right);
    forall i: nat | i < |q|
      ensures Linked(more, i, RootOf(q, i))
    {
      LinkedGrows(edges, more, i, RootOf(p, i));
      if RootOf(q, i) != RootOf(p, i) {
        LinkedIsTransitive(more, i, RootOf(p, i), RootOf(q, i));
      }
    }
  }

  lemma BridgeLinksRoots(p: seq<nat>, edges: Edges, left: nat, right: nat)
    requires Represents(p, edges) && left < |p| && right < |p|
    ensures var more := edges + {(left, right)};
            Linked(more, RootOf(p, left), RootOf(p, right)) && Linked(more, RootOf(p, right), RootOf(p, left))
  {
    var more := edges + {(left, right)};
    var a, b := RootOf(p, left), RootOf(p, right);
    LinkedGrows(edges, more, left, a);
    LinkedGrows(edges, more, right, b);
    LinkedIsSymmetric(more, left, a);
    LinkedByEdge(more, left, right);
    LinkedIsTransitive(more, a, left, right);
    LinkedIsTransitive(more, a, right, b);
    LinkedIsSymmetric(more, a, b);
  }

  // ---- the all-pairs pass ----

  const MAX_CLUSTER_MEMBERS: nat := 8

  type Matrix = map<(nat, nat), real>

  datatype Cluster = Cluster(members: seq<nat>, min: real, max: real)

  /** Rows as the pass sees them: which have a direction, how close two are, and the bar. */
  datatype Rows = Rows(directed: seq<bool>, score: (nat, nat) -> real, bar: real)

  predicate Measured(rows: Rows, a: nat, b: nat) {
    a < b < |rows.directed| && rows.directed[a] && rows.directed[b]
  }

  /** The close pairs among those before `(left, right)` in the order of the pass. */
  function EdgesBefore(rows: Rows, left: nat, right: nat): Edges {
    set a: nat, b: nat | a < |rows.directed| && b < |rows.directed| && Measured(rows, a, b)
                         && rows.score(a, b) >= rows.bar && (a < left || (a == left && b < right)) :: (a, b)
  }

  /** The graph the clusters are components of: two rows with a direction, at the bar or closer. */
  function Graph(rows: Rows): Edges {
    set a: nat, b: nat | a < b < |rows.directed| && rows.directed[a] && rows.directed[b] && rows.score(a, b) >= rows.bar :: (a, b)
  }

  /** The matrix holds every measured pair up to `(left, right)`, lower index first. */
  predicate Filled(matrix: Matrix, rows: Rows, left: nat, right: nat) {
    forall a: nat, b: nat | a < |rows.directed| && b < |rows.directed| && Measured(rows, a, b)
                            && (a < left || (a == left && b < right)) ::
      (a, b) in matrix && matrix[(a, b)] == rows.score(a, b)
  }

  lemma EdgesGrow(rows: Rows, left: nat, right: nat)
    requires left < right < |rows.directed|
    ensures EdgesBefore(rows, left, right + 1)
         == EdgesBefore(rows, left, right)
            + (if Measured(rows, left, right) && rows.score(left, right) >= rows.bar then {(left, right)} else {})
  {
  }

  lemma EdgesOfARow(rows: Rows, left: nat)
    ensures EdgesBefore(rows, 0, 1) == {}
    ensures EdgesBefore(rows, left, |rows.directed|) == EdgesBefore(rows, left + 1, left + 2)
    ensures EdgesBefore(rows, |rows.directed|, |rows.directed| + 1) == Graph(rows)
  {
  }

  /** One pair of the pass. */
  method ComparePair(rows: Rows, groups: Union, matrix: Matrix, left: nat, right: nat) returns (more: Matrix)
    requires left < right < |rows.directed| == groups.parent.Length
    requires Represents(groups.parent[..], EdgesBefore(rows, left, right)) && Filled(matrix, rows, left, right)
    modifies groups.parent
    ensures Represents(groups.parent[..], EdgesBefore(rows, left, right + 1)) && Filled(more, rows, left, right + 1)
  {
    more := matrix;
    EdgesGrow(rows, left, right);
    if rows.directed[left] && rows.directed[right] {
      var score := rows.score(left, right);
      more := matrix[(left, right) := score];
      if score >= rows.bar {
        ghost var before := groups.parent[..];
        groups.Join(left, right);
        JoiningRepresents(before, groups.parent[..], EdgesBefore(rows, left, right), left, right);
      }
    }
  }

  /** One row against all that follow it. */
  method CompareRow(rows: Rows, groups: Union, matrix: Matrix, left: nat) returns (more: Matrix)
    requires left < |rows.directed| == groups.parent.Length
    requires Represents(groups.parent[..], EdgesBefore(rows, left, left + 1)) && Filled(matrix, rows, left, left + 1)
    modifies groups.parent
    ensures Represents(groups.parent[..], EdgesBefore(rows, left + 1, left + 2)) && Filled(more, rows, left + 1, left + 2)
  {
    more := matrix;
    for right := left + 1 to |rows.directed|
      invariant Represents(groups.parent[..], EdgesBefore(rows, left, right))
      invariant Filled(more, rows, left, right)
    {
      more := ComparePair(rows, groups, more, left, right);
    }
    EdgesOfARow(rows, left);
  }

  /** Joins every close pair; the roots are then the components of the graph. */
  method JoinClosePairs(rows: Rows) returns (groups: Union, matrix: Matrix)
    ensures fresh(groups) && fresh(groups.parent) && groups.parent.Length == |rows.directed|
    ensures Represents(groups.parent[..], Graph(rows))
    ensures Filled(matrix, rows, |rows.directed|, 0)
  {
    var n := |rows.directed|;
    groups := new Union(n);
    matrix := map[];
    EdgesOfARow(rows, 0);
    EverySingletonRepresents(groups.parent[..]);
    for left := 0 to n
      invariant groups.parent.Length == n && Represents(groups.parent[..], EdgesBefore(rows, left, left + 1))
      invariant Filled(matrix, rows, left, left + 1)
    {
      matrix := CompareRow(rows, groups, matrix, left);
    }
  }

  lemma EverySingletonRepresents(parent: seq<nat>)
    requires Forest(parent) && forall i | 0 <= i < |parent| :: RootOf(parent, i) == i
    ensures Represents(parent, {})
  {
    forall i: nat | i < |parent|
      ensures Linked({}, i, RootOf(parent, i))
    {
      LinkedToItself({}, i);
    }
  }

  /** The rows below `k` whose root is `root`, ascending. */
  function Group(parent: seq<nat>, root: nat, k: nat): seq<nat>
    requires Forest(parent) && k <= |parent|
  {
    if k == 0 then []
    else Group(parent, root, k - 1) + (if RootOf(parent, k - 1) == root then [k - 1] else [])
  }

  lemma {:induction false} GroupIsTheClass(parent: seq<nat>, root: nat, k: nat)
    requires Forest(parent) && k <= |parent|
    ensures forall i: nat :: i in Group(parent, root, k) <==> i < k && RootOf(parent, i) == root
  {
    if k > 0 {
      GroupIsTheClass(parent, root, k - 1);
    }
  }

  lemma {:induction false} GroupAscends(parent: seq<nat>, root: nat, k: nat, x: nat, y: nat)
    requires Forest(parent) && k <= |parent| && x < y < |Group(parent, root, k)|
    ensures Group(parent, root, k)[x] < Group(parent, root, k)[y]
  {
    var most := Group(parent, root, k - 1);
    if y < |most| {
      GroupAscends(parent, root, k - 1, x, y);
    } else {
      GroupIsTheClass(parent, root, k - 1);
      assert most[x] in most;
    }
  }

  predicate Ascending(rows: seq<nat>) {
    forall x, y | 0 <= x < y < |rows| :: rows[x] < rows[y]
  }

  /** The roots of the rows below `k`. */
  function Roots(parent: seq<nat>, k: nat): set<nat>
    requires Forest(parent) && k <= |parent|
  {
    if k == 0 then {} else Roots(parent, k - 1) + {RootOf(parent, k - 1)}
  }

  /** Each root below `k` with its class so far. */
  function Classes(parent: seq<nat>, k: nat): map<nat, seq<nat>>
    requires Forest(parent) && k <= |parent|
  {
    map r | r in Roots(parent, k) :: Group(parent, r, k)
  }

  lemma {:induction false} NoRootNoGroup(parent: seq<nat>, root: nat, k: nat)
    requires Forest(parent) && k <= |parent| && root !in Roots(parent, k)
    ensures Group(parent, root, k) == []
  {
    if k > 0 {
      NoRootNoGroup(parent, root, k - 1);
    }
  }

  lemma ClassesGrow(parent: seq<nat>, k: nat)
    requires Forest(parent) && k < |parent|
    ensures var root := RootOf(parent, k); var so := Classes(parent, k);
            Classes(parent, k + 1) == so[root := (if root in so then so[root] else []) + [k]]
  {
    var root := RootOf(parent, k);
    if root !in Roots(parent, k) {
      NoRootNoGroup(parent, root, k);
    }
    assert forall r | r in Roots(parent, k) && r != root :: Group(parent, r, k + 1) == Group(parent, r, k);
    assert Group(parent, root, k + 1) == Group(parent, root, k) + [k];
  }

  lemma {:induction false} RootsAreTheRoots(parent: seq<nat>, k: nat, i: nat)
    requires Forest(parent) && i < k <= |parent|
    ensures RootOf(parent, i) in Roots(parent, k)
    ensures forall r :: r in Roots(parent, k) ==> r < |parent| && parent[r] == r
  {
    if k > 1 {
      RootsAreTheRoots(parent, k - 1, if i < k - 1 then i else 0);
    }
  }

  method GroupByRoot(groups: Union) returns (members: map<nat, seq<nat>>)
    requires groups.Valid()
    modifies groups.parent
    ensures groups.Valid() && SameRoots(old(groups.parent[..]), groups.parent[..])
    ensures members == Classes(old(groups.parent[..]), groups.parent.Length)
  {
    ghost var p := groups.parent[..];
    members := map[];
    for index := 0 to groups.parent.Length
      invariant groups.Valid() && SameRoots(p, groups.parent[..])
      invariant members == Classes(p, index)
    {
      var root := groups.Root(index);
      assert RootOf(p, index) == root;
      ClassesGrow(p, index);
      members := members[root := (if root in members then members[root] else []) + [index]];
    }
  }

  // ---- the weakest and the closest pair of a group ----

  /** Where a pair is looked up: each is kept once, under its smaller index. */
  function Key(a: nat, b: nat): (nat, nat) {
    if a < b then (a, b) else (b, a)
  }

  /** The pairs of row `at` with the rows after it up to `next`. */
  function RowPairs(group: seq<nat>, at: nat, next: nat): seq<(nat, nat)>
    requires at < next <= |group|
  {
    if next == at + 1 then [] else RowPairs(group, at, next - 1) + [Key(group[at], group[next - 1])]
  }

  /** Every pair whose first row comes before `at`. */
  function PairsBefore(group: seq<nat>, at: nat): seq<(nat, nat)>
    requires at <= |group|
  {
    if at == 0 then [] else PairsBefore(group, at - 1) + RowPairs(group, at - 1, |group|)
  }

  lemma {:induction false} PairIsInRow(group: seq<nat>, at: nat, next: nat, y: nat)
    requires at < y < next <= |group|
    ensures Key(group[at], group[y]) in RowPairs(group, at, next)
  {
    if y < next - 1 {
      PairIsInRow(group, at, next - 1, y);
    }
  }

  lemma {:induction false} PairIsListed(group: seq<nat>, at: nat, x: nat, y: nat)
    requires x < at <= |group| && x < y < |group|
    ensures Key(group[x], group[y]) in PairsBefore(group, at)
  {
    if x < at - 1 {
      PairIsListed(group, at - 1, x, y);
    } else {
      PairIsInRow(group, x, |group|, y);
    }
  }

  lemma {:induction false} InRowIsPair(group: seq<nat>, at: nat, next: nat, k: (nat, nat)) returns (y: nat)
    requires at < next <= |group| && k in RowPairs(group, at, next)
    ensures at < y < next && k == Key(group[at], group[y])
  {
    if k in RowPairs(group, at, next - 1) {
      y := InRowIsPair(group, at, next - 1, k);
    } else {
      y := next - 1;
    }
  }

  lemma {:induction false} ListedIsPair(group: seq<nat>, at: nat, k: (nat, nat)) returns (x: nat, y: nat)
    requires at <= |group| && k in PairsBefore(group, at)
    ensures x < at && x < y < |group| && k == Key(group[x], group[y])
  {
    if k in PairsBefore(group, at - 1) {
      x, y := ListedIsPair(group, at - 1, k);
    } else {
      x := at - 1;
      y := InRowIsPair(group, x, |group|, k);
    }
  }

  predicate AllMeasured(group: seq<nat>, matrix: Matrix) {
    forall k | k in PairsBefore(group, |group|) :: k in matrix
  }

  /** `lo` and `hi` bound the scores of `pairs` and are two of them. */
  ghost predicate Bounds(pairs: seq<(nat, nat)>, matrix: Matrix, lo: real, hi: real) {
    && (forall k | k in pairs :: k in matrix && lo <= matrix[k] <= hi)
    && (exists k :: k in pairs && k in matrix && matrix[k] == lo)
    && (exists k :: k in pairs && k in matrix && matrix[k] == hi)
  }

  function Widened(range: Option<(real, real)>, score: real): Option<(real, real)> {
    if range.None? then Some((score, score))
    else Some((if score < range.value.0 then score else range.value.0,
               if score > range.value.1 then score else range.value.1))
  }

  /** What the scan has found among these pairs, all of them measured. */
  ghost predicate RangeIs(pairs: seq<(nat, nat)>, matrix: Matrix, found: Option<(real, real)>) {
    if found.None? then pairs == [] else Bounds(pairs, matrix, found.value.0, found.value.1)
  }

  lemma RangeGrows(pairs: seq<(nat, nat)>, key: (nat, nat), matrix: Matrix, found: Option<(real, real)>)
    requires RangeIs(pairs, matrix, found) && key in matrix
    ensures RangeIs(pairs + [key], matrix, Widened(found, matrix[key]))
  {
    var more, wider := pairs + [key], Widened(found, matrix[key]).value;
    assert more[|pairs|] == key;
    if found.Some? {
      var lo :| lo in pairs && lo in matrix && matrix[lo] == found.value.0;
      var hi :| hi in pairs && hi in matrix && matrix[hi] == found.value.1;
      assert lo in more && hi in more;
    }
  }

  /** The scan has come to `next` in row `at`. */
  ghost predicate Scanned(group: seq<nat>, at: nat, next: nat, matrix: Matrix, found: Option<(real, real)>)
    requires at < next <= |group|
  {
    RangeIs(PairsBefore(group, at) + RowPairs(group, at, next), matrix, found)
  }

  lemma ScanStep(group: seq<nat>, at: nat, next: nat, matrix: Matrix, found: Option<(real, real)>)
    requires at < next < |group| && Scanned(group, at, next, matrix, found) && Key(group[at], group[next]) in matrix
    ensures Scanned(group, at, next + 1, matrix, Widened(found, matrix[Key(group[at], group[next])]))
  {
    var pairs, key := PairsBefore(group, at) + RowPairs(group, at, next), Key(group[at], group[next]);
    RangeGrows(pairs, key, matrix, found);
    assert PairsBefore(group, at) + (RowPairs(group, at, next) + [key]) == pairs + [key];
  }

  lemma ScanStarts(group: seq<nat>, at: nat, matrix: Matrix, found: Option<(real, real)>)
    requires at < |group| && RangeIs(PairsBefore(group, at), matrix, found)
    ensures Scanned(group, at, at + 1, matrix, found)
  {
    assert PairsBefore(group, at) + [] == PairsBefore(group, at);
  }

  lemma ScanFails(group: seq<nat>, at: nat, next: nat, matrix: Matrix)
    requires at < next < |group| && Key(group[at], group[next]) !in matrix
    ensures !AllMeasured(group, matrix)
  {
    PairIsListed(group, |group|, at, next);
  }

  method ScanPair(group: seq<nat>, at: nat, next: nat, matrix: Matrix, found: Option<(real, real)>)
    returns (ok: bool, wider: Option<(real, real)>)
    requires at < next < |group| && Scanned(group, at, next, matrix, found)
    ensures ok ==> Scanned(group, at, next + 1, matrix, wider)
    ensures !ok ==> !AllMeasured(group, matrix)
  {
    var key := Key(group[at], group[next]);
    ok, wider := key in matrix, found;
    if ok {
      ScanStep(group, at, next, matrix, found);
      wider := Widened(found, matrix[key]);
    } else {
      ScanFails(group, at, next, matrix);
    }
  }

  /** One row of the scan; None of it is trusted unless every pair was measured. */
  method ScanRow(group: seq<nat>, at: nat, matrix: Matrix, found: Option<(real, real)>)
    returns (ok: bool, wider: Option<(real, real)>)
    requires at < |group| && RangeIs(PairsBefore(group, at), matrix, found)
    ensures ok ==> RangeIs(PairsBefore(group, at + 1), matrix, wider)
    ensures !ok ==> !AllMeasured(group, matrix)
  {
    ok, wider := true, found;
    ScanStarts(group, at, matrix, found);
    var next := at + 1;
    while ok && next < |group|
      invariant next <= |group|
      invariant if ok then Scanned(group, at, next, matrix, wider) else !AllMeasured(group, matrix)
    {
      ok, wider := ScanPair(group, at, next, matrix, wider);
      next := next + 1;
    }
  }

  lemma AloneHasNoPairs(group: seq<nat>)
    requires |group| <= 1
    ensures PairsBefore(group, |group|) == []
  {
    if |group| == 1 {
      assert PairsBefore(group, 0) == [] && RowPairs(group, 0, 1) == [];
    }
  }

  lemma SomePairs(group: seq<nat>)
    requires |group| >= 2
    ensures PairsBefore(group, |group|) != []
  {
    PairIsListed(group, |group|, 0, 1);
  }

  /** The scan fails exactly on a group of fewer than two, or one with an unmeasured pair. */
  method Extremes(group: seq<nat>, matrix: Matrix) returns (found: Option<(real, real)>)
    ensures found.Some? <==> |group| >= 2 && AllMeasured(group, matrix)
    ensures found.Some? ==> Bounds(PairsBefore(group, |group|), matrix, found.value.0, found.value.1)
  {
    found := None;
    for at := 0 to |group|
      invariant RangeIs(PairsBefore(group, at), matrix, found)
    {
      var ok, wider := ScanRow(group, at, matrix, found);
      if !ok {
        return None;
      }
      found := wider;
    }
    if |group| >= 2 {
      SomePairs(group);
    } else {
      AloneHasNoPairs(group);
    }
  }

  // ---- the result ----

  lemma UndirectedIsAlone(rows: Rows, i: nat, j: nat)
    requires i < |rows.directed| && !rows.directed[i] && Linked(Graph(rows), i, j)
    ensures i == j
  {
    var path :| Path(Graph(rows), path) && path[0] == i && path[|path| - 1] == j;
    assert |path| > 1 ==> Adjacent(Graph(rows), path[0], path[1]);
  }

  /** A row with classmates has a direction. */
  lemma ClassmatesAreDirected(rows: Rows, parent: seq<nat>, i: nat, j: nat)
    requires |parent| == |rows.directed| && Represents(parent, Graph(rows))
    requires i < |parent| && j < |parent| && i != j && RootOf(parent, i) == RootOf(parent, j)
    ensures rows.directed[i]
  {
    RootsAreComponents(parent, Graph(rows), i, j);
    if !rows.directed[i] {
      UndirectedIsAlone(rows, i, j);
    }
  }

  /** Some rows of one class, ascending. */
  ghost predicate Classmates(parent: seq<nat>, group: seq<nat>)
    requires Forest(parent)
  {
    && |group| >= 2 && Ascending(group)
    && (forall x | 0 <= x < |group| :: group[x] < |parent|)
    && (forall x | 0 <= x < |group| :: RootOf(parent, group[x]) == RootOf(parent, group[0]))
  }

  /** Two of them were compared by the pass. */
  lemma ClassmatesAreMeasured(rows: Rows, parent: seq<nat>, group: seq<nat>, x: nat, y: nat)
    requires |parent| == |rows.directed| && Represents(parent, Graph(rows)) && Classmates(parent, group)
    requires x < y < |group|
    ensures Measured(rows, group[x], group[y])
  {
    ClassmatesAreDirected(rows, parent, group[x], group[y]);
    ClassmatesAreDirected(rows, parent, group[y], group[x]);
  }

  lemma ClassIsMeasured(rows: Rows, parent: seq<nat>, matrix: Matrix, group: seq<nat>)
    requires |parent| == |rows.directed| && Represents(parent, Graph(rows)) && Classmates(parent, group)
    requires Filled(matrix, rows, |rows.directed|, 0)
    ensures AllMeasured(group, matrix)
  {
    forall k | k in PairsBefore(group, |group|)
      ensures k in matrix
    {
      var x, y := ListedIsPair(group, |group|, k);
      ClassmatesAreMeasured(rows, parent, group, x, y);
    }
  }

  /** A class and its classmates, as the graph sees them. */
  ghost predicate IsComponent(rows: Rows, root: nat, class': seq<nat>) {
    && |class'| > 0 && class'[0] == root && Ascending(class')
    && (forall i: nat :: i in class' <==> i < |rows.directed| && Linked(Graph(rows), root, i))
  }

  lemma ClassesAreComponents(rows: Rows, parent: seq<nat>, root: nat)
    requires |parent| == |rows.directed| && Represents(parent, Graph(rows))
    requires root in Roots(parent, |parent|)
    ensures IsComponent(rows, root, Group(parent, root, |parent|))
  {
    RootsAreTheRoots(parent, |parent|, 0);
    GroupIsTheClass(parent, root, |parent|);
    var class' := Group(parent, root, |parent|);
    forall i: nat | i < |parent|
      ensures RootOf(parent, i) == root <==> Linked(Graph(rows), root, i)
    {
      RootsAreComponents(parent, Graph(rows), root, i);
    }
    forall x, y | 0 <= x < y < |class'|
      ensures class'[x] < class'[y]
    {
      GroupAscends(parent, root, |parent|, x, y);
    }
    assert root in class' && class'[0] in class';
  }

  /** What is reported of a component: its first rows, and the extremes among them. */
  ghost predicate IsCluster(rows: Rows, component: seq<nat>, c: Cluster) {
    && c.members == component[..if |component| < MAX_CLUSTER_MEMBERS then |component| else MAX_CLUSTER_MEMBERS]
    && (forall x, y | 0 <= x < y < |c.members| :: c.min <= rows.score(c.members[x], c.members[y]) <= c.max)
    && (exists x, y :: 0 <= x < y < |c.members| && rows.score(c.members[x], c.members[y]) == c.min)
    && (exists x, y :: 0 <= x < y < |c.members| && rows.score(c.members[x], c.members[y]) == c.max)
  }

  /** The bounds over the matrix are bounds over the scores, attained by two of the rows. */
  lemma BoundsAreScores(rows: Rows, parent: seq<nat>, matrix: Matrix, c: Cluster)
    requires |parent| == |rows.directed| && Represents(parent, Graph(rows)) && Classmates(parent, c.members)
    requires Filled(matrix, rows, |rows.directed|, 0)
    requires Bounds(PairsBefore(c.members, |c.members|), matrix, c.min, c.max)
    ensures forall x, y | 0 <= x < y < |c.members| :: c.min <= rows.score(c.members[x], c.members[y]) <= c.max
    ensures exists x, y :: 0 <= x < y < |c.members| && rows.score(c.members[x], c.members[y]) == c.min
    ensures exists x, y :: 0 <= x < y < |c.members| && rows.score(c.members[x], c.members[y]) == c.max
  {
    var pairs := PairsBefore(c.members, |c.members|);
    forall x, y | 0 <= x < y < |c.members|
      ensures c.min <= rows.score(c.members[x], c.members[y]) <= c.max
    {
      PairIsListed(c.members, |c.members|, x, y);
      ClassmatesAreMeasured(rows, parent, c.members, x, y);
    }
    var low :| low in pairs && low in matrix && matrix[low] == c.min;
    var x, y := ListedIsPair(c.members, |c.members|, low);
    ClassmatesAreMeasured(rows, parent, c.members, x, y);
    var high :| high in pairs && high in matrix && matrix[high] == c.max;
    var u, v := ListedIsPair(c.members, |c.members|, high);
    ClassmatesAreMeasured(rows, parent, c.members, u, v);
  }

  lemma HeadOfAClass(parent: seq<nat>, root: nat, n: nat)
    requires Forest(parent) && 2 <= n <= |Group(parent, root, |parent|)|
    ensures Classmates(parent, Group(parent, root, |parent|)[..n])
  {
    var class' := Group(parent, root, |parent|);
    GroupIsTheClass(parent, root, |parent|);
    assert forall x :: 0 <= x < |class'| ==> class'[x] in class';
    forall x, y | 0 <= x < y < n
      ensures class'[x] < class'[y]
    {
      GroupAscends(parent, root, |parent|, x, y);
    }
  }

  /** `extremes` never fails on a component of two or more, so none is lost. */
  method Report(rows: Rows, ghost p: seq<nat>, matrix: Matrix, component: seq<nat>, ghost r: nat) returns (c: Cluster)
    requires |p| == |rows.directed| && Represents(p, Graph(rows)) && Filled(matrix, rows, |rows.directed|, 0)
    requires component == Group(p, r, |p|) && |component| > 1
    ensures IsCluster(rows, component, c)
  {
    var kept := if |component| < MAX_CLUSTER_MEMBERS then |component| else MAX_CLUSTER_MEMBERS;
    HeadOfAClass(p, r, kept);
    ClassIsMeasured(rows, p, matrix, component[..kept]);
    var found := Extremes(component[..kept], matrix);
    c := Cluster(component[..kept], found.value.0, found.value.1);
    BoundsAreScores(rows, p, matrix, c);
  }

  /** Every class of two or more is reported, but for those still `left`. */
  ghost predicate ReportedExcept(rows: Rows, members: map<nat, seq<nat>>, left: set<nat>, clusters: map<nat, Cluster>) {
    && (forall r :: r in clusters <==> r in members && r !in left && |members[r]| > 1)
    && forall r | r in clusters :: IsCluster(rows, members[r], clusters[r])
  }

  method ReportAll(rows: Rows, ghost p: seq<nat>, matrix: Matrix, members: map<nat, seq<nat>>)
    returns (clusters: map<nat, Cluster>)
    requires |p| == |rows.directed| && Represents(p, Graph(rows)) && Filled(matrix, rows, |rows.directed|, 0)
    requires members == Classes(p, |p|)
    ensures clusters.Keys == set r | r in members && |members[r]| > 1
    ensures forall r | r in clusters :: IsCluster(rows, members[r], clusters[r])
  {
    clusters := map[];
    var left := members.Keys;
    while left != {}
      invariant left <= members.Keys && ReportedExcept(rows, members, left, clusters)
      decreases left
    {
      var r :| r in left;
      left := left - {r};
      if |members[r]| > 1 {
        var cluster := Report(rows, p, matrix, members[r], r);
        clusters := clusters[r := cluster];
      }
    }
  }

  ghost predicate Listed(members: map<nat, seq<nat>>, i: nat) {
    exists r :: r in members && i in members[r]
  }

  lemma ClassesPartition(rows: Rows, p: seq<nat>, members: map<nat, seq<nat>>)
    requires |p| == |rows.directed| && Represents(p, Graph(rows)) && members == Classes(p, |p|)
    ensures forall r | r in members :: IsComponent(rows, r, members[r])
    ensures forall i: nat | i < |rows.directed| :: Listed(members, i)
  {
    forall r | r in members
      ensures IsComponent(rows, r, members[r])
    {
      ClassesAreComponents(rows, p, r);
    }
    forall i: nat | i < |rows.directed|
      ensures Listed(members, i)
    {
      RootsAreTheRoots(p, |p|, i);
      GroupIsTheClass(p, RootOf(p, i), |p|);
      assert RootOf(p, i) in members && i in members[RootOf(p, i)];
    }
  }

  /**
   The pass: `members` are exactly the connected components of the close-enough graph, each listed
   ascending under its least row; and every component of two or more rows is reported, with the
   weakest and the closest pair among the rows it lists.
   */
  method Compare(rows: Rows) returns (members: map<nat, seq<nat>>, clusters: map<nat, Cluster>)
    ensures forall r | r in members :: IsComponent(rows, r, members[r])
    ensures forall i: nat | i < |rows.directed| :: Listed(members, i)
    ensures clusters.Keys == set r | r in members && |members[r]| > 1
    ensures forall r | r in clusters :: IsCluster(rows, members[r], clusters[r])
  {
    var groups, matrix := JoinClosePairs(rows);
    ghost var p := groups.parent[..];
    members := GroupByRoot(groups);
    ClassesPartition(rows, p, members);
    clusters := ReportAll(rows, p, matrix, members);
  }
}
