/**
 * Grouping duplicate pairs of memory ids into connected clusters with a
 * union-find whose parent links are halved in place while roots are looked up.
 */
module Clusters {
  import opened Basics

  type Id = string
  type Pair = (Id, Id)

  // ----- What the pairs connect -----

  ghost predicate Linked(pairs: seq<Pair>, x: Id, y: Id) {
    (x, y) in pairs || (y, x) in pairs
  }

  ghost predicate IsPath(pairs: seq<Pair>, path: seq<Id>, x: Id, y: Id) {
    |path| >= 1 && path[0] == x && path[|path| - 1] == y &&
    forall i :: 0 <= i < |path| - 1 ==> Linked(pairs, path[i], path[i + 1])
  }

  ghost predicate Connected(pairs: seq<Pair>, x: Id, y: Id) {
    exists path :: IsPath(pairs, path, x, y)
  }

  lemma ConnectedSelf(pairs: seq<Pair>, x: Id)
    ensures Connected(pairs, x, x)
  {
    assert IsPath(pairs, [x], x, x);
  }

  lemma ConnectedLink(pairs: seq<Pair>, x: Id, y: Id)
    requires Linked(pairs, x, y)
    ensures Connected(pairs, x, y)
  {
    assert IsPath(pairs, [x, y], x, y);
  }

  lemma ConnectedTrans(pairs: seq<Pair>, x: Id, y: Id, z: Id)
    requires Connected(pairs, x, y) && Connected(pairs, y, z)
    ensures Connected(pairs, x, z)
  {
    var p :| IsPath(pairs, p, x, y);
    var q :| IsPath(pairs, q, y, z);
    var r := p + q[1..];
    forall i | 0 <= i < |r| - 1 ensures Linked(pairs, r[i], r[i + 1]) {
      if i >= |p| - 1 {
        assert r[i] == q[i - |p| + 1] && r[i + 1] == q[i - |p| + 2];
      }
    }
    assert IsPath(pairs, r, x, z);
  }

  lemma {:induction false} ConnectedSym(pairs: seq<Pair>, x: Id, y: Id)
    requires Connected(pairs, x, y)
    ensures Connected(pairs, y, x)
  {
    var p :| IsPath(pairs, p, x, y);
    var q := seq(|p|, i requires 0 <= i < |p| => p[|p| - 1 - i]);
    assert IsPath(pairs, q, y, x);
  }

  lemma ConnectedMore(pairs: seq<Pair>, more: seq<Pair>, x: Id, y: Id)
    requires Connected(pairs, x, y)
    ensures Connected(pairs + more, x, y)
  {
    var p :| IsPath(pairs, p, x, y);
    assert IsPath(pairs + more, p, x, y);
  }

  ghost predicate Mentioned(pairs: seq<Pair>, x: Id) {
    exists k :: 0 <= k < |pairs| && (pairs[k].0 == x || pairs[k].1 == x)
  }

  /** An id connected to another one is mentioned by some pair. */
  lemma ConnectedIsMentioned(pairs: seq<Pair>, x: Id, y: Id)
    requires Connected(pairs, x, y) && x != y
    ensures Mentioned(pairs, x)
  {
    var p :| IsPath(pairs, p, x, y);
    assert Linked(pairs, p[0], p[1]);
  }

  ghost predicate Joined(pairs: seq<Pair>, a: Id, b: Id, x: Id, y: Id) {
    || Connected(pairs, x, y)
    || (Connected(pairs, x, a) && Connected(pairs, b, y))
    || (Connected(pairs, x, b) && Connected(pairs, a, y))
  }

  lemma {:induction false} PathThroughNewPair(pairs: seq<Pair>, a: Id, b: Id, path: seq<Id>, x: Id, y: Id)
    requires IsPath(pairs + [(a, b)], path, x, y)
    ensures Joined(pairs, a, b, x, y)
    decreases |path|
  {
    ConnectedSelf(pairs, x);
    if |path| > 1 {
      var m := path[1];
      assert IsPath(pairs + [(a, b)], path[1..], m, y);
      PathThroughNewPair(pairs, a, b, path[1..], m, y);
      assert Linked(pairs + [(a, b)], path[0], path[1]);
      if Linked(pairs, x, m) {
        ConnectedLink(pairs, x, m);
        if Connected(pairs, m, y) { ConnectedTrans(pairs, x, m, y); }
        if Connected(pairs, m, a) { ConnectedTrans(pairs, x, m, a); }
        if Connected(pairs, m, b) { ConnectedTrans(pairs, x, m, b); }
      } else {
        assert (x == a && m == b) || (x == b && m == a);
      }
    }
  }

  /** Adding a pair merges exactly the two classes it names. */
  lemma {:induction false} ConnectedByNewPair(pairs: seq<Pair>, a: Id, b: Id, x: Id, y: Id)
    ensures Connected(pairs + [(a, b)], x, y) <==> Joined(pairs, a, b, x, y)
  {
    var all := pairs + [(a, b)];
    if Connected(all, x, y) {
      var path :| IsPath(all, path, x, y);
      PathThroughNewPair(pairs, a, b, path, x, y);
    }
    if Joined(pairs, a, b, x, y) {
      assert (a, b) == all[|pairs|];
      ConnectedLink(all, a, b);
      ConnectedLink(all, b, a);
      if Connected(pairs, x, y) {
        ConnectedMore(pairs, [(a, b)], x, y);
      } else if Connected(pairs, x, a) && Connected(pairs, b, y) {
        ConnectedMore(pairs, [(a, b)], x, a);
        ConnectedMore(pairs, [(a, b)], b, y);
        ConnectedTrans(all, x, a, b);
        ConnectedTrans(all, x, b, y);
      } else {
        ConnectedMore(pairs, [(a, b)], x, b);
        ConnectedMore(pairs, [(a, b)], a, y);
        ConnectedTrans(all, x, b, a);
        ConnectedTrans(all, x, a, y);
      }
    }
  }

  // ----- The forest of parent links -----

  /** No parent exceeds its index, so every walk to a root goes down and ends. */
  predicate Forest(parent: seq<nat>) {
    forall i :: 0 <= i < |parent| ==> parent[i] <= i
  }

  function RootOf(parent: seq<nat>, i: nat): (r: nat)
    requires Forest(parent) && i < |parent|
    ensures r <= i && parent[r] == r
    decreases i
  {
    if parent[i] == i then i else RootOf(parent, parent[i])
  }

  /** Replacing a parent by the grandparent moves no root. */
  lemma {:induction false} HalvingKeepsRoots(parent: seq<nat>, i: nat, j: nat)
    requires Forest(parent) && i < |parent| && j < |parent|
    ensures var p := parent[i := parent[parent[i]]]; Forest(p) && RootOf(p, j) == RootOf(parent, j)
    decreases j
  {
    var p := parent[i := parent[parent[i]]];
    assert parent[parent[i]] <= parent[i] <= i;
    if p[j] < j {
      HalvingKeepsRoots(parent, i, p[j]);
    }
  }

  /** Hanging root `hi` under root `lo` moves exactly the members of `hi`'s tree. */
  lemma {:induction false} LinkingMovesTree(parent: seq<nat>, lo: nat, hi: nat, j: nat)
    requires Forest(parent) && lo < hi < |parent| && parent[lo] == lo && parent[hi] == hi && j < |parent|
    ensures var p := parent[hi := lo];
            Forest(p) && RootOf(p, j) == if RootOf(parent, j) == hi then lo else RootOf(parent, j)
    decreases j
  {
    var p := parent[hi := lo];
    if parent[j] < j {
      LinkingMovesTree(parent, lo, hi, parent[j]);
    }
  }

  lemma {:induction false} GrowingKeepsRoots(parent: seq<nat>, j: nat)
    requires Forest(parent) && j < |parent|
    ensures Forest(parent + [|parent|]) && RootOf(parent + [|parent|], j) == RootOf(parent, j)
    decreases j
  {
    if parent[j] < j {
      GrowingKeepsRoots(parent, parent[j]);
    }
  }

  ghost predicate SameRoots(p: seq<nat>, q: seq<nat>) {
    |p| == |q| && Forest(p) && Forest(q) && forall j: nat :: j < |p| ==> RootOf(p, j) == RootOf(q, j)
  }

  lemma SameRootsTrans(p: seq<nat>, q: seq<nat>, r: seq<nat>)
    requires SameRoots(p, q) && SameRoots(q, r)
    ensures SameRoots(p, r)
  {
  }

  /** Root lookup with path halving: the links change, the roots do not. */
  method Root(parent: seq<nat>, start: nat) returns (p: seq<nat>, r: nat)
    requires Forest(parent) && start < |parent|
    ensures SameRoots(p, parent) && r == RootOf(parent, start)
  {
    p := parent;
    var i: nat := start;
    while p[i] != i
      invariant i < |p| && SameRoots(p, parent) && RootOf(p, i) == RootOf(parent, start)
      decreases i
    {
      forall j: nat | j < |p|
        ensures var q := p[i := p[p[i]]]; Forest(q) && RootOf(q, j) == RootOf(p, j)
      {
        HalvingKeepsRoots(p, i, j);
      }
      p := p[i := p[p[i]]];
      i := p[i];
    }
    r := i;
  }

  // ----- First-seen order -----

  function AddSeen(ids: seq<Id>, x: Id): seq<Id> {
    if x in ids then ids else ids + [x]
  }

  /** The mentioned ids in the order the pairs first name them. */
  function FirstSeen(pairs: seq<Pair>): seq<Id> {
    if pairs == [] then []
    else
      var (a, b) := pairs[|pairs| - 1];
      AddSeen(AddSeen(FirstSeen(pairs[..|pairs| - 1]), a), b)
  }

  lemma MentionedByLast(pairs: seq<Pair>, x: Id)
    requires pairs != []
    ensures var last := pairs[|pairs| - 1];
            Mentioned(pairs, x) <==> Mentioned(pairs[..|pairs| - 1], x) || last.0 == x || last.1 == x
  {
    var front := pairs[..|pairs| - 1];
    assert forall k :: 0 <= k < |front| ==> front[k] == pairs[k];
  }

  lemma {:induction false} FirstSeenIsMentioned(pairs: seq<Pair>, x: Id)
    ensures x in FirstSeen(pairs) <==> Mentioned(pairs, x)
  {
    if pairs != [] {
      FirstSeenIsMentioned(pairs[..|pairs| - 1], x);
      MentionedByLast(pairs, x);
    }
  }

  /** The tables describe the processed pairs: ids as first seen, trees as connected classes. */
  ghost predicate Tables(pairs: seq<Pair>, ids: seq<Id>, index: map<Id, nat>, parent: seq<nat>) {
    && |ids| == |parent| && Forest(parent) && Distinct(ids)
    && (forall x :: x in index <==> x in ids)
    && (forall x :: x in index ==> index[x] < |ids| && ids[index[x]] == x)
    && (forall x :: Mentioned(pairs, x) ==> x in ids)
    && forall i: nat, j: nat :: i < |ids| && j < |ids| ==>
         (RootOf(parent, i) == RootOf(parent, j) <==> Connected(pairs, ids[i], ids[j]))
  }

  /** The slot of an id, created as a tree of its own the first time it is seen. */
  method Slot(pairs: seq<Pair>, ids: seq<Id>, index: map<Id, nat>, parent: seq<nat>, id: Id)
    returns (ids': seq<Id>, index': map<Id, nat>, parent': seq<nat>, i: nat)
    requires Tables(pairs, ids, index, parent)
    ensures Tables(pairs, ids', index', parent')
    ensures ids' == AddSeen(ids, id) && i < |ids'| && ids'[i] == id
  {
    if id in index {
      return ids, index, parent, index[id];
    }
    i := |ids|;
    ids', index', parent' := ids + [id], index[id := i], parent + [i];
    forall j: nat, k: nat | j < |ids'| && k < |ids'|
      ensures Forest(parent')
      ensures RootOf(parent', j) == RootOf(parent', k) <==> Connected(pairs, ids'[j], ids'[k])
    {
      NewSlotIsAlone(pairs, ids, parent, id, j, k);
    }
  }

  lemma NewSlotIsAlone(pairs: seq<Pair>, ids: seq<Id>, parent: seq<nat>, id: Id, j: nat, k: nat)
    requires |ids| == |parent| && Forest(parent) && id !in ids && j <= |ids| && k <= |ids|
    requires forall x :: Mentioned(pairs, x) ==> x in ids
    requires j < |ids| && k < |ids| ==> (RootOf(parent, j) == RootOf(parent, k) <==> Connected(pairs, ids[j], ids[k]))
    ensures var (p, all) := (parent + [|parent|], ids + [id]);
            Forest(p) && (RootOf(p, j) == RootOf(p, k) <==> Connected(pairs, all[j], all[k]))
  {
    var all := ids + [id];
    if j < |ids| { GrowingKeepsRoots(parent, j); }
    if k < |ids| { GrowingKeepsRoots(parent, k); }
    ConnectedSelf(pairs, id);
    if Connected(pairs, all[j], all[k]) && (j == |ids|) != (k == |ids|) {
      ConnectedSym(pairs, all[j], all[k]);
      ConnectedIsMentioned(pairs, id, if j == |ids| then all[k] else all[j]);
    }
  }

  /** Merging the two roots turns the trees into the classes of one more pair. */
  lemma {:induction false} MergeAddsPair(pairs: seq<Pair>, ids: seq<Id>, index: map<Id, nat>, parent: seq<nat>, ia: nat, ib: nat)
    requires Tables(pairs, ids, index, parent) && ia < |ids| && ib < |ids|
    ensures var (ra, rb) := (RootOf(parent, ia), RootOf(parent, ib));
            var merged := if ra == rb then parent else parent[Max(ra, rb) := Min(ra, rb)];
            Tables(pairs + [(ids[ia], ids[ib])], ids, index, merged)
  {
    var ra, rb := RootOf(parent, ia), RootOf(parent, ib);
    var lo, hi := Min(ra, rb), Max(ra, rb);
    var merged := if ra == rb then parent else parent[hi := lo];
    var all := pairs + [(ids[ia], ids[ib])];
    forall j: nat, k: nat | j < |ids| && k < |ids|
      ensures Forest(merged)
      ensures RootOf(merged, j) == RootOf(merged, k) <==> Connected(all, ids[j], ids[k])
    {
      ConnectedByNewPair(pairs, ids[ia], ids[ib], ids[j], ids[k]);
      if ra != rb {
        LinkingMovesTree(parent, lo, hi, j);
        LinkingMovesTree(parent, lo, hi, k);
      }
    }
    forall x | Mentioned(all, x) ensures x in ids {
      assert Mentioned(pairs, x) || x == ids[ia] || x == ids[ib];
    }
  }

  // ----- Reading the clusters off the forest -----

  /** Indices below `n` whose root is `r`, ascending. */
  function Members(parent: seq<nat>, r: nat, n: nat): (m: seq<nat>)
    requires Forest(parent) && n <= |parent|
    ensures forall k :: 0 <= k < |m| ==> m[k] < n && RootOf(parent, m[k]) == r
    ensures forall k, l :: 0 <= k < l < |m| ==> m[k] < m[l]
  {
    if n == 0 then []
    else Members(parent, r, n - 1) + if RootOf(parent, n - 1) == r then [n - 1] else []
  }

  /** Indices below `n` that are roots, ascending. */
  function Roots(parent: seq<nat>, n: nat): (m: seq<nat>)
    requires Forest(parent) && n <= |parent|
    ensures forall k :: 0 <= k < |m| ==> m[k] < n && RootOf(parent, m[k]) == m[k]
    ensures forall k, l :: 0 <= k < l < |m| ==> m[k] < m[l]
  {
    if n == 0 then []
    else Roots(parent, n - 1) + if RootOf(parent, n - 1) == n - 1 then [n - 1] else []
  }

  lemma {:induction false} MembersAreAll(parent: seq<nat>, r: nat, n: nat, i: nat)
    requires Forest(parent) && i < n <= |parent| && RootOf(parent, i) == r
    ensures i in Members(parent, r, n)
    decreases n
  {
    if i < n - 1 {
      MembersAreAll(parent, r, n - 1, i);
    }
  }

  lemma {:induction false} RootsAreAll(parent: seq<nat>, n: nat, r: nat)
    requires Forest(parent) && r < n <= |parent| && RootOf(parent, r) == r
    ensures r in Roots(parent, n)
    decreases n
  {
    if r < n - 1 {
      RootsAreAll(parent, n - 1, r);
    }
  }

  function Pick(ids: seq<Id>, at: seq<nat>): (r: seq<Id>)
    requires forall k :: 0 <= k < |at| ==> at[k] < |ids|
  {
    seq(|at|, k requires 0 <= k < |at| => ids[at[k]])
  }

  /** The clusters after the first `n` ids: one per root, in root order, members ascending. */
  ghost predicate Gathered(ids: seq<Id>, parent: seq<nat>, n: nat, clusters: seq<(nat, seq<Id>)>) {
    && |ids| == |parent| && Forest(parent) && n <= |parent|
    && |clusters| == |Roots(parent, n)|
    && forall k :: 0 <= k < |clusters| ==>
         && clusters[k].0 == Roots(parent, n)[k]
         && clusters[k].1 == Pick(ids, Members(parent, clusters[k].0, n))
  }

  lemma {:induction false} NoMembersBelowRoot(parent: seq<nat>, r: nat, n: nat)
    requires Forest(parent) && n <= r <= |parent|
    ensures Members(parent, r, n) == []
  {
    if n > 0 {
      NoMembersBelowRoot(parent, r, n - 1);
    }
  }

  lemma PickSnoc(ids: seq<Id>, at: seq<nat>, n: nat)
    requires n < |ids| && forall k :: 0 <= k < |at| ==> at[k] < |ids|
    ensures Pick(ids, at + [n]) == Pick(ids, at) + [ids[n]]
  {
  }

  lemma {:induction false} GatherNew(ids: seq<Id>, parent: seq<nat>, n: nat, clusters: seq<(nat, seq<Id>)>)
    requires Gathered(ids, parent, n, clusters) && n < |parent| && RootOf(parent, n) == n
    ensures Gathered(ids, parent, n + 1, clusters + [(n, [ids[n]])])
  {
    NoMembersBelowRoot(parent, n, n);
    PickSnoc(ids, [], n);
    var roots, all := Roots(parent, n + 1), clusters + [(n, [ids[n]])];
    assert roots == Roots(parent, n) + [n];
    forall k | 0 <= k < |all|
      ensures all[k].0 == roots[k] && all[k].1 == Pick(ids, Members(parent, all[k].0, n + 1))
    {
      if k < |clusters| {
        assert all[k].0 == Roots(parent, n)[k] < n;
        assert Members(parent, all[k].0, n + 1) == Members(parent, all[k].0, n) + [];
      } else {
        assert Members(parent, n, n + 1) == [] + [n];
      }
    }
  }

  lemma {:induction false} GatherInto(ids: seq<Id>, parent: seq<nat>, n: nat, clusters: seq<(nat, seq<Id>)>, k: nat)
    requires Gathered(ids, parent, n, clusters) && n < |parent| && k < |clusters|
    requires clusters[k].0 == RootOf(parent, n) < n
    ensures Gathered(ids, parent, n + 1, clusters[k := (clusters[k].0, clusters[k].1 + [ids[n]])])
  {
    PickSnoc(ids, Members(parent, clusters[k].0, n), n);
    assert Roots(parent, n + 1) == Roots(parent, n);
  }

  /** Position of the cluster kept under root `r`, or one past the end. */
  method FindCluster(clusters: seq<(nat, seq<Id>)>, r: nat) returns (k: nat)
    ensures k <= |clusters|
    ensures k < |clusters| ==> clusters[k].0 == r
    ensures k == |clusters| ==> forall l :: 0 <= l < |clusters| ==> clusters[l].0 != r
  {
    k := 0;
    while k < |clusters| && clusters[k].0 != r
      invariant k <= |clusters| && forall l :: 0 <= l < k ==> clusters[l].0 != r
    {
      k := k + 1;
    }
  }

  lemma {:induction false} AbsentIsNew(ids: seq<Id>, parent: seq<nat>, n: nat, clusters: seq<(nat, seq<Id>)>)
    requires Gathered(ids, parent, n, clusters) && n < |parent|
    requires forall l :: 0 <= l < |clusters| ==> clusters[l].0 != RootOf(parent, n)
    ensures RootOf(parent, n) == n
  {
    if RootOf(parent, n) < n {
      RootsAreAll(parent, n, RootOf(parent, n));
    }
  }

  /** Put id `n` into its root's cluster, opening a new one for a root not met yet. */
  method Place(ids: seq<Id>, ghost parent: seq<nat>, n: nat, clusters: seq<(nat, seq<Id>)>, r: nat)
    returns (placed: seq<(nat, seq<Id>)>)
    requires Gathered(ids, parent, n, clusters) && n < |parent| && r == RootOf(parent, n)
    ensures Gathered(ids, parent, n + 1, placed)
  {
    var k := FindCluster(clusters, r);
    if k < |clusters| {
      assert clusters[k].0 == Roots(parent, n)[k];
      GatherInto(ids, parent, n, clusters, k);
      placed := clusters[k := (clusters[k].0, clusters[k].1 + [ids[n]])];
    } else {
      AbsentIsNew(ids, parent, n, clusters);
      GatherNew(ids, parent, n, clusters);
      placed := clusters + [(r, [ids[n]])];
    }
  }

  method Gather(ids: seq<Id>, start: seq<nat>) returns (clusters: seq<(nat, seq<Id>)>)
    requires Forest(start) && |ids| == |start|
    ensures Gathered(ids, start, |ids|, clusters)
  {
    var parent := start;
    clusters := [];
    for i := 0 to |ids|
      invariant SameRoots(parent, start) && Gathered(ids, start, i, clusters)
    {
      var next, r := Root(parent, i);
      SameRootsTrans(next, parent, start);
      parent := next;
      clusters := Place(ids, start, i, clusters, r);
    }
  }

  // ----- The whole operation -----

  /** `x` stands before `y` in the list. */
  ghost predicate Precedes(ids: seq<Id>, x: Id, y: Id) {
    exists i, j :: 0 <= i < j < |ids| && ids[i] == x && ids[j] == y
  }

  ghost predicate Listed(ids: seq<Id>, s: seq<Id>) {
    forall k, l :: 0 <= k < l < |s| ==> Precedes(ids, s[k], s[l])
  }

  /** Reading the pairs left to right, the `p`-th id is `x`. */
  predicate NamedAt(pairs: seq<Pair>, x: Id, p: nat) {
    p / 2 < |pairs| && x == if p % 2 == 0 then pairs[p / 2].0 else pairs[p / 2].1
  }

  /** `x` is named before `y` is ever named. */
  ghost predicate SeenBefore(pairs: seq<Pair>, x: Id, y: Id) {
    exists p: nat :: NamedAt(pairs, x, p) && forall q: nat :: q <= p ==> !NamedAt(pairs, y, q)
  }

  ghost predicate InOrder(pairs: seq<Pair>, s: seq<Id>) {
    forall k, l :: 0 <= k < l < |s| ==> SeenBefore(pairs, s[k], s[l])
  }

  lemma {:induction false} MentionedIsNamed(pairs: seq<Pair>, x: Id) returns (p: nat)
    requires Mentioned(pairs, x)
    ensures NamedAt(pairs, x, p)
  {
    var k :| 0 <= k < |pairs| && (pairs[k].0 == x || pairs[k].1 == x);
    p := if pairs[k].0 == x then 2 * k else 2 * k + 1;
  }

  lemma NamedIsMentioned(pairs: seq<Pair>, x: Id, p: nat)
    requires NamedAt(pairs, x, p)
    ensures Mentioned(pairs, x)
  {
    assert pairs[p / 2].0 == x || pairs[p / 2].1 == x;
  }

  /** What was named before the last pair was named there already, and in the same place. */
  lemma NamedInFront(pairs: seq<Pair>, x: Id, p: nat)
    requires pairs != [] && p < 2 * (|pairs| - 1)
    ensures NamedAt(pairs, x, p) <==> NamedAt(pairs[..|pairs| - 1], x, p)
  {
  }

  /** An id new with the last pair is named after everything before it. */
  lemma {:induction false} NewIsLater(pairs: seq<Pair>, x: Id, y: Id)
    requires pairs != [] && Mentioned(pairs[..|pairs| - 1], x) && !Mentioned(pairs[..|pairs| - 1], y)
    ensures SeenBefore(pairs, x, y)
  {
    var front := pairs[..|pairs| - 1];
    var p := MentionedIsNamed(front, x);
    NamedInFront(pairs, x, p);
    forall q: nat | q <= p ensures !NamedAt(pairs, y, q) {
      NamedInFront(pairs, y, q);
      if NamedAt(front, y, q) {
        NamedIsMentioned(front, y, q);
      }
    }
  }

  lemma {:induction false} SeenBeforeStays(pairs: seq<Pair>, x: Id, y: Id)
    requires pairs != [] && SeenBefore(pairs[..|pairs| - 1], x, y)
    ensures SeenBefore(pairs, x, y)
  {
    var front := pairs[..|pairs| - 1];
    var p: nat :| NamedAt(front, x, p) && forall q: nat :: q <= p ==> !NamedAt(front, y, q);
    NamedInFront(pairs, x, p);
    forall q: nat | q <= p ensures !NamedAt(pairs, y, q) {
      NamedInFront(pairs, y, q);
    }
  }

  lemma {:induction false} LeftBeforeRight(pairs: seq<Pair>)
    requires pairs != []
    requires var (front, last) := (pairs[..|pairs| - 1], pairs[|pairs| - 1]);
             last.0 != last.1 && !Mentioned(front, last.1)
    ensures SeenBefore(pairs, pairs[|pairs| - 1].0, pairs[|pairs| - 1].1)
  {
    var (front, last, p) := (pairs[..|pairs| - 1], pairs[|pairs| - 1], 2 * (|pairs| - 1));
    assert NamedAt(pairs, last.0, p);
    forall q: nat | q <= p ensures !NamedAt(pairs, last.1, q) {
      if q < p {
        NamedInFront(pairs, last.1, q);
        if NamedAt(front, last.1, q) {
          NamedIsMentioned(front, last.1, q);
        }
      }
    }
  }

  /** The list of ids is in the order in which the pairs first name them. */
  lemma {:induction false} FirstSeenIsInOrder(pairs: seq<Pair>)
    ensures InOrder(pairs, FirstSeen(pairs))
  {
    if pairs != [] {
      var (front, last) := (pairs[..|pairs| - 1], pairs[|pairs| - 1]);
      var (known, ids) := (FirstSeen(front), FirstSeen(pairs));
      FirstSeenIsInOrder(front);
      forall k, l | 0 <= k < l < |ids| ensures SeenBefore(pairs, ids[k], ids[l]) {
        FirstSeenIsMentioned(front, ids[k]);
        FirstSeenIsMentioned(front, ids[l]);
        if l < |known| {
          SeenBeforeStays(pairs, ids[k], ids[l]);
        } else if k < |known| {
          NewIsLater(pairs, ids[k], ids[l]);
        } else {
          LeftBeforeRight(pairs);
        }
      }
    }
  }

  lemma {:induction false} ListedIsInOrder(pairs: seq<Pair>, s: seq<Id>)
    requires Listed(FirstSeen(pairs), s)
    ensures InOrder(pairs, s)
  {
    FirstSeenIsInOrder(pairs);
    var ids := FirstSeen(pairs);
    forall k, l | 0 <= k < l < |s| ensures SeenBefore(pairs, s[k], s[l]) {
      assert Precedes(ids, s[k], s[l]);
      var i, j :| 0 <= i < j < |ids| && ids[i] == s[k] && ids[j] == s[l];
    }
  }

  function Heads(out: seq<seq<Id>>): seq<Id>
    requires forall c :: 0 <= c < |out| ==> out[c] != []
  {
    seq(|out|, c requires 0 <= c < |out| => out[c][0])
  }

  /** The connected classes of the mentioned ids, members and classes in first-seen order. */
  ghost predicate Clustered(pairs: seq<Pair>, out: seq<seq<Id>>) {
    && (forall c, x :: 0 <= c < |out| && x in out[c] ==> Mentioned(pairs, x))
    && (forall x :: Mentioned(pairs, x) ==> exists c :: 0 <= c < |out| && x in out[c])
    && (forall c, d, x, y :: 0 <= c < |out| && 0 <= d < |out| && x in out[c] && y in out[d] ==>
          (Connected(pairs, x, y) <==> c == d))
    && (forall c :: 0 <= c < |out| ==> out[c] != [] && InOrder(pairs, out[c]))
    && InOrder(pairs, Heads(out))
  }

  function Contents(clusters: seq<(nat, seq<Id>)>): (out: seq<seq<Id>>) {
    seq(|clusters|, k requires 0 <= k < |clusters| => clusters[k].1)
  }

  /** Where a member of cluster `c` comes from. */
  lemma {:induction false} MemberOrigin(ids: seq<Id>, parent: seq<nat>, clusters: seq<(nat, seq<Id>)>, c: nat, x: Id)
    returns (i: nat)
    requires Gathered(ids, parent, |ids|, clusters) && c < |clusters| && x in clusters[c].1
    ensures i < |ids| && ids[i] == x && RootOf(parent, i) == Roots(parent, |ids|)[c]
  {
    var m := Members(parent, clusters[c].0, |ids|);
    var k :| 0 <= k < |m| && Pick(ids, m)[k] == x;
    i := m[k];
  }

  lemma {:induction false} ClusterOf(ids: seq<Id>, parent: seq<nat>, clusters: seq<(nat, seq<Id>)>, i: nat) returns (c: nat)
    requires Gathered(ids, parent, |ids|, clusters) && i < |ids|
    ensures c < |clusters| && ids[i] in clusters[c].1
  {
    var r := RootOf(parent, i);
    RootsAreAll(parent, |ids|, r);
    c :| 0 <= c < |clusters| && Roots(parent, |ids|)[c] == r;
    var m := Members(parent, r, |ids|);
    MembersAreAll(parent, r, |ids|, i);
    var k :| 0 <= k < |m| && m[k] == i;
    assert Pick(ids, m)[k] == ids[i];
  }

  lemma {:induction false} MembersInOrder(ids: seq<Id>, parent: seq<nat>, clusters: seq<(nat, seq<Id>)>, c: nat)
    requires Gathered(ids, parent, |ids|, clusters) && c < |clusters|
    ensures Listed(ids, clusters[c].1)
    ensures clusters[c].1 != [] && clusters[c].1[0] == ids[Roots(parent, |ids|)[c]]
  {
    var r := Roots(parent, |ids|)[c];
    var m := Members(parent, r, |ids|);
    MembersAreAll(parent, r, |ids|, r);
    assert m[0] == r;
    forall k, l | 0 <= k < l < |m| ensures Precedes(ids, Pick(ids, m)[k], Pick(ids, m)[l]) {
      assert m[k] < m[l];
    }
  }

  lemma {:induction false} GatheredIsClustered(pairs: seq<Pair>, ids: seq<Id>, index: map<Id, nat>, parent: seq<nat>,
                                               clusters: seq<(nat, seq<Id>)>)
    requires Tables(pairs, ids, index, parent) && ids == FirstSeen(pairs) && Gathered(ids, parent, |ids|, clusters)
    ensures Clustered(pairs, Contents(clusters))
  {
    var out := Contents(clusters);
    forall c, x | 0 <= c < |out| && x in out[c] ensures Mentioned(pairs, x) {
      var i := MemberOrigin(ids, parent, clusters, c, x);
      FirstSeenIsMentioned(pairs, x);
    }
    forall x | Mentioned(pairs, x) ensures exists c :: 0 <= c < |out| && x in out[c] {
      var i :| 0 <= i < |ids| && ids[i] == x;
      var c := ClusterOf(ids, parent, clusters, i);
      assert x in out[c];
    }
    forall c, d, x, y | 0 <= c < |out| && 0 <= d < |out| && x in out[c] && y in out[d]
      ensures Connected(pairs, x, y) <==> c == d
    {
      var i := MemberOrigin(ids, parent, clusters, c, x);
      var j := MemberOrigin(ids, parent, clusters, d, y);
    }
    forall c | 0 <= c < |out| ensures out[c] != [] && InOrder(pairs, out[c]) {
      MembersInOrder(ids, parent, clusters, c);
      ListedIsInOrder(pairs, out[c]);
    }
    var roots := Roots(parent, |ids|);
    forall k, l | 0 <= k < l < |out| ensures Precedes(ids, Heads(out)[k], Heads(out)[l]) {
      MembersInOrder(ids, parent, clusters, k);
      MembersInOrder(ids, parent, clusters, l);
      assert roots[k] < roots[l];
    }
    ListedIsInOrder(pairs, Heads(out));
  }

  /** Process one pair: slots for both ids, their roots, and a merge of the later root under the earlier. */
  method AddPair(pairs: seq<Pair>, a: Id, b: Id, ids: seq<Id>, index: map<Id, nat>, parent: seq<nat>)
    returns (ids': seq<Id>, index': map<Id, nat>, parent': seq<nat>)
    requires Tables(pairs, ids, index, parent)
    ensures Tables(pairs + [(a, b)], ids', index', parent')
    ensures ids' == AddSeen(AddSeen(ids, a), b)
  {
    var ia, ib, ra, rb;
    ids', index', parent', ia := Slot(pairs, ids, index, parent, a);
    ids', index', parent', ib := Slot(pairs, ids', index', parent', b);
    parent', ra := Root(parent', ia);
    parent', rb := Root(parent', ib);
    MergeAddsPair(pairs, ids', index', parent', ia, ib);
    if ra != rb {
      parent' := parent'[Max(ra, rb) := Min(ra, rb)];
    }
  }

  lemma NextPair(pairs: seq<Pair>, n: nat)
    requires n < |pairs|
    ensures pairs[..n + 1] == pairs[..n] + [pairs[n]]
    ensures FirstSeen(pairs[..n + 1]) == AddSeen(AddSeen(FirstSeen(pairs[..n]), pairs[n].0), pairs[n].1)
  {
    assert pairs[..n + 1][..n] == pairs[..n];
  }

  /** Duplicate pairs in, connected classes out, in a stable order. */
  method DuplicateClusters(pairs: seq<Pair>) returns (out: seq<seq<Id>>)
    ensures Clustered(pairs, out)
  {
    var ids: seq<Id>, index: map<Id, nat>, parent: seq<nat> := [], map[], [];
    for n := 0 to |pairs|
      invariant Tables(pairs[..n], ids, index, parent) && ids == FirstSeen(pairs[..n])
    {
      var (a, b) := pairs[n];
      NextPair(pairs, n);
      ids, index, parent := AddPair(pairs[..n], a, b, ids, index, parent);
    }
    assert pairs[..|pairs|] == pairs;
    var clusters := Gather(ids, parent);
    GatheredIsClustered(pairs, ids, index, parent, clusters);
    out := Contents(clusters);
  }

  // ----- The specification leaves no choice -----

  lemma SeenBeforeIsStrict(pairs: seq<Pair>, x: Id, y: Id)
    requires SeenBefore(pairs, x, y)
    ensures !SeenBefore(pairs, y, x) && x != y
  {
  }

  lemma {:induction false} OrderedIsUnique(pairs: seq<Pair>, s: seq<Id>, t: seq<Id>)
    requires InOrder(pairs, s) && InOrder(pairs, t) && forall x :: x in s <==> x in t
    ensures s == t
    decreases |s|
  {
    assert t != [] ==> t[0] in s;
    if s != [] {
      assert s[0] in t;
      var i :| 0 <= i < |t| && t[i] == s[0];
      var j :| 0 <= j < |s| && s[j] == t[0];
      if i != 0 && j != 0 {
        SeenBeforeIsStrict(pairs, t[0], t[i]);
        assert false;
      }
      RestIsOthers(pairs, s);
      RestIsOthers(pairs, t);
      OrderedIsUnique(pairs, s[1..], t[1..]);
    }
  }

  lemma RestIsOthers(pairs: seq<Pair>, s: seq<Id>)
    requires InOrder(pairs, s) && s != []
    ensures s == [s[0]] + s[1..] && InOrder(pairs, s[1..]) && forall x :: x in s[1..] <==> x in s && x != s[0]
  {
    forall k | 0 < k < |s| ensures s[k] != s[0] {
      SeenBeforeIsStrict(pairs, s[0], s[k]);
    }
    assert s == [s[0]] + s[1..];
  }

  /** Each cluster of one grouping is, member for member, a cluster of any other. */
  lemma {:induction false} ClusterIsShared(pairs: seq<Pair>, a: seq<seq<Id>>, b: seq<seq<Id>>, c: nat) returns (d: nat)
    requires Clustered(pairs, a) && Clustered(pairs, b) && c < |a|
    ensures d < |b| && b[d] == a[c]
  {
    var x := a[c][0];
    assert x in a[c] && Mentioned(pairs, x);
    d :| 0 <= d < |b| && x in b[d];
    forall y ensures y in a[c] <==> y in b[d] {
      if Mentioned(pairs, y) {
        SameClassBoth(pairs, a, b, c, d, x, y);
      }
    }
    OrderedIsUnique(pairs, a[c], b[d]);
  }

  lemma {:induction false} SameClassBoth(pairs: seq<Pair>, a: seq<seq<Id>>, b: seq<seq<Id>>, c: nat, d: nat, x: Id, y: Id)
    requires Clustered(pairs, a) && Clustered(pairs, b) && c < |a| && d < |b| && x in a[c] && x in b[d] && Mentioned(pairs, y)
    ensures y in a[c] <==> y in b[d]
  {
    var e :| 0 <= e < |a| && y in a[e];
    var f :| 0 <= f < |b| && y in b[f];
    assert Connected(pairs, x, y) <==> c == e;
    assert Connected(pairs, x, y) <==> d == f;
    ConnectedSelf(pairs, y);
  }

  lemma {:induction false} HeadsAreShared(pairs: seq<Pair>, a: seq<seq<Id>>, b: seq<seq<Id>>, x: Id)
    requires Clustered(pairs, a) && Clustered(pairs, b) && x in Heads(a)
    ensures x in Heads(b)
  {
    var c :| 0 <= c < |a| && Heads(a)[c] == x;
    var d := ClusterIsShared(pairs, a, b, c);
    assert Heads(b)[d] == x;
  }

  /** The contract determines the answer: connected classes in first-seen order are one list. */
  lemma {:induction false} ClusteredIsUnique(pairs: seq<Pair>, a: seq<seq<Id>>, b: seq<seq<Id>>)
    requires Clustered(pairs, a) && Clustered(pairs, b)
    ensures a == b
  {
    forall x ensures x in Heads(a) <==> x in Heads(b) {
      if x in Heads(a) {
        HeadsAreShared(pairs, a, b, x);
      }
      if x in Heads(b) {
        HeadsAreShared(pairs, b, a, x);
      }
    }
    OrderedIsUnique(pairs, Heads(a), Heads(b));
    assert |a| == |Heads(a)| == |Heads(b)| == |b|;
    forall c | 0 <= c < |a| ensures a[c] == b[c] {
      var d := ClusterIsShared(pairs, a, b, c);
      assert Heads(a)[c] == Heads(b)[c];
      assert b[c][0] in b[c] && b[c][0] in b[d];
      ConnectedSelf(pairs, b[c][0]);
    }
  }

  /** A single pair groups its two ids in the order it names them. */
  lemma {:induction false} PairStaysInOrder(a: Id, b: Id)
    requires a != b
    ensures FirstSeen([(a, b)]) == [a, b] && Clustered([(a, b)], [[a, b]])
  {
    var pairs := [(a, b)];
    assert pairs[..0] == [] && FirstSeen([]) == [];
    assert FirstSeen(pairs) == [a, b];
    FirstSeenIsInOrder(pairs);
    ConnectedSelf(pairs, a);
    ConnectedSelf(pairs, b);
    ConnectedLink(pairs, a, b);
    ConnectedLink(pairs, b, a);
    var out := [[a, b]];
    assert Heads(out) == [a] && a in out[0] && b in out[0];
    forall x ensures Mentioned(pairs, x) <==> x in out[0] {
      FirstSeenIsMentioned(pairs, x);
    }
  }
}
