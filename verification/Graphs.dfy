/** Finite directed graphs, given by their set of edges: walks, elementary cycles, and chains of ancestors. */
module Graphs {
  import opened Basics

  ghost function Nodes<T>(es: set<(T, T)>): set<T> {
    (set e | e in es :: e.0) + (set e | e in es :: e.1)
  }

  /** A non-empty sequence of nodes, each joined to the next by an edge. */
  ghost predicate IsWalk<T>(es: set<(T, T)>, w: seq<T>) {
    |w| > 0 && forall i :: 0 <= i < |w| - 1 ==> (w[i], w[i + 1]) in es
  }

  /** An elementary cycle: a walk without repeated nodes whose last node leads back to its first. */
  ghost predicate IsCycle<T>(es: set<(T, T)>, c: seq<T>) {
    IsWalk(es, c) && Distinct(c) && (c[|c| - 1], c[0]) in es
  }

  ghost predicate Reaches<T(!new)>(es: set<(T, T)>, x: T, y: T) {
    exists w :: IsWalk(es, w) && w[0] == x && w[|w| - 1] == y
  }

  /** x lies on an elementary cycle, or can be reached from one. */
  ghost predicate Downstream<T(!new)>(es: set<(T, T)>, x: T) {
    exists c, y :: IsCycle(es, c) && y in c && Reaches(es, y, x)
  }

  /** x ends a chain of k edges. */
  ghost predicate Chain<T(!new)>(es: set<(T, T)>, x: T, k: nat) {
    k == 0 || exists p :: (p, x) in es && Chain(es, p, k - 1)
  }

  ghost predicate UnboundedChains<T(!new)>(es: set<(T, T)>, x: T) {
    forall k: nat :: Chain(es, x, k)
  }

  // ---------- cardinalities ----------

  lemma {:induction false} DistinctCardinality<T>(s: seq<T>)
    requires Distinct(s)
    ensures |Elements(s)| == |s|
  {
    if s != [] {
      var n := |s| - 1;
      DistinctCardinality(s[..n]);
      assert Elements(s) == Elements(s[..n]) + {s[n]};
    }
  }

  lemma SubsetCardinality<T>(a: set<T>, b: set<T>)
    requires a <= b
    ensures |a| <= |b|
  {
    assert b == a + (b - a);
  }

  // ---------- walks ----------

  lemma WalkNodes<T>(es: set<(T, T)>, w: seq<T>)
    requires IsWalk(es, w) && |w| > 1
    ensures Elements(w) <= Nodes(es)
  {
    forall i | 0 <= i < |w|
      ensures w[i] in Nodes(es)
    {
      if i < |w| - 1 {
        assert (w[i], w[i + 1]).0 in Nodes(es);
      } else {
        assert (w[i - 1], w[i]).1 in Nodes(es);
      }
    }
  }

  lemma SubWalk<T>(es: set<(T, T)>, w: seq<T>, i: nat, j: nat)
    requires IsWalk(es, w) && i < j <= |w|
    ensures IsWalk(es, w[i..j])
  {
    forall k | 0 <= k < j - i - 1
      ensures (w[i..j][k], w[i..j][k + 1]) in es
    {
      assert (w[i + k], w[i + k + 1]) in es;
    }
  }

  lemma WalkConcat<T>(es: set<(T, T)>, a: seq<T>, b: seq<T>)
    requires IsWalk(es, a) && IsWalk(es, b) && a[|a| - 1] == b[0]
    ensures IsWalk(es, a + b[1..])
  {
    var w := a + b[1..];
    forall i | 0 <= i < |w| - 1
      ensures (w[i], w[i + 1]) in es
    {
      if i >= |a| - 1 {
        assert (b[i - |a| + 1], b[i - |a| + 2]) in es;
      }
    }
  }

  lemma ReachesTransitive<T(!new)>(es: set<(T, T)>, x: T, y: T, z: T)
    requires Reaches(es, x, y) && Reaches(es, y, z)
    ensures Reaches(es, x, z)
  {
    var a :| IsWalk(es, a) && a[0] == x && a[|a| - 1] == y;
    var b :| IsWalk(es, b) && b[0] == y && b[|b| - 1] == z;
    WalkConcat(es, a, b);
    assert (a + b[1..])[0] == x && (a + b[1..])[|a + b[1..]| - 1] == z;
  }

  lemma ReachesSelf<T(!new)>(es: set<(T, T)>, x: T)
    ensures Reaches(es, x, x)
  {
    assert IsWalk(es, [x]);
  }

  lemma ReachesStep<T(!new)>(es: set<(T, T)>, x: T, y: T, z: T)
    requires Reaches(es, x, y) && (y, z) in es
    ensures Reaches(es, x, z)
  {
    assert IsWalk(es, [y, z]) && [y, z][1] == z;
    ReachesTransitive(es, x, y, z);
  }

  /** Between two visits of the same node, a walk contains an elementary cycle. */
  lemma {:induction false} CycleInside<T>(es: set<(T, T)>, w: seq<T>, i: nat, j: nat) returns (a: nat, b: nat)
    requires IsWalk(es, w) && i < j < |w| && w[i] == w[j]
    ensures i <= a < b <= j && IsCycle(es, w[a..b]) && w[a] == w[b]
    decreases j - i
  {
    if m, n :| i <= m < n < j && w[m] == w[n] {
      a, b := CycleInside(es, w, m, n);
    } else {
      a, b := i, j;
      SubWalk(es, w, a, b);
      assert (w[j - 1], w[j - 1 + 1]) in es;
    }
  }

  /** Pigeonhole: a walk with more nodes than the graph has passes through an elementary cycle. */
  lemma LongWalkHasCycle<T>(es: set<(T, T)>, w: seq<T>) returns (a: nat, b: nat)
    requires IsWalk(es, w) && |w| > 1 && |w| > |Nodes(es)|
    ensures a < b < |w| && IsCycle(es, w[a..b]) && w[a] == w[b]
  {
    WalkNodes(es, w);
    if Distinct(w) {
      DistinctCardinality(w);
      SubsetCardinality(Elements(w), Nodes(es));
      assert false;
    }
    var i, j :| 0 <= i < j < |w| && w[i] == w[j];
    a, b := CycleInside(es, w, i, j);
  }

  // ---------- chains ----------

  /** A chain of k edges is a walk of k edges. */
  lemma {:induction false} ChainIsWalk<T(!new)>(es: set<(T, T)>, x: T, k: nat)
    ensures Chain(es, x, k) <==> exists w :: IsWalk(es, w) && |w| == k + 1 && w[k] == x
  {
    if k == 0 {
      assert IsWalk(es, [x]) && [x][0] == x;
    } else {
      if Chain(es, x, k) {
        var p :| (p, x) in es && Chain(es, p, k - 1);
        ChainIsWalk(es, p, k - 1);
        var w :| IsWalk(es, w) && |w| == k && w[k - 1] == p;
        assert IsWalk(es, w + [x]) && (w + [x])[k] == x;
      }
      if w :| IsWalk(es, w) && |w| == k + 1 && w[k] == x {
        assert IsWalk(es, w[..k]) && w[..k][k - 1] == w[k - 1];
        ChainIsWalk(es, w[k - 1], k - 1);
        assert (w[k - 1], w[k - 1 + 1]) in es;
      }
    }
  }

  lemma {:induction false} ChainShorter<T(!new)>(es: set<(T, T)>, x: T, j: nat, k: nat)
    requires j <= k && Chain(es, x, k)
    ensures Chain(es, x, j)
  {
    if 0 < j {
      var p :| (p, x) in es && Chain(es, p, k - 1);
      ChainShorter(es, p, j - 1, k - 1);
    }
  }

  lemma {:induction false} CycleChains<T(!new)>(es: set<(T, T)>, c: seq<T>, i: nat, k: nat)
    requires IsCycle(es, c) && i < |c|
    ensures Chain(es, c[i], k)
    decreases k
  {
    if k > 0 {
      var j := if i == 0 then |c| - 1 else i - 1;
      CycleChains(es, c, j, k - 1);
      assert (c[j], c[i]) in es by {
        if i > 0 { assert (c[j], c[j + 1]) in es; }
      }
    }
  }

  lemma {:induction false} WalkExtendsChains<T(!new)>(es: set<(T, T)>, w: seq<T>, k: nat)
    requires IsWalk(es, w) && Chain(es, w[0], k)
    ensures Chain(es, w[|w| - 1], k)
    decreases |w|
  {
    if |w| > 1 {
      var n := |w| - 1;
      assert (w[n - 1], w[n - 1 + 1]) in es;
      WalkExtendsChains(es, w[..n], k);
      assert w[..n][|w[..n]| - 1] == w[n - 1];
      assert Chain(es, w[n], k + 1);
      ChainShorter(es, w[n], k, k + 1);
    }
  }

  lemma DownstreamChain<T(!new)>(es: set<(T, T)>, x: T, k: nat)
    requires Downstream(es, x)
    ensures Chain(es, x, k)
  {
    var c, y :| IsCycle(es, c) && y in c && Reaches(es, y, x);
    var i :| 0 <= i < |c| && c[i] == y;
    CycleChains(es, c, i, k);
    var w :| IsWalk(es, w) && w[0] == y && w[|w| - 1] == x;
    WalkExtendsChains(es, w, k);
  }

  /** Chains of every length end in x exactly when x is on a cycle or downstream of one. */
  lemma DownstreamIffUnboundedChains<T(!new)>(es: set<(T, T)>, x: T)
    ensures UnboundedChains(es, x) <==> Downstream(es, x)
  {
    if UnboundedChains(es, x) {
      var n: nat := |Nodes(es)| + 1;
      assert Chain(es, x, n);
      LongChainIsDownstream(es, x, n);
    }
    if Downstream(es, x) {
      forall k: nat
        ensures Chain(es, x, k)
      {
        DownstreamChain(es, x, k);
      }
    }
  }

  lemma LongChainIsDownstream<T(!new)>(es: set<(T, T)>, x: T, n: nat)
    requires n > |Nodes(es)| && Chain(es, x, n)
    ensures Downstream(es, x)
  {
    ChainIsWalk(es, x, n);
    var w :| IsWalk(es, w) && |w| == n + 1 && w[n] == x;
    var a, b := LongWalkHasCycle(es, w);
    var v := w[a..];
    SubWalk(es, w, a, |w|);
    assert v == w[a..|w|] && v[0] == w[a] && v[|v| - 1] == x;
    assert w[a..b][0] == w[a];
    assert Reaches(es, w[a], x);
  }
}
