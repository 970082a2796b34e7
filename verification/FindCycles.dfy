/** Enumeration of the elementary cycles of a dictionary `parent -> children`, by a stack of paths. */
module FindCycles {
  import opened Basics
  import opened Graphs
  import Topsort

  datatype Rotated = Answer(rotated: bool) | IndexError

  // ---------- rotations ----------

  ghost function Rotate<T>(a: seq<T>, k: nat): seq<T>
    requires k <= |a|
  {
    a[k..] + a[..k]
  }

  ghost predicate Rotation<T>(a: seq<T>, b: seq<T>) {
    exists k: nat :: k < |a| && b == Rotate(a, k)
  }

  /** True iff the first sequence is a rotation of the second; two empty sequences make the head lookup fail. */
  method IsRotated<T(==)>(seq1: seq<T>, seq2: seq<T>) returns (r: Rotated)
    ensures r.IndexError? <==> seq1 == [] && seq2 == []
    ensures r.Answer? ==> (r.rotated <==> Rotation(seq1, seq2))
  {
    if |seq1| != |seq2| {
      return Answer(false);
    }
    if seq2 == [] {
      return IndexError;
    }
    var headItem := seq2[0];
    var startIndexes := StartIndexes(seq1, headItem);
    var doubleSeq1 := seq1 + seq1;
    for i := 0 to |startIndexes|
      invariant forall j :: 0 <= j < i ==> startIndexes[j] < |seq1| && seq2 != Rotate(seq1, startIndexes[j])
    {
      var index1 := startIndexes[i];
      assert index1 in startIndexes;
      assert doubleSeq1[index1..index1 + |seq1|] == Rotate(seq1, index1);
      if doubleSeq1[index1..index1 + |seq1|] == seq2 {
        return Answer(true);
      }
    }
    forall k | 0 <= k < |seq1|
      ensures seq2 != Rotate(seq1, k)
    {
      assert Rotate(seq1, k)[0] == seq1[k];
      assert k !in startIndexes ==> seq1[k] != headItem;
    }
    r := Answer(false);
  }

  method StartIndexes<T(==)>(s: seq<T>, head: T) returns (indexes: seq<nat>)
    ensures forall k :: k in indexes <==> 0 <= k < |s| && s[k] == head
  {
    indexes := [];
    for i := 0 to |s|
      invariant forall k :: k in indexes <==> 0 <= k < i && s[k] == head
    {
      if s[i] == head {
        indexes := indexes + [i];
      }
    }
  }

  lemma RotationInverse<T>(a: seq<T>, b: seq<T>)
    requires Rotation(a, b)
    ensures Rotation(b, a)
  {
    var k: nat :| k < |a| && b == Rotate(a, k);
    var j := if k == 0 then 0 else |a| - k;
    assert Rotate(b, j) == a;
  }

  lemma RotateTwice<T>(a: seq<T>, k: nat, j: nat)
    requires k < |a| && j < |a|
    ensures Rotate(Rotate(a, k), j) == Rotate(a, if j + k < |a| then j + k else j + k - |a|)
  {
    var b := Rotate(a, k);
    if j + k < |a| {
      assert b[j..] == a[j + k..] + a[..k];
      assert b[..j] == a[k..j + k];
      assert a[..k] + a[k..j + k] == a[..j + k];
    } else {
      var m := j + k - |a|;
      assert b[j..] == a[m..k];
      assert b[..j] == a[k..] + a[..m];
      assert a[m..k] + a[k..] == a[m..];
    }
  }

  lemma RotationTransitive<T>(a: seq<T>, b: seq<T>, c: seq<T>)
    requires Rotation(a, b) && Rotation(b, c)
    ensures Rotation(a, c)
  {
    var k: nat :| k < |a| && b == Rotate(a, k);
    var j: nat :| j < |b| && c == Rotate(b, j);
    RotateTwice(a, k, j);
  }

  // ---------- the graph ----------

  ghost function EdgesOf<T>(g: map<T, seq<T>>): set<(T, T)> {
    set p, c | p in g && c in g[p] :: (p, c)
  }

  ghost function Universe<T>(g: map<T, seq<T>>): set<T> {
    g.Keys + Nodes(EdgesOf(g))
  }

  /** A node without an entry has no children. */
  function ChildrenOf<T>(g: map<T, seq<T>>, x: T): seq<T> {
    if x in g then g[x] else []
  }

  ghost predicate SimplePath<T>(g: map<T, seq<T>>, root: T, p: seq<T>) {
    IsWalk(EdgesOf(g), p) && p[0] == root && Distinct(p)
  }

  // ---------- what has been found ----------

  ghost predicate Sound<T>(g: map<T, seq<T>>, cycles: seq<seq<T>>) {
    forall i :: 0 <= i < |cycles| ==> IsCycle(EdgesOf(g), cycles[i])
  }

  ghost predicate Unique<T>(cycles: seq<seq<T>>) {
    forall i, j :: 0 <= i < j < |cycles| ==> !Rotation(cycles[i], cycles[j])
  }

  ghost predicate Listed<T>(cycles: seq<seq<T>>, c: seq<T>) {
    exists i :: 0 <= i < |cycles| && Rotation(cycles[i], c)
  }

  /** Every elementary cycle that can be reached from x is listed, up to rotation. */
  ghost predicate Covered<T(!new)>(g: map<T, seq<T>>, cycles: seq<seq<T>>, x: T) {
    forall c :: IsCycle(EdgesOf(g), c) && Reaches(EdgesOf(g), x, c[0]) ==> Listed(cycles, c)
  }

  /** Every cycle closed by an edge from the end of p to one of the given children is listed. */
  ghost predicate ClosedBy<T>(cycles: seq<seq<T>>, p: seq<T>, children: seq<T>) {
    forall i :: 0 <= i < |p| && p[i] in children ==> Listed(cycles, p[i..])
  }

  // ---------- the work left on the stack ----------

  lemma SmallerRest<T>(u: set<T>, p: seq<T>, x: T)
    requires x in u && x !in p
    ensures Elements(p + [x]) == Elements(p) + {x}
    ensures |u - Elements(p + [x])| < |u - Elements(p)|
  {
    assert Elements(p + [x]) == Elements(p) + {x};
    assert u - Elements(p) == (u - Elements(p + [x])) + {x};
  }

  lemma ChildInUniverse<T>(g: map<T, seq<T>>, p: T, x: T)
    requires x in ChildrenOf(g, p)
    ensures (p, x) in EdgesOf(g) && x in Universe(g)
  {
    var e := (p, x);
    assert e in EdgesOf(g);
    assert e.1 in Nodes(EdgesOf(g));
  }

  ghost predicate Inside<T>(g: map<T, seq<T>>, p: seq<T>) {
    p != [] && Elements(p) <= Universe(g)
  }

  /** How many paths the loop will pop if it is started on p alone. */
  ghost function Work<T>(g: map<T, seq<T>>, p: seq<T>): nat
    requires Inside(g, p)
    decreases |Universe(g) - Elements(p)|, 1, 0
  {
    1 + KidsWork(g, p, |ChildrenOf(g, p[|p| - 1])|)
  }

  ghost function KidsWork<T>(g: map<T, seq<T>>, p: seq<T>, n: nat): nat
    requires Inside(g, p) && n <= |ChildrenOf(g, p[|p| - 1])|
    decreases |Universe(g) - Elements(p)|, 0, n
  {
    if n == 0 then 0 else
      var child := ChildrenOf(g, p[|p| - 1])[n - 1];
      KidsWork(g, p, n - 1) +
      if child in p then 0 else
        ChildInUniverse(g, p[|p| - 1], child);
        SmallerRest(Universe(g), p, child);
        Work(g, p + [child])
  }

  ghost function StackWork<T>(g: map<T, seq<T>>, paths: seq<seq<T>>): nat
    requires AllInside(g, paths)
  {
    if paths == [] then 0 else
      StackWork(g, paths[..|paths| - 1]) + Work(g, paths[|paths| - 1])
  }

  // ---------- the search from one root ----------

  /** Appends the cycle unless a rotation of it has been yielded already. */
  method Report<T(==)>(cycles: seq<seq<T>>, cycle: seq<T>) returns (cycles': seq<seq<T>>)
    requires Unique(cycles) && cycle != []
    ensures Unique(cycles') && Listed(cycles', cycle)
    ensures cycles' == cycles || cycles' == cycles + [cycle]
  {
    var isDup := false;
    var i := 0;
    while i < |cycles| && !isDup
      invariant i <= |cycles|
      invariant isDup ==> Listed(cycles, cycle)
      invariant !isDup ==> forall j :: 0 <= j < i ==> !Rotation(cycles[j], cycle)
      decreases |cycles| - i, !isDup
    {
      var r := IsRotated(cycles[i], cycle);
      isDup := r.rotated;
      i := i + 1;
    }
    if isDup {
      cycles' := cycles;
    } else {
      cycles' := cycles + [cycle];
      assert Rotate(cycle, 0) == cycle;
      assert cycles'[|cycles|] == cycle;
    }
  }

  lemma ListedMore<T>(cycles: seq<seq<T>>, more: seq<seq<T>>, c: seq<T>)
    requires cycles <= more && Listed(cycles, c)
    ensures Listed(more, c)
  {
    var i :| 0 <= i < |cycles| && Rotation(cycles[i], c);
    assert more[i] == cycles[i];
  }

  lemma ClosedByMore<T>(cycles: seq<seq<T>>, more: seq<seq<T>>, p: seq<T>, children: seq<T>)
    requires cycles <= more && ClosedBy(cycles, p, children)
    ensures ClosedBy(more, p, children)
  {
    forall i | 0 <= i < |p| && p[i] in children
      ensures Listed(more, p[i..])
    {
      ListedMore(cycles, more, p[i..]);
    }
  }

  lemma ClosedByNone<T>(cycles: seq<seq<T>>, p: seq<T>)
    ensures ClosedBy(cycles, p, [])
  {
  }

  lemma ClosedByBoth<T>(cycles: seq<seq<T>>, p: seq<T>, a: seq<T>, b: seq<T>)
    requires ClosedBy(cycles, p, a) && ClosedBy(cycles, p, b)
    ensures ClosedBy(cycles, p, a + b)
  {
    hide Listed;
  }

  /** The only place where the child can be on the path is i. */
  lemma ClosedByOne<T>(cycles: seq<seq<T>>, p: seq<T>, child: T, i: nat)
    requires child in p ==> i < |p| && p[i] == child && Distinct(p) && Listed(cycles, p[i..])
    ensures ClosedBy(cycles, p, [child])
  {
    hide Listed;
  }

  lemma SoundMore<T>(g: map<T, seq<T>>, cycles: seq<seq<T>>, c: seq<T>)
    requires Sound(g, cycles) && IsCycle(EdgesOf(g), c)
    ensures Sound(g, cycles + [c])
  {
    hide IsCycle;
  }

  /** A child that is on the path closes an elementary cycle; one that is not extends the path. */
  lemma PathChild<T>(g: map<T, seq<T>>, root: T, p: seq<T>, child: T)
    requires SimplePath(g, root, p) && child in ChildrenOf(g, p[|p| - 1])
    ensures forall i :: 0 <= i < |p| && p[i] == child ==> IsCycle(EdgesOf(g), p[i..])
    ensures child !in p ==> SimplePath(g, root, p + [child])
  {
    var es, n := EdgesOf(g), |p| - 1;
    ChildInUniverse(g, p[n], child);
    forall i | 0 <= i < |p| && p[i] == child
      ensures IsCycle(es, p[i..])
    {
      SubWalk(es, p, i, |p|);
      assert p[i..|p|] == p[i..];
    }
  }

  method IndexOf<T(==)>(path: seq<T>, x: T) returns (i: nat)
    requires x in path
    ensures i < |path| && path[i] == x && x !in path[..i]
  {
    i := 0;
    while path[i] != x
      invariant i < |path| && x !in path[..i] && x in path[i..]
      decreases |path| - i
    {
      i := i + 1;
    }
  }

  /** The longer paths pushed for a path and some of its children. */
  ghost function Extensions<T>(path: seq<T>, children: seq<T>): seq<seq<T>> {
    if children == [] then [] else
      var n := |children| - 1;
      Extensions(path, children[..n]) + if children[n] in path then [] else [path + [children[n]]]
  }

  lemma {:induction false} ExtensionMembers<T>(path: seq<T>, children: seq<T>, q: seq<T>)
    ensures q in Extensions(path, children) <==> exists c :: c in children && c !in path && q == path + [c]
  {
    if children != [] {
      var n := |children| - 1;
      ExtensionMembers(path, children[..n], q);
      assert children == children[..n] + [children[n]];
    }
  }

  lemma ExtensionsMore<T>(path: seq<T>, children: seq<T>, n: nat)
    requires n < |children|
    ensures Extensions(path, children[..n + 1])
            == Extensions(path, children[..n]) + if children[n] in path then [] else [path + [children[n]]]
  {
    assert children[..n + 1][..n] == children[..n];
  }

  lemma Append<T>(a: seq<T>, b: seq<T>, x: T)
    ensures a + (b + [x]) == (a + b) + [x] && a + (b + []) == a + b
  {
  }

  lemma VisitedMore<T>(visited: set<T>, path: set<T>, children: seq<T>, n: nat)
    requires n < |children|
    ensures visited + (Elements(children[..n]) - path) + ({children[n]} - path)
            == visited + (Elements(children[..n + 1]) - path)
  {
    assert children[..n + 1] == children[..n] + [children[n]];
  }

  ghost predicate AllSimple<T>(g: map<T, seq<T>>, root: T, paths: seq<seq<T>>) {
    forall p :: p in paths ==> SimplePath(g, root, p)
  }

  /** One child: report the cycle it closes, or push the longer path and mark the child as visited. */
  method TakeChild<T(==)>(ghost g: map<T, seq<T>>, ghost root: T, path: seq<T>, child: T,
                          cycles: seq<seq<T>>, visited: set<T>, paths: seq<seq<T>>)
    returns (cycles': seq<seq<T>>, visited': set<T>, paths': seq<seq<T>>)
    requires SimplePath(g, root, path) && child in ChildrenOf(g, path[|path| - 1])
    requires Sound(g, cycles) && Unique(cycles)
    ensures Sound(g, cycles') && Unique(cycles') && cycles <= cycles'
    ensures ClosedBy(cycles', path, [child])
    ensures visited' == visited + ({child} - Elements(path))
    ensures paths' == paths + if child in path then [] else [path + [child]]
  {
    PathChild(g, root, path, child);
    hide Sound, Unique, ClosedBy, IsCycle, IsWalk, Listed, EdgesOf;
    cycles', visited', paths' := cycles, visited, paths;
    var i := 0;
    if child in path {
      i := IndexOf(path, child);
      SoundMore(g, cycles, path[i..]);
      cycles' := Report(cycles', path[i..]);
    } else {
      paths' := paths' + [path + [child]];
      visited' := visited' + {child};
    }
    ClosedByOne(cycles', path, child, i);
  }

  /** The inner loop: every child of the popped path in turn. */
  method Expand<T(==)>(g: map<T, seq<T>>, ghost root: T, path: seq<T>,
                       cycles: seq<seq<T>>, visited: set<T>, paths: seq<seq<T>>)
    returns (cycles': seq<seq<T>>, visited': set<T>, paths': seq<seq<T>>)
    requires SimplePath(g, root, path) && path[|path| - 1] in g
    requires Sound(g, cycles) && Unique(cycles)
    ensures Sound(g, cycles') && Unique(cycles') && cycles <= cycles'
    ensures ClosedBy(cycles', path, g[path[|path| - 1]])
    ensures visited' == visited + (Elements(g[path[|path| - 1]]) - Elements(path))
    ensures paths' == paths + Extensions(path, g[path[|path| - 1]])
  {
    var children := g[path[|path| - 1]];
    cycles', visited', paths' := cycles, visited, paths;
    ClosedByNone(cycles, path);
    hide Sound, Unique, ClosedBy, SimplePath;
    assert Extensions(path, children[..0]) == [] && Elements(children[..0]) == {};
    hide Extensions, Elements;
    for j := 0 to |children|
      invariant Sound(g, cycles') && Unique(cycles') && cycles <= cycles'
      invariant ClosedBy(cycles', path, children[..j])
      invariant visited' == visited + (Elements(children[..j]) - Elements(path))
      invariant paths' == paths + Extensions(path, children[..j])
    {
      ghost var before := cycles';
      assert children[..j + 1] == children[..j] + [children[j]];
      ExtensionsMore(path, children, j);
      VisitedMore(visited, Elements(path), children, j);
      Append(paths, Extensions(path, children[..j]), path + [children[j]]);
      cycles', visited', paths' := TakeChild(g, root, path, children[j], cycles', visited', paths');
      ClosedByMore(before, cycles', path, children[..j]);
      ClosedByBoth(cycles', path, children[..j], [children[j]]);
    }
    assert children[..|children|] == children;
  }

  ghost predicate AllInside<T>(g: map<T, seq<T>>, paths: seq<seq<T>>) {
    forall p :: p in paths ==> Inside(g, p)
  }

  lemma StackPush<T>(g: map<T, seq<T>>, paths: seq<seq<T>>, q: seq<T>)
    requires AllInside(g, paths) && Inside(g, q)
    ensures AllInside(g, paths + [q]) && StackWork(g, paths + [q]) == StackWork(g, paths) + Work(g, q)
  {
    assert (paths + [q])[..|paths|] == paths;
  }

  lemma PathFits<T>(g: map<T, seq<T>>, path: seq<T>, child: T)
    requires Inside(g, path) && child in ChildrenOf(g, path[|path| - 1]) && child !in path
    ensures Inside(g, path + [child])
  {
    ChildInUniverse(g, path[|path| - 1], child);
    SmallerRest(Universe(g), path, child);
  }

  lemma KidsWorkMore<T>(g: map<T, seq<T>>, path: seq<T>, n: nat)
    requires Inside(g, path) && n < |ChildrenOf(g, path[|path| - 1])|
    ensures var child := ChildrenOf(g, path[|path| - 1])[n];
            && (child !in path ==> Inside(g, path + [child]))
            && KidsWork(g, path, n + 1) == KidsWork(g, path, n) + if child in path then 0 else Work(g, path + [child])
  {
    hide Work;
    var child := ChildrenOf(g, path[|path| - 1])[n];
    if child !in path {
      PathFits(g, path, child);
    }
  }

  lemma {:induction false} ExtensionsWork<T>(g: map<T, seq<T>>, rest: seq<seq<T>>, path: seq<T>, n: nat)
    requires Inside(g, path) && n <= |ChildrenOf(g, path[|path| - 1])| && AllInside(g, rest)
    ensures var more := rest + Extensions(path, ChildrenOf(g, path[|path| - 1])[..n]);
            AllInside(g, more) && StackWork(g, more) == StackWork(g, rest) + KidsWork(g, path, n)
  {
    var children := ChildrenOf(g, path[|path| - 1]);
    if n == 0 {
      assert rest + Extensions(path, children[..0]) == rest;
    } else {
      var child := children[n - 1];
      KidsWorkMore(g, path, n - 1);
      hide Universe, Inside, AllInside, StackWork, Work, KidsWork, Extensions;
      ExtensionsWork(g, rest, path, n - 1);
      ExtensionsMore(path, children, n - 1);
      var before := Extensions(path, children[..n - 1]);
      Append(rest, before, path + [child]);
      if child !in path {
        StackPush(g, rest + before, path + [child]);
      }
    }
  }

  /** p has been popped: its cycles are listed, and each way to extend it is known. */
  ghost predicate Handled<T>(g: map<T, seq<T>>, known: set<seq<T>>, cycles: seq<seq<T>>, p: seq<T>) {
    && p != []
    && ClosedBy(cycles, p, ChildrenOf(g, p[|p| - 1]))
    && (forall c :: c in ChildrenOf(g, p[|p| - 1]) && c !in p ==> p + [c] in known)
  }

  /** `done` are the popped paths; `known` are those and the paths still on the stack. */
  ghost predicate Progress<T>(g: map<T, seq<T>>, root: T, done: set<seq<T>>, known: set<seq<T>>, cycles: seq<seq<T>>) {
    [root] in known && forall p :: p in done ==> Handled(g, known, cycles, p)
  }

  lemma HandledMore<T>(g: map<T, seq<T>>, known: set<seq<T>>, known': set<seq<T>>,
                       cycles: seq<seq<T>>, cycles': seq<seq<T>>, p: seq<T>)
    requires Handled(g, known, cycles, p) && known <= known' && cycles <= cycles'
    ensures Handled(g, known', cycles', p)
  {
    ClosedByMore(cycles, cycles', p, ChildrenOf(g, p[|p| - 1]));
  }

  lemma KnownStep<T>(done: set<seq<T>>, rest: seq<seq<T>>, path: seq<T>, children: seq<T>)
    ensures var known' := done + {path} + Elements(rest + Extensions(path, children));
            && done + Elements(rest + [path]) <= known'
            && (forall c :: c in children && c !in path ==> path + [c] in known')
  {
    var more := rest + Extensions(path, children);
    forall p | p in Elements(rest + [path])
      ensures p in {path} + Elements(more)
    {
      if p in rest {
        assert p in more;
      }
    }
    forall c | c in children && c !in path
      ensures path + [c] in Elements(more)
    {
      ExtensionMembers(path, children, path + [c]);
      assert path + [c] in more;
    }
  }

  lemma ProgressStep<T>(g: map<T, seq<T>>, root: T, done: set<seq<T>>, known: set<seq<T>>, known': set<seq<T>>,
                        path: seq<T>, cycles: seq<seq<T>>, cycles': seq<seq<T>>)
    requires Progress(g, root, done, known, cycles) && known <= known' && cycles <= cycles'
    requires Handled(g, known', cycles', path)
    ensures Progress(g, root, done + {path}, known', cycles')
  {
    forall p | p in done
      ensures Handled(g, known', cycles', p)
    {
      HandledMore(g, known, known', cycles, cycles', p);
    }
  }

  /** With an empty stack every simple path from the root has been handled. */
  lemma {:induction false} AllHandled<T>(g: map<T, seq<T>>, root: T, done: set<seq<T>>, cycles: seq<seq<T>>, p: seq<T>)
    requires Progress(g, root, done, done, cycles) && SimplePath(g, root, p)
    ensures p in done
    decreases |p|
  {
    var n := |p| - 1;
    if n == 0 {
      assert p == [root];
    } else {
      var q := p[..n];
      assert IsWalk(EdgesOf(g), q);
      AllHandled(g, root, done, cycles, q);
      assert (p[n - 1], p[n - 1 + 1]) in EdgesOf(g);
      assert Handled(g, done, cycles, q) && q + [p[n]] == p;
    }
  }

  // ---------- a reachable cycle hangs on a simple path ----------

  /** Cutting out the repetitions of a walk leaves a simple path with the same ends. */
  lemma {:induction false} SimplePathTo<T>(es: set<(T, T)>, w: seq<T>) returns (p: seq<T>)
    requires IsWalk(es, w)
    ensures IsWalk(es, p) && Distinct(p) && p[0] == w[0] && p[|p| - 1] == w[|w| - 1]
    decreases |w|
  {
    if Distinct(w) {
      p := w;
    } else {
      var i, j :| 0 <= i < j < |w| && w[i] == w[j];
      SubWalk(es, w, 0, i + 1);
      SubWalk(es, w, j, |w|);
      WalkConcat(es, w[0..i + 1], w[j..|w|]);
      p := SimplePathTo(es, w[0..i + 1] + w[j..|w|][1..]);
    }
  }

  lemma RotatedCycle<T>(es: set<(T, T)>, c: seq<T>, k: nat)
    requires IsCycle(es, c) && k < |c|
    ensures IsCycle(es, Rotate(c, k))
  {
    var r := Rotate(c, k);
    forall i | 0 <= i < |r| - 1
      ensures (r[i], r[i + 1]) in es
    {
      if i + k < |c| - 1 {
        assert (c[i + k], c[i + k + 1]) in es;
      } else if i + k >= |c| {
        assert (c[i + k - |c|], c[i + k - |c| + 1]) in es;
      }
    }
    if k > 0 {
      assert (c[k - 1], c[k - 1 + 1]) in es;
    }
  }

  /** The first node of p that lies on the cycle. */
  lemma FirstOnCycle<T>(p: seq<T>, c: seq<T>) returns (m: nat)
    requires p != [] && p[|p| - 1] in c
    ensures m < |p| && p[m] in c && forall i :: 0 <= i < m ==> p[i] !in c
  {
    m := 0;
    while p[m] !in c
      invariant m < |p| && forall i :: 0 <= i < m ==> p[i] !in c
      decreases |p| - m
    {
      m := m + 1;
    }
  }

  lemma JoinedPath<T>(es: set<(T, T)>, p: seq<T>, m: nat, r: seq<T>)
    requires IsWalk(es, p) && Distinct(p) && m < |p| && IsCycle(es, r) && p[m] == r[0]
    requires forall i :: 0 <= i < m ==> p[i] !in r
    ensures IsWalk(es, p[..m] + r) && Distinct(p[..m] + r) && (p[..m] + r)[0] == p[0]
  {
    var q := p[..m] + r;
    forall i | 0 <= i < |q| - 1
      ensures (q[i], q[i + 1]) in es
    {
      if i < m {
        assert (p[i], p[i + 1]) in es;
      } else {
        assert (r[i - m], r[i - m + 1]) in es;
      }
    }
    forall i, j | 0 <= i < j < |q|
      ensures q[i] != q[j]
    {
      if i < m <= j {
        assert q[j] in r;
      }
    }
  }

  /** The cycle, rotated, is the tail of a simple path from the root whose last node leads back to its start. */
  lemma CycleOnPath<T(!new)>(g: map<T, seq<T>>, root: T, c: seq<T>) returns (q: seq<T>, m: nat, k: nat)
    requires IsCycle(EdgesOf(g), c) && Reaches(EdgesOf(g), root, c[0])
    ensures k < |c| && m < |q| && SimplePath(g, root, q) && q[m..] == Rotate(c, k)
    ensures q[m] in ChildrenOf(g, q[|q| - 1])
  {
    var es := EdgesOf(g);
    var w :| IsWalk(es, w) && w[0] == root && w[|w| - 1] == c[0];
    var p := SimplePathTo(es, w);
    m := FirstOnCycle(p, c);
    k :| 0 <= k < |c| && c[k] == p[m];
    RotatedCycle(es, c, k);
    var r := Rotate(c, k);
    assert forall x :: x in r ==> x in c;
    JoinedPath(es, p, m, r);
    q := p[..m] + r;
  }

  lemma RootCovered<T(!new)>(g: map<T, seq<T>>, root: T, done: set<seq<T>>, cycles: seq<seq<T>>)
    requires Progress(g, root, done, done, cycles)
    ensures Covered(g, cycles, root)
  {
    forall c | IsCycle(EdgesOf(g), c) && Reaches(EdgesOf(g), root, c[0])
      ensures Listed(cycles, c)
    {
      var q, m, k := CycleOnPath(g, root, c);
      AllHandled(g, root, done, cycles, q);
      assert Listed(cycles, q[m..]);
      var i :| 0 <= i < |cycles| && Rotation(cycles[i], Rotate(c, k));
      RotationInverse(c, Rotate(c, k));
      RotationTransitive(cycles[i], Rotate(c, k), c);
    }
  }

  /** The `while paths` loop. */
  method ExploreFrom<T(==, !new)>(g: map<T, seq<T>>, root: T, cycles: seq<seq<T>>, visited: set<T>)
    returns (cycles': seq<seq<T>>, visited': set<T>)
    requires root in g && Sound(g, cycles) && Unique(cycles)
    ensures Sound(g, cycles') && Unique(cycles') && cycles <= cycles'
    ensures Covered(g, cycles', root)
    ensures forall v :: v in visited' ==> v in visited || Reaches(EdgesOf(g), root, v)
  {
    cycles', visited' := cycles, visited;
    var paths := [[root]];
    ghost var done: set<seq<T>> := {};
    while paths != []
      invariant Sound(g, cycles') && Unique(cycles') && cycles <= cycles'
      invariant AllSimple(g, root, paths) && AllInside(g, paths)
      invariant Progress(g, root, done, done + Elements(paths), cycles')
      invariant forall v :: v in visited' ==> v in visited || Reaches(EdgesOf(g), root, v)
      decreases StackWork(g, paths)
    {
      var path, rest := paths[|paths| - 1], paths[..|paths| - 1];
      assert paths == rest + [path];
      ExpandPreserves(g, root, rest, path);
      ghost var before := cycles';
      paths := rest;
      if path[|path| - 1] in g {
        cycles', visited', paths := Expand(g, root, path, cycles', visited', paths);
      }
      KnownStep(done, rest, path, ChildrenOf(g, path[|path| - 1]));
      ProgressStep(g, root, done, done + Elements(rest + [path]), done + {path} + Elements(paths), path,
                   before, cycles');
      done := done + {path};
    }
    assert done + Elements(paths) == done;
    RootCovered(g, root, done, cycles');
  }

  lemma ExpandPreserves<T(!new)>(g: map<T, seq<T>>, root: T, rest: seq<seq<T>>, path: seq<T>)
    requires AllSimple(g, root, rest + [path]) && AllInside(g, rest + [path])
    ensures SimplePath(g, root, path) && AllInside(g, rest)
    ensures var more := rest + Extensions(path, ChildrenOf(g, path[|path| - 1]));
            AllSimple(g, root, more) && AllInside(g, more) && StackWork(g, more) < StackWork(g, rest + [path])
    ensures forall c :: c in ChildrenOf(g, path[|path| - 1]) ==> Reaches(EdgesOf(g), root, c)
  {
    assert (rest + [path])[|rest|] == path;
    assert path in rest + [path] && forall p :: p in rest ==> p in rest + [path];
    assert SimplePath(g, root, path);
    var children := ChildrenOf(g, path[|path| - 1]);
    StackPush(g, rest, path);
    ExtensionsWork(g, rest, path, |children|);
    assert children[..|children|] == children;
    forall p | p in Extensions(path, children)
      ensures SimplePath(g, root, p)
    {
      ExtensionMembers(path, children, p);
      var c :| c in children && c !in path && p == path + [c];
      PathChild(g, root, path, c);
    }
    forall c | c in children
      ensures Reaches(EdgesOf(g), root, c)
    {
      ChildInUniverse(g, path[|path| - 1], c);
      assert Reaches(EdgesOf(g), root, path[|path| - 1]);
      ReachesStep(EdgesOf(g), root, path[|path| - 1], c);
    }
  }

  /** Reachable nodes and longer lists inherit coverage. */
  lemma CoveredFurther<T(!new)>(g: map<T, seq<T>>, cycles: seq<seq<T>>, more: seq<seq<T>>, x: T, y: T)
    requires cycles <= more && Covered(g, cycles, x) && Reaches(EdgesOf(g), x, y)
    ensures Covered(g, more, y)
  {
    forall c | IsCycle(EdgesOf(g), c) && Reaches(EdgesOf(g), y, c[0])
      ensures Listed(more, c)
    {
      ReachesTransitive(EdgesOf(g), x, y, c[0]);
      ListedMore(cycles, more, c);
    }
  }

  lemma EveryCycleListed<T(!new)>(g: map<T, seq<T>>, cycles: seq<seq<T>>, c: seq<T>)
    requires forall x :: x in g ==> Covered(g, cycles, x)
    requires IsCycle(EdgesOf(g), c)
    ensures Listed(cycles, c)
  {
    assert c[0] in g by {
      if |c| > 1 {
        assert (c[0], c[0 + 1]) in EdgesOf(g);
      }
    }
    ReachesSelf(EdgesOf(g), c[0]);
  }

  /**
   * Yields elementary cycles only, every elementary cycle up to rotation, and no two rotations of one another,
   * in whatever order the dictionary lists its keys.
   */
  method FindCycles<T(==, !new)>(parentChildren: map<T, seq<T>>) returns (cycles: seq<seq<T>>)
    ensures Sound(parentChildren, cycles)
    ensures Unique(cycles)
    ensures forall c :: IsCycle(EdgesOf(parentChildren), c) ==> Listed(cycles, c)
  {
    cycles := [];
    var visited: set<T> := {};
    var todo := parentChildren.Keys;
    while todo != {}
      invariant todo <= parentChildren.Keys && Sound(parentChildren, cycles) && Unique(cycles)
      invariant forall x :: x in visited || x in parentChildren.Keys - todo ==> Covered(parentChildren, cycles, x)
    {
      var parent :| parent in todo;
      todo := todo - {parent};
      if parent !in visited {
        ghost var before, seen := cycles, visited;
        cycles, visited := ExploreFrom(parentChildren, parent, cycles, visited);
        forall x | x in visited || x in parentChildren.Keys - todo
          ensures Covered(parentChildren, cycles, x)
        {
          if x in seen || (x in parentChildren.Keys - todo && x != parent) {
            ReachesSelf(EdgesOf(parentChildren), x);
            CoveredFurther(parentChildren, before, cycles, x, x);
          } else if x != parent {
            CoveredFurther(parentChildren, cycles, cycles, parent, x);
          }
        }
      }
    }
    forall c | IsCycle(EdgesOf(parentChildren), c) ensures Listed(cycles, c) {
      EveryCycleListed(parentChildren, cycles, c);
    }
  }

  /** Each elementary cycle is represented by exactly one yielded list. */
  lemma OneRepresentative<T>(g: map<T, seq<T>>, cycles: seq<seq<T>>, c: seq<T>, i: nat, j: nat)
    requires Unique(cycles) && i < |cycles| && j < |cycles|
    requires Rotation(cycles[i], c) && Rotation(cycles[j], c)
    ensures i == j
  {
    RotationInverse(cycles[i], c);
    RotationInverse(cycles[j], c);
    RotationTransitive(cycles[i], c, cycles[j]);
    RotationTransitive(cycles[j], c, cycles[i]);
  }

  /** On the dictionary built from a pair list, nothing is yielded exactly when `topsort` of the list succeeds. */
  lemma NoCycleYieldedIffSortable<T(!new)>(pairs: seq<(T, T)>, children: map<T, seq<T>>, cycles: seq<seq<T>>)
    requires Topsort.Adjacency(pairs, {}, children)
    requires Sound(children, cycles) && forall c :: IsCycle(EdgesOf(children), c) ==> Listed(cycles, c)
    ensures cycles == [] <==> Topsort.Acyclic(Elements(pairs))
  {
    forall e
      ensures e in EdgesOf(children) <==> e in Elements(pairs)
    {
      Topsort.KidsMembers(pairs, e.0, e.1);
      if e in pairs {
        assert e.0 in Topsort.Parents(pairs);
      }
      assert e == (e.0, e.1);
    }
    assert EdgesOf(children) == Elements(pairs);
    if cycles != [] {
      assert IsCycle(EdgesOf(children), cycles[0]);
    }
  }
}
