/** Dependency sorting of (parent, child) pairs: the flat order and the level-by-level generator. */
module Topsort {
  import opened Basics
  import opened Graphs

  /** What `topsort` hands back: an order, or the exception with its three arguments. */
  datatype Sorted<T> =
    | Ordered(order: seq<T>)
    | CycleError(order: seq<T>, numParents: map<T, int>, children: map<T, seq<T>>)

  /** What the level generator produces: the lists it yields, then its normal end or an exception. */
  datatype Levelled<T> =
    | Finished(levels: seq<seq<T>>)
    | LevelKeyError(levels: seq<seq<T>>)
    | LevelCycleError(levels: seq<seq<T>>, numParents: map<T, int>, children: map<T, seq<T>>)

  // ---------- what the dictionaries hold ----------

  ghost function Mentioned<T>(pairs: seq<(T, T)>): set<T> {
    Nodes(Elements(pairs))
  }

  ghost function Parents<T>(pairs: seq<(T, T)>): set<T> {
    set e | e in pairs :: e.0
  }

  /** Number of pairs, counted with repetition, that give x a parent outside `done`. */
  ghost function Pending<T>(pairs: seq<(T, T)>, done: set<T>, x: T): nat {
    if pairs == [] then 0 else
      var n := |pairs| - 1;
      Pending(pairs[..n], done, x) + if pairs[n].1 == x && pairs[n].0 !in done then 1 else 0
  }

  /** The children of p, in the order of the pairs that name them. */
  ghost function Kids<T>(pairs: seq<(T, T)>, p: T): seq<T> {
    if pairs == [] then [] else
      var n := |pairs| - 1;
      Kids(pairs[..n], p) + if pairs[n].0 == p then [pairs[n].1] else []
  }

  /**
   * The dictionaries of the graph with nodes `all` and the given pairs as edges, once the nodes in `done` have been
   * taken out. A node without children may have an empty list or none.
   */
  ghost predicate Remaining<T(!new)>(pairs: seq<(T, T)>, all: set<T>, done: set<T>,
                                     num: map<T, int>, children: map<T, seq<T>>) {
    Counts(pairs, all, done, num) && Adjacency(pairs, done, children)
  }

  ghost predicate Counts<T(!new)>(pairs: seq<(T, T)>, all: set<T>, done: set<T>, num: map<T, int>) {
    && Mentioned(pairs) <= all
    && num.Keys == all - done
    && (forall x :: x in num ==> num[x] == Pending(pairs, done, x))
  }

  ghost predicate Adjacency<T(!new)>(pairs: seq<(T, T)>, done: set<T>, children: map<T, seq<T>>) {
    && children.Keys !! done
    && Parents(pairs) - done <= children.Keys
    && (forall p :: p in children ==> children[p] == Kids(pairs, p))
  }

  ghost predicate Acyclic<T(!new)>(es: set<(T, T)>) {
    forall c :: !IsCycle(es, c)
  }

  /** Every element once, every parent before each of its children. */
  ghost predicate ParentsFirst<T(!new)>(pairs: seq<(T, T)>, order: seq<T>) {
    && Distinct(order)
    && (forall p, j :: 0 <= j < |order| && (p, order[j]) in pairs ==> p in order[..j])
  }

  // ---------- counting lemmas ----------

  lemma {:induction false} PendingZero<T>(pairs: seq<(T, T)>, done: set<T>, x: T)
    ensures Pending(pairs, done, x) == 0 <==> forall e :: e in pairs && e.1 == x ==> e.0 in done
  {
    if pairs != [] {
      var n := |pairs| - 1;
      PendingZero(pairs[..n], done, x);
      assert pairs == pairs[..n] + [pairs[n]];
    }
  }

  lemma {:induction false} PendingStep<T>(pairs: seq<(T, T)>, done: set<T>, p: T, x: T)
    requires p !in done
    ensures Pending(pairs, done + {p}, x) == Pending(pairs, done, x) - multiset(Kids(pairs, p))[x]
  {
    if pairs != [] {
      PendingStep(pairs[..|pairs| - 1], done, p, x);
    }
  }

  lemma {:induction false} KidsMembers<T>(pairs: seq<(T, T)>, p: T, x: T)
    ensures x in Kids(pairs, p) <==> (p, x) in pairs
  {
    if pairs != [] {
      var n := |pairs| - 1;
      KidsMembers(pairs[..n], p, x);
      assert pairs == pairs[..n] + [pairs[n]];
    }
  }

  /** The list holds the children that the pairs give p, each where its pair stands among them. */
  ghost predicate Positions<T>(pairs: seq<(T, T)>, p: T, kids: seq<T>, at: seq<nat>) {
    && |at| == |kids|
    && (forall i :: 0 <= i < |at| ==> at[i] < |pairs| && pairs[at[i]] == (p, kids[i]))
    && (forall i, j :: 0 <= i < j < |at| ==> at[i] < at[j])
    && (forall n :: 0 <= n < |pairs| && pairs[n].0 == p ==> n in at)
  }

  ghost predicate InPairOrder<T>(pairs: seq<(T, T)>, p: T, kids: seq<T>) {
    exists at :: Positions(pairs, p, kids, at)
  }

  lemma {:induction false} KidsPositions<T>(pairs: seq<(T, T)>, p: T) returns (at: seq<nat>)
    ensures Positions(pairs, p, Kids(pairs, p), at)
  {
    if pairs == [] {
      at := [];
    } else {
      var n := |pairs| - 1;
      var before := KidsPositions(pairs[..n], p);
      at := before + if pairs[n].0 == p then [n] else [];
      assert forall i :: 0 <= i < n ==> pairs[..n][i] == pairs[i];
      assert pairs[n].0 == p ==> at[|before|] == n;
    }
  }

  /** The children of a node stand in its list as the pairs that name them do, and as often. */
  lemma ListedInPairOrder<T(!new)>(pairs: seq<(T, T)>, done: set<T>, children: map<T, seq<T>>)
    requires Adjacency(pairs, done, children)
    ensures forall p :: p in children ==> InPairOrder(pairs, p, children[p])
  {
    forall p | p in children
      ensures InPairOrder(pairs, p, children[p])
    {
      var at := KidsPositions(pairs, p);
    }
  }

  // ---------- building the dictionaries ----------

  lemma PrefixStep<T(!new)>(pairs: seq<(T, T)>, i: nat)
    requires i < |pairs|
    ensures pairs[..i + 1][..i] == pairs[..i]
    ensures Mentioned(pairs[..i + 1]) == Mentioned(pairs[..i]) + {pairs[i].0, pairs[i].1}
    ensures Parents(pairs[..i + 1]) == Parents(pairs[..i]) + {pairs[i].0}
  {
    var q := pairs[..i + 1];
    assert q == pairs[..i] + [pairs[i]];
    var es, fs := Elements(pairs[..i]), Elements(q);
    assert fs == es + {pairs[i]};
    assert pairs[i] in fs;
    assert (set e | e in fs :: e.0) == (set e | e in es :: e.0) + {pairs[i].0};
    assert (set e | e in fs :: e.1) == (set e | e in es :: e.1) + {pairs[i].1};
    assert Parents(q) == (set e | e in fs :: e.0);
    assert Parents(pairs[..i]) == (set e | e in es :: e.0);
  }

  lemma Unmentioned<T(!new)>(pairs: seq<(T, T)>, x: T)
    ensures x !in Mentioned(pairs) ==> Pending(pairs, {}, x) == 0
    ensures x !in Parents(pairs) ==> Kids(pairs, x) == []
  {
    PendingZero(pairs, {}, x);
    if x !in Mentioned(pairs) {
      forall e | e in pairs
        ensures e.1 != x
      {
        assert e in Elements(pairs);
      }
    }
    if Kids(pairs, x) != [] {
      var e := (x, Kids(pairs, x)[0]);
      KidsMembers(pairs, x, e.1);
      assert e.0 in Parents(pairs);
    }
  }

  lemma CountsMore<T(!new)>(pairs: seq<(T, T)>, i: nat, num: map<T, int>, num': map<T, int>)
    requires i < |pairs| && Counts(pairs[..i], Mentioned(pairs[..i]), {}, num)
    requires num'.Keys == num.Keys + {pairs[i].0, pairs[i].1}
    requires forall x :: x in num' ==> num'[x] == (if x in num then num[x] else 0) + One(x == pairs[i].1)
    ensures Counts(pairs[..i + 1], Mentioned(pairs[..i + 1]), {}, num')
  {
    PrefixStep(pairs, i);
    Unmentioned(pairs[..i], pairs[i].0);
    Unmentioned(pairs[..i], pairs[i].1);
    hide Mentioned;
  }

  /** One pair: both elements get a count and the child's grows by one. */
  method CountPair<T(==, !new)>(ghost pairs: seq<(T, T)>, ghost i: nat, parent: T, child: T, num: map<T, int>)
    returns (num': map<T, int>)
    requires i < |pairs| && pairs[i] == (parent, child)
    requires Counts(pairs[..i], Mentioned(pairs[..i]), {}, num)
    ensures Counts(pairs[..i + 1], Mentioned(pairs[..i + 1]), {}, num')
  {
    hide Counts, Mentioned;
    num' := num;
    if parent !in num' {
      num' := num'[parent := 0];
    }
    if child !in num' {
      num' := num'[child := 0];
    }
    num' := num'[child := num'[child] + 1];
    CountsMore(pairs, i, num, num');
  }

  /** One pair: the parent gains a child. */
  method AddChild<T(==, !new)>(ghost pairs: seq<(T, T)>, ghost i: nat, parent: T, child: T, children: map<T, seq<T>>)
    returns (children': map<T, seq<T>>)
    requires i < |pairs| && pairs[i] == (parent, child)
    requires Adjacency(pairs[..i], {}, children)
    ensures Adjacency(pairs[..i + 1], {}, children')
  {
    PrefixStep(pairs, i);
    Unmentioned(pairs[..i], parent);
    children' := children;
    if parent !in children' {
      children' := children'[parent := []];
    }
    children' := children'[parent := children'[parent] + [child]];
  }

  method BuildMaps<T(==, !new)>(pairs: seq<(T, T)>) returns (num: map<T, int>, children: map<T, seq<T>>)
    ensures Remaining(pairs, Mentioned(pairs), {}, num, children)
    ensures forall p :: p in children ==> InPairOrder(pairs, p, children[p])
  {
    num, children := map[], map[];
    for i := 0 to |pairs|
      invariant Remaining(pairs[..i], Mentioned(pairs[..i]), {}, num, children)
    {
      num := CountPair(pairs, i, pairs[i].0, pairs[i].1, num);
      children := AddChild(pairs, i, pairs[i].0, pairs[i].1, children);
    }
    assert pairs[..|pairs|] == pairs;
    ListedInPairOrder(pairs, {}, children);
  }

  // ---------- why the leftover nodes are the cyclic ones ----------

  /** Each node outside `done` still waits for a parent outside `done`. */
  ghost predicate Stuck<T(!new)>(pairs: seq<(T, T)>, all: set<T>, done: set<T>) {
    forall x :: x in all - done ==> exists p :: (p, x) in pairs && p !in done
  }

  lemma {:induction false} StuckChains<T(!new)>(pairs: seq<(T, T)>, all: set<T>, done: set<T>, x: T, k: nat)
    requires Mentioned(pairs) <= all && Stuck(pairs, all, done) && x in all - done
    ensures Chain(Elements(pairs), x, k)
  {
    if k > 0 {
      var p :| (p, x) in pairs && p !in done;
      EndsMentioned(pairs, p, x);
      StuckChains(pairs, all, done, p, k - 1);
      assert (p, x) in Elements(pairs);
    }
  }

  lemma EndsMentioned<T>(pairs: seq<(T, T)>, p: T, x: T)
    requires (p, x) in pairs
    ensures p in Mentioned(pairs) && x in Mentioned(pairs)
  {
    var e := (p, x);
    assert e in Elements(pairs);
    assert e.0 in Mentioned(pairs) && e.1 in Mentioned(pairs);
  }

  lemma ParentEarlier<T(!new)>(pairs: seq<(T, T)>, order: seq<T>, p: T, j: nat) returns (i: nat)
    requires ParentsFirst(pairs, order) && j < |order| && (p, order[j]) in pairs
    ensures i < j && order[i] == p
  {
    assert p in order[..j];
    i :| 0 <= i < j && order[i] == p;
  }

  lemma {:induction false} OrderedChains<T(!new)>(pairs: seq<(T, T)>, order: seq<T>, j: nat)
    requires ParentsFirst(pairs, order) && j < |order|
    ensures !Chain(Elements(pairs), order[j], j + 1)
    decreases j
  {
    hide ParentsFirst;
    var es := Elements(pairs);
    if Chain(es, order[j], j + 1) {
      var p :| (p, order[j]) in es && Chain(es, p, j);
      var i := ParentEarlier(pairs, order, p, j);
      OrderedChains(pairs, order, i);
      ChainShorter(es, p, i + 1, j);
    }
  }

  lemma DownstreamMentioned<T(!new)>(pairs: seq<(T, T)>, x: T)
    requires Downstream(Elements(pairs), x)
    ensures x in Mentioned(pairs)
  {
    DownstreamChain(Elements(pairs), x, 1);
    var p :| (p, x) in Elements(pairs) && Chain(Elements(pairs), p, 0);
    EndsMentioned(pairs, p, x);
  }

  /** What stays behind when no further node can be taken out: exactly the nodes on or downstream of a cycle. */
  lemma LeftoverIsDownstream<T(!new)>(pairs: seq<(T, T)>, order: seq<T>)
    requires ParentsFirst(pairs, order) && Stuck(pairs, Mentioned(pairs), Elements(order))
    ensures forall x :: x in Mentioned(pairs) - Elements(order) <==> Downstream(Elements(pairs), x)
  {
    var es := Elements(pairs);
    forall x
      ensures x in Mentioned(pairs) - Elements(order) <==> Downstream(es, x)
    {
      DownstreamIffUnboundedChains(es, x);
      if x in order {
        var j :| 0 <= j < |order| && order[j] == x;
        OrderedChains(pairs, order, j);
      } else if x in Mentioned(pairs) {
        forall k: nat ensures Chain(es, x, k) { StuckChains(pairs, Mentioned(pairs), Elements(order), x, k); }
      } else if Downstream(es, x) {
        DownstreamMentioned(pairs, x);
      }
    }
  }

  lemma AcyclicIffNothingDownstream<T(!new)>(es: set<(T, T)>)
    ensures Acyclic(es) <==> forall x :: !Downstream(es, x)
  {
    if c :| IsCycle(es, c) {
      ReachesSelf(es, c[0]);
      assert Downstream(es, c[0]);
    }
  }

  // ---------- the order of the queue ----------

  /** The last place of x, or -1. */
  ghost function LastAt<T>(s: seq<T>, x: T): (i: int)
    ensures -1 <= i < |s| && (i >= 0 ==> s[i] == x) && forall k :: i < k < |s| ==> s[k] != x
  {
    if s == [] then -1 else
      var n := |s| - 1;
      if s[n] == x then n else LastAt(s[..n], x)
  }

  /** The last place of a parent of x, or -1. */
  ghost function LastParent<T>(pairs: seq<(T, T)>, order: seq<T>, x: T): (i: int)
    ensures -1 <= i < |order| && (i >= 0 ==> (order[i], x) in pairs)
    ensures forall k :: i < k < |order| ==> (order[k], x) !in pairs
  {
    if order == [] then -1 else
      var n := |order| - 1;
      if (order[n], x) in pairs then n else LastParent(pairs, order[..n], x)
  }

  /**
   * x may come before y: its last parent comes earlier, or both have the same last parent and that one lists x for the
   * last time before y. Elements without parents come first, in any order.
   */
  ghost predicate Queued<T>(pairs: seq<(T, T)>, order: seq<T>, x: T, y: T) {
    var i, j := LastParent(pairs, order, x), LastParent(pairs, order, y);
    i < j || (i == j && (i == -1 || LastAt(Kids(pairs, order[i]), x) < LastAt(Kids(pairs, order[i]), y)))
  }

  ghost predicate QueueOrder<T>(pairs: seq<(T, T)>, order: seq<T>) {
    forall i, j :: 0 <= i < j < |order| ==> Queued(pairs, order, order[i], order[j])
  }

  ghost predicate ByLastPlace<T>(kids: seq<T>, released: seq<T>) {
    forall a, b :: 0 <= a < b < |released| ==> LastAt(kids, released[a]) < LastAt(kids, released[b])
  }

  ghost predicate Before<T>(kids: seq<T>, released: seq<T>, j: nat) {
    forall a :: 0 <= a < |released| ==> LastAt(kids, released[a]) < j
  }

  lemma FirstQueue<T(!new)>(pairs: seq<(T, T)>, answer: seq<T>)
    requires Frontier(pairs, answer, 0)
    ensures QueueOrder(pairs, answer)
  {
    assert Elements(answer[..0]) == {};
    forall x | x in answer
      ensures LastParent(pairs, answer, x) == -1
    {
      PendingZero(pairs, {}, x);
    }
    assert forall i :: 0 <= i < |answer| ==> answer[i] in answer;
  }

  /** The last parent of an element in the frontier is among the elements handled. */
  lemma ParentHandled<T(!new)>(pairs: seq<(T, T)>, answer: seq<T>, k: nat, x: T)
    requires Frontier(pairs, answer, k) && x in answer
    ensures LastParent(pairs, answer, x) < k
  {
    PendingZero(pairs, Elements(answer[..k]), x);
  }

  lemma LastParentGrown<T(!new)>(pairs: seq<(T, T)>, answer: seq<T>, released: seq<T>, k: nat, x: T)
    requires k < |answer| && Frontier(pairs, answer, k) && Frontier(pairs, answer + released, k + 1) && x in answer
    ensures LastParent(pairs, answer + released, x) == LastParent(pairs, answer, x) < k
  {
    ParentHandled(pairs, answer, k, x);
    ParentHandled(pairs, answer + released, k + 1, x);
    var i := LastParent(pairs, answer + released, x);
    assert i >= 0 ==> (answer + released)[i] == answer[i];
    assert forall m :: 0 <= m < |answer| ==> (answer + released)[m] == answer[m];
  }

  lemma NextQueue<T(!new)>(pairs: seq<(T, T)>, answer: seq<T>, k: nat, released: seq<T>)
    requires k < |answer| && Frontier(pairs, answer, k) && Frontier(pairs, answer + released, k + 1)
    requires QueueOrder(pairs, answer) && ByLastPlace(Kids(pairs, answer[k]), released)
    requires forall x :: x in released ==> x in Kids(pairs, answer[k])
    ensures QueueOrder(pairs, answer + released)
  {
    var s := answer + released;
    forall x | x in released
      ensures LastParent(pairs, s, x) == k
    {
      KidsMembers(pairs, answer[k], x);
      assert s[k] == answer[k] && x in s;
      ParentHandled(pairs, s, k + 1, x);
    }
    forall i, j | 0 <= i < j < |s|
      ensures Queued(pairs, s, s[i], s[j])
    {
      if j < |answer| {
        LastParentGrown(pairs, answer, released, k, s[i]);
        LastParentGrown(pairs, answer, released, k, s[j]);
        assert Queued(pairs, answer, answer[i], answer[j]);
      } else if i < |answer| {
        LastParentGrown(pairs, answer, released, k, s[i]);
        assert s[j] in released;
      } else {
        assert s[i] in released && s[j] in released;
        assert s[i] == released[i - |answer|] && s[j] == released[j - |answer|];
      }
    }
  }

  // ---------- topsort ----------

  /** The elements without a pending parent, in whatever order the dictionary lists them. */
  method Roots<T(==, !new)>(num: map<T, int>) returns (roots: seq<T>)
    ensures Distinct(roots)
    ensures forall x :: x in roots <==> x in num && num[x] == 0
  {
    roots := [];
    var todo := num.Keys;
    while todo != {}
      invariant todo <= num.Keys && Distinct(roots)
      invariant forall x :: x in roots <==> x in num && x !in todo && num[x] == 0
    {
      var x :| x in todo;
      todo := todo - {x};
      if num[x] == 0 {
        roots := roots + [x];
      }
    }
  }

  /** Knocks down the count of every listed child and appends those that reach zero. */
  method Release<T(==, !new)>(kids: seq<T>, num: map<T, int>, answer: seq<T>)
    returns (num': map<T, int>, answer': seq<T>, ghost released: seq<T>)
    requires forall x :: x in kids ==> x in num && multiset(kids)[x] <= num[x]
    ensures num'.Keys == num.Keys
    ensures forall x :: x in num ==> num'[x] == num[x] - multiset(kids)[x]
    ensures answer' == answer + released && Distinct(released)
    ensures forall x :: x in released <==> x in kids && num'[x] == 0
    ensures ByLastPlace(kids, released)
  {
    hide ByLastPlace, Before, KnockedDown, Freed;
    num', answer', released := num, answer, [];
    NoneReleased(kids);
    NoneFreed(num, kids);
    for j := 0 to |kids|
      invariant KnockedDown(num, num', kids[..j]) && Freed(num', kids[..j], released)
      invariant answer' == answer + released
      invariant ByLastPlace(kids, released) && Before(kids, released, j)
    {
      var child := kids[j];
      ghost var before := num';
      KnockedDownMore(num, num', kids, j);
      num' := num'[child := num'[child] - 1];
      FreedMore(num, before, num', kids, j, released);
      BeforeNext(kids, released, j);
      if num'[child] == 0 {
        ReleasedMore(kids, released, j);
        answer', released := answer' + [child], released + [child];
      }
    }
    assert kids[..|kids|] == kids;
    AllFreed(num, num', kids, released);
  }

  /** Each count is less by the number of times the list so far names its element. */
  ghost predicate KnockedDown<T>(num: map<T, int>, num': map<T, int>, kids: seq<T>) {
    num'.Keys == num.Keys && forall x :: x in num ==> num'[x] == num[x] - multiset(kids)[x]
  }

  ghost predicate Freed<T(!new)>(num': map<T, int>, kids: seq<T>, released: seq<T>) {
    Distinct(released) && forall x :: x in released <==> x in kids && x in num' && num'[x] == 0
  }

  lemma NoneFreed<T(!new)>(num: map<T, int>, kids: seq<T>)
    ensures KnockedDown(num, num, kids[..0]) && Freed(num, kids[..0], [])
  {
  }

  lemma AllFreed<T(!new)>(num: map<T, int>, num': map<T, int>, kids: seq<T>, released: seq<T>)
    requires KnockedDown(num, num', kids) && Freed(num', kids, released)
    ensures num'.Keys == num.Keys && forall x :: x in num ==> num'[x] == num[x] - multiset(kids)[x]
    ensures Distinct(released) && forall x :: x in released <==> x in kids && x in num' && num'[x] == 0
  {
  }

  lemma KnockedDownMore<T>(num: map<T, int>, num': map<T, int>, kids: seq<T>, j: nat)
    requires j < |kids| && KnockedDown(num, num', kids[..j])
    requires kids[j] in num && multiset(kids)[kids[j]] <= num[kids[j]]
    ensures kids[j] in num' && KnockedDown(num, num'[kids[j] := num'[kids[j]] - 1], kids[..j + 1])
    ensures num'[kids[j]] > 0
    ensures num'[kids[j]] == 1 ==> multiset(kids[..j + 1])[kids[j]] >= multiset(kids)[kids[j]]
  {
    assert kids[..j + 1] == kids[..j] + [kids[j]];
    CountPrefix(kids, j + 1, kids[j]);
  }

  lemma FreedMore<T(!new)>(num: map<T, int>, before: map<T, int>, after: map<T, int>, kids: seq<T>, j: nat,
                           released: seq<T>)
    requires j < |kids| && Freed(before, kids[..j], released)
    requires kids[j] in before && before[kids[j]] > 0 && after == before[kids[j] := before[kids[j]] - 1]
    ensures Freed(after, kids[..j + 1], if after[kids[j]] == 0 then released + [kids[j]] else released)
  {
    assert kids[..j + 1] == kids[..j] + [kids[j]];
  }

  lemma LastOccurrence<T>(s: seq<T>, j: nat)
    requires j < |s| && multiset(s[..j + 1])[s[j]] >= multiset(s)[s[j]]
    ensures LastAt(s, s[j]) == j
  {
    assert s == s[..j + 1] + s[j + 1..];
    assert s[j] !in multiset(s[j + 1..]);
    assert forall i :: j < i < |s| ==> s[i] == s[j + 1..][i - j - 1];
  }

  lemma NoneReleased<T>(kids: seq<T>)
    ensures ByLastPlace(kids, []) && Before(kids, [], 0)
  {
  }

  lemma ReleasedMore<T>(kids: seq<T>, released: seq<T>, j: nat)
    requires j < |kids| && ByLastPlace(kids, released) && Before(kids, released, j)
    requires multiset(kids[..j + 1])[kids[j]] >= multiset(kids)[kids[j]]
    ensures ByLastPlace(kids, released + [kids[j]]) && Before(kids, released + [kids[j]], j + 1)
  {
    LastOccurrence(kids, j);
  }

  lemma BeforeNext<T>(kids: seq<T>, released: seq<T>, j: nat)
    requires Before(kids, released, j)
    ensures Before(kids, released, j + 1)
  {
  }

  lemma CountPrefix<T>(s: seq<T>, j: nat, x: T)
    requires j <= |s|
    ensures multiset(s[..j])[x] <= multiset(s)[x]
  {
    assert s == s[..j] + s[j..];
  }

  /** Every node outside the graph has all its parents outside too. */
  ghost predicate ParentClosed<T>(pairs: seq<(T, T)>, done: set<T>) {
    forall e :: e in pairs && e.1 in done ==> e.0 in done
  }

  /** The children of a node that is still in the graph are still in it, with enough pending parents. */
  lemma KidsRemain<T(!new)>(pairs: seq<(T, T)>, all: set<T>, done: set<T>, num: map<T, int>, p: T)
    requires ParentClosed(pairs, done) && Counts(pairs, all, done, num) && p !in done
    ensures forall x :: x in Kids(pairs, p) ==> x in num && multiset(Kids(pairs, p))[x] <= num[x]
  {
    forall x | x in Kids(pairs, p)
      ensures x in num && multiset(Kids(pairs, p))[x] <= num[x]
    {
      KidsMembers(pairs, p, x);
      EndsMentioned(pairs, p, x);
      PendingStep(pairs, done, p, x);
    }
  }

  /** A node with no pending parent has none at all outside `done`; in particular it is not its own parent. */
  lemma RootParents<T(!new)>(pairs: seq<(T, T)>, done: set<T>, p: T)
    requires p !in done && Pending(pairs, done, p) == 0
    requires ParentClosed(pairs, done)
    ensures p !in Kids(pairs, p) && ParentClosed(pairs, done + {p})
  {
    PendingZero(pairs, done, p);
    KidsMembers(pairs, p, p);
  }

  lemma CountsStep<T(!new)>(pairs: seq<(T, T)>, all: set<T>, done: set<T>, num: map<T, int>, p: T, num': map<T, int>)
    requires Counts(pairs, all, done, num) && p !in done
    requires num'.Keys == num.Keys - {p}
    requires forall x :: x in num' ==> num'[x] == num[x] - multiset(Kids(pairs, p))[x]
    ensures Counts(pairs, all, done + {p}, num')
  {
    forall x | x in num'
      ensures num'[x] == Pending(pairs, done + {p}, x)
    {
      PendingStep(pairs, done, p, x);
    }
  }

  /** One turn of the outer loop: the parent leaves, its children are released, its list of children is dropped. */
  method TakeOut<T(==, !new)>(ghost pairs: seq<(T, T)>, ghost done: set<T>, parent: T,
                              num: map<T, int>, children: map<T, seq<T>>, answer: seq<T>)
    returns (num': map<T, int>, children': map<T, seq<T>>, answer': seq<T>, ghost released: seq<T>)
    requires Remaining(pairs, Mentioned(pairs), done, num, children) && ParentClosed(pairs, done)
    requires parent in num && num[parent] == 0
    ensures Remaining(pairs, Mentioned(pairs), done + {parent}, num', children') && ParentClosed(pairs, done + {parent})
    ensures answer' == answer + released && Distinct(released)
    ensures forall x :: x in released <==> x in Kids(pairs, parent) && x in num' && num'[x] == 0
    ensures ByLastPlace(Kids(pairs, parent), released)
  {
    KidsRemain(pairs, Mentioned(pairs), done, num, parent);
    RootParents(pairs, done, parent);
    num' := num - {parent};
    children', answer', released := children, answer, [];
    Unmentioned(pairs, parent);
    if parent in children' {
      num', answer', released := Release(children'[parent], num', answer');
      children' := children' - {parent};
    }
    CountsStep(pairs, Mentioned(pairs), done, num, parent, num');
  }

  /** While `topsort` has handled answer[..k]: the answer lists the nodes with nothing pending, parents first. */
  ghost predicate Frontier<T(!new)>(pairs: seq<(T, T)>, answer: seq<T>, k: nat) {
    && k <= |answer|
    && ParentsFirst(pairs, answer)
    && (forall x :: x in answer <==> x in Mentioned(pairs) && Pending(pairs, Elements(answer[..k]), x) == 0)
  }

  lemma FirstFrontier<T(!new)>(pairs: seq<(T, T)>, num: map<T, int>, answer: seq<T>)
    requires Counts(pairs, Mentioned(pairs), {}, num) && Distinct(answer)
    requires forall x :: x in answer <==> x in num && num[x] == 0
    ensures Frontier(pairs, answer, 0)
  {
    assert Elements(answer[..0]) == {};
    forall j | 0 <= j < |answer|
      ensures forall e :: e in pairs ==> e.1 != answer[j]
    {
      assert answer[j] in answer;
      PendingZero(pairs, {}, answer[j]);
    }
  }

  lemma NextFrontier<T(!new)>(pairs: seq<(T, T)>, answer: seq<T>, k: nat, num': map<T, int>, released: seq<T>)
    requires k < |answer| && Frontier(pairs, answer, k) && Distinct(released)
    requires Counts(pairs, Mentioned(pairs), Elements(answer[..k]) + {answer[k]}, num')
    requires forall x :: x in released <==> x in Kids(pairs, answer[k]) && x in num' && num'[x] == 0
    ensures Elements(answer[..k]) + {answer[k]} == Elements((answer + released)[..k + 1])
    ensures Frontier(pairs, answer + released, k + 1)
  {
    var done, p := Elements(answer[..k]), answer[k];
    var done' := done + {p};
    assert done' == Elements((answer + released)[..k + 1]) by {
      assert (answer + released)[..k + 1] == answer[..k] + [p];
    }
    assert p !in done;
    forall x
      ensures x in released <==> x !in answer && x in Mentioned(pairs) && Pending(pairs, done', x) == 0
      ensures x in answer ==> Pending(pairs, done', x) == 0
    {
      PendingStep(pairs, done, p, x);
      KidsMembers(pairs, p, x);
      PendingZero(pairs, done, x);
    }
    forall x, q | x in released && (q, x) in pairs
      ensures q in answer
    {
      PendingZero(pairs, done', x);
    }
    AppendWithParents(pairs, answer, released);
  }

  lemma DistinctConcat<T>(a: seq<T>, b: seq<T>)
    requires Distinct(a) && Distinct(b) && forall x :: x in b ==> x !in a
    ensures Distinct(a + b)
  {
    var s := a + b;
    forall i, j | 0 <= i < j < |s|
      ensures s[i] != s[j]
    {
      if i < |a| <= j {
        assert s[j] in b;
      }
    }
  }

  lemma Exhausted<T(!new)>(pairs: seq<(T, T)>, answer: seq<T>)
    requires Frontier(pairs, answer, |answer|)
    ensures Stuck(pairs, Mentioned(pairs), Elements(answer))
  {
    assert answer[..|answer|] == answer;
    forall x | x in Mentioned(pairs) - Elements(answer)
      ensures exists p :: (p, x) in pairs && p !in Elements(answer)
    {
      PendingZero(pairs, Elements(answer), x);
      var e :| e in pairs && e.1 == x && e.0 !in Elements(answer);
      assert (e.0, x) in pairs;
    }
  }

  /**
   * Returns an order exactly when the pairs have no cycle. The order lists every element once, parents first;
   * the exception carries exactly the nodes on or downstream of a cycle, with their unmet parents and their children.
   */
  method Topsort<T(==, !new)>(pairs: seq<(T, T)>) returns (r: Sorted<T>)
    ensures r.Ordered? <==> Acyclic(Elements(pairs))
    ensures ParentsFirst(pairs, r.order) && Elements(r.order) <= Mentioned(pairs)
    ensures r.Ordered? ==> Elements(r.order) == Mentioned(pairs)
    ensures r.CycleError? ==>
              && (forall x :: x in r.numParents <==> Downstream(Elements(pairs), x))
              && Remaining(pairs, Mentioned(pairs), Elements(r.order), r.numParents, r.children)
              && (forall p :: p in r.children ==> InPairOrder(pairs, p, r.children[p]))
    ensures QueueOrder(pairs, r.order)
  {
    var num, children := BuildMaps(pairs);
    var answer := Roots(num);
    FirstFrontier(pairs, num, answer);
    FirstQueue(pairs, answer);
    assert Elements(answer[..0]) == {};
    var k := 0;
    while k < |answer|
      invariant Frontier(pairs, answer, k)
      invariant Remaining(pairs, Mentioned(pairs), Elements(answer[..k]), num, children)
      invariant ParentClosed(pairs, Elements(answer[..k])) && QueueOrder(pairs, answer)
      decreases num.Keys
    {
      ghost var released;
      ghost var before := answer;
      assert answer[k] in num && num[answer[k]] == 0;
      num, children, answer, released := TakeOut(pairs, Elements(answer[..k]), answer[k], num, children, answer);
      NextFrontier(pairs, before, k, num, released);
      NextQueue(pairs, before, k, released);
      k := k + 1;
    }
    assert answer[..k] == answer;
    Exhausted(pairs, answer);
    LeftoverIsDownstream(pairs, answer);
    AcyclicIffNothingDownstream(Elements(pairs));
    if num != map[] {
      r := CycleError(answer, num, children);
      ListedInPairOrder(pairs, Elements(answer), children);
      assert num.Keys != {};
    } else {
      r := Ordered(answer);
    }
  }

  // ---------- topsort_levels ----------

  /** The nodes of level k: those whose longest chain of ancestors has exactly k edges. */
  ghost predicate AtDepth<T(!new)>(pairs: seq<(T, T)>, all: set<T>, x: T, k: nat) {
    x in all && Chain(Elements(pairs), x, k) && !Chain(Elements(pairs), x, k + 1)
  }

  /** `done` holds the nodes of the levels before k. */
  ghost predicate Shallow<T(!new)>(pairs: seq<(T, T)>, all: set<T>, done: set<T>, k: nat) {
    forall x :: x in done <==> x in all && !Chain(Elements(pairs), x, k)
  }

  /** Decrements the count of every child in the list; a child without a count is a missing key. */
  method KnockDown<T(==)>(kids: seq<T>, num: map<T, int>) returns (num': map<T, int>, ok: bool)
    ensures ok <==> forall x :: x in kids ==> x in num
    ensures ok ==> num'.Keys == num.Keys && forall x :: x in num ==> num'[x] == num[x] - multiset(kids)[x]
  {
    num' := num;
    for j := 0 to |kids|
      invariant num'.Keys == num.Keys
      invariant forall x :: x in kids[..j] ==> x in num
      invariant forall x :: x in num ==> num'[x] == num[x] - multiset(kids[..j])[x]
    {
      if kids[j] !in num' {
        return num', false;
      }
      assert kids[..j + 1] == kids[..j] + [kids[j]];
      num' := num'[kids[j] := num'[kids[j]] - 1];
    }
    assert kids[..|kids|] == kids;
    ok := true;
  }

  ghost function ListedKids<T>(children: map<T, seq<T>>, p: T): seq<T> {
    if p in children then children[p] else []
  }

  /** Whatever the dictionaries hold: the same without p, if every child it lists has a count of its own. */
  ghost function WithoutOne<T>(num: map<T, int>, children: map<T, seq<T>>, p: T)
    : Option<(map<T, int>, map<T, seq<T>>)>
  {
    var kids := ListedKids(children, p);
    if p in num && forall x :: x in kids ==> x in num && x != p then
      Some((map x | x in num && x != p :: num[x] - multiset(kids)[x], children - {p}))
    else None
  }

  /** The same without some nodes, taken out one after the other. */
  ghost function Without<T>(num: map<T, int>, children: map<T, seq<T>>, nodes: seq<T>)
    : Option<(map<T, int>, map<T, seq<T>>)>
  {
    if nodes == [] then Some((num, children)) else
      match Without(num, children, nodes[..|nodes| - 1])
      case None => None
      case Some((m, c)) => WithoutOne(m, c, nodes[|nodes| - 1])
  }

  method TakeOutOne<T(==)>(parent: T, num: map<T, int>, children: map<T, seq<T>>)
    returns (num': map<T, int>, children': map<T, seq<T>>, ok: bool)
    requires parent in num
    ensures WithoutOne(num, children, parent) == if ok then Some((num', children')) else None
    ensures ok ==> num'.Keys == num.Keys - {parent}
  {
    num', children', ok := num - {parent}, children, true;
    if parent in children' {
      num', ok := KnockDown(children'[parent], num');
      children' := children' - {parent};
    }
    assert ok ==> num' == (map x | x in num && x != parent :: num[x] - multiset(ListedKids(children, parent))[x]);
    assert children' == children - {parent};
  }

  lemma WithoutOneMore<T>(num: map<T, int>, children: map<T, seq<T>>, nodes: seq<T>, i: nat)
    requires i < |nodes| && Without(num, children, nodes[..i]).Some?
    ensures var w := Without(num, children, nodes[..i]).value;
            Without(num, children, nodes[..i + 1]) == WithoutOne(w.0, w.1, nodes[i])
  {
    hide WithoutOne;
    assert nodes[..i + 1][..i] == nodes[..i];
  }

  lemma {:induction false} WithoutFails<T>(num: map<T, int>, children: map<T, seq<T>>, nodes: seq<T>, i: nat)
    requires i <= |nodes| && Without(num, children, nodes[..i]).None?
    ensures Without(num, children, nodes).None?
  {
    hide WithoutOne;
    if i == |nodes| {
      assert nodes[..i] == nodes;
    } else {
      assert nodes[..|nodes| - 1][..i] == nodes[..i];
      WithoutFails(num, children, nodes[..|nodes| - 1], i);
    }
  }

  lemma {:induction false} WithoutConcat<T>(num: map<T, int>, children: map<T, seq<T>>, a: seq<T>, b: seq<T>)
    requires Without(num, children, a).Some?
    ensures var w := Without(num, children, a).value; Without(num, children, a + b) == Without(w.0, w.1, b)
  {
    hide WithoutOne;
    if b == [] {
      assert a + b == a;
    } else {
      WithoutConcat(num, children, a, b[..|b| - 1]);
      assert (a + b)[..|a + b| - 1] == a + b[..|b| - 1];
    }
  }

  /** Takes one level's nodes out. */
  method TakeOutLevel<T(==)>(level: seq<T>, num: map<T, int>, children: map<T, seq<T>>)
    returns (num': map<T, int>, children': map<T, seq<T>>, ok: bool)
    requires Distinct(level) && forall x :: x in level ==> x in num
    ensures Without(num, children, level) == if ok then Some((num', children')) else None
    ensures ok ==> num'.Keys == num.Keys - Elements(level)
  {
    num', children', ok := num, children, true;
    for i := 0 to |level|
      invariant Without(num, children, level[..i]) == Some((num', children'))
      invariant num'.Keys == num.Keys - Elements(level[..i])
    {
      assert level[i] in level && level[i] !in level[..i];
      assert level[..i + 1] == level[..i] + [level[i]];
      WithoutOneMore(num, children, level, i);
      hide Without, WithoutOne;
      num', children', ok := TakeOutOne(level[i], num', children');
      if !ok {
        WithoutFails(num, children, level, i + 1);
        return;
      }
    }
    assert level[..|level|] == level;
  }

  lemma StillPendingFree<T>(pairs: seq<(T, T)>, done: set<T>, more: set<T>, x: T)
    requires done <= more && Pending(pairs, done, x) == 0
    ensures Pending(pairs, more, x) == 0
  {
    PendingZero(pairs, done, x);
    PendingZero(pairs, more, x);
  }

  /** In dictionaries that describe a graph no key is missing, and without a free node they describe the rest of it. */
  lemma GraphWithoutOne<T(!new)>(pairs: seq<(T, T)>, all: set<T>, done: set<T>, num: map<T, int>,
                                 children: map<T, seq<T>>, p: T)
    requires Remaining(pairs, all, done, num, children) && ParentClosed(pairs, done)
    requires p in num && Pending(pairs, done, p) == 0
    ensures var w := WithoutOne(num, children, p);
            w.Some? && Remaining(pairs, all, done + {p}, w.value.0, w.value.1) && ParentClosed(pairs, done + {p})
  {
    KidsRemain(pairs, all, done, num, p);
    RootParents(pairs, done, p);
    assert ListedKids(children, p) == Kids(pairs, p) by { Unmentioned(pairs, p); }
    hide Kids, Pending, Mentioned, Parents, ParentClosed, ListedKids;
    var w := WithoutOne(num, children, p).value;
    CountsStep(pairs, all, done, num, p, w.0);
    AdjacencyStep(pairs, done, children, p);
  }

  lemma AdjacencyStep<T(!new)>(pairs: seq<(T, T)>, done: set<T>, children: map<T, seq<T>>, p: T)
    requires Adjacency(pairs, done, children)
    ensures Adjacency(pairs, done + {p}, children - {p})
  {
  }

  lemma {:induction false} GraphWithout<T(!new)>(pairs: seq<(T, T)>, all: set<T>, done: set<T>, num: map<T, int>,
                                                 children: map<T, seq<T>>, nodes: seq<T>)
    requires Remaining(pairs, all, done, num, children) && ParentClosed(pairs, done)
    requires Distinct(nodes) && forall x :: x in nodes ==> x in num && num[x] == 0
    ensures var w := Without(num, children, nodes);
            && w.Some? && Remaining(pairs, all, done + Elements(nodes), w.value.0, w.value.1)
            && ParentClosed(pairs, done + Elements(nodes))
  {
    hide WithoutOne, ParentClosed, Adjacency;
    if nodes == [] {
      assert done + Elements(nodes) == done;
    } else {
      var n := |nodes| - 1;
      var before, x := nodes[..n], nodes[n];
      assert nodes == before + [x] && x in nodes && x !in before;
      GraphWithout(pairs, all, done, num, children, before);
      StillPendingFree(pairs, done, done + Elements(before), x);
      assert done + Elements(nodes) == done + Elements(before) + {x};
      var w := Without(num, children, before).value;
      GraphWithoutOne(pairs, all, done + Elements(before), w.0, w.1, x);
    }
  }

  /** With the levels before k gone, the nodes with nothing pending are those of level k. */
  lemma LevelIsDepth<T(!new)>(pairs: seq<(T, T)>, all: set<T>, done: set<T>, k: nat, num: map<T, int>, x: T)
    requires Counts(pairs, all, done, num) && Shallow(pairs, all, done, k)
    ensures x in num && num[x] == 0 <==> AtDepth(pairs, all, x, k)
  {
    var es := Elements(pairs);
    if x in num {
      PendingZero(pairs, done, x);
      if num[x] == 0 {
        forall p | (p, x) in es
          ensures !Chain(es, p, k)
        {
          assert (p, x).0 in done;
        }
      } else {
        var e :| e in pairs && e.1 == x && e.0 !in done;
        EndsMentioned(pairs, e.0, x);
        assert (e.0, x) in es;
      }
    }
  }

  lemma NextShallow<T(!new)>(pairs: seq<(T, T)>, all: set<T>, done: set<T>, k: nat, level: seq<T>)
    requires Shallow(pairs, all, done, k)
    requires forall x :: x in level <==> AtDepth(pairs, all, x, k)
    ensures Shallow(pairs, all, done + Elements(level), k + 1)
  {
    forall x | x in all && !Chain(Elements(pairs), x, k)
      ensures !Chain(Elements(pairs), x, k + 1)
    {
      if Chain(Elements(pairs), x, k + 1) {
        ChainShorter(Elements(pairs), x, k, k + 1);
      }
    }
  }

  /** When no node is free of pending parents, the nodes left over are those on or downstream of a cycle. */
  lemma DeepIsDownstream<T(!new)>(pairs: seq<(T, T)>, all: set<T>, done: set<T>, k: nat)
    requires Mentioned(pairs) <= all && Shallow(pairs, all, done, k) && Stuck(pairs, all, done)
    ensures forall x :: x in all - done <==> Downstream(Elements(pairs), x)
  {
    var es := Elements(pairs);
    forall x
      ensures x in all - done <==> Downstream(es, x)
    {
      DownstreamIffUnboundedChains(es, x);
      if x in all - done {
        forall n: nat ensures Chain(es, x, n) { StuckChains(pairs, all, done, x, n); }
      } else if Downstream(es, x) {
        DownstreamMentioned(pairs, x);
        DownstreamChain(es, x, k);
      }
    }
  }

  lemma NothingFreeIsStuck<T(!new)>(pairs: seq<(T, T)>, all: set<T>, done: set<T>, num: map<T, int>)
    requires Counts(pairs, all, done, num) && forall x :: x in num ==> num[x] != 0
    ensures Stuck(pairs, all, done)
  {
    forall x | x in all - done
      ensures exists p :: (p, x) in pairs && p !in done
    {
      PendingZero(pairs, done, x);
      var e :| e in pairs && e.1 == x && e.0 !in done;
      assert (e.0, x) in pairs;
    }
  }

  ghost predicate LevelsByDepth<T(!new)>(pairs: seq<(T, T)>, all: set<T>, levels: seq<seq<T>>) {
    forall k: nat :: k < |levels| ==> IsLevel(pairs, all, levels[k], k)
  }

  ghost predicate IsLevel<T(!new)>(pairs: seq<(T, T)>, all: set<T>, level: seq<T>, k: nat) {
    level != [] && Distinct(level) && forall x :: x in level <==> AtDepth(pairs, all, x, k)
  }

  lemma FlattenMore<T>(levels: seq<seq<T>>, level: seq<T>)
    ensures Elements(Flatten(levels + [level])) == Elements(Flatten(levels)) + Elements(level)
  {
    assert (levels + [level])[..|levels|] == levels;
  }

  ghost predicate LevelState<T(!new)>(pairs: seq<(T, T)>, all: set<T>, levels: seq<seq<T>>,
                                      num: map<T, int>, children: map<T, seq<T>>) {
    var done := Elements(Flatten(levels));
    && Remaining(pairs, all, done, num, children)
    && ParentClosed(pairs, done)
    && Shallow(pairs, all, done, |levels|)
    && LevelsByDepth(pairs, all, levels)
  }

  lemma NextLevelState<T(!new)>(pairs: seq<(T, T)>, all: set<T>, levels: seq<seq<T>>, level: seq<T>,
                                num: map<T, int>, num': map<T, int>, children': map<T, seq<T>>)
    requires Counts(pairs, all, Elements(Flatten(levels)), num)
    requires level != [] && Distinct(level) && forall x :: x in level <==> x in num && num[x] == 0
    requires Shallow(pairs, all, Elements(Flatten(levels)), |levels|) && LevelsByDepth(pairs, all, levels)
    requires Remaining(pairs, all, Elements(Flatten(levels)) + Elements(level), num', children')
    requires ParentClosed(pairs, Elements(Flatten(levels)) + Elements(level))
    ensures LevelState(pairs, all, levels + [level], num', children')
  {
    var done := Elements(Flatten(levels));
    forall x
      ensures x in level <==> AtDepth(pairs, all, x, |levels|)
    {
      LevelIsDepth(pairs, all, done, |levels|, num, x);
    }
    NextShallow(pairs, all, done, |levels|, level);
    FlattenMore(levels, level);
    assert IsLevel(pairs, all, level, |levels|);
  }

  lemma LastLevelState<T(!new)>(pairs: seq<(T, T)>, all: set<T>, levels: seq<seq<T>>,
                                num: map<T, int>, children: map<T, seq<T>>)
    requires LevelState(pairs, all, levels, num, children)
    requires forall x :: x in num ==> num[x] != 0
    ensures forall x :: x in all - Elements(Flatten(levels)) <==> Downstream(Elements(pairs), x)
    ensures num == map[] <==> Acyclic(Elements(pairs))
  {
    NothingFreeIsStuck(pairs, all, Elements(Flatten(levels)), num);
    DeepIsDownstream(pairs, all, Elements(Flatten(levels)), |levels|);
    AcyclicIffNothingDownstream(Elements(pairs));
    assert num != map[] ==> exists x :: x in num.Keys;
  }

  /** What the generator promises on dictionaries that describe a graph. */
  ghost predicate LevelContract<T(!new)>(pairs: seq<(T, T)>, all: set<T>, r: Levelled<T>) {
    && !r.LevelKeyError?
    && (r.Finished? <==> Acyclic(Elements(pairs)))
    && LevelsByDepth(pairs, all, r.levels)
    && (forall x :: x in all ==> (Downstream(Elements(pairs), x) <==> x !in Flatten(r.levels)))
    && (r.LevelCycleError? ==>
          && (forall x :: x in r.numParents <==> Downstream(Elements(pairs), x))
          && Remaining(pairs, all, Elements(Flatten(r.levels)), r.numParents, r.children))
  }

  /** The level is what has no pending parent in the given dictionaries. */
  ghost predicate FreeLevel<T(!new)>(w: Option<(map<T, int>, map<T, seq<T>>)>, level: seq<T>) {
    && w.Some? && level != [] && Distinct(level)
    && forall x :: x in level <==> x in w.value.0 && w.value.0[x] == 0
  }

  ghost predicate FreeLevels<T(!new)>(num: map<T, int>, children: map<T, seq<T>>, levels: seq<seq<T>>) {
    forall k :: 0 <= k < |levels| ==> FreeLevel(Without(num, children, Flatten(levels[..k])), levels[k])
  }

  /** What the generator promises on any dictionaries: each level is what is free once those before it are gone. */
  ghost predicate LevelsTaken<T(!new)>(num: map<T, int>, children: map<T, seq<T>>, r: Levelled<T>) {
    var w := Without(num, children, Flatten(r.levels));
    && FreeLevels(num, children, r.levels)
    && match r
       case Finished(_) => w.Some? && w.value.0 == map[]
       case LevelKeyError(_) => w.None?
       case LevelCycleError(_, left, lists) =>
         w == Some((left, lists)) && left != map[] && forall x :: x in left ==> left[x] != 0
  }

  lemma NextFreeLevel<T(!new)>(num: map<T, int>, children: map<T, seq<T>>, levels: seq<seq<T>>, level: seq<T>)
    requires FreeLevels(num, children, levels) && FreeLevel(Without(num, children, Flatten(levels)), level)
    ensures FreeLevels(num, children, levels + [level])
    ensures var w := Without(num, children, Flatten(levels)).value;
            Without(num, children, Flatten(levels + [level])) == Without(w.0, w.1, level)
  {
    assert Without(num, children, Flatten(levels)).Some?;
    hide Without, FreeLevel;
    var more := levels + [level];
    assert more[..|levels|] == levels;
    assert Flatten(more) == Flatten(levels) + level;
    hide Flatten;
    WithoutConcat(num, children, Flatten(levels), level);
    forall k | 0 <= k < |more|
      ensures FreeLevel(Without(num, children, Flatten(more[..k])), more[k])
    {
      if k < |levels| {
        assert more[..k] == levels[..k];
      }
    }
  }

  method TopsortLevels<T(==, !new)>(pairs: seq<(T, T)>) returns (r: Levelled<T>)
    ensures LevelContract(pairs, Mentioned(pairs), r)
  {
    var num, children := BuildMaps(pairs);
    assert num.Keys == Mentioned(pairs);
    hide Mentioned, Remaining, LevelContract, LevelsTaken;
    r := TopsortLevelsCore(pairs, num, children);
  }

  /**
   * The generator. On dictionaries that describe a graph, its k-th list holds exactly the nodes whose longest chain of
   * ancestors has k edges; it ends normally iff there is no cycle, and otherwise the nodes left over are those on or
   * downstream of one. On other dictionaries it ends all the same, and may meet a child without a count.
   */
  method TopsortLevelsCore<T(==, !new)>(ghost pairs: seq<(T, T)>, numParents: map<T, int>, childLists: map<T, seq<T>>)
    returns (r: Levelled<T>)
    ensures LevelsTaken(numParents, childLists, r)
    ensures Remaining(pairs, numParents.Keys, {}, numParents, childLists) ==> LevelContract(pairs, numParents.Keys, r)
  {
    hide Remaining, ParentClosed, Without;
    var num, children := numParents, childLists;
    ghost var all := num.Keys;
    ghost var graph := Remaining(pairs, all, {}, num, children);
    var levels: seq<seq<T>> := [];
    NothingTakenOut(pairs, num, children);
    while true
      invariant FreeLevels(numParents, childLists, levels)
      invariant Without(numParents, childLists, Flatten(levels)) == Some((num, children))
      invariant graph ==> LevelState(pairs, all, levels, num, children)
      decreases num.Keys
    {
      var level := Roots(num);
      if level == [] {
        break;
      }
      ghost var before, lists := num, children;
      assert level[0] in before.Keys;
      NextFreeLevel(numParents, childLists, levels, level);
      var ok;
      num, children, ok := TakeOutLevel(level, num, children);
      if graph {
        TakeOutGraphLevel(pairs, all, levels, level, before, lists);
      }
      levels := levels + [level];
      if !ok {
        return LevelKeyError(levels);
      }
    }
    if graph {
      LastContract(pairs, all, levels, num, children);
    }
    hide LevelContract, LevelState;
    if num != map[] {
      r := LevelCycleError(levels, num, children);
    } else {
      r := Finished(levels);
    }
  }

  lemma LastContract<T(!new)>(pairs: seq<(T, T)>, all: set<T>, levels: seq<seq<T>>,
                              num: map<T, int>, children: map<T, seq<T>>)
    requires LevelState(pairs, all, levels, num, children) && forall x :: x in num ==> num[x] != 0
    ensures LevelContract(pairs, all, if num != map[] then LevelCycleError(levels, num, children) else Finished(levels))
  {
    LastLevelState(pairs, all, levels, num, children);
  }

  lemma NothingTakenOut<T(!new)>(pairs: seq<(T, T)>, num: map<T, int>, children: map<T, seq<T>>)
    ensures Flatten<T>([]) == [] && Without(num, children, []) == Some((num, children))
    ensures Remaining(pairs, num.Keys, {}, num, children) ==> LevelState(pairs, num.Keys, [], num, children)
  {
    assert Elements(Flatten<T>([])) == {};
  }

  lemma TakeOutGraphLevel<T(!new)>(pairs: seq<(T, T)>, all: set<T>, levels: seq<seq<T>>, level: seq<T>,
                                   num: map<T, int>, children: map<T, seq<T>>)
    requires LevelState(pairs, all, levels, num, children)
    requires level != [] && Distinct(level) && forall x :: x in level <==> x in num && num[x] == 0
    ensures var w := Without(num, children, level);
            w.Some? && LevelState(pairs, all, levels + [level], w.value.0, w.value.1)
  {
    hide Without, Counts, Adjacency, ParentClosed, Shallow, LevelsByDepth;
    GraphWithout(pairs, all, Elements(Flatten(levels)), num, children, level);
    var w := Without(num, children, level).value;
    NextLevelState(pairs, all, levels, level, num, w.0, w.1);
  }

  lemma {:induction false} WithoutKeys<T>(num: map<T, int>, children: map<T, seq<T>>, nodes: seq<T>)
    requires Without(num, children, nodes).Some?
    ensures Distinct(nodes) && Elements(nodes) <= num.Keys
    ensures Without(num, children, nodes).value.0.Keys == num.Keys - Elements(nodes)
  {
    if nodes != [] {
      var n := |nodes| - 1;
      WithoutKeys(num, children, nodes[..n]);
      assert nodes == nodes[..n] + [nodes[n]];
    }
  }

  /** On any dictionaries: unless a key is missing, nothing is yielded twice, and a normal end has yielded every key. */
  lemma EveryKeyYieldedOnce<T(!new)>(num: map<T, int>, children: map<T, seq<T>>, r: Levelled<T>)
    requires LevelsTaken(num, children, r) && !r.LevelKeyError?
    ensures Distinct(Flatten(r.levels)) && Elements(Flatten(r.levels)) <= num.Keys
    ensures r.Finished? <==> Elements(Flatten(r.levels)) == num.Keys
  {
    hide FreeLevels;
    WithoutKeys(num, children, Flatten(r.levels));
    var left := Without(num, children, Flatten(r.levels)).value.0;
    assert left != map[] ==> exists x :: x in left.Keys;
  }

  // ---------- when no key is missing ----------

  /** How often the lists of the given keys name x, in all. */
  ghost function Named<T(!new)>(children: map<T, seq<T>>, keys: set<T>, x: T): nat {
    if keys == {} then 0 else
      var p :| p in keys;
      multiset(ListedKids(children, p))[x] + Named(children, keys - {p}, x)
  }

  lemma {:induction false} NamedSplits<T(!new)>(children: map<T, seq<T>>, keys: set<T>, p: T, x: T)
    requires p in keys
    ensures Named(children, keys, x) == multiset(ListedKids(children, p))[x] + Named(children, keys - {p}, x)
    decreases |keys|
  {
    hide ListedKids;
    var q :| q in keys &&
      Named(children, keys, x) == multiset(ListedKids(children, q))[x] + Named(children, keys - {q}, x);
    if q != p {
      NamedSplits(children, keys - {q}, p, x);
      NamedSplits(children, keys - {p}, q, x);
      assert keys - {q} - {p} == keys - {p} - {q};
    }
  }

  lemma {:induction false} NamedMonotonic<T(!new)>(children: map<T, seq<T>>, some: set<T>, more: set<T>, x: T)
    requires some <= more
    ensures Named(children, some, x) <= Named(children, more, x)
    decreases |more|
  {
    hide ListedKids;
    if more - some == {} {
      forall y | y in more
        ensures y in some
      {
        assert y !in more - some;
      }
      assert some == more;
    } else {
      var p :| p in more - some;
      NamedSplits(children, more, p, x);
      NamedMonotonic(children, some, more - {p}, x);
    }
  }

  /** Every listed child has a count of its own, which unless it is negative is large enough for all the lists. */
  ghost predicate Supplied<T(!new)>(num: map<T, int>, children: map<T, seq<T>>) {
    && (forall p, x :: p in num && x in ListedKids(children, p) ==> x in num)
    && (forall x :: x in num && num[x] >= 0 ==> num[x] >= Named(children, num.Keys, x))
  }

  /** After some nodes have been taken out, the counts have fallen by the number of times these name each other node. */
  lemma {:induction false} WithoutCounts<T(!new)>(num: map<T, int>, children: map<T, seq<T>>, nodes: seq<T>)
    requires Without(num, children, nodes).Some?
    ensures var w := Without(num, children, nodes).value;
            && w.0.Keys == num.Keys - Elements(nodes) && Elements(nodes) <= num.Keys
            && (forall x :: x in w.0 ==> w.0[x] == num[x] - Named(children, Elements(nodes), x))
            && w.1 == children - Elements(nodes)
  {
    WithoutKeys(num, children, nodes);
    hide Without, WithoutOne, Named, ListedKids;
    if nodes == [] {
      NoneNamed(num, children);
    } else {
      var n := |nodes| - 1;
      var before, p := nodes[..n], nodes[n];
      assert nodes == before + [p] && p !in before;
      WithoutLast(num, children, nodes);
      WithoutCounts(num, children, before);
      assert Elements(nodes) == Elements(before) + {p} && Elements(nodes) - {p} == Elements(before);
      var w, v := Without(num, children, before).value, Without(num, children, nodes).value;
      assert WithoutOne(w.0, w.1, p) == Some(v);
      OneLessCounts(num, children, Elements(before), p, w.0, w.1, v.0, v.1);
    }
  }

  lemma NoneNamed<T(!new)>(num: map<T, int>, children: map<T, seq<T>>)
    ensures Elements<T>([]) == {} && children - {} == children && forall x :: Named(children, {}, x) == 0
    ensures Without(num, children, []) == Some((num, children))
  {
  }

  lemma WithoutLast<T>(num: map<T, int>, children: map<T, seq<T>>, nodes: seq<T>)
    requires nodes != [] && Without(num, children, nodes).Some?
    ensures var w := Without(num, children, nodes[..|nodes| - 1]);
            w.Some? && Without(num, children, nodes) == WithoutOne(w.value.0, w.value.1, nodes[|nodes| - 1])
  {
    hide WithoutOne;
  }

  lemma OneLessCounts<T(!new)>(num: map<T, int>, children: map<T, seq<T>>, done: set<T>, p: T,
                               m: map<T, int>, c: map<T, seq<T>>, m': map<T, int>, c': map<T, seq<T>>)
    requires m.Keys == num.Keys - done && done <= num.Keys && p !in done && c == children - done
    requires forall x :: x in m ==> m[x] == num[x] - Named(children, done, x)
    requires WithoutOne(m, c, p) == Some((m', c'))
    ensures m'.Keys == num.Keys - (done + {p}) && done + {p} <= num.Keys && c' == children - (done + {p})
    ensures forall x :: x in m' ==> m'[x] == num[x] - Named(children, done + {p}, x)
  {
    assert ListedKids(c, p) == ListedKids(children, p);
    hide Named;
    forall x | x in m'
      ensures m'[x] == num[x] - Named(children, done + {p}, x)
    {
      assert done + {p} - {p} == done;
      NamedSplits(children, done + {p}, p, x);
    }
  }

  /** Whatever lists a node that is free once `done` are gone is in `done` itself. */
  lemma FreeNodeParents<T(!new)>(num: map<T, int>, children: map<T, seq<T>>, done: set<T>, x: T, p: T)
    requires Supplied(num, children) && done <= num.Keys && x in num && num[x] == Named(children, done, x)
    requires p in num && x in ListedKids(children, p)
    ensures p in done
  {
    hide ListedKids;
    assert multiset(ListedKids(children, p))[x] > 0;
    assert num[x] >= Named(children, num.Keys, x);
    NamedSplits(children, num.Keys, p, x);
    if p !in done {
      NamedMonotonic(children, done, num.Keys - {p}, x);
    }
  }

  /** The nodes of `done` are listed only by nodes of `done`. */
  ghost predicate ListedWithin<T(!new)>(num: map<T, int>, children: map<T, seq<T>>, done: set<T>) {
    forall p, x :: p in num && x in done && x in ListedKids(children, p) ==> p in done
  }

  /** A whole level can be taken out, one node after the other. */
  lemma {:induction false} LevelTakenOut<T(!new)>(num: map<T, int>, children: map<T, seq<T>>, done: seq<T>,
                                                  level: seq<T>, all: seq<T>, i: nat)
    requires Supplied(num, children) && Without(num, children, done).Some? && all == done + level && i <= |level|
    requires ListedWithin(num, children, Elements(done))
    requires FreeLevel(Without(num, children, done), level)
    ensures Without(num, children, all[..|done| + i]).Some?
  {
    hide Supplied, FreeLevel, ListedWithin, Without, WithoutOne, Elements;
    if i == 0 {
      assert all[..|done|] == done;
    } else {
      LevelTakenOut(num, children, done, level, all, i - 1);
      LevelNodeFree(num, children, done, level, all, i - 1);
      WithoutOneMore(num, children, all, |done| + i - 1);
      assert all[|done| + i - 1] == level[i - 1];
    }
  }

  /** The next node of a level can be taken out: it has its count, and so has every node it lists. */
  lemma LevelNodeFree<T(!new)>(num: map<T, int>, children: map<T, seq<T>>, done: seq<T>, level: seq<T>, all: seq<T>,
                               i: nat)
    requires Supplied(num, children) && Without(num, children, done).Some? && all == done + level && i < |level|
    requires ListedWithin(num, children, Elements(done))
    requires FreeLevel(Without(num, children, done), level)
    requires Without(num, children, all[..|done| + i]).Some?
    ensures var w := Without(num, children, all[..|done| + i]).value; WithoutOne(w.0, w.1, level[i]).Some?
  {
    var before, p := all[..|done| + i], level[i];
    assert before == done + level[..i];
    var w := Without(num, children, before).value;
    WithoutCounts(num, children, done);
    WithoutCounts(num, children, before);
    hide Without;
    assert p in level && p !in level[..i];
    assert p !in Elements(done) && p !in Elements(before) && p in num;
    assert ListedKids(w.1, p) == ListedKids(children, p);
    forall x | x in ListedKids(children, p)
      ensures x in w.0 && x != p
    {
      assert x in num;
      if x in level {
        FreeNodeParents(num, children, Elements(done), x, p);
      }
      assert x !in Elements(done);
    }
  }

  lemma {:induction false} LevelsListedWithin<T(!new)>(num: map<T, int>, children: map<T, seq<T>>, levels: seq<seq<T>>)
    requires Supplied(num, children) && FreeLevels(num, children, levels)
    ensures Without(num, children, Flatten(levels)).Some? && ListedWithin(num, children, Elements(Flatten(levels)))
  {
    hide Supplied, Without, FreeLevel;
    if levels == [] {
      NothingListed(num, children);
    } else {
      var n := |levels| - 1;
      var done, level := Flatten(levels[..n]), levels[n];
      assert FreeLevels(num, children, levels[..n]) by {
        assert forall k :: 0 <= k < n ==> levels[..n][k] == levels[k] && levels[..n][..k] == levels[..k];
      }
      assert FreeLevel(Without(num, children, done), level);
      assert Flatten(levels) == done + level;
      hide FreeLevels, Flatten, ListedWithin, Elements;
      LevelsListedWithin(num, children, levels[..n]);
      var all := done + level;
      LevelTakenOut(num, children, done, level, all, |level|);
      assert all[..|done| + |level|] == all;
      NextListedWithin(num, children, done, level);
    }
  }

  lemma NothingListed<T(!new)>(num: map<T, int>, children: map<T, seq<T>>)
    ensures Without(num, children, Flatten<T>([])).Some? && ListedWithin(num, children, Elements(Flatten<T>([])))
  {
  }

  lemma NextListedWithin<T(!new)>(num: map<T, int>, children: map<T, seq<T>>, done: seq<T>, level: seq<T>)
    requires Supplied(num, children) && Without(num, children, done).Some?
    requires FreeLevel(Without(num, children, done), level) && ListedWithin(num, children, Elements(done))
    ensures ListedWithin(num, children, Elements(done + level))
  {
    WithoutCounts(num, children, done);
    hide Without, Supplied, ListedKids;
    forall p, x | p in num && x in Elements(done + level) && x in ListedKids(children, p)
      ensures p in Elements(done + level)
    {
      if x in level {
        FreeNodeParents(num, children, Elements(done), x, p);
      }
      assert p in Elements(done);
    }
  }

  /** Without a child that has no count, or whose count is too small for the lists, no key is ever missing. */
  lemma NoKeyIsMissing<T(!new)>(num: map<T, int>, children: map<T, seq<T>>, r: Levelled<T>)
    requires LevelsTaken(num, children, r) && Supplied(num, children)
    ensures !r.LevelKeyError?
  {
    LevelsListedWithin(num, children, r.levels);
  }

  lemma FlattenOne<T>(part: seq<T>)
    ensures Flatten<T>([]) == [] && Flatten([part]) == part
  {
    assert [part][..0] == [] && Flatten<T>([]) + part == part;
  }

  /** A child without a count: the first level is yielded, and then a key is missing. */
  lemma MissingKeyExample(r: Levelled<int>)
    requires LevelsTaken(map[1 := 0], map[1 := [2]], r)
    ensures r == LevelKeyError([[1]])
  {
    var num, children := map[1 := 0], map[1 := [2]];
    FlattenOne([1]);
    OneIsFree(num, children);
    hide Without;
    if r.levels != [] {
      var first := r.levels[0];
      assert r.levels[..0] == [];
      assert FreeLevel(Without(num, children, Flatten(r.levels[..0])), first);
      OneAlone(num, first);
      NoLevelAfter(num, children, r.levels);
      assert r.levels == [first];
    }
  }

  lemma NoLevelAfter<T(!new)>(num: map<T, int>, children: map<T, seq<T>>, levels: seq<seq<T>>)
    requires FreeLevels(num, children, levels) && levels != [] && Without(num, children, levels[0]).None?
    ensures |levels| == 1
  {
    hide Without;
    FlattenOne(levels[0]);
    var one := levels[..1];
    assert one == [levels[0]];
    assert forall k :: 0 <= k < |levels| ==> Without(num, children, Flatten(levels[..k])).Some?;
  }

  lemma OneIsFree(num: map<int, int>, children: map<int, seq<int>>)
    requires num == map[1 := 0] && children == map[1 := [2]]
    ensures Without(num, children, []) == Some((num, children)) && Without(num, children, [1]).None?
    ensures num != map[] && num[1] == 0
  {
    assert [1][..0] == [] && [2][0] in ListedKids(children, 1);
    assert 1 in num;
  }

  lemma OneAlone(num: map<int, int>, level: seq<int>)
    requires num == map[1 := 0] && level != [] && Distinct(level) && forall x :: x in level ==> x in num
    ensures level == [1]
  {
    assert level[0] in level;
    assert Elements(level) == {1};
    DistinctCardinality(level);
  }

  lemma {:induction false} FlattenedAreShallow<T(!new)>(pairs: seq<(T, T)>, all: set<T>, levels: seq<seq<T>>)
    requires LevelsByDepth(pairs, all, levels)
    ensures Shallow(pairs, all, Elements(Flatten(levels)), |levels|)
  {
    if levels == [] {
      assert Flatten(levels) == [];
    } else {
      var n := |levels| - 1;
      assert forall k: nat :: k < n ==> IsLevel(pairs, all, levels[..n][k], k);
      FlattenedAreShallow(pairs, all, levels[..n]);
      assert IsLevel(pairs, all, levels[n], n);
      NextShallow(pairs, all, Elements(Flatten(levels[..n])), n, levels[n]);
      FlattenMore(levels[..n], levels[n]);
      assert levels[..n] + [levels[n]] == levels;
    }
  }

  /** Read one after the other, the levels are a dependency order. */
  lemma {:induction false} LevelsAreParentsFirst<T(!new)>(pairs: seq<(T, T)>, all: set<T>, levels: seq<seq<T>>)
    requires Mentioned(pairs) <= all && LevelsByDepth(pairs, all, levels)
    ensures ParentsFirst(pairs, Flatten(levels))
  {
    if levels != [] {
      var n := |levels| - 1;
      var level, before := levels[n], Flatten(levels[..n]);
      assert forall k: nat :: k < n ==> IsLevel(pairs, all, levels[..n][k], k);
      LevelsAreParentsFirst(pairs, all, levels[..n]);
      FlattenedAreShallow(pairs, all, levels[..n]);
      assert IsLevel(pairs, all, level, n);
      forall x, p | x in level && (p, x) in pairs
        ensures p in before
      {
        EndsMentioned(pairs, p, x);
        assert (p, x) in Elements(pairs);
      }
      AppendWithParents(pairs, before, level);
    }
  }

  lemma AppendWithParents<T(!new)>(pairs: seq<(T, T)>, order: seq<T>, more: seq<T>)
    requires ParentsFirst(pairs, order) && Distinct(more) && forall x :: x in more ==> x !in order
    requires forall x, p :: x in more && (p, x) in pairs ==> p in order
    ensures ParentsFirst(pairs, order + more)
  {
    var longer := order + more;
    DistinctConcat(order, more);
    forall q, j | 0 <= j < |longer| && (q, longer[j]) in pairs
      ensures q in longer[..j]
    {
      if j < |order| {
        assert longer[..j] == order[..j];
      } else {
        assert longer[j] in more;
        assert longer[..j] == order + more[..j - |order|];
      }
    }
  }
}
