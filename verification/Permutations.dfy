/** All rearrangements of a list, by inserting its first item everywhere into the rearrangements of the rest. */
module Permutations {
  import opened Basics

  function Factorial(n: nat): nat {
    if n == 0 then 1 else n * Factorial(n - 1)
  }

  function InsertAt<T>(s: seq<T>, i: nat, x: T): seq<T>
    requires i <= |s|
  {
    s[..i] + [x] + s[i..]
  }

  /** The first n insertions of an item into a list. */
  function Insertions<T>(s: seq<T>, x: T, n: nat): (r: seq<seq<T>>)
    requires n <= |s| + 1
    ensures |r| == n
  {
    seq(n, i requires 0 <= i < n => InsertAt(s, i, x))
  }

  function InsertEverywhere<T>(lists: seq<seq<T>>, x: T): seq<seq<T>> {
    if lists == [] then [] else
      var last := lists[|lists| - 1];
      InsertEverywhere(lists[..|lists| - 1], x) + Insertions(last, x, |last| + 1)
  }

  function Perms<T>(s: seq<T>): seq<seq<T>> {
    if |s| <= 1 then [s] else InsertEverywhere(Perms(s[1..]), s[0])
  }

  ghost predicate AllOfLength<T>(lists: seq<seq<T>>, n: nat) {
    forall p :: p in lists ==> |p| == n
  }

  /** The inner loop: the item at each of the `length` places of one list. */
  method InsertItem<T>(subList: seq<T>, item: T, length: nat) returns (lists: seq<seq<T>>)
    requires length == |subList| + 1
    ensures lists == Insertions(subList, item, length)
  {
    lists := [];
    for i := 0 to length
      invariant lists == Insertions(subList, item, i)
    {
      var newList := subList[..i] + [item] + subList[i..];
      lists := lists + [newList];
    }
  }

  /** The outer loop: the item everywhere in each of the lists. */
  method InsertIntoAll<T>(subLists: seq<seq<T>>, item: T, length: nat) returns (outLists: seq<seq<T>>)
    requires length > 0 && AllOfLength(subLists, length - 1)
    ensures outLists == InsertEverywhere(subLists, item)
  {
    hide Insertions;
    outLists := [];
    assert subLists[..0] == [];
    for k := 0 to |subLists|
      invariant outLists == InsertEverywhere(subLists[..k], item)
    {
      var subList := subLists[k];
      assert subList in subLists;
      var lists := InsertItem(subList, item, length);
      InsertedIntoOneMore(subLists, item, k);
      outLists := outLists + lists;
    }
    assert subLists[..|subLists|] == subLists;
  }

  lemma InsertedIntoOneMore<T>(lists: seq<seq<T>>, x: T, k: nat)
    requires k < |lists|
    ensures InsertEverywhere(lists[..k + 1], x)
            == InsertEverywhere(lists[..k], x) + Insertions(lists[k], x, |lists[k]| + 1)
  {
    hide Insertions;
    assert lists[..k + 1][..k] == lists[..k];
  }

  method Permutations<T>(inputList: seq<T>) returns (outLists: seq<seq<T>>)
    ensures outLists == Perms(inputList)
    decreases |inputList|
  {
    if |inputList| > 1 {
      var item := inputList[0];
      var subLists := Permutations(inputList[1..]);
      PermsLength(inputList[1..]);
      hide InsertEverywhere;
      outLists := InsertIntoAll(subLists, item, |inputList|);
    } else {
      outLists := [inputList];
    }
  }

  // ---------- every list has the right length ----------

  lemma {:induction false} EverywhereMembers<T>(lists: seq<seq<T>>, x: T, p: seq<T>)
    ensures p in InsertEverywhere(lists, x) <==> exists q, i :: q in lists && 0 <= i <= |q| && p == InsertAt(q, i, x)
  {
    if lists != [] {
      var n := |lists| - 1;
      var last := lists[n];
      EverywhereMembers(lists[..n], x, p);
      assert lists == lists[..n] + [last];
      var ins := Insertions(last, x, |last| + 1);
      assert p in ins <==> exists i :: 0 <= i <= |last| && p == InsertAt(last, i, x) by {
        if i :| 0 <= i <= |last| && p == InsertAt(last, i, x) {
          assert ins[i] == p;
        }
      }
    }
  }

  lemma {:induction false} PermsLength<T>(s: seq<T>)
    ensures AllOfLength(Perms(s), |s|)
  {
    if |s| > 1 {
      PermsLength(s[1..]);
      forall p | p in Perms(s)
        ensures |p| == |s|
      {
        EverywhereMembers(Perms(s[1..]), s[0], p);
      }
    }
  }

  lemma OneMoreRow(m: nat, n: nat)
    ensures m * (n + 1) + (n + 1) == (m + 1) * (n + 1)
  {
  }

  lemma {:induction false} EverywhereCount<T>(lists: seq<seq<T>>, x: T, n: nat)
    requires AllOfLength(lists, n)
    ensures |InsertEverywhere(lists, x)| == |lists| * (n + 1)
  {
    if lists != [] {
      var m := |lists| - 1;
      assert |lists[m]| == n by { assert lists[m] in lists; }
      assert |InsertEverywhere(lists, x)| == |InsertEverywhere(lists[..m], x)| + (n + 1);
      assert AllOfLength(lists[..m], n) by { assert forall p :: p in lists[..m] ==> p in lists; }
      hide InsertEverywhere, AllOfLength;
      EverywhereCount(lists[..m], x, n);
      OneMoreRow(m, n);
    }
  }

  /** There are n! lists, repetitions included. */
  lemma {:induction false} PermsCount<T>(s: seq<T>)
    ensures |Perms(s)| == Factorial(|s|)
  {
    if |s| > 1 {
      PermsCount(s[1..]);
      PermsLength(s[1..]);
      EverywhereCount(Perms(s[1..]), s[0], |s| - 1);
    } else {
      assert Factorial(1) == 1 * Factorial(0);
    }
  }

  // ---------- exactly the rearrangements ----------

  lemma InsertMultiset<T>(s: seq<T>, i: nat, x: T)
    requires i <= |s|
    ensures multiset(InsertAt(s, i, x)) == multiset(s) + multiset{x}
  {
    assert s == s[..i] + s[i..];
  }

  lemma RemoveAt<T>(p: seq<T>, x: T) returns (q: seq<T>, i: nat)
    requires x in multiset(p)
    ensures i <= |q| && p == InsertAt(q, i, x) && multiset(q) == multiset(p) - multiset{x}
  {
    i :| 0 <= i < |p| && p[i] == x;
    q := p[..i] + p[i + 1..];
    assert p == p[..i] + [p[i]] + p[i + 1..];
    assert q[..i] == p[..i] && q[i..] == p[i + 1..];
  }

  ghost predicate Inserted<T>(lists: seq<seq<T>>, x: T, p: seq<T>) {
    exists q, i :: q in lists && 0 <= i <= |q| && p == InsertAt(q, i, x)
  }

  lemma PermsMembers<T>(s: seq<T>, p: seq<T>)
    requires |s| > 1
    ensures p in Perms(s) <==> Inserted(Perms(s[1..]), s[0], p)
  {
    EverywhereMembers(Perms(s[1..]), s[0], p);
  }

  lemma TakeOutMultiset<T>(s: seq<T>)
    requires s != []
    ensures multiset(s) == multiset(s[1..]) + multiset{s[0]}
  {
    assert s == [s[0]] + s[1..];
  }

  lemma {:induction false} ExactlyRearrangements<T>(s: seq<T>, p: seq<T>)
    ensures p in Perms(s) <==> multiset(p) == multiset(s)
    decreases |s|
  {
    if |s| <= 1 {
      SmallRearrangement(s, p);
    } else {
      hide Perms, InsertAt;
      var x, rest := s[0], s[1..];
      TakeOutMultiset(s);
      PermsMembers(s, p);
      if multiset(p) == multiset(s) {
        var q, i := RemoveAt(p, x);
        assert multiset(q) == multiset(rest);
        ExactlyRearrangements(rest, q);
      } else if p in Perms(s) {
        var q, i :| q in Perms(rest) && 0 <= i <= |q| && p == InsertAt(q, i, x);
        ExactlyRearrangements(rest, q);
        InsertMultiset(q, i, x);
      }
    }
  }

  lemma SmallRearrangement<T>(s: seq<T>, p: seq<T>)
    requires |s| <= 1
    ensures p == s <==> multiset(p) == multiset(s)
  {
    if multiset(p) == multiset(s) {
      assert |p| == |multiset(p)| && |s| == |multiset(s)|;
      if |s| == 1 {
        assert s[0] in multiset(p);
      }
    }
  }

  // ---------- distinct elements, distinct lists ----------

  /** The place of x and the list around it can be read off the longer list. */
  lemma InsertionIsUnique<T>(p: seq<T>, q: seq<T>, i: nat, j: nat, x: T)
    requires i <= |p| && j <= |q| && x !in p && x !in q
    requires InsertAt(p, i, x) == InsertAt(q, j, x)
    ensures i == j && p == q
  {
    var a, b := InsertAt(p, i, x), InsertAt(q, j, x);
    assert a[i] == x && b[j] == x;
    assert forall k :: 0 <= k < |a| && k != i ==> a[k] == (if k < i then p[k] else p[k - 1]);
    assert forall k :: 0 <= k < |b| && k != j ==> b[k] == (if k < j then q[k] else q[k - 1]);
    assert i == j;
    assert a[..i] == p[..i] && b[..i] == q[..i] && a[i + 1..] == p[i..] && b[i + 1..] == q[i..];
    assert p == p[..i] + p[i..] && q == q[..i] + q[i..];
  }

  lemma {:induction false} EverywhereDistinct<T>(lists: seq<seq<T>>, x: T)
    requires Distinct(lists) && forall q :: q in lists ==> x !in q
    ensures Distinct(InsertEverywhere(lists, x))
  {
    if lists != [] {
      var n := |lists| - 1;
      var last, before := lists[n], InsertEverywhere(lists[..n], x);
      assert forall q :: q in lists[..n] ==> q in lists;
      assert last in lists;
      EverywhereDistinct(lists[..n], x);
      var ins := Insertions(last, x, |last| + 1);
      forall i, j | 0 <= i < j < |ins| ensures ins[i] != ins[j] {
        if ins[i] == ins[j] { InsertionIsUnique(last, last, i, j, x); }
      }
      forall a, b | 0 <= a < |before| && 0 <= b < |ins| ensures before[a] != ins[b] {
        if before[a] == ins[b] {
          assert before[a] in before;
          EverywhereMembers(lists[..n], x, before[a]);
          var q, i :| q in lists[..n] && 0 <= i <= |q| && before[a] == InsertAt(q, i, x);
          InsertionIsUnique(q, last, i, b, x);
        }
      }
    }
  }

  lemma {:induction false} PermsDistinct<T>(s: seq<T>)
    requires Distinct(s)
    ensures Distinct(Perms(s))
  {
    if |s| > 1 {
      PermsDistinct(s[1..]);
      forall q | q in Perms(s[1..])
        ensures s[0] !in q
      {
        ExactlyRearrangements(s[1..], q);
        assert multiset(q)[s[0]] == multiset(s[1..])[s[0]] == 0;
      }
      EverywhereDistinct(Perms(s[1..]), s[0]);
    }
  }

  // ---------- the order ----------

  lemma RowAndPlace(q: nat, i: nat, m: nat, n: nat)
    requires q < m && i < n
    ensures 0 <= q * n + i < m * n
  {
    assert (m - 1 - q) * n >= 0;
    assert m * n == q * n + n + (m - 1 - q) * n;
  }

  lemma EverywhereMore<T>(lists: seq<seq<T>>, x: T, m: nat)
    requires |lists| == m + 1
    ensures InsertEverywhere(lists, x) == InsertEverywhere(lists[..m], x) + Insertions(lists[m], x, |lists[m]| + 1)
  {
  }

  lemma {:induction false} EverywhereAt<T>(lists: seq<seq<T>>, x: T, n: nat, q: nat, i: nat)
    requires AllOfLength(lists, n) && q < |lists| && i <= n
    ensures 0 <= q * (n + 1) + i < |InsertEverywhere(lists, x)|
    ensures |lists[q]| == n && InsertEverywhere(lists, x)[q * (n + 1) + i] == InsertAt(lists[q], i, x)
  {
    hide InsertEverywhere, Insertions, InsertAt;
    var m := |lists| - 1;
    assert lists[q] in lists && lists[m] in lists;
    assert AllOfLength(lists[..m], n) by { assert forall p :: p in lists[..m] ==> p in lists; }
    EverywhereCount(lists[..m], x, n);
    EverywhereMore(lists, x, m);
    var before, more := InsertEverywhere(lists[..m], x), Insertions(lists[m], x, n + 1);
    RowAndPlace(q, i, q + 1, n + 1);
    if q < m {
      EverywhereAt(lists[..m], x, n, q, i);
    } else {
      InsertionAt(lists[m], x, i);
      AfterFront(before, more, i);
    }
  }

  lemma InsertionAt<T>(s: seq<T>, x: T, i: nat)
    requires i <= |s|
    ensures Insertions(s, x, |s| + 1)[i] == InsertAt(s, i, x)
  {
  }

  lemma AfterFront<T>(a: seq<T>, b: seq<T>, i: nat)
    requires i < |b|
    ensures (a + b)[|a| + i] == b[i]
  {
  }

  /** The i-th of the lists made from the q-th rearrangement of the rest has the first item at place i. */
  lemma PermsAt<T>(s: seq<T>, q: nat, i: nat)
    requires |s| > 1 && q < |Perms(s[1..])| && i < |s|
    ensures 0 <= q * |s| + i < |Perms(s)| && |Perms(s[1..])[q]| == |s| - 1
    ensures var rest := Perms(s[1..])[q];
            Perms(s)[q * |s| + i] == rest[..i] + [s[0]] + rest[i..]
  {
    var rest := Perms(s[1..]);
    assert Perms(s) == InsertEverywhere(rest, s[0]);
    PermsLength(s[1..]);
    assert |rest[q]| == |s| - 1 by { assert rest[q] in rest; }
    hide Perms, InsertEverywhere, AllOfLength;
    EverywhereAt(rest, s[0], |s| - 1, q, i);
  }
}
