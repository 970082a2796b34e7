/** The data behind a timeline: ranges and events, kept in lists that are sorted once and then searched by bisection. */
module Timeline {

  datatype Range = Range(start: int, end: int, value: int)

  datatype Event = Event(at: int, value: int)

  ghost predicate Contains(r: Range, key: int) {
    r.start <= key <= r.end
  }

  ghost predicate Overlaps(r: Range, start: int, end: int) {
    r.start <= end && start <= r.end
  }

  /** Non-empty ranges in order, none reaching the next. */
  ghost predicate Separate(ranges: seq<Range>) {
    && (forall i :: 0 <= i < |ranges| ==> ranges[i].start <= ranges[i].end)
    && (forall i, j :: 0 <= i < j < |ranges| ==> ranges[i].end < ranges[j].start)
  }

  /** The same, except that a range may begin where the one before it ends. */
  ghost predicate Touching(ranges: seq<Range>) {
    && (forall i :: 0 <= i < |ranges| ==> ranges[i].start <= ranges[i].end)
    && (forall i, j :: 0 <= i < j < |ranges| ==> ranges[i].end <= ranges[j].start)
  }

  ghost predicate Increasing(events: seq<Event>) {
    forall i, j :: 0 <= i < j < |events| ==> events[i].at < events[j].at
  }

  ghost predicate ByStart(ranges: seq<Range>) {
    forall i, j :: 0 <= i < j < |ranges| ==> ranges[i].start <= ranges[j].start
  }

  /** Ranges of which no two share a point can be put in order in one way only. */
  ghost predicate Apart(ranges: seq<Range>) {
    && (forall i :: 0 <= i < |ranges| ==> ranges[i].start <= ranges[i].end)
    && (forall i, j :: 0 <= i < j < |ranges| ==>
          ranges[i].end < ranges[j].start || ranges[j].end < ranges[i].start)
  }

  // ---------- sorting ----------

  /** `list.sort` with the ranges' own comparison: an insertion that keeps the order of equal starts. */
  function Insert(r: Range, sorted: seq<Range>): seq<Range> {
    if sorted == [] then [r]
    else if sorted[|sorted| - 1].start <= r.start then sorted + [r]
    else Insert(r, sorted[..|sorted| - 1]) + [sorted[|sorted| - 1]]
  }

  function SortByStart(ranges: seq<Range>): seq<Range> {
    if ranges == [] then [] else Insert(ranges[|ranges| - 1], SortByStart(ranges[..|ranges| - 1]))
  }

  lemma {:induction false} InsertMultiset(r: Range, sorted: seq<Range>)
    ensures multiset(Insert(r, sorted)) == multiset(sorted) + multiset{r}
  {
    if sorted != [] {
      var n := |sorted| - 1;
      InsertMultiset(r, sorted[..n]);
      assert sorted == sorted[..n] + [sorted[n]];
    }
  }

  lemma InsertMembers(r: Range, sorted: seq<Range>, x: Range)
    requires x in Insert(r, sorted)
    ensures x == r || x in sorted
  {
    InsertMultiset(r, sorted);
    hide Insert;
    assert x in multiset(Insert(r, sorted));
    assert x in multiset(sorted) + multiset{r};
  }

  lemma {:induction false} InsertSorted(r: Range, sorted: seq<Range>)
    requires ByStart(sorted)
    ensures ByStart(Insert(r, sorted))
  {
    if sorted != [] && sorted[|sorted| - 1].start > r.start {
      var n := |sorted| - 1;
      InsertSorted(r, sorted[..n]);
      var head := Insert(r, sorted[..n]);
      assert Insert(r, sorted) == head + [sorted[n]];
      hide Insert;
      forall k | 0 <= k < |head|
        ensures head[k].start <= sorted[n].start
      {
        InsertMembers(r, sorted[..n], head[k]);
      }
    }
  }

  lemma {:induction false} SortSorted(ranges: seq<Range>)
    ensures ByStart(SortByStart(ranges)) && multiset(SortByStart(ranges)) == multiset(ranges)
  {
    if ranges != [] {
      var n := |ranges| - 1;
      var before := SortByStart(ranges[..n]);
      assert SortByStart(ranges) == Insert(ranges[n], before) && ranges == ranges[..n] + [ranges[n]];
      hide Insert, ByStart, SortByStart;
      SortSorted(ranges[..n]);
      InsertSorted(ranges[n], before);
      InsertMultiset(ranges[n], before);
    } else {
      NothingSorted();
    }
  }

  lemma NothingSorted()
    ensures ByStart([])
  {
  }

  /** The ranges with a given start, in their order. */
  ghost function WithStart(ranges: seq<Range>, start: int): seq<Range> {
    if ranges == [] then [] else
      var n := |ranges| - 1;
      WithStart(ranges[..n], start) + if ranges[n].start == start then [ranges[n]] else []
  }

  lemma WithStartMore(ranges: seq<Range>, r: Range, start: int)
    ensures WithStart(ranges + [r], start) == WithStart(ranges, start) + if r.start == start then [r] else []
  {
    assert (ranges + [r])[..|ranges|] == ranges;
  }

  lemma {:induction false} NoneWithStart(ranges: seq<Range>, start: int)
    requires forall i :: 0 <= i < |ranges| ==> ranges[i].start != start
    ensures WithStart(ranges, start) == []
  {
    if ranges != [] {
      NoneWithStart(ranges[..|ranges| - 1], start);
    }
  }

  lemma {:induction false} InsertStable(r: Range, sorted: seq<Range>, start: int)
    requires ByStart(sorted)
    ensures WithStart(Insert(r, sorted), start)
            == WithStart(sorted, start) + if r.start == start then [r] else []
  {
    if sorted == [] || sorted[|sorted| - 1].start <= r.start {
      assert sorted == [] ==> sorted + [r] == [r];
      WithStartMore(sorted, r, start);
    } else {
      var n := |sorted| - 1;
      InsertStable(r, sorted[..n], start);
      WithStartMore(Insert(r, sorted[..n]), sorted[n], start);
    }
  }

  /** Ranges with the same start keep their order. */
  lemma {:induction false} SortStable(ranges: seq<Range>, start: int)
    ensures WithStart(SortByStart(ranges), start) == WithStart(ranges, start)
  {
    if ranges != [] {
      var n := |ranges| - 1;
      SortStable(ranges[..n], start);
      SortSorted(ranges[..n]);
      hide ByStart;
      InsertStable(ranges[n], SortByStart(ranges[..n]), start);
    }
  }

  /** Two different places of a list hold two of the same multiset of ranges, so apartness does not depend on order. */
  lemma {:induction false} ApartPairs(ranges: seq<Range>, i: nat, j: nat)
    requires i < j < |ranges|
    ensures multiset{ranges[i], ranges[j]} <= multiset(ranges)
  {
    assert ranges == ranges[..i] + [ranges[i]] + ranges[i + 1..j] + [ranges[j]] + ranges[j + 1..];
  }

  lemma {:induction false} TwoPlaces(ranges: seq<Range>, a: Range, b: Range) returns (i: nat, j: nat)
    requires multiset{a, b} <= multiset(ranges)
    ensures i < |ranges| && j < |ranges| && i != j && ranges[i] == a && ranges[j] == b
  {
    assert multiset{a, b}[a] >= 1 && multiset{a, b}[b] >= 1;
    assert a in multiset(ranges) && b in multiset(ranges);
    i :| 0 <= i < |ranges| && ranges[i] == a;
    var rest := ranges[..i] + ranges[i + 1..];
    assert ranges == ranges[..i] + [ranges[i]] + ranges[i + 1..];
    assert multiset(ranges) == multiset(rest) + multiset{a};
    assert b in multiset(rest);
    var k :| 0 <= k < |rest| && rest[k] == b;
    j := if k < i then k else k + 1;
  }

  /** Once sorted, ranges that are apart are separate: the search's assumption is established by `sort`. */
  lemma SortSeparates(ranges: seq<Range>)
    requires Apart(ranges)
    ensures Separate(SortByStart(ranges))
  {
    var sorted := SortByStart(ranges);
    SortSorted(ranges);
    hide SortByStart;
    forall i | 0 <= i < |sorted|
      ensures sorted[i].start <= sorted[i].end
    {
      assert sorted[i] in multiset(sorted);
      assert sorted[i] in multiset(ranges);
      assert sorted[i] in ranges;
    }
    forall i, j | 0 <= i < j < |sorted|
      ensures sorted[i].end < sorted[j].start
    {
      ApartPairs(sorted, i, j);
      var k, m := TwoPlaces(ranges, sorted[i], sorted[j]);
    }
  }

  // ---------- ranges ----------

  /** Where the bisection between two places ends: at a range that contains the key, or at -1. */
  ghost function Bisect(ranges: seq<Range>, key: int, l: int, u: int): (r: int)
    requires 0 <= l && u < |ranges|
    ensures -1 <= r < |ranges|
    ensures r >= 0 ==> Contains(ranges[r], key)
    decreases u - l + 1
  {
    if l > u then -1 else
      var i := (l + u) / 2;
      if Contains(ranges[i], key) then i
      else if key < ranges[i].start then Bisect(ranges, key, l, i - 1)
      else Bisect(ranges, key, i + 1, u)
  }

  lemma {:induction false} BisectFinds(ranges: seq<Range>, key: int, l: int, u: int)
    requires 0 <= l && u < |ranges| && Touching(ranges) && Bisect(ranges, key, l, u) == -1
    ensures forall i :: l <= i <= u ==> !Contains(ranges[i], key)
    decreases u - l + 1
  {
    if l <= u {
      var i := (l + u) / 2;
      assert !Contains(ranges[i], key);
      if key < ranges[i].start {
        BisectFinds(ranges, key, l, i - 1);
      } else {
        BisectFinds(ranges, key, i + 1, u);
      }
    }
  }

  /**
   * The place a search finds, or -1. In ranges that at most touch, -1 means that no range contains the key; in separate
   * ranges the place is the only one that does.
   */
  ghost function Place(ranges: seq<Range>, key: int): (r: int)
    ensures -1 <= r < |ranges|
    ensures r >= 0 ==> Contains(ranges[r], key)
    ensures Touching(ranges) ==> (r == -1 <==> forall i :: 0 <= i < |ranges| ==> !Contains(ranges[i], key))
  {
    var r := Bisect(ranges, key, 0, |ranges| - 1);
    if Touching(ranges) && r == -1 then BisectFinds(ranges, key, 0, |ranges| - 1); r else r
  }

  /** Which places a query selects, given where its two ends lie. */
  ghost function BoundsOf(ranges: seq<Range>, start: int, end: int): (b: (int, int))
    ensures 0 <= b.0 <= |ranges| && 0 <= b.1 <= |ranges|
  {
    var s, e := Place(ranges, start), Place(ranges, end);
    if s == -1 && e == -1 then (0, 0)
    else if s == -1 then (0, e + 1)
    else if e == -1 then (s, |ranges|)
    else (s, e + 1)
  }

  /** `list[s:e]`: empty if the second bound comes first. */
  function Slice<T>(list: seq<T>, s: int, e: int): seq<T>
    requires 0 <= s <= |list| && 0 <= e <= |list|
  {
    if s <= e then list[s..e] else []
  }

  class TimelineDataRange {
    var name: string
    var ranges: seq<Range>

    constructor (name: string)
      ensures this.name == name && ranges == []
    {
      this.name, ranges := name, [];
    }

    method AddRange(r: Range)
      modifies this`ranges
      ensures ranges == old(ranges) + [r]
    {
      ranges := ranges + [r];
    }

    method Sort()
      modifies this`ranges
      ensures ByStart(ranges) && multiset(ranges) == multiset(old(ranges))
      ensures forall start :: WithStart(ranges, start) == WithStart(old(ranges), start)
      ensures Apart(old(ranges)) ==> Separate(ranges)
    {
      ghost var before := ranges;
      ranges := SortByStart(ranges);
      SortSorted(before);
      forall start ensures WithStart(ranges, start) == WithStart(before, start) { SortStable(before, start); }
      if Apart(before) { SortSeparates(before); }
    }

    /** Always ends, at a range that contains the key or with -1; if ranges at most touch, -1 means there is none. */
    method Search(key: int) returns (r: int)
      ensures r == Place(ranges, key)
      ensures r >= 0 ==> r < |ranges| && Contains(ranges[r], key)
      ensures Touching(ranges) ==> (r == -1 <==> forall i :: 0 <= i < |ranges| ==> !Contains(ranges[i], key))
    {
      var l, u := 0, |ranges| - 1;
      while l <= u
        invariant 0 <= l && u < |ranges|
        invariant Bisect(ranges, key, l, u) == Place(ranges, key)
        decreases u - l
      {
        var i := (l + u) / 2;
        if key >= ranges[i].start && key <= ranges[i].end {
          return i;
        } else if key < ranges[i].start {
          u := i - 1;
        } else {
          l := i + 1;
        }
      }
      r := -1;
    }

    method GetRanges(start: int, end: int) returns (selected: seq<Range>)
      ensures selected == Slice(ranges, BoundsOf(ranges, start, end).0, BoundsOf(ranges, start, end).1)
    {
      var s := Search(start);
      var e := Search(end);
      if s == -1 && e == -1 {
        return [];
      } else if s == -1 {
        return Slice(ranges, 0, e + 1);
      } else if e == -1 {
        return Slice(ranges, s, |ranges|);
      } else {
        return Slice(ranges, s, e + 1);
      }
    }

    method GetRangesBounds(start: int, end: int) returns (s: int, e: int)
      ensures (s, e) == BoundsOf(ranges, start, end)
    {
      s := Search(start);
      e := Search(end);
      if s == -1 && e == -1 {
        return 0, 0;
      } else if s == -1 {
        return 0, e + 1;
      } else if e == -1 {
        return s, |ranges|;
      } else {
        return s, e + 1;
      }
    }
  }

  ghost predicate Covered(ranges: seq<Range>, key: int) {
    exists i :: 0 <= i < |ranges| && Contains(ranges[i], key)
  }

  /** The selection leaves out no range that the query overlaps. */
  ghost predicate Complete(ranges: seq<Range>, start: int, end: int) {
    forall i :: 0 <= i < |ranges| && Overlaps(ranges[i], start, end) ==>
      BoundsOf(ranges, start, end).0 <= i < BoundsOf(ranges, start, end).1
  }

  /** A selection is complete exactly if an end of the query lies in a range or no range lies between the ends. */
  lemma SelectionComplete(ranges: seq<Range>, start: int, end: int)
    requires Separate(ranges) && start <= end
    ensures Complete(ranges, start, end) <==>
            Covered(ranges, start) || Covered(ranges, end) ||
            !(exists i :: 0 <= i < |ranges| && start < ranges[i].start && ranges[i].end < end)
  {
    var s, e := Place(ranges, start), Place(ranges, end);
    if s == -1 && e == -1 {
      forall i | 0 <= i < |ranges|
        ensures Overlaps(ranges[i], start, end) <==> start < ranges[i].start && ranges[i].end < end
      {
        assert !Contains(ranges[i], start) && !Contains(ranges[i], end);
      }
    }
  }

  /** With both ends in ranges the selection holds the overlapping ranges and no others. */
  lemma SelectionExact(ranges: seq<Range>, start: int, end: int, i: int)
    requires Separate(ranges) && start <= end && Covered(ranges, start) && Covered(ranges, end) && 0 <= i < |ranges|
    ensures Overlaps(ranges[i], start, end) <==> BoundsOf(ranges, start, end).0 <= i < BoundsOf(ranges, start, end).1
  {
    var s, e := Place(ranges, start), Place(ranges, end);
    assert s >= 0 && e >= 0;
  }

  /**
   * With one end in a range and the other in a gap the selection goes on to the end of the list on the side of the gap:
   * to the first range if the start is in a gap, to the last one if the end is. With both in gaps it is empty.
   */
  lemma SelectionOneEnd(ranges: seq<Range>, start: int, end: int, i: int)
    requires Separate(ranges) && 0 <= i < |ranges|
    ensures var selected := BoundsOf(ranges, start, end).0 <= i < BoundsOf(ranges, start, end).1;
            && (!Covered(ranges, start) && Covered(ranges, end) ==> (selected <==> ranges[i].start <= end))
            && (Covered(ranges, start) && !Covered(ranges, end) ==> (selected <==> start <= ranges[i].end))
            && (!Covered(ranges, start) && !Covered(ranges, end) ==> !selected)
  {
    var s, e := Place(ranges, start), Place(ranges, end);
    assert s == -1 <==> !Covered(ranges, start);
    assert e == -1 <==> !Covered(ranges, end);
  }

  /** The same for ranges that may touch, and the ranges that share more than an end point with the query. */
  ghost predicate HoldsInside(ranges: seq<Range>, start: int, end: int) {
    forall i :: 0 <= i < |ranges| && ranges[i].start < end && start < ranges[i].end ==>
      BoundsOf(ranges, start, end).0 <= i < BoundsOf(ranges, start, end).1
  }

  lemma SelectionTouching(ranges: seq<Range>, start: int, end: int)
    requires Touching(ranges) && start <= end
    ensures HoldsInside(ranges, start, end) <==>
            Covered(ranges, start) || Covered(ranges, end) ||
            !(exists i :: 0 <= i < |ranges| && start < ranges[i].start && ranges[i].end < end)
    ensures Covered(ranges, start) && Covered(ranges, end) ==>
              forall i :: BoundsOf(ranges, start, end).0 <= i < BoundsOf(ranges, start, end).1 ==>
                Overlaps(ranges[i], start, end)
  {
    var s, e := Place(ranges, start), Place(ranges, end);
    if s == -1 && e == -1 {
      forall i | 0 <= i < |ranges|
        ensures ranges[i].start < end && start < ranges[i].end ==> start < ranges[i].start && ranges[i].end < end
      {
        assert !Contains(ranges[i], start) && !Contains(ranges[i], end);
      }
    }
  }

  /** Two ranges with a third between them: a query that starts and ends in the gaps finds nothing. */
  lemma BetweenIsMissed()
    ensures var ranges := [Range(0, 1, 0), Range(4, 5, 0), Range(8, 9, 0)];
            Separate(ranges) && !Complete(ranges, 3, 6) && BoundsOf(ranges, 3, 6) == (0, 0)
  {
    var ranges := [Range(0, 1, 0), Range(4, 5, 0), Range(8, 9, 0)];
    SelectionComplete(ranges, 3, 6);
    assert ranges[1] == Range(4, 5, 0);
    assert !Covered(ranges, 3) && !Covered(ranges, 6);
    assert Place(ranges, 3) == -1 && Place(ranges, 6) == -1;
  }

  // ---------- events ----------

  /** The number of events before the key. */
  ghost function Before(events: seq<Event>, key: int): (n: nat)
    ensures n <= |events|
  {
    if events == [] || events[|events| - 1].at < key then |events| else Before(events[..|events| - 1], key)
  }

  lemma {:induction false} BeforeSplits(events: seq<Event>, key: int, n: nat)
    requires Increasing(events) && n <= |events|
    requires (forall i :: 0 <= i < n ==> events[i].at < key) && (forall i :: n <= i < |events| ==> key <= events[i].at)
    ensures Before(events, key) == n
  {
    if n < |events| {
      BeforeSplits(events[..|events| - 1], key, n);
    }
  }

  class TimelineEvent {
    var name: string
    var events: seq<Event>

    constructor (name: string)
      ensures this.name == name && events == []
    {
      this.name, events := name, [];
    }

    method AddEvent(e: Event)
      modifies this`events
      ensures events == old(events) + [e]
    {
      events := events + [e];
    }

    /** The place of the event at the key or, if there is none, of the first later one. */
    method Search(key: int) returns (l: int)
      ensures 0 <= l <= |events|
      ensures Increasing(events) ==> l == Before(events, key)
    {
      l := 0;
      var u := |events| - 1;
      while l <= u
        invariant 0 <= l <= u + 1 <= |events|
        invariant Increasing(events) ==> forall i :: 0 <= i < l ==> events[i].at < key
        invariant Increasing(events) ==> forall i :: u < i < |events| ==> key < events[i].at
        decreases u - l
      {
        var i := (l + u) / 2;
        if key == events[i].at {
          if Increasing(events) { BeforeSplits(events, key, i); }
          return i;
        } else if key < events[i].at {
          u := i - 1;
        } else {
          l := i + 1;
        }
      }
      if Increasing(events) { BeforeSplits(events, key, l); }
    }

    method GetEvents(start: int, end: int) returns (selected: seq<Event>)
      ensures Increasing(events) ==> selected == EventsFor(events, start, end)
    {
      var s := Search(start);
      var e := Search(end);
      selected := Slice(events, s, if e + 1 <= |events| then e + 1 else |events|);
    }

    method GetEventsBounds(start: int, end: int) returns (s: int, e: int)
      ensures Increasing(events) ==> s == Before(events, start) && e == Before(events, end) + 1
    {
      s := Search(start);
      e := Search(end);
      e := e + 1;
    }
  }

  ghost function EventsFor(events: seq<Event>, start: int, end: int): seq<Event> {
    var e := Before(events, end);
    Slice(events, Before(events, start), if e + 1 <= |events| then e + 1 else |events|)
  }

  lemma {:induction false} BeforeMeaning(events: seq<Event>, key: int)
    requires Increasing(events)
    ensures forall i :: 0 <= i < Before(events, key) ==> events[i].at < key
    ensures forall i :: Before(events, key) <= i < |events| ==> key <= events[i].at
  {
    if events != [] {
      var n := |events| - 1;
      if events[n].at >= key {
        BeforeMeaning(events[..n], key);
      }
    }
  }

  lemma {:induction false} NotAfter(events: seq<Event>, key: int, i: nat)
    requires Increasing(events) && i < |events| && events[i].at <= key
    ensures i <= Before(events, key)
  {
    var n := |events| - 1;
    if i < n && events[n].at >= key {
      NotAfter(events[..n], key, i);
    } else if i == n && n > 0 && events[n].at >= key {
      assert events[..n][n - 1].at < key;
    }
  }

  lemma {:induction false} BeforeMonotonic(events: seq<Event>, a: int, b: int)
    requires a <= b
    ensures Before(events, a) <= Before(events, b)
  {
    if events != [] {
      BeforeMonotonic(events[..|events| - 1], a, b);
    }
  }

  /** Everything from start to end, in order, and after it at most the one event that follows. */
  lemma EventsForQuery(events: seq<Event>, start: int, end: int)
    requires Increasing(events) && start <= end
    ensures var selected := EventsFor(events, start, end);
            && (forall i :: 0 <= i < |events| && start <= events[i].at <= end ==> events[i] in selected)
            && (forall x :: x in selected ==> start <= x.at)
            && (forall k :: 0 <= k < |selected| - 1 ==> selected[k].at <= end)
            && Increasing(selected)
  {
    hide Before;
    BeforeMeaning(events, start);
    BeforeMeaning(events, end);
    var s, e := Before(events, start), Before(events, end);
    var top := if e + 1 <= |events| then e + 1 else |events|;
    BeforeMonotonic(events, start, end);
    var selected := events[s..top];
    forall i | 0 <= i < |events| && start <= events[i].at <= end
      ensures events[i] in selected
    {
      assert s <= i;
      NotAfter(events, end, i);
      assert selected[i - s] == events[i];
    }
  }

  lemma SelectedPlaces(events: seq<Event>, start: int, end: int, i: nat)
    requires Increasing(events) && i < |events|
    ensures Before(events, start) <= i <==> start <= events[i].at
    ensures i <= Before(events, end) <==> i == 0 || events[i - 1].at < end
  {
    BeforeMeaning(events, start);
    BeforeMeaning(events, end);
    hide Before;
  }

  /** Selected are exactly the events from the start on of which the one before, if any, is before the end. */
  lemma ExactlySelected(events: seq<Event>, start: int, end: int, i: nat)
    requires Increasing(events) && i < |events|
    ensures events[i] in EventsFor(events, start, end) <==>
            start <= events[i].at && (i == 0 || events[i - 1].at < end)
  {
    SelectedPlaces(events, start, end, i);
    var s, e := Before(events, start), Before(events, end);
    hide Before;
    InSlice(events, s, if e + 1 <= |events| then e + 1 else |events|, i);
  }

  lemma InSlice(events: seq<Event>, s: nat, top: nat, i: nat)
    requires Increasing(events) && i < |events| && s <= |events| && top <= |events|
    ensures events[i] in Slice(events, s, top) <==> s <= i < top
  {
    if s <= i < top {
      assert events[s..top][i - s] == events[i];
    } else if s <= top {
      forall k | s <= k < top
        ensures events[k] != events[i]
      {
        assert events[k].at != events[i].at;
      }
    }
  }
}
