/** What a recorded configuration path means: following it from the type it was gathered for. */
module ConfigResolution {
  import opened Basics
  import opened ConfigPaths
  import opened Paths

  // ---------- the string ----------

  ghost function StepPieces(path: seq<string>): seq<string> {
    if path == [] then [] else StepPieces(path[..|path| - 1]) + Split(path[|path| - 1], '/')
  }

  /** Between its slashes the string has the pieces of all steps in order, after an empty piece in front. */
  lemma {:induction false} PathStringPieces(path: seq<string>)
    ensures Split(PathString(path), '/') == [""] + StepPieces(path)
  {
    hide Split;
    if path == [] {
      SplitEmpty('/');
    } else {
      var n := |path| - 1;
      PathStringPieces(path[..n]);
      SplitConcat(PathString(path[..n]), '/', path[n]);
    }
  }

  // ---------- following a path ----------

  /**
   * A text leads from a type to another: the name of an attribute that points to it, unless it is the root of all
   * objects; the name of an attribute that contains it, and an index; or its own name, if it is a registered child or
   * aggregated with the type.
   */
  ghost predicate Hop(r: Registry, aggregates: Aggregates, tid: TypeId, text: string, next: TypeId) {
    || (exists a :: a in r.AttributesOf(tid) && a.checker == PointerTo(next) && next != r.objectType
                    && text == "/" + a.name)
    || (exists a :: a in r.AttributesOf(tid) && a.checker == VectorOf(next) && text == "/" + a.name + "/[i]")
    || (next in r.registered && (next, tid) in r.childOf && text == "/$" + r.NameOf(next))
    || (((tid, next) in aggregates || (next, tid) in aggregates) && text == "/$" + r.NameOf(next))
  }

  /** The string consists of labels that lead to the target, through no type twice and through none in `processed`. */
  ghost predicate Resolves(r: Registry, aggregates: Aggregates, tid: TypeId, processed: set<TypeId>, s: string,
                           target: TypeId)
    decreases |s|
  {
    && tid !in processed
    && ((s == "" && target == tid)
        || exists n, next :: 0 < n <= |s| && Hop(r, aggregates, tid, s[..n], next)
                             && Resolves(r, aggregates, next, processed + {tid}, s[n..], target))
  }

  // ---------- the edges of a type are its hops ----------

  lemma {:induction false} AttributeMembers(r: Registry, tid: TypeId, n: nat, e: Edge)
    requires n <= |r.AttributesOf(tid)|
    ensures e in AttributeEdges(r, tid, n) <==>
            exists k :: 0 <= k < n && e in AttributeEdge(r, r.AttributesOf(tid)[k])
  {
    hide AttributeEdge;
    if n > 0 {
      AttributeMembers(r, tid, n - 1, e);
    }
  }

  lemma {:induction false} ChildMembers(r: Registry, tid: TypeId, n: nat, e: Edge)
    requires n <= |r.registered|
    ensures e in ChildEdges(r, tid, n) <==> exists k :: 0 <= k < n && e in ChildEdge(r, tid, r.registered[k])
  {
    hide ChildEdge;
    if n > 0 {
      ChildMembers(r, tid, n - 1, e);
    }
  }

  lemma {:induction false} AggregateMembers(r: Registry, aggregates: Aggregates, tid: TypeId, n: nat, e: Edge)
    requires n <= |aggregates|
    ensures e in AggregateEdges(r, aggregates, tid, n) <==>
            exists k :: 0 <= k < n && e in AggregateEdge(r, tid, aggregates[k])
  {
    hide AggregateEdge;
    if n > 0 {
      AggregateMembers(r, aggregates, tid, n - 1, e);
    }
  }

  ghost predicate IsEdge(r: Registry, aggregates: Aggregates, tid: TypeId, e: Edge) {
    || (exists a :: a in r.AttributesOf(tid) && e in AttributeEdge(r, a))
    || (exists c :: c in r.registered && e in ChildEdge(r, tid, c))
    || (exists p :: p in aggregates && e in AggregateEdge(r, tid, p))
  }

  lemma EdgeMembers(r: Registry, aggregates: Aggregates, tid: TypeId, e: Edge)
    ensures e in Edges(r, aggregates, tid) <==> IsEdge(r, aggregates, tid, e)
  {
    AttributeMembers(r, tid, |r.AttributesOf(tid)|, e);
    ChildMembers(r, tid, |r.registered|, e);
    AggregateMembers(r, aggregates, tid, |aggregates|, e);
    hide AttributeEdge, ChildEdge, AggregateEdge, AttributeEdges, ChildEdges, AggregateEdges;
  }

  lemma Labels(name: string)
    ensures "/" + (name + "/[i]") == "/" + name + "/[i]" && "/" + ("$" + name) == "/$" + name
  {
  }

  lemma EdgeIsHop(r: Registry, aggregates: Aggregates, tid: TypeId, e: Edge)
    requires e in Edges(r, aggregates, tid)
    ensures Hop(r, aggregates, tid, "/" + e.step, e.target)
  {
    EdgeMembers(r, aggregates, tid, e);
    hide Edges;
    if a :| a in r.AttributesOf(tid) && e in AttributeEdge(r, a) {
      Labels(a.name);
    } else if c :| c in r.registered && e in ChildEdge(r, tid, c) {
      Labels(r.NameOf(c));
    } else {
      var p :| p in aggregates && e in AggregateEdge(r, tid, p);
      Labels(r.NameOf(e.target));
    }
  }

  lemma HopIsEdge(r: Registry, aggregates: Aggregates, tid: TypeId, text: string, next: TypeId) returns (e: Edge)
    requires Hop(r, aggregates, tid, text, next)
    ensures e in Edges(r, aggregates, tid) && e.target == next && "/" + e.step == text
  {
    Labels(r.NameOf(next));
    if a :| a in r.AttributesOf(tid) && a.checker == PointerTo(next) && next != r.objectType && text == "/" + a.name {
      e := Edge(a.name, next);
      assert e in AttributeEdge(r, a);
    } else if a :| a in r.AttributesOf(tid) && a.checker == VectorOf(next) && text == "/" + a.name + "/[i]" {
      e := Edge(a.name + "/[i]", next);
      Labels(a.name);
      assert e in AttributeEdge(r, a);
    } else if next in r.registered && (next, tid) in r.childOf && text == "/$" + r.NameOf(next) {
      e := Edge("$" + r.NameOf(next), next);
      assert e in ChildEdge(r, tid, next);
    } else {
      e := Edge("$" + r.NameOf(next), next);
      if (next, tid) in aggregates {
        assert e in AggregateEdge(r, tid, (next, tid));
      } else {
        assert e in AggregateEdge(r, tid, (tid, next));
      }
    }
    EdgeMembers(r, aggregates, tid, e);
  }

  // ---------- what is recorded is what resolves ----------

  lemma PathStringMore(path: seq<string>, step: string, rest: string)
    ensures PathString(path + [step]) + rest == PathString(path) + ("/" + step + rest)
  {
    assert (path + [step])[..|path|] == path;
  }

  lemma {:induction false} TrailResolves(r: Registry, aggregates: Aggregates, tid: TypeId, path: seq<string>,
                                         processed: set<TypeId>, t: seq<nat>) returns (s: string)
    requires SimpleTrail(r, aggregates, tid, processed, t)
    ensures Recorded(r, aggregates, tid, path, t).1 == PathString(path) + s
    ensures Resolves(r, aggregates, tid, processed, s, Recorded(r, aggregates, tid, path, t).0)
    decreases |t|
  {
    if t == [] {
      s := "";
      assert PathString(path) + "" == PathString(path);
    } else {
      var e := Edges(r, aggregates, tid)[t[0]];
      var rest := TrailResolves(r, aggregates, e.target, path + [e.step], processed + {tid}, t[1..]);
      s := "/" + e.step + rest;
      PathStringMore(path, e.step, rest);
      EdgeIsHop(r, aggregates, tid, e);
      var n := 1 + |e.step|;
      assert s[..n] == "/" + e.step && s[n..] == rest;
    }
  }

  lemma {:induction false} ResolvedTrail(r: Registry, aggregates: Aggregates, tid: TypeId, path: seq<string>,
                                         processed: set<TypeId>, s: string, target: TypeId) returns (t: seq<nat>)
    requires Resolves(r, aggregates, tid, processed, s, target)
    ensures SimpleTrail(r, aggregates, tid, processed, t)
    ensures Recorded(r, aggregates, tid, path, t) == (target, PathString(path) + s)
    decreases |s|
  {
    if s == "" && target == tid {
      t := [];
      assert PathString(path) + "" == PathString(path);
    } else {
      var n, next :| 0 < n <= |s| && Hop(r, aggregates, tid, s[..n], next)
                     && Resolves(r, aggregates, next, processed + {tid}, s[n..], target);
      var e := HopIsEdge(r, aggregates, tid, s[..n], next);
      var i: nat :| i < |Edges(r, aggregates, tid)| && Edges(r, aggregates, tid)[i] == e;
      var rest := ResolvedTrail(r, aggregates, next, path + [e.step], processed + {tid}, s[n..], target);
      t := [i] + rest;
      assert t[1..] == rest;
      PathStringMore(path, e.step, s[n..]);
      assert s == s[..n] + s[n..];
    }
  }

  /** A gathering records a path for a type exactly if following the path from the start leads to that type. */
  lemma RecordedIffResolves(r: Registry, aggregates: Aggregates, root: TypeId, tid: TypeId, p: string)
    ensures p in PathsOf(Explore(r, aggregates, root, [], {}), tid) <==> Resolves(r, aggregates, root, {}, p, tid)
  {
    hide Explore, SimpleTrail, Recorded, PathsOf, Resolves;
    GetFindsEveryPath(r, aggregates, root, tid, p);
    if t :| LeadsTo(r, aggregates, root, t, tid, p) {
      var s := TrailResolves(r, aggregates, root, [], {}, t);
      assert "" + s == s;
    }
    if Resolves(r, aggregates, root, {}, p, tid) {
      var t := ResolvedTrail(r, aggregates, root, [], {}, p, tid);
      assert "" + p == p;
      assert LeadsTo(r, aggregates, root, t, tid, p);
    }
  }

  // ---------- the order of the record ----------

  /** The paths handed out for a type stand in the record at increasing places, and these are all the places it has. */
  ghost predicate PathPlaces(output: seq<(TypeId, string)>, tid: TypeId, paths: seq<string>, at: seq<nat>) {
    && |at| == |paths|
    && (forall i :: 0 <= i < |at| ==> at[i] < |output| && output[at[i]] == (tid, paths[i]))
    && (forall i, j :: 0 <= i < j < |at| ==> at[i] < at[j])
    && (forall n :: 0 <= n < |output| && output[n].0 == tid ==> n in at)
  }

  lemma {:induction false} PathsInOrder(output: seq<(TypeId, string)>, tid: TypeId) returns (at: seq<nat>)
    ensures PathPlaces(output, tid, PathsOf(output, tid), at)
  {
    if output == [] {
      at := [];
    } else {
      var n := |output| - 1;
      var before := PathsInOrder(output[..n], tid);
      at := before + if output[n].0 == tid then [n] else [];
      assert forall i :: 0 <= i < n ==> output[..n][i] == output[i];
      assert output[n].0 == tid ==> at[|before|] == n;
    }
  }

  /** Attributes are tried first, then registered children, then aggregations, each in their own order. */
  lemma EdgesExample(r: Registry, c: string, d: string)
    requires r.attributes
             == map[0 := [Attribute("A", PointerTo(1)), Attribute("B", Plain), Attribute("C", VectorOf(2))]]
    requires r.registered == [0, 3, 4] && r.childOf == {(3, 0)} && r.objectType == 9
    requires r.names == map[3 := c, 4 := d]
    ensures Edges(r, [(4, 0), (0, 3)], 0)
            == [Edge("A", 1), Edge("C/[i]", 2), Edge("$" + c, 3), Edge("$" + d, 4), Edge("$" + c, 3)]
  {
    var attributes := r.AttributesOf(0);
    assert AttributeEdges(r, 0, 1) == [Edge("A", 1)];
    assert AttributeEdges(r, 0, 2) == [Edge("A", 1)];
    assert AttributeEdges(r, 0, 3) == [Edge("A", 1), Edge("C/[i]", 2)] by { assert "C" + "/[i]" == "C/[i]"; }
    assert ChildEdges(r, 0, 1) == [];
    assert ChildEdges(r, 0, 2) == [Edge("$" + c, 3)];
    assert ChildEdges(r, 0, 3) == [Edge("$" + c, 3)];
    var aggregates: Aggregates := [(4, 0), (0, 3)];
    assert AggregateEdges(r, aggregates, 0, 1) == [Edge("$" + d, 4)];
    assert AggregateEdges(r, aggregates, 0, 2) == [Edge("$" + d, 4), Edge("$" + c, 3)];
  }
}
