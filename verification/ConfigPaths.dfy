/** Gathering the configuration paths of a type: a depth-first walk over a possibly cyclic graph of types. */
module ConfigPaths {
  import opened Basics

  type TypeId = nat

  datatype Checker = PointerTo(pointee: TypeId) | VectorOf(item: TypeId) | Plain

  datatype Attribute = Attribute(name: string, checker: Checker)

  /** The registered types, as the introspection program sees them; `childOf` holds the (type, ancestor) pairs. */
  datatype Registry = Registry(
    registered: seq<TypeId>, names: map<TypeId, string>, attributes: map<TypeId, seq<Attribute>>,
    childOf: set<(TypeId, TypeId)>, objectType: TypeId)
  {
    function NameOf(tid: TypeId): string {
      if tid in names then names[tid] else ""
    }

    function AttributesOf(tid: TypeId): seq<Attribute> {
      if tid in attributes then attributes[tid] else []
    }
  }

  /** A step the walk may take: what it adds to the path, and the type it leads to. */
  datatype Edge = Edge(step: string, target: TypeId)

  type Aggregates = seq<(TypeId, TypeId)>

  // ---------- the edges out of a type, in the order they are tried ----------

  /** An attribute that points to the root object type leads nowhere. */
  ghost function AttributeEdge(r: Registry, info: Attribute): seq<Edge> {
    match info.checker
    case PointerTo(pointee) => if pointee == r.objectType then [] else [Edge(info.name, pointee)]
    case VectorOf(item) => [Edge(info.name + "/[i]", item)]
    case Plain => []
  }

  /** The edges of the first n attributes. */
  ghost function AttributeEdges(r: Registry, tid: TypeId, n: nat): seq<Edge>
    requires n <= |r.AttributesOf(tid)|
  {
    if n == 0 then [] else AttributeEdges(r, tid, n - 1) + AttributeEdge(r, r.AttributesOf(tid)[n - 1])
  }

  ghost function ChildEdge(r: Registry, tid: TypeId, child: TypeId): seq<Edge> {
    if (child, tid) in r.childOf then [Edge("$" + r.NameOf(child), child)] else []
  }

  ghost function ChildEdges(r: Registry, tid: TypeId, n: nat): seq<Edge>
    requires n <= |r.registered|
  {
    if n == 0 then [] else ChildEdges(r, tid, n - 1) + ChildEdge(r, tid, r.registered[n - 1])
  }

  /** Either end of an aggregation leads to the other; a type aggregated to itself leads to itself. */
  ghost function AggregateEdge(r: Registry, tid: TypeId, pair: (TypeId, TypeId)): seq<Edge> {
    if pair.1 == tid then [Edge("$" + r.NameOf(pair.0), pair.0)]
    else if pair.0 == tid then [Edge("$" + r.NameOf(pair.1), pair.1)]
    else []
  }

  ghost function AggregateEdges(r: Registry, aggregates: Aggregates, tid: TypeId, n: nat): seq<Edge>
    requires n <= |aggregates|
  {
    if n == 0 then [] else AggregateEdges(r, aggregates, tid, n - 1) + AggregateEdge(r, tid, aggregates[n - 1])
  }

  ghost function Edges(r: Registry, aggregates: Aggregates, tid: TypeId): seq<Edge> {
    AttributeEdges(r, tid, |r.AttributesOf(tid)|) + ChildEdges(r, tid, |r.registered|)
    + AggregateEdges(r, aggregates, tid, |aggregates|)
  }

  // ---------- every edge leads into a finite set of types ----------

  ghost function Pointed(infos: seq<Attribute>): set<TypeId> {
    (set a | a in infos && a.checker.PointerTo? :: a.checker.pointee)
    + (set a | a in infos && a.checker.VectorOf? :: a.checker.item)
  }

  ghost function Universe(r: Registry, aggregates: Aggregates): set<TypeId> {
    (set tid, x | tid in r.attributes && x in Pointed(r.attributes[tid]) :: x)
    + Elements(r.registered)
    + (set p | p in aggregates :: p.0) + (set p | p in aggregates :: p.1)
  }

  ghost predicate LeadInto(es: seq<Edge>, u: set<TypeId>) {
    forall e :: e in es ==> e.target in u
  }

  lemma AttributeTarget(r: Registry, aggregates: Aggregates, tid: TypeId, info: Attribute)
    requires info in r.AttributesOf(tid)
    ensures info.checker.PointerTo? ==> info.checker.pointee in Universe(r, aggregates)
    ensures info.checker.VectorOf? ==> info.checker.item in Universe(r, aggregates)
  {
    assert info.checker.PointerTo? ==> info.checker.pointee in Pointed(r.attributes[tid]);
    assert info.checker.VectorOf? ==> info.checker.item in Pointed(r.attributes[tid]);
  }

  lemma ItemTargets(r: Registry, aggregates: Aggregates, tid: TypeId)
    ensures forall info :: info in r.AttributesOf(tid) ==> LeadInto(AttributeEdge(r, info), Universe(r, aggregates))
    ensures forall child :: child in r.registered ==> LeadInto(ChildEdge(r, tid, child), Universe(r, aggregates))
    ensures forall p :: p in aggregates ==> LeadInto(AggregateEdge(r, tid, p), Universe(r, aggregates))
  {
    var u := Universe(r, aggregates);
    forall info | info in r.AttributesOf(tid)
      ensures LeadInto(AttributeEdge(r, info), u)
    {
      AttributeTarget(r, aggregates, tid, info);
    }
    forall child | child in r.registered
      ensures LeadInto(ChildEdge(r, tid, child), u)
    {
      assert child in Elements(r.registered);
    }
  }

  lemma NoTargets(u: set<TypeId>)
    ensures LeadInto([], u)
  {
  }

  lemma LeadIntoConcat(a: seq<Edge>, b: seq<Edge>, u: set<TypeId>)
    requires LeadInto(a, u) && LeadInto(b, u)
    ensures LeadInto(a + b, u)
  {
  }

  lemma {:induction false} AttributeTargets(r: Registry, aggregates: Aggregates, tid: TypeId, n: nat)
    requires n <= |r.AttributesOf(tid)|
    ensures LeadInto(AttributeEdges(r, tid, n), Universe(r, aggregates))
  {
    hide Universe, AttributeEdge, LeadInto;
    if n == 0 {
      NoTargets(Universe(r, aggregates));
    } else {
      AttributeTargets(r, aggregates, tid, n - 1);
      ItemTargets(r, aggregates, tid);
      var before, last := AttributeEdges(r, tid, n - 1), AttributeEdge(r, r.AttributesOf(tid)[n - 1]);
      assert r.AttributesOf(tid)[n - 1] in r.AttributesOf(tid) && LeadInto(last, Universe(r, aggregates));
      LeadIntoConcat(before, last, Universe(r, aggregates));
    }
  }

  lemma {:induction false} ChildTargets(r: Registry, aggregates: Aggregates, tid: TypeId, n: nat)
    requires n <= |r.registered|
    ensures LeadInto(ChildEdges(r, tid, n), Universe(r, aggregates))
  {
    hide Universe, ChildEdge, LeadInto;
    if n == 0 {
      NoTargets(Universe(r, aggregates));
    } else {
      ChildTargets(r, aggregates, tid, n - 1);
      ItemTargets(r, aggregates, tid);
      var before, last := ChildEdges(r, tid, n - 1), ChildEdge(r, tid, r.registered[n - 1]);
      assert r.registered[n - 1] in r.registered && LeadInto(last, Universe(r, aggregates));
      LeadIntoConcat(before, last, Universe(r, aggregates));
    }
  }

  lemma {:induction false} AggregateTargets(r: Registry, aggregates: Aggregates, tid: TypeId, n: nat)
    requires n <= |aggregates|
    ensures LeadInto(AggregateEdges(r, aggregates, tid, n), Universe(r, aggregates))
  {
    hide Universe, AggregateEdge, LeadInto;
    if n == 0 {
      NoTargets(Universe(r, aggregates));
    } else {
      AggregateTargets(r, aggregates, tid, n - 1);
      ItemTargets(r, aggregates, tid);
      var before, last := AggregateEdges(r, aggregates, tid, n - 1), AggregateEdge(r, tid, aggregates[n - 1]);
      assert aggregates[n - 1] in aggregates && LeadInto(last, Universe(r, aggregates));
      LeadIntoConcat(before, last, Universe(r, aggregates));
    }
  }

  lemma EdgeTargets(r: Registry, aggregates: Aggregates, tid: TypeId)
    ensures LeadInto(Edges(r, aggregates, tid), Universe(r, aggregates))
  {
    hide Universe;
    AttributeTargets(r, aggregates, tid, |r.AttributesOf(tid)|);
    ChildTargets(r, aggregates, tid, |r.registered|);
    AggregateTargets(r, aggregates, tid, |aggregates|);
  }

  lemma Shrinks(u: set<TypeId>, processed: set<TypeId>, tid: TypeId)
    requires tid !in processed
    ensures if tid in u then |u - (processed + {tid})| < |u - processed| else u - (processed + {tid}) == u - processed
  {
    if tid in u {
      assert u - processed == (u - (processed + {tid})) + {tid};
    }
  }

  // ---------- what a gathering records ----------

  ghost function PathString(path: seq<string>): string {
    if path == [] then "" else PathString(path[..|path| - 1]) + "/" + path[|path| - 1]
  }

  /** The walk below tid: a pair of type and path string for every type it enters. */
  ghost function Explore(r: Registry, aggregates: Aggregates, tid: TypeId, path: seq<string>, processed: set<TypeId>)
    : seq<(TypeId, string)>
    decreases |Universe(r, aggregates) - processed|, tid !in Universe(r, aggregates)
  {
    if tid in processed then [] else
      EdgeTargets(r, aggregates, tid);
      Shrinks(Universe(r, aggregates), processed, tid);
      var es := Edges(r, aggregates, tid);
      [(tid, PathString(path))] +
      Flatten(seq(|es|, i requires 0 <= i < |es| =>
                Explore(r, aggregates, es[i].target, path + [es[i].step], processed + {tid})))
  }

  /** The walk along some edges, one after the other, given the walk along each. */
  ghost function Below<T>(walk: Edge -> seq<T>, es: seq<Edge>): seq<T> {
    if es == [] then [] else Below(walk, es[..|es| - 1]) + walk(es[|es| - 1])
  }

  ghost function Along(r: Registry, aggregates: Aggregates, path: seq<string>, processed: set<TypeId>)
    : Edge -> seq<(TypeId, string)>
  {
    (e: Edge) => Explore(r, aggregates, e.target, path + [e.step], processed)
  }

  lemma {:induction false} BelowConcat<T>(walk: Edge -> seq<T>, a: seq<Edge>, b: seq<Edge>)
    ensures Below(walk, a + b) == Below(walk, a) + Below(walk, b)
  {
    if b == [] {
      assert a + b == a;
    } else {
      var n := |b| - 1;
      BelowConcat(walk, a, b[..n]);
      assert (a + b)[..|a + b| - 1] == a + b[..n];
    }
  }

  lemma BelowOne<T>(walk: Edge -> seq<T>, e: Edge)
    ensures Below(walk, [e]) == walk(e)
  {
    assert [e][..|[e]| - 1] == [];
  }

  lemma {:induction false} FlattenIsBelow<T>(walk: Edge -> seq<T>, es: seq<Edge>, parts: seq<seq<T>>)
    requires |parts| == |es| && forall i :: 0 <= i < |es| ==> parts[i] == walk(es[i])
    ensures Flatten(parts) == Below(walk, es)
  {
    if es != [] {
      FlattenIsBelow(walk, es[..|es| - 1], parts[..|es| - 1]);
    }
  }

  // The walk along the edges of one attribute, child or aggregation, and along those of the first n of them.

  ghost function AlongAttribute<T>(r: Registry, info: Attribute, walk: Edge -> seq<T>): seq<T> {
    var es := AttributeEdge(r, info);
    if es == [] then [] else walk(es[0])
  }

  ghost function AlongAttributes<T>(r: Registry, tid: TypeId, walk: Edge -> seq<T>, n: nat): seq<T>
    requires n <= |r.AttributesOf(tid)|
  {
    if n == 0 then [] else AlongAttributes(r, tid, walk, n - 1) + AlongAttribute(r, r.AttributesOf(tid)[n - 1], walk)
  }

  ghost function AlongChild<T>(r: Registry, tid: TypeId, child: TypeId, walk: Edge -> seq<T>): seq<T> {
    var es := ChildEdge(r, tid, child);
    if es == [] then [] else walk(es[0])
  }

  ghost function AlongChildren<T>(r: Registry, tid: TypeId, walk: Edge -> seq<T>, n: nat): seq<T>
    requires n <= |r.registered|
  {
    if n == 0 then [] else AlongChildren(r, tid, walk, n - 1) + AlongChild(r, tid, r.registered[n - 1], walk)
  }

  ghost function AlongAggregate<T>(r: Registry, tid: TypeId, pair: (TypeId, TypeId), walk: Edge -> seq<T>): seq<T> {
    var es := AggregateEdge(r, tid, pair);
    if es == [] then [] else walk(es[0])
  }

  ghost function AlongAggregates<T>(r: Registry, aggregates: Aggregates, tid: TypeId, walk: Edge -> seq<T>, n: nat)
    : seq<T>
    requires n <= |aggregates|
  {
    if n == 0 then [] else
      AlongAggregates(r, aggregates, tid, walk, n - 1) + AlongAggregate(r, tid, aggregates[n - 1], walk)
  }

  lemma BelowAtMostOne<T>(walk: Edge -> seq<T>, es: seq<Edge>)
    requires |es| <= 1
    ensures Below(walk, es) == if es == [] then [] else walk(es[0])
  {
    if es != [] {
      BelowOne(walk, es[0]);
      assert es == [es[0]];
    }
  }

  lemma OneAttributeBelow<T>(r: Registry, info: Attribute, walk: Edge -> seq<T>)
    ensures Below(walk, AttributeEdge(r, info)) == AlongAttribute(r, info, walk)
  {
    BelowAtMostOne(walk, AttributeEdge(r, info));
  }

  lemma OneChildBelow<T>(r: Registry, tid: TypeId, child: TypeId, walk: Edge -> seq<T>)
    ensures Below(walk, ChildEdge(r, tid, child)) == AlongChild(r, tid, child, walk)
  {
    BelowAtMostOne(walk, ChildEdge(r, tid, child));
  }

  lemma OneAggregateBelow<T>(r: Registry, tid: TypeId, pair: (TypeId, TypeId), walk: Edge -> seq<T>)
    ensures Below(walk, AggregateEdge(r, tid, pair)) == AlongAggregate(r, tid, pair, walk)
  {
    BelowAtMostOne(walk, AggregateEdge(r, tid, pair));
  }

  lemma {:induction false} AttributesBelow<T>(r: Registry, tid: TypeId, walk: Edge -> seq<T>, n: nat)
    requires n <= |r.AttributesOf(tid)|
    ensures Below(walk, AttributeEdges(r, tid, n)) == AlongAttributes(r, tid, walk, n)
  {
    hide Below, AttributeEdge, AlongAttribute;
    if n == 0 {
      BelowAtMostOne(walk, []);
    } else {
      AttributesBelow(r, tid, walk, n - 1);
      var before, last := AttributeEdges(r, tid, n - 1), AttributeEdge(r, r.AttributesOf(tid)[n - 1]);
      assert AttributeEdges(r, tid, n) == before + last;
      BelowConcat(walk, before, last);
      OneAttributeBelow(r, r.AttributesOf(tid)[n - 1], walk);
    }
  }

  lemma {:induction false} ChildrenBelow<T>(r: Registry, tid: TypeId, walk: Edge -> seq<T>, n: nat)
    requires n <= |r.registered|
    ensures Below(walk, ChildEdges(r, tid, n)) == AlongChildren(r, tid, walk, n)
  {
    hide Below, ChildEdge, AlongChild;
    if n == 0 {
      BelowAtMostOne(walk, []);
    } else {
      ChildrenBelow(r, tid, walk, n - 1);
      var before, last := ChildEdges(r, tid, n - 1), ChildEdge(r, tid, r.registered[n - 1]);
      assert ChildEdges(r, tid, n) == before + last;
      BelowConcat(walk, before, last);
      OneChildBelow(r, tid, r.registered[n - 1], walk);
    }
  }

  lemma {:induction false} AggregatesBelow<T>(r: Registry, aggregates: Aggregates, tid: TypeId, walk: Edge -> seq<T>,
                                              n: nat)
    requires n <= |aggregates|
    ensures Below(walk, AggregateEdges(r, aggregates, tid, n)) == AlongAggregates(r, aggregates, tid, walk, n)
  {
    hide Below, AggregateEdge, AlongAggregate;
    if n == 0 {
      BelowAtMostOne(walk, []);
    } else {
      AggregatesBelow(r, aggregates, tid, walk, n - 1);
      var before, last := AggregateEdges(r, aggregates, tid, n - 1), AggregateEdge(r, tid, aggregates[n - 1]);
      assert AggregateEdges(r, aggregates, tid, n) == before + last;
      BelowConcat(walk, before, last);
      OneAggregateBelow(r, tid, aggregates[n - 1], walk);
    }
  }

  lemma NothingNew(r: Registry, aggregates: Aggregates, tid: TypeId, path: seq<string>, processed: set<TypeId>)
    requires tid in processed
    ensures Explore(r, aggregates, tid, path, processed) == []
  {
  }

  lemma ExploreIsBelow(r: Registry, aggregates: Aggregates, tid: TypeId, path: seq<string>, processed: set<TypeId>)
    requires tid !in processed
    ensures Explore(r, aggregates, tid, path, processed)
            == [(tid, PathString(path))]
               + Below(Along(r, aggregates, path, processed + {tid}), Edges(r, aggregates, tid))
  {
    hide Below, Edges, Universe, PathString;
    var es := Edges(r, aggregates, tid);
    FlattenIsBelow(Along(r, aggregates, path, processed + {tid}), es,
                   seq(|es|, i requires 0 <= i < |es| =>
                     Explore(r, aggregates, es[i].target, path + [es[i].step], processed + {tid})));
  }

  lemma EdgesBelow<T>(r: Registry, aggregates: Aggregates, tid: TypeId, walk: Edge -> seq<T>)
    ensures Below(walk, Edges(r, aggregates, tid))
            == AlongAttributes(r, tid, walk, |r.AttributesOf(tid)|) + AlongChildren(r, tid, walk, |r.registered|)
               + AlongAggregates(r, aggregates, tid, walk, |aggregates|)
  {
    hide Below, AttributeEdges, ChildEdges, AggregateEdges, AlongAttributes, AlongChildren, AlongAggregates;
    var a, b, c := AttributeEdges(r, tid, |r.AttributesOf(tid)|), ChildEdges(r, tid, |r.registered|),
                   AggregateEdges(r, aggregates, tid, |aggregates|);
    BelowConcat(walk, a, b);
    BelowConcat(walk, a + b, c);
    AttributesBelow(r, tid, walk, |r.AttributesOf(tid)|);
    ChildrenBelow(r, tid, walk, |r.registered|);
    AggregatesBelow(r, aggregates, tid, walk, |aggregates|);
  }

  lemma InElements(s: seq<TypeId>, x: TypeId)
    ensures x in Elements(s) <==> x in s
  {
  }

  class StaticInformation {
    var output: seq<(TypeId, string)>
    var currentPath: seq<string>
    var alreadyProcessed: seq<TypeId>
    var aggregates: Aggregates
    var noTids: seq<string>

    constructor ()
      ensures output == [] && currentPath == [] && alreadyProcessed == [] && aggregates == [] && noTids == []
    {
      output, currentPath, alreadyProcessed, aggregates, noTids := [], [], [], [], [];
    }

    /** Records the relation if both names are registered, and otherwise the first name that is not. */
    method RecordAggregationInfo(lookup: map<string, TypeId>, a: string, b: string)
      modifies this`aggregates, this`noTids
      ensures aggregates == old(aggregates) + if a in lookup && b in lookup then [(lookup[a], lookup[b])] else []
      ensures noTids == old(noTids) + if a !in lookup then [a] else if b !in lookup then [b] else []
    {
      if a !in lookup {
        noTids := noTids + [a];
        return;
      }
      if b !in lookup {
        noTids := noTids + [b];
        return;
      }
      aggregates := aggregates + [(lookup[a], lookup[b])];
    }

    method GetCurrentPath() returns (s: string)
      ensures s == PathString(currentPath)
    {
      s := "";
      for i := 0 to |currentPath|
        invariant s == PathString(currentPath[..i])
      {
        assert currentPath[..i + 1][..i] == currentPath[..i];
        s := s + "/" + currentPath[i];
      }
      assert currentPath[..|currentPath|] == currentPath;
    }

    method HasAlreadyBeenProcessed(tid: TypeId) returns (b: bool)
      ensures b <==> tid in alreadyProcessed
    {
      for i := 0 to |alreadyProcessed|
        invariant tid !in alreadyProcessed[..i]
      {
        if alreadyProcessed[i] == tid {
          return true;
        }
      }
      assert alreadyProcessed[..|alreadyProcessed|] == alreadyProcessed;
      b := false;
    }

    method RecordOutput(tid: TypeId)
      modifies this`output
      ensures output == old(output) + [(tid, PathString(currentPath))]
    {
      var s := GetCurrentPath();
      output := output + [(tid, s)];
    }

    /** Every recorded path of one type, in the order recorded. */
    method Get(tid: TypeId) returns (paths: seq<string>)
      ensures paths == PathsOf(output, tid)
    {
      paths := [];
      for i := 0 to |output|
        invariant paths == PathsOf(output[..i], tid)
      {
        assert output[..i + 1][..i] == output[..i];
        if output[i].0 == tid {
          paths := paths + [output[i].1];
        }
      }
      assert output[..|output|] == output;
    }

    /** What the walk along one more edge adds, at the current position below tid. */
    ghost function Walk(r: Registry, tid: TypeId): Edge -> seq<(TypeId, string)>
      reads this`aggregates, this`currentPath, this`alreadyProcessed
    {
      Along(r, aggregates, currentPath, Elements(alreadyProcessed) + {tid})
    }

    /**
     * Appends the walk below tid to the output and leaves everything else, both stacks included, as it was.
     * It ends on every registry, however cyclic, because the types not on the stack become fewer.
     */
    method DoGather(r: Registry, tid: TypeId)
      modifies this`output, this`currentPath, this`alreadyProcessed
      ensures currentPath == old(currentPath) && alreadyProcessed == old(alreadyProcessed)
      ensures output == old(output) + Explore(r, aggregates, tid, currentPath, Elements(alreadyProcessed))
      decreases |Universe(r, aggregates) - Elements(alreadyProcessed)|, tid !in Universe(r, aggregates), 4
    {
      hide Universe, Along, Explore, Below, Edges, PathString, Elements;
      hide AlongAttributes, AlongChildren, AlongAggregates;
      var seen := HasAlreadyBeenProcessed(tid);
      ghost var done := Elements(alreadyProcessed);
      if seen {
        assert tid in done by { InElements(alreadyProcessed, tid); }
        NothingNew(r, aggregates, tid, currentPath, done);
        return;
      }
      assert tid !in done by { InElements(alreadyProcessed, tid); }
      Shrinks(Universe(r, aggregates), done, tid);
      ExploreIsBelow(r, aggregates, tid, currentPath, done);
      EdgesBelow(r, aggregates, tid, Walk(r, tid));
      RecordOutput(tid);
      GatherAttributes(r, tid);
      GatherChildren(r, tid);
      GatherAggregates(r, tid);
    }

    /** The block repeated in the three loops: both stacks are pushed, the walk continues, both stacks are popped. */
    method Descend(r: Registry, tid: TypeId, name: string, target: TypeId)
      requires target in Universe(r, aggregates)
      modifies this`output, this`currentPath, this`alreadyProcessed
      ensures currentPath == old(currentPath) && alreadyProcessed == old(alreadyProcessed)
      ensures output == old(output) + Walk(r, tid)(Edge(name, target))
      decreases |Universe(r, aggregates) - (Elements(alreadyProcessed) + {tid})|, true, 1
    {
      hide Universe, Explore;
      assert Elements(alreadyProcessed + [tid]) == Elements(alreadyProcessed) + {tid};
      currentPath := currentPath + [name];
      alreadyProcessed := alreadyProcessed + [tid];
      DoGather(r, target);
      alreadyProcessed := alreadyProcessed[..|alreadyProcessed| - 1];
      currentPath := currentPath[..|currentPath| - 1];
    }

    method GatherAttribute(r: Registry, tid: TypeId, info: Attribute)
      requires info in r.AttributesOf(tid)
      modifies this`output, this`currentPath, this`alreadyProcessed
      ensures currentPath == old(currentPath) && alreadyProcessed == old(alreadyProcessed)
      ensures output == old(output) + AlongAttribute(r, info, Walk(r, tid))
      decreases |Universe(r, aggregates) - (Elements(alreadyProcessed) + {tid})|, true, 2
    {
      AttributeTarget(r, aggregates, tid, info);
      match info.checker {
        case PointerTo(pointee) =>
          if pointee == r.objectType {
            return;
          }
          Descend(r, tid, info.name, pointee);
        case VectorOf(item) =>
          Descend(r, tid, info.name + "/[i]", item);
        case Plain =>
      }
    }

    method GatherAttributes(r: Registry, tid: TypeId)
      modifies this`output, this`currentPath, this`alreadyProcessed
      ensures currentPath == old(currentPath) && alreadyProcessed == old(alreadyProcessed)
      ensures output == old(output) + AlongAttributes(r, tid, Walk(r, tid), |r.AttributesOf(tid)|)
      decreases |Universe(r, aggregates) - (Elements(alreadyProcessed) + {tid})|, true, 3
    {
      hide Universe, Walk, Along, Explore, AlongAttribute;
      for i := 0 to |r.AttributesOf(tid)|
        invariant currentPath == old(currentPath) && alreadyProcessed == old(alreadyProcessed)
        invariant output == old(output) + AlongAttributes(r, tid, Walk(r, tid), i)
      {
        GatherAttribute(r, tid, r.AttributesOf(tid)[i]);
      }
    }

    method GatherChild(r: Registry, tid: TypeId, child: TypeId)
      requires child in r.registered
      modifies this`output, this`currentPath, this`alreadyProcessed
      ensures currentPath == old(currentPath) && alreadyProcessed == old(alreadyProcessed)
      ensures output == old(output) + AlongChild(r, tid, child, Walk(r, tid))
      decreases |Universe(r, aggregates) - (Elements(alreadyProcessed) + {tid})|, true, 2
    {
      assert child in Elements(r.registered);
      if (child, tid) in r.childOf {
        Descend(r, tid, "$" + r.NameOf(child), child);
      }
    }

    method GatherChildren(r: Registry, tid: TypeId)
      modifies this`output, this`currentPath, this`alreadyProcessed
      ensures currentPath == old(currentPath) && alreadyProcessed == old(alreadyProcessed)
      ensures output == old(output) + AlongChildren(r, tid, Walk(r, tid), |r.registered|)
      decreases |Universe(r, aggregates) - (Elements(alreadyProcessed) + {tid})|, true, 3
    {
      hide Universe, Walk, Along, Explore, AlongChild;
      for j := 0 to |r.registered|
        invariant currentPath == old(currentPath) && alreadyProcessed == old(alreadyProcessed)
        invariant output == old(output) + AlongChildren(r, tid, Walk(r, tid), j)
      {
        GatherChild(r, tid, r.registered[j]);
      }
    }

    method GatherAggregate(r: Registry, tid: TypeId, tmp: (TypeId, TypeId))
      requires tmp in aggregates
      modifies this`output, this`currentPath, this`alreadyProcessed
      ensures currentPath == old(currentPath) && alreadyProcessed == old(alreadyProcessed)
      ensures output == old(output) + AlongAggregate(r, tid, tmp, Walk(r, tid))
      decreases |Universe(r, aggregates) - (Elements(alreadyProcessed) + {tid})|, true, 2
    {
      if tmp.0 == tid || tmp.1 == tid {
        var other := tid;
        if tmp.0 == tid {
          other := tmp.1;
        }
        if tmp.1 == tid {
          other := tmp.0;
        }
        Descend(r, tid, "$" + r.NameOf(other), other);
      }
    }

    method GatherAggregates(r: Registry, tid: TypeId)
      modifies this`output, this`currentPath, this`alreadyProcessed
      ensures currentPath == old(currentPath) && alreadyProcessed == old(alreadyProcessed)
      ensures output == old(output) + AlongAggregates(r, aggregates, tid, Walk(r, tid), |aggregates|)
      decreases |Universe(r, aggregates) - (Elements(alreadyProcessed) + {tid})|, true, 3
    {
      hide Universe, Walk, Along, Explore, AlongAggregate;
      for k := 0 to |aggregates|
        invariant currentPath == old(currentPath) && alreadyProcessed == old(alreadyProcessed)
        invariant output == old(output) + AlongAggregates(r, aggregates, tid, Walk(r, tid), k)
      {
        GatherAggregate(r, tid, aggregates[k]);
      }
    }

    /** De-duplication works on a copy of the output and so has no effect. */
    method Gather(r: Registry, tid: TypeId)
      modifies this`output, this`currentPath, this`alreadyProcessed
      ensures currentPath == old(currentPath) && alreadyProcessed == old(alreadyProcessed)
      ensures output == old(output) + Explore(r, aggregates, tid, currentPath, Elements(alreadyProcessed))
    {
      DoGather(r, tid);
    }
  }

  ghost function PathsOf(output: seq<(TypeId, string)>, tid: TypeId): seq<string> {
    if output == [] then [] else
      var last := output[|output| - 1];
      PathsOf(output[..|output| - 1], tid) + if last.0 == tid then [last.1] else []
  }

  // ---------- the walk is the preorder enumeration of the simple paths ----------

  /** A trail picks one of the edges at each type it comes to; it enters no type twice and none in `processed`. */
  ghost predicate SimpleTrail(r: Registry, aggregates: Aggregates, tid: TypeId, processed: set<TypeId>, t: seq<nat>)
    decreases |t|
  {
    && tid !in processed
    && (t == [] ||
        (t[0] < |Edges(r, aggregates, tid)| &&
         SimpleTrail(r, aggregates, Edges(r, aggregates, tid)[t[0]].target, processed + {tid}, t[1..])))
  }

  /** The types a trail enters. */
  ghost function Entered(r: Registry, aggregates: Aggregates, tid: TypeId, t: seq<nat>): seq<TypeId>
    decreases |t|
  {
    if t == [] || t[0] >= |Edges(r, aggregates, tid)| then [tid] else
      [tid] + Entered(r, aggregates, Edges(r, aggregates, tid)[t[0]].target, t[1..])
  }

  /** What is recorded at the end of a trail: the type reached, and the steps taken, joined. */
  ghost function Recorded(r: Registry, aggregates: Aggregates, tid: TypeId, path: seq<string>, t: seq<nat>)
    : (TypeId, string)
    decreases |t|
  {
    if t == [] || t[0] >= |Edges(r, aggregates, tid)| then (tid, PathString(path)) else
      var e := Edges(r, aggregates, tid)[t[0]];
      Recorded(r, aggregates, e.target, path + [e.step], t[1..])
  }

  /** Preorder: a trail comes before its extensions, and otherwise the first different choice decides. */
  ghost predicate Before(a: seq<nat>, b: seq<nat>) {
    b != [] && (a == [] || a[0] < b[0] || (a[0] == b[0] && Before(a[1..], b[1..])))
  }

  ghost predicate InPreorder(ts: seq<seq<nat>>) {
    forall i, j :: 0 <= i < j < |ts| ==> Before(ts[i], ts[j])
  }

  /** ts lists exactly the simple trails, in preorder, and `out` what each of them records. */
  ghost predicate Enumerates(r: Registry, aggregates: Aggregates, tid: TypeId, path: seq<string>,
                             processed: set<TypeId>, ts: seq<seq<nat>>, out: seq<(TypeId, string)>)
  {
    && |ts| == |out| && InPreorder(ts)
    && (forall t :: t in ts <==> SimpleTrail(r, aggregates, tid, processed, t))
    && (forall k :: 0 <= k < |ts| ==> out[k] == Recorded(r, aggregates, tid, path, ts[k]))
  }

  /** The same for the trails that start with one of the first n edges. */
  ghost predicate EnumeratesFirst(r: Registry, aggregates: Aggregates, tid: TypeId, path: seq<string>,
                                  processed: set<TypeId>, n: nat, ts: seq<seq<nat>>, out: seq<(TypeId, string)>)
  {
    && |ts| == |out| && InPreorder(ts)
    && (forall t :: t in ts <==> t != [] && t[0] < n && SimpleTrail(r, aggregates, tid, processed, t))
    && (forall k :: 0 <= k < |ts| ==> out[k] == Recorded(r, aggregates, tid, path, ts[k]))
  }

  ghost function Prefixed(n: nat, ts: seq<seq<nat>>): seq<seq<nat>> {
    seq(|ts|, i requires 0 <= i < |ts| => [n] + ts[i])
  }

  lemma PrefixedMembers(n: nat, ts: seq<seq<nat>>, t: seq<nat>)
    ensures t in Prefixed(n, ts) <==> t != [] && t[0] == n && t[1..] in ts
  {
    if t in Prefixed(n, ts) {
      var i :| 0 <= i < |ts| && Prefixed(n, ts)[i] == t;
      assert t[1..] == ts[i];
    }
    if t != [] && t[0] == n && t[1..] in ts {
      var i :| 0 <= i < |ts| && ts[i] == t[1..];
      assert Prefixed(n, ts)[i] == t;
    }
  }

  lemma PreorderJoin(n: nat, a: seq<seq<nat>>, b: seq<seq<nat>>)
    requires InPreorder(a) && InPreorder(b) && forall t :: t in a ==> t != [] && t[0] < n
    ensures InPreorder(a + Prefixed(n, b))
  {
    var ts := a + Prefixed(n, b);
    forall i, j | 0 <= i < j < |ts|
      ensures Before(ts[i], ts[j])
    {
      if i >= |a| {
        assert ts[i][1..] == b[i - |a|] && ts[j][1..] == b[j - |a|];
      } else if j >= |a| {
        assert ts[i] in a;
      }
    }
  }

  lemma {:induction false} FirstEdges(r: Registry, aggregates: Aggregates, tid: TypeId, path: seq<string>,
                                      processed: set<TypeId>, n: nat) returns (ts: seq<seq<nat>>)
    requires tid !in processed && n <= |Edges(r, aggregates, tid)|
    ensures EnumeratesFirst(r, aggregates, tid, path, processed, n, ts,
                            Below(Along(r, aggregates, path, processed + {tid}), Edges(r, aggregates, tid)[..n]))
    decreases |Universe(r, aggregates) - (processed + {tid})|, true, n
  {
    hide Universe, Edges, Explore, SimpleTrail, Recorded;
    var es, walk := Edges(r, aggregates, tid), Along(r, aggregates, path, processed + {tid});
    if n == 0 {
      ts := [];
    } else {
      EdgeTargets(r, aggregates, tid);
      var e := es[n - 1];
      assert e in es;
      var a := FirstEdges(r, aggregates, tid, path, processed, n - 1);
      var b := PreorderOfWalk(r, aggregates, e.target, path + [e.step], processed + {tid});
      ts := a + Prefixed(n - 1, b);
      assert es[..n][..n - 1] == es[..n - 1];
      JoinEdges(r, aggregates, tid, path, processed, n - 1, a, Below(walk, es[..n - 1]), b, walk(e));
    }
  }

  lemma JoinEdges(r: Registry, aggregates: Aggregates, tid: TypeId, path: seq<string>, processed: set<TypeId>, n: nat,
                  a: seq<seq<nat>>, outA: seq<(TypeId, string)>, b: seq<seq<nat>>, outB: seq<(TypeId, string)>)
    requires tid !in processed && n < |Edges(r, aggregates, tid)|
    requires EnumeratesFirst(r, aggregates, tid, path, processed, n, a, outA)
    requires var e := Edges(r, aggregates, tid)[n];
             Enumerates(r, aggregates, e.target, path + [e.step], processed + {tid}, b, outB)
    ensures EnumeratesFirst(r, aggregates, tid, path, processed, n + 1, a + Prefixed(n, b), outA + outB)
  {
    hide Edges, PathString, Before;
    var ts := a + Prefixed(n, b);
    PreorderJoin(n, a, b);
    forall t
      ensures t in ts <==> t != [] && t[0] < n + 1 && SimpleTrail(r, aggregates, tid, processed, t)
    {
      PrefixedMembers(n, b, t);
    }
    forall k | 0 <= k < |ts|
      ensures (outA + outB)[k] == Recorded(r, aggregates, tid, path, ts[k])
    {
      if k >= |a| {
        assert ts[k][1..] == b[k - |a|];
      }
    }
  }

  /** The gathering appends one entry for every simple trail, in preorder, and nothing else. */
  lemma {:induction false} PreorderOfWalk(r: Registry, aggregates: Aggregates, tid: TypeId, path: seq<string>,
                                          processed: set<TypeId>) returns (ts: seq<seq<nat>>)
    ensures Enumerates(r, aggregates, tid, path, processed, ts, Explore(r, aggregates, tid, path, processed))
    decreases |Universe(r, aggregates) - processed|, tid !in Universe(r, aggregates), |Edges(r, aggregates, tid)| + 1
  {
    if tid in processed {
      ts := [];
    } else {
      Shrinks(Universe(r, aggregates), processed, tid);
      var es := Edges(r, aggregates, tid);
      var below := FirstEdges(r, aggregates, tid, path, processed, |es|);
      assert es[..|es|] == es;
      ts := [[]] + below;
      ExploreIsBelow(r, aggregates, tid, path, processed);
      RootFirst(r, aggregates, tid, path, processed, below,
                Below(Along(r, aggregates, path, processed + {tid}), es));
    }
  }

  lemma RootFirst(r: Registry, aggregates: Aggregates, tid: TypeId, path: seq<string>, processed: set<TypeId>,
                  below: seq<seq<nat>>, out: seq<(TypeId, string)>)
    requires tid !in processed
    requires EnumeratesFirst(r, aggregates, tid, path, processed, |Edges(r, aggregates, tid)|, below, out)
    ensures Enumerates(r, aggregates, tid, path, processed, [[]] + below, [(tid, PathString(path))] + out)
  {
    hide Edges, PathString;
    var ts := [[]] + below;
    forall i, j | 0 <= i < j < |ts|
      ensures Before(ts[i], ts[j])
    {
      assert ts[j] in below;
    }
    forall t
      ensures t in ts <==> SimpleTrail(r, aggregates, tid, processed, t)
    {
      assert t in ts <==> t == [] || t in below;
    }
  }

  /** In plain terms: every choice is among the edges there, and the types entered are all different, none excluded. */
  lemma {:induction false} SimpleTrailMeaning(r: Registry, aggregates: Aggregates, tid: TypeId, path: seq<string>,
                                              processed: set<TypeId>, t: seq<nat>)
    ensures SimpleTrail(r, aggregates, tid, processed, t) <==>
              && |Entered(r, aggregates, tid, t)| == |t| + 1
              && Distinct(Entered(r, aggregates, tid, t))
              && (forall x :: x in Entered(r, aggregates, tid, t) ==> x !in processed)
    ensures 1 <= |Entered(r, aggregates, tid, t)| <= |t| + 1
    ensures Recorded(r, aggregates, tid, path, t).0
            == Entered(r, aggregates, tid, t)[|Entered(r, aggregates, tid, t)| - 1]
    decreases |t|
  {
    if t != [] && t[0] < |Edges(r, aggregates, tid)| {
      var e := Edges(r, aggregates, tid)[t[0]];
      var rest := Entered(r, aggregates, e.target, t[1..]);
      SimpleTrailMeaning(r, aggregates, e.target, path + [e.step], processed + {tid}, t[1..]);
      DistinctFrom(tid, rest, processed);
    }
  }

  lemma DistinctFrom(x: TypeId, rest: seq<TypeId>, processed: set<TypeId>)
    ensures (Distinct([x] + rest) && forall y :: y in [x] + rest ==> y !in processed) <==>
            (x !in processed && Distinct(rest) && forall y :: y in rest ==> y !in processed + {x})
  {
    var s := [x] + rest;
    assert s[0] == x && forall i :: 0 <= i < |rest| ==> s[i + 1] == rest[i];
    assert forall y :: y in s <==> y == x || y in rest;
    if Distinct(s) {
      forall i, j | 0 <= i < j < |rest| ensures rest[i] != rest[j] { assert s[i + 1] != s[j + 1]; }
      forall y | y in rest
        ensures y != x
      {
        var i :| 0 <= i < |rest| && rest[i] == y;
        assert s[0] != s[i + 1];
      }
    }
    if x !in rest && Distinct(rest) {
      forall i, j | 0 <= i < j < |s| ensures s[i] != s[j] { assert s[j] == rest[j - 1] && s[j] in rest; }
    }
  }

  lemma {:induction false} PathsOfMembers(output: seq<(TypeId, string)>, tid: TypeId, p: string)
    ensures p in PathsOf(output, tid) <==> (tid, p) in output
  {
    if output != [] {
      var n := |output| - 1;
      PathsOfMembers(output[..n], tid, p);
      assert output == output[..n] + [output[n]];
    }
  }

  ghost predicate LeadsTo(r: Registry, aggregates: Aggregates, root: TypeId, t: seq<nat>, tid: TypeId, p: string) {
    SimpleTrail(r, aggregates, root, {}, t) && Recorded(r, aggregates, root, [], t) == (tid, p)
  }

  /** Asked for a type after one gathering from `root`, `Get` knows the path string of every simple trail to it. */
  lemma GetFindsEveryPath(r: Registry, aggregates: Aggregates, root: TypeId, tid: TypeId, p: string)
    ensures p in PathsOf(Explore(r, aggregates, root, [], {}), tid) <==>
            exists t :: LeadsTo(r, aggregates, root, t, tid, p)
  {
    hide Explore, SimpleTrail, Recorded, PathsOf, Universe, Edges;
    var out := Explore(r, aggregates, root, [], {});
    var ts := PreorderOfWalk(r, aggregates, root, [], {});
    PathsOfMembers(out, tid, p);
    if (tid, p) in out {
      var k :| 0 <= k < |out| && out[k] == (tid, p);
      assert ts[k] in ts && LeadsTo(r, aggregates, root, ts[k], tid, p);
    }
    if t :| LeadsTo(r, aggregates, root, t, tid, p) {
      assert t in ts;
      var k :| 0 <= k < |ts| && ts[k] == t;
    }
  }
}
