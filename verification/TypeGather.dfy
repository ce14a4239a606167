/**
The configuration-path gatherer of `print-introspected-doxygen.cc`: a depth-first
traversal of the (possibly cyclic) graph of registered types that records one
path per visit and never enters a type twice on the way down.
*/
module TypeGather {
  import opened SimpleWalks

  type TypeId = Node

  // The attributes of a type, as the tests on their checkers tell them apart.
  datatype Attribute =
    | Pointer(name: string, pointee: TypeId)
    | Container(name: string, item: TypeId)
    | Plain(name: string)

  datatype TypeSystem = TypeSystem(
    registered: seq<TypeId>,                 // in registration order
    names: map<TypeId, string>,
    attributes: map<TypeId, seq<Attribute>>,
    descends: set<(TypeId, TypeId)>,         // (child, ancestor)
    aggregates: seq<(TypeId, TypeId)>,
    objectType: TypeId)
  {
    // The attributes of a type lead to registered types.
    ghost predicate AttributesRegistered(t: TypeId)
      requires t in attributes
    {
      forall i :: 0 <= i < |attributes[t]| ==>
        match attributes[t][i]
        case Pointer(_, pointee) => pointee in registered
        case Container(_, item) => item in registered
        case Plain(_) => true
    }

    // Everything the traversal can meet is registered, named and has an attribute list.
    ghost predicate Complete() {
      && (forall t :: t in registered ==> t in names && t in attributes)
      && (forall t {:trigger AttributesRegistered(t)} :: t in registered ==> AttributesRegistered(t))
      && (forall i :: 0 <= i < |aggregates| ==> aggregates[i].0 in registered && aggregates[i].1 in registered)
    }
  }

  // ----- the edges out of a type, in the order of the three loops -----

  function AttributeEdge(ts: TypeSystem, a: Attribute): seq<Edge> {
    match a
    case Pointer(name, pointee) => if pointee == ts.objectType then [] else [Edge(name, pointee)]
    case Container(name, item) => [Edge(name + "/[i]", item)]
    case Plain(_) => []
  }

  function AttributeEdges(ts: TypeSystem, attrs: seq<Attribute>): seq<Edge> {
    if attrs == [] then []
    else AttributeEdges(ts, attrs[..|attrs| - 1]) + AttributeEdge(ts, attrs[|attrs| - 1])
  }

  function ChildEdge(ts: TypeSystem, t: TypeId, child: TypeId): seq<Edge>
    requires child in ts.names
  {
    if (child, t) in ts.descends then [Edge("$" + ts.names[child], child)] else []
  }

  function ChildEdges(ts: TypeSystem, t: TypeId, types: seq<TypeId>): seq<Edge>
    requires forall x :: x in types ==> x in ts.names
  {
    if types == [] then []
    else
      assert forall x :: x in types[..|types| - 1] ==> x in types;
      ChildEdges(ts, t, types[..|types| - 1]) + ChildEdge(ts, t, types[|types| - 1])
  }

  function AggregateEdge(ts: TypeSystem, t: TypeId, pair: (TypeId, TypeId)): seq<Edge>
    requires pair.0 in ts.names && pair.1 in ts.names
  {
    if pair.1 == t then [Edge("$" + ts.names[pair.0], pair.0)]
    else if pair.0 == t then [Edge("$" + ts.names[pair.1], pair.1)]
    else []
  }

  function AggregateEdges(ts: TypeSystem, t: TypeId, pairs: seq<(TypeId, TypeId)>): seq<Edge>
    requires forall i :: 0 <= i < |pairs| ==> pairs[i].0 in ts.names && pairs[i].1 in ts.names
  {
    if pairs == [] then []
    else AggregateEdges(ts, t, pairs[..|pairs| - 1]) + AggregateEdge(ts, t, pairs[|pairs| - 1])
  }

  function Edges(ts: TypeSystem, t: TypeId): seq<Edge>
    requires ts.Complete() && t in ts.registered
  {
    AttributeEdges(ts, ts.attributes[t]) + ChildEdges(ts, t, ts.registered) + AggregateEdges(ts, t, ts.aggregates)
  }

  // What the edges are, said without the loops: the program follows a pointer to anything
  // but the base object type, a container to its items, a type to each of its descendants,
  // and an aggregation in either direction.
  ghost predicate ByAttribute(ts: TypeSystem, t: TypeId, e: Edge)
    requires ts.Complete() && t in ts.registered
  {
    || (Pointer(e.step, e.target) in ts.attributes[t] && e.target != ts.objectType)
    || (exists name :: Container(name, e.target) in ts.attributes[t] && e.step == name + "/[i]")
  }

  ghost predicate ByDescent(ts: TypeSystem, t: TypeId, e: Edge)
    requires ts.Complete() && t in ts.registered
  {
    e.target in ts.registered && (e.target, t) in ts.descends && e.step == "$" + ts.names[e.target]
  }

  ghost predicate ByAggregation(ts: TypeSystem, t: TypeId, e: Edge)
    requires ts.Complete() && t in ts.registered
  {
    && ((t, e.target) in ts.aggregates || (e.target, t) in ts.aggregates)
    && e.target in ts.names && e.step == "$" + ts.names[e.target]
  }

  ghost predicate Related(ts: TypeSystem, t: TypeId, e: Edge)
    requires ts.Complete() && t in ts.registered
  {
    ByAttribute(ts, t, e) || ByDescent(ts, t, e) || ByAggregation(ts, t, e)
  }

  // The edges of attributes one after the other are those of each, one after the other; and
  // the same for types and aggregations.
  lemma {:induction false} AttributeEdgesInOrder(ts: TypeSystem, p: seq<Attribute>, q: seq<Attribute>)
    ensures AttributeEdges(ts, p + q) == AttributeEdges(ts, p) + AttributeEdges(ts, q)
  {
    if q == [] {
      assert p + q == p;
    } else {
      var n, all := |q| - 1, p + q;
      assert all[..|all| - 1] == p + q[..n] && all[|all| - 1] == q[n];
      AttributeEdgesInOrder(ts, p, q[..n]);
    }
  }

  ghost predicate Named(ts: TypeSystem, types: seq<TypeId>) {
    forall x :: x in types ==> x in ts.names
  }

  lemma {:induction false} ChildEdgesInOrder(ts: TypeSystem, t: TypeId, p: seq<TypeId>, q: seq<TypeId>)
    requires Named(ts, p) && Named(ts, q) && Named(ts, p + q)
    ensures ChildEdges(ts, t, p + q) == ChildEdges(ts, t, p) + ChildEdges(ts, t, q)
  {
    if q == [] {
      assert p + q == p;
    } else {
      var n := |q| - 1;
      assert (p + q)[..|p + q| - 1] == p + q[..n];
      assert Named(ts, q[..n]) && Named(ts, p + q[..n]);
      ChildEdgesInOrder(ts, t, p, q[..n]);
    }
  }

  ghost predicate PairsNamed(ts: TypeSystem, pairs: seq<(TypeId, TypeId)>) {
    forall i :: 0 <= i < |pairs| ==> pairs[i].0 in ts.names && pairs[i].1 in ts.names
  }

  lemma {:induction false} AggregateEdgesInOrder(ts: TypeSystem, t: TypeId, p: seq<(TypeId, TypeId)>, q: seq<(TypeId, TypeId)>)
    requires PairsNamed(ts, p) && PairsNamed(ts, q) && PairsNamed(ts, p + q)
    ensures AggregateEdges(ts, t, p + q) == AggregateEdges(ts, t, p) + AggregateEdges(ts, t, q)
  {
    if q == [] {
      assert p + q == p;
    } else {
      var n := |q| - 1;
      assert (p + q)[..|p + q| - 1] == p + q[..n];
      assert PairsNamed(ts, q[..n]) && PairsNamed(ts, p + q[..n]);
      AggregateEdgesInOrder(ts, t, p, q[..n]);
    }
  }

  // Each of them gives at most one edge.
  lemma {:induction false} EdgesAreFew(ts: TypeSystem, t: TypeId, a: Attribute, x: TypeId, pair: (TypeId, TypeId))
    requires Named(ts, [x]) && PairsNamed(ts, [pair])
    ensures |AttributeEdges(ts, [a])| <= 1 && |ChildEdges(ts, t, [x])| <= 1 && |AggregateEdges(ts, t, [pair])| <= 1
  {
    assert [a][..0] == [] && [x][..0] == [] && [pair][..0] == [];
  }

  lemma {:induction false} AttributeEdgesMeaning(ts: TypeSystem, attrs: seq<Attribute>, e: Edge)
    ensures e in AttributeEdges(ts, attrs) <==>
            || (Pointer(e.step, e.target) in attrs && e.target != ts.objectType)
            || (exists name :: Container(name, e.target) in attrs && e.step == name + "/[i]")
  {
    if attrs != [] {
      var k := |attrs| - 1;
      AttributeEdgesMeaning(ts, attrs[..k], e);
      assert attrs == attrs[..k] + [attrs[k]];
      assert forall a :: a in attrs <==> a in attrs[..k] || a == attrs[k];
    }
  }

  lemma {:induction false} ChildEdgesMeaning(ts: TypeSystem, t: TypeId, types: seq<TypeId>, e: Edge)
    requires forall x :: x in types ==> x in ts.names
    ensures e in ChildEdges(ts, t, types) <==>
            e.target in types && (e.target, t) in ts.descends && e.step == "$" + ts.names[e.target]
  {
    if types != [] {
      var k := |types| - 1;
      assert forall x :: x in types <==> x in types[..k] || x == types[k];
      ChildEdgesMeaning(ts, t, types[..k], e);
    }
  }

  lemma {:induction false} AggregateEdgesMeaning(ts: TypeSystem, t: TypeId, pairs: seq<(TypeId, TypeId)>, e: Edge)
    requires forall i :: 0 <= i < |pairs| ==> pairs[i].0 in ts.names && pairs[i].1 in ts.names
    ensures e in AggregateEdges(ts, t, pairs) <==>
            ((t, e.target) in pairs || (e.target, t) in pairs)
            && e.target in ts.names && e.step == "$" + ts.names[e.target]
  {
    if pairs != [] {
      var k := |pairs| - 1;
      assert forall p :: p in pairs <==> p in pairs[..k] || p == pairs[k];
      AggregateEdgesMeaning(ts, t, pairs[..k], e);
    }
  }

  lemma {:induction false} EdgesMeaning(ts: TypeSystem, t: TypeId, e: Edge)
    requires ts.Complete() && t in ts.registered
    ensures e in Edges(ts, t) <==> Related(ts, t, e)
    ensures e in Edges(ts, t) ==> e.target in ts.registered
  {
    assert ts.AttributesRegistered(t);
    AttributeEdgesMeaning(ts, ts.attributes[t], e);
    ChildEdgesMeaning(ts, t, ts.registered, e);
    AggregateEdgesMeaning(ts, t, ts.aggregates, e);
    if Pointer(e.step, e.target) in ts.attributes[t] {
      var i :| 0 <= i < |ts.attributes[t]| && ts.attributes[t][i] == Pointer(e.step, e.target);
    }
    if name :| Container(name, e.target) in ts.attributes[t] {
      var i :| 0 <= i < |ts.attributes[t]| && ts.attributes[t][i] == Container(name, e.target);
    }
  }

  // A type's attributes are followed first, then its descendants, then its aggregations.
  lemma {:induction false} EdgesInOrder(ts: TypeSystem, t: TypeId)
    requires ts.Complete() && t in ts.registered
    ensures exists a, c :: 0 <= a <= c <= |Edges(ts, t)| && InThreeParts(ts, t, Edges(ts, t), a, c)
  {
    var attributes, children := AttributeEdges(ts, ts.attributes[t]), ChildEdges(ts, t, ts.registered);
    var edges, a, c := Edges(ts, t), |attributes|, |attributes| + |children|;
    forall i | 0 <= i < |edges|
      ensures if i < a then ByAttribute(ts, t, edges[i]) else if i < c then ByDescent(ts, t, edges[i]) else ByAggregation(ts, t, edges[i])
    {
      var e := edges[i];
      AttributeEdgesMeaning(ts, ts.attributes[t], e);
      ChildEdgesMeaning(ts, t, ts.registered, e);
      AggregateEdgesMeaning(ts, t, ts.aggregates, e);
      assert i < a ==> e == attributes[i];
      assert a <= i < c ==> e == children[i - a];
      assert c <= i ==> e == AggregateEdges(ts, t, ts.aggregates)[i - c];
    }
    assert InThreeParts(ts, t, edges, a, c);
  }

  ghost predicate InThreeParts(ts: TypeSystem, t: TypeId, edges: seq<Edge>, a: int, c: int)
    requires ts.Complete() && t in ts.registered
  {
    forall i :: 0 <= i < |edges| ==>
      if i < a then ByAttribute(ts, t, edges[i]) else if i < c then ByDescent(ts, t, edges[i]) else ByAggregation(ts, t, edges[i])
  }

  ghost predicate HasItsEdges(g: Graph, ts: TypeSystem, t: TypeId)
    requires ts.Complete() && t in ts.registered && t in g
  {
    g[t] == Edges(ts, t)
  }

  // The type graph: the registered types with these edges.
  ghost predicate IsTypeGraph(g: Graph, ts: TypeSystem) {
    && ts.Complete()
    && (forall t :: t in g <==> t in ts.registered)
    && (forall t {:trigger HasItsEdges(g, ts, t)} :: t in g ==> HasItsEdges(g, ts, t))
  }

  lemma {:induction false} TypeGraphExists(ts: TypeSystem) returns (g: Graph)
    requires ts.Complete()
    ensures IsTypeGraph(g, ts) && Closed(g)
  {
    g := map t | t in ts.registered :: Edges(ts, t);
    forall t, i | t in g && 0 <= i < |g[t]| ensures g[t][i].target in g {
      EdgesMeaning(ts, t, g[t][i]);
    }
  }

  lemma {:induction false} AttributePrefix(ts: TypeSystem, attrs: seq<Attribute>, k: nat)
    requires k < |attrs|
    ensures AttributeEdges(ts, attrs[..k + 1]) == AttributeEdges(ts, attrs[..k]) + AttributeEdge(ts, attrs[k])
    ensures AttributeEdges(ts, attrs[..k + 1]) <= AttributeEdges(ts, attrs)
    decreases |attrs| - k
  {
    assert attrs[..k + 1][..k] == attrs[..k];
    if k + 1 == |attrs| {
      assert attrs[..k + 1] == attrs;
    } else {
      AttributePrefix(ts, attrs, k + 1);
    }
  }

  lemma {:induction false} ChildPrefix(ts: TypeSystem, t: TypeId, types: seq<TypeId>, k: nat)
    requires k < |types| && forall x :: x in types ==> x in ts.names
    ensures ChildEdges(ts, t, types[..k + 1]) == ChildEdges(ts, t, types[..k]) + ChildEdge(ts, t, types[k])
    ensures ChildEdges(ts, t, types[..k + 1]) <= ChildEdges(ts, t, types)
    decreases |types| - k
  {
    assert types[..k + 1][..k] == types[..k];
    if k + 1 == |types| {
      assert types[..k + 1] == types;
    } else {
      ChildPrefix(ts, t, types, k + 1);
    }
  }

  lemma {:induction false} AggregatePrefix(ts: TypeSystem, t: TypeId, pairs: seq<(TypeId, TypeId)>, k: nat)
    requires k < |pairs|
    requires forall i :: 0 <= i < |pairs| ==> pairs[i].0 in ts.names && pairs[i].1 in ts.names
    ensures AggregateEdges(ts, t, pairs[..k + 1]) == AggregateEdges(ts, t, pairs[..k]) + AggregateEdge(ts, t, pairs[k])
    ensures AggregateEdges(ts, t, pairs[..k + 1]) <= AggregateEdges(ts, t, pairs)
    decreases |pairs| - k
  {
    assert pairs[..k + 1][..k] == pairs[..k];
    if k + 1 == |pairs| {
      assert pairs[..k + 1] == pairs;
    } else {
      AggregatePrefix(ts, t, pairs, k + 1);
    }
  }

  // ----- where the edge of each loop element stands -----

  // `spots` gives, for each element of a loop and its end, how many edges come before.
  ghost predicate Spots(g: Graph, t: TypeId, spots: seq<nat>, elements: nat)
    requires t in g
  {
    |spots| == elements + 1 && spots[0] <= spots[elements] <= |g[t]|
  }

  // Edge number `k` is `e`, and the next element comes right after it.
  ghost predicate EdgeAt(g: Graph, t: TypeId, k: nat, next: nat, e: Edge)
    requires t in g
  {
    next == k + 1 <= |g[t]| && g[t][k] == e
  }

  ghost predicate AttributeSpot(g: Graph, ts: TypeSystem, t: TypeId, a: Attribute, k: nat, next: nat)
    requires t in g
  {
    match a
    case Pointer(name, pointee) =>
      if pointee == ts.objectType then next == k else EdgeAt(g, t, k, next, Edge(name, pointee))
    case Container(name, item) => EdgeAt(g, t, k, next, Edge(name + "/[i]", item))
    case Plain(_) => next == k
  }

  ghost predicate AttributeSpots(g: Graph, ts: TypeSystem, t: TypeId, spots: seq<nat>)
    requires t in g && t in ts.attributes
  {
    && Spots(g, t, spots, |ts.attributes[t]|)
    && forall i {:trigger ts.attributes[t][i]} :: 0 <= i < |ts.attributes[t]| ==>
         AttributeSpot(g, ts, t, ts.attributes[t][i], spots[i], spots[i + 1])
  }

  ghost predicate ChildSpot(g: Graph, ts: TypeSystem, t: TypeId, child: TypeId, k: nat, next: nat)
    requires t in g && child in ts.names
  {
    if (child, t) in ts.descends then EdgeAt(g, t, k, next, Edge("$" + ts.names[child], child))
    else next == k
  }

  ghost predicate ChildSpots(g: Graph, ts: TypeSystem, t: TypeId, spots: seq<nat>)
    requires t in g && ts.Complete()
  {
    && Spots(g, t, spots, |ts.registered|)
    && forall j {:trigger ts.registered[j]} :: 0 <= j < |ts.registered| ==>
         ChildSpot(g, ts, t, ts.registered[j], spots[j], spots[j + 1])
  }

  ghost predicate AggregateSpot(g: Graph, ts: TypeSystem, t: TypeId, pair: (TypeId, TypeId), k: nat, next: nat)
    requires t in g && pair.0 in ts.names && pair.1 in ts.names
  {
    if pair.1 == t then EdgeAt(g, t, k, next, Edge("$" + ts.names[pair.0], pair.0))
    else if pair.0 == t then EdgeAt(g, t, k, next, Edge("$" + ts.names[pair.1], pair.1))
    else next == k
  }

  ghost predicate AggregateSpots(g: Graph, ts: TypeSystem, t: TypeId, spots: seq<nat>)
    requires t in g && ts.Complete()
  {
    && Spots(g, t, spots, |ts.aggregates|)
    && forall j {:trigger ts.aggregates[j]} :: 0 <= j < |ts.aggregates| ==>
         AggregateSpot(g, ts, t, ts.aggregates[j], spots[j], spots[j + 1])
  }

  lemma {:induction false} AttributeSpotHolds(g: Graph, ts: TypeSystem, t: TypeId, i: nat)
    requires IsTypeGraph(g, ts) && t in g && i < |ts.attributes[t]|
    ensures AttributeSpot(g, ts, t, ts.attributes[t][i],
                          |AttributeEdges(ts, ts.attributes[t][..i])|, |AttributeEdges(ts, ts.attributes[t][..i + 1])|)
  {
    AttributePrefix(ts, ts.attributes[t], i);
    assert HasItsEdges(g, ts, t);
    assert AttributeEdges(ts, ts.attributes[t][..i + 1]) <= g[t];
  }

  lemma {:induction false} ChildSpotHolds(g: Graph, ts: TypeSystem, t: TypeId, j: nat)
    requires IsTypeGraph(g, ts) && t in g && j < |ts.registered|
    ensures var base := |AttributeEdges(ts, ts.attributes[t])|;
            ChildSpot(g, ts, t, ts.registered[j],
                      base + |ChildEdges(ts, t, ts.registered[..j])|, base + |ChildEdges(ts, t, ts.registered[..j + 1])|)
  {
    ChildPrefix(ts, t, ts.registered, j);
    assert HasItsEdges(g, ts, t);
    assert AttributeEdges(ts, ts.attributes[t]) + ChildEdges(ts, t, ts.registered[..j + 1]) <= g[t];
  }

  lemma {:induction false} AggregateSpotHolds(g: Graph, ts: TypeSystem, t: TypeId, j: nat)
    requires IsTypeGraph(g, ts) && t in g && j < |ts.aggregates|
    ensures var base := |AttributeEdges(ts, ts.attributes[t])| + |ChildEdges(ts, t, ts.registered)|;
            AggregateSpot(g, ts, t, ts.aggregates[j],
                          base + |AggregateEdges(ts, t, ts.aggregates[..j])|,
                          base + |AggregateEdges(ts, t, ts.aggregates[..j + 1])|)
  {
    AggregatePrefix(ts, t, ts.aggregates, j);
    assert HasItsEdges(g, ts, t);
    assert AttributeEdges(ts, ts.attributes[t]) + ChildEdges(ts, t, ts.registered)
           + AggregateEdges(ts, t, ts.aggregates[..j + 1]) <= g[t];
  }

  lemma {:induction false} FindAttributeSpots(g: Graph, ts: TypeSystem, t: TypeId) returns (spots: seq<nat>)
    requires IsTypeGraph(g, ts) && t in g
    ensures AttributeSpots(g, ts, t, spots)
    ensures spots[0] == 0 && spots[|spots| - 1] == |AttributeEdges(ts, ts.attributes[t])|
  {
    var attrs := ts.attributes[t];
    spots := seq(|attrs| + 1, i requires 0 <= i <= |attrs| => |AttributeEdges(ts, attrs[..i])|);
    assert attrs[..|attrs|] == attrs;
    assert HasItsEdges(g, ts, t);
    forall i | 0 <= i < |attrs| ensures AttributeSpot(g, ts, t, attrs[i], spots[i], spots[i + 1]) {
      AttributeSpotHolds(g, ts, t, i);
    }
  }

  lemma {:induction false} FindChildSpots(g: Graph, ts: TypeSystem, t: TypeId) returns (spots: seq<nat>)
    requires IsTypeGraph(g, ts) && t in g
    ensures ChildSpots(g, ts, t, spots)
    ensures spots[0] == |AttributeEdges(ts, ts.attributes[t])|
    ensures spots[|spots| - 1] == spots[0] + |ChildEdges(ts, t, ts.registered)|
  {
    var types, base := ts.registered, |AttributeEdges(ts, ts.attributes[t])|;
    spots := seq(|types| + 1, j requires 0 <= j <= |types| => base + |ChildEdges(ts, t, types[..j])|);
    assert types[..0] == [] && types[..|types|] == types;
    assert HasItsEdges(g, ts, t);
    assert |g[t]| >= base + |ChildEdges(ts, t, types)|;
    forall j | 0 <= j < |types| ensures ChildSpot(g, ts, t, types[j], spots[j], spots[j + 1]) {
      ChildSpotHolds(g, ts, t, j);
    }
  }

  lemma {:induction false} FindAggregateSpots(g: Graph, ts: TypeSystem, t: TypeId) returns (spots: seq<nat>)
    requires IsTypeGraph(g, ts) && t in g
    ensures AggregateSpots(g, ts, t, spots)
    ensures spots[0] == |AttributeEdges(ts, ts.attributes[t])| + |ChildEdges(ts, t, ts.registered)|
    ensures spots[|spots| - 1] == |g[t]|
  {
    var pairs, base := ts.aggregates, |AttributeEdges(ts, ts.attributes[t])| + |ChildEdges(ts, t, ts.registered)|;
    spots := seq(|pairs| + 1, j requires 0 <= j <= |pairs| => base + |AggregateEdges(ts, t, pairs[..j])|);
    assert pairs[..|pairs|] == pairs;
    assert HasItsEdges(g, ts, t);
    forall j | 0 <= j < |pairs| ensures AggregateSpot(g, ts, t, pairs[j], spots[j], spots[j + 1]) {
      AggregateSpotHolds(g, ts, t, j);
    }
  }

  // The three loops between them go through all the edges of a type, in order.
  lemma {:induction false} FindSpots(g: Graph, ts: TypeSystem, t: TypeId)
    returns (a: seq<nat>, c: seq<nat>, m: seq<nat>)
    requires IsTypeGraph(g, ts) && t in g
    ensures AttributeSpots(g, ts, t, a) && ChildSpots(g, ts, t, c) && AggregateSpots(g, ts, t, m)
    ensures a[0] == 0 && a[|a| - 1] == c[0] && c[|c| - 1] == m[0] && m[|m| - 1] == |g[t]|
    ensures c[0] <= m[0] <= |g[t]|
  {
    a := FindAttributeSpots(g, ts, t);
    c := FindChildSpots(g, ts, t);
    m := FindAggregateSpots(g, ts, t);
  }

  function OnStack(stack: seq<TypeId>): set<TypeId> {
    set t | t in stack
  }

  // The recorded paths of one type, in order.
  function PathsOf(output: seq<Entry>, tid: TypeId): seq<string> {
    if output == [] then []
    else PathsOf(output[..|output| - 1], tid)
         + if output[|output| - 1].tid == tid then [output[|output| - 1].path] else []
  }

  lemma {:induction false} PathsOfMeaning(output: seq<Entry>, tid: TypeId)
    ensures PathsOf(output, tid) != [] <==> exists k :: 0 <= k < |output| && output[k].tid == tid
  {
    if output != [] {
      var n := |output| - 1;
      PathsOfMeaning(output[..n], tid);
      assert output == output[..n] + [output[n]];
    }
  }

  // The paths of two outputs one after the other are their paths one after the other, and one
  // entry has its path if it is for the type.
  lemma {:induction false} PathsOfInOrder(p: seq<Entry>, q: seq<Entry>, e: Entry, tid: TypeId)
    ensures PathsOf(p + q, tid) == PathsOf(p, tid) + PathsOf(q, tid)
    ensures PathsOf([e], tid) == if e.tid == tid then [e.path] else []
  {
    assert [e][..0] == [];
    if q == [] {
      assert p + q == p;
    } else {
      PathsOfInOrder(p, q[..|q| - 1], e, tid);
      assert (p + q)[..|p + q| - 1] == p + q[..|q| - 1];
    }
  }

  lemma PushPop<T>(stack: seq<T>, x: T)
    ensures (stack + [x])[..|stack + [x]| - 1] == stack
  {
  }

  class StaticInformation {
    const ts: TypeSystem  // the registry, and the aggregations recorded before gathering
    ghost const g: Graph  // its type graph
    var output: seq<Entry>
    var currentPath: seq<string>
    var alreadyProcessed: seq<TypeId>

    ghost predicate Ready()
    {
      IsTypeGraph(g, ts) && Closed(g)
    }

    constructor (ts: TypeSystem)
      requires ts.Complete()
      ensures this.ts == ts && Ready()
      ensures output == [] && currentPath == [] && alreadyProcessed == []
    {
      ghost var graph := TypeGraphExists(ts);
      this.ts, this.g := ts, graph;
      output, currentPath, alreadyProcessed := [], [], [];
    }

    method GetCurrentPath() returns (text: string)
      ensures text == PathText(currentPath)
    {
      text := "";
      for i := 0 to |currentPath|
        invariant text == PathText(currentPath[..i])
      {
        assert currentPath[..i + 1][..i] == currentPath[..i];
        text := text + "/" + currentPath[i];
      }
      assert currentPath[..|currentPath|] == currentPath;
    }

    method HasAlreadyBeenProcessed(tid: TypeId) returns (found: bool)
      ensures found <==> tid in OnStack(alreadyProcessed)
    {
      for i := 0 to |alreadyProcessed|
        invariant forall j :: 0 <= j < i ==> alreadyProcessed[j] != tid
      {
        if alreadyProcessed[i] == tid {
          return true;
        }
      }
      return false;
    }

    method RecordOutput(tid: TypeId)
      modifies this`output
      ensures output == old(output) + [Entry(tid, PathText(currentPath))]
    {
      var text := GetCurrentPath();
      output := output + [Entry(tid, text)];
    }

    // The push, recurse and pop that each of the three loops makes for its edge, number `k`,
    // when the edges from number `lo` on have been followed since the output was `start`.
    method Follow(tid: TypeId, step: string, target: TypeId, ghost lo: nat, ghost k: nat, ghost start: seq<Entry>)
      requires Ready() && tid in g && tid !in OnStack(alreadyProcessed)
      requires lo <= k < |g[tid]| && g[tid][k] == Edge(step, target)
      requires output == start + Followed(g, tid, currentPath, OnStack(alreadyProcessed), lo, k)
      modifies this
      ensures output == start + Followed(g, tid, currentPath, OnStack(alreadyProcessed), lo, k + 1)
      ensures currentPath == old(currentPath) && alreadyProcessed == old(alreadyProcessed)
      decreases |g.Keys - OnStack(alreadyProcessed)|, 0
    {
      ghost var path, avoid := currentPath, OnStack(alreadyProcessed);
      FewerToVisit(g, tid, avoid);
      FollowedNext(g, tid, path, avoid, lo, k, start);
      PushPop(currentPath, step);
      PushPop(alreadyProcessed, tid);
      currentPath := currentPath + [step];
      alreadyProcessed := alreadyProcessed + [tid];
      assert OnStack(alreadyProcessed) == avoid + {tid};
      DoGather(target);
      alreadyProcessed := alreadyProcessed[..|alreadyProcessed| - 1];
      currentPath := currentPath[..|currentPath| - 1];
    }

    // The loop over the attributes of `tid`.
    method GatherAttributes(tid: TypeId, ghost spots: seq<nat>, ghost start: seq<Entry>)
      requires Ready() && tid in g && tid !in OnStack(alreadyProcessed)
      requires AttributeSpots(g, ts, tid, spots) && output == start
      modifies this
      ensures output == start + Followed(g, tid, currentPath, OnStack(alreadyProcessed), spots[0], spots[|spots| - 1])
      ensures currentPath == old(currentPath) && alreadyProcessed == old(alreadyProcessed)
      decreases |g.Keys - OnStack(alreadyProcessed)|, 1
    {
      var attrs := ts.attributes[tid];
      ghost var path, stack, avoid := currentPath, alreadyProcessed, OnStack(alreadyProcessed);
      for i := 0 to |attrs|
        invariant currentPath == path && alreadyProcessed == stack
        invariant spots[0] <= spots[i] <= |g[tid]|
        invariant output == start + Followed(g, tid, path, avoid, spots[0], spots[i])
      {
        assert AttributeSpot(g, ts, tid, attrs[i], spots[i], spots[i + 1]);
        match attrs[i] {
          case Pointer(name, pointee) =>
            if ts.objectType == pointee {
              continue;
            }
            Follow(tid, name, pointee, spots[0], spots[i], start);
          case Container(name, item) =>
            Follow(tid, name + "/[i]", item, spots[0], spots[i], start);
          case Plain(_) =>
        }
      }
    }

    // The loop over the registered types.
    method GatherChildren(tid: TypeId, ghost spots: seq<nat>, ghost start: seq<Entry>)
      requires Ready() && tid in g && tid !in OnStack(alreadyProcessed)
      requires ChildSpots(g, ts, tid, spots) && output == start
      modifies this
      ensures output == start + Followed(g, tid, currentPath, OnStack(alreadyProcessed), spots[0], spots[|spots| - 1])
      ensures currentPath == old(currentPath) && alreadyProcessed == old(alreadyProcessed)
      decreases |g.Keys - OnStack(alreadyProcessed)|, 1
    {
      ghost var path, stack, avoid := currentPath, alreadyProcessed, OnStack(alreadyProcessed);
      for j := 0 to |ts.registered|
        invariant currentPath == path && alreadyProcessed == stack
        invariant spots[0] <= spots[j] <= |g[tid]|
        invariant output == start + Followed(g, tid, path, avoid, spots[0], spots[j])
      {
        var child := ts.registered[j];
        assert ChildSpot(g, ts, tid, child, spots[j], spots[j + 1]);
        if (child, tid) in ts.descends {
          Follow(tid, "$" + ts.names[child], child, spots[0], spots[j], start);
        }
      }
    }

    // The loop over the recorded aggregations.
    method GatherAggregates(tid: TypeId, ghost spots: seq<nat>, ghost start: seq<Entry>)
      requires Ready() && tid in g && tid !in OnStack(alreadyProcessed)
      requires AggregateSpots(g, ts, tid, spots) && output == start
      modifies this
      ensures output == start + Followed(g, tid, currentPath, OnStack(alreadyProcessed), spots[0], spots[|spots| - 1])
      ensures currentPath == old(currentPath) && alreadyProcessed == old(alreadyProcessed)
      decreases |g.Keys - OnStack(alreadyProcessed)|, 1
    {
      ghost var path, stack, avoid := currentPath, alreadyProcessed, OnStack(alreadyProcessed);
      for j := 0 to |ts.aggregates|
        invariant currentPath == path && alreadyProcessed == stack
        invariant spots[0] <= spots[j] <= |g[tid]|
        invariant output == start + Followed(g, tid, path, avoid, spots[0], spots[j])
      {
        var item := ts.aggregates[j];
        assert AggregateSpot(g, ts, tid, item, spots[j], spots[j + 1]);
        if item.0 == tid || item.1 == tid {
          var other := item.0;
          if item.0 == tid {
            other := item.1;
          }
          if item.1 == tid {
            other := item.0;
          }
          Follow(tid, "$" + ts.names[other], other, spots[0], spots[j], start);
        }
      }
    }

    // One visit: nothing for a type on the way down to here, otherwise its entry followed by
    // those of the traversals along its edges.  The output only grows, by one entry for each
    // simple walk, and both stacks come back as they were.
    method DoGather(tid: TypeId)
      requires Ready() && tid in g
      modifies this
      ensures output == old(output) + Gathered(g, tid, currentPath, OnStack(alreadyProcessed))
      ensures currentPath == old(currentPath) && alreadyProcessed == old(alreadyProcessed)
      decreases |g.Keys - OnStack(alreadyProcessed)|, 2
    {
      var seen := HasAlreadyBeenProcessed(tid);
      if seen {
        return;
      }
      ghost var a, c, m := FindSpots(g, ts, tid);
      RecordOutput(tid);
      GatherAttributes(tid, a, output);
      GatherChildren(tid, c, output);
      GatherAggregates(tid, m, output);
      GatheredInThree(g, tid, currentPath, OnStack(alreadyProcessed), c[0], m[0], old(output));
    }

    // Gathers from a root. The sort-and-unique pass that follows works on a copy of the
    // output, so that it leaves the output as it is.
    method Gather(tid: TypeId)
      requires Ready() && tid in g && alreadyProcessed == []
      modifies this
      ensures output == old(output) + Gathered(g, tid, currentPath, {})
      ensures currentPath == old(currentPath) && alreadyProcessed == []
      ensures forall x :: (exists k :: |old(output)| <= k < |output| && output[k].tid == x) <==> Reachable(g, tid, x)
    {
      assert OnStack(alreadyProcessed) == {};
      DoGather(tid);
      forall x
        ensures (exists k :: |old(output)| <= k < |output| && output[k].tid == x) <==> Reachable(g, tid, x)
      {
        GatheredIffReachable(g, tid, currentPath, x);
        var n, es := |old(output)|, Gathered(g, tid, currentPath, {});
        assert forall k :: 0 <= k < |es| ==> output[n + k] == es[k];
        assert forall k :: n <= k < |output| ==> output[k] == es[k - n];
      }
    }

    method Get(tid: TypeId) returns (paths: seq<string>)
      ensures paths == PathsOf(output, tid)
      ensures paths != [] <==> exists k :: 0 <= k < |output| && output[k].tid == tid
    {
      paths := [];
      for i := 0 to |output|
        invariant paths == PathsOf(output[..i], tid)
      {
        assert output[..i + 1][..i] == output[..i];
        if output[i].tid == tid {
          paths := paths + [output[i].path];
        }
      }
      assert output[..|output|] == output;
      PathsOfMeaning(output, tid);
    }
  }
}
