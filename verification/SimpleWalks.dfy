/**
Walks in a finite labelled graph, the depth-first enumeration of those that
repeat no node, and loop erasure: what a node reaches, it reaches by such a walk.
*/
module SimpleWalks {

  type Node = nat

  // An edge carries the path element it stands for and leads to its target.
  datatype Edge = Edge(step: string, target: Node)

  type Graph = map<Node, seq<Edge>>

  // Every edge leads to a node of the graph.
  ghost predicate Closed(g: Graph) {
    forall t :: t in g ==> forall i :: 0 <= i < |g[t]| ==> g[t][i].target in g
  }

  // A walk from a node is the list of the edges taken, each by its position among the
  // edges out of the node reached so far; parallel edges give different walks.
  type Walk = seq<nat>

  predicate IsWalk(g: Graph, t: Node, w: Walk)
    decreases w
  {
    t in g && (w == [] || (w[0] < |g[t]| && IsWalk(g, g[t][w[0]].target, w[1..])))
  }

  // The nodes along a walk, both ends included.
  function Visits(g: Graph, t: Node, w: Walk): (v: seq<Node>)
    requires IsWalk(g, t, w)
    ensures |v| == |w| + 1 && v[0] == t
    decreases w
  {
    if w == [] then [t] else [t] + Visits(g, g[t][w[0]].target, w[1..])
  }

  function End(g: Graph, t: Node, w: Walk): Node
    requires IsWalk(g, t, w)
  {
    Visits(g, t, w)[|w|]
  }

  // The path elements along a walk.
  function Steps(g: Graph, t: Node, w: Walk): seq<string>
    requires IsWalk(g, t, w)
    decreases w
  {
    if w == [] then [] else [g[t][w[0]].step] + Steps(g, g[t][w[0]].target, w[1..])
  }

  predicate NoRepeats(xs: seq<Node>) {
    forall i, j :: 0 <= i < j < |xs| ==> xs[i] != xs[j]
  }

  // A walk that repeats no node and avoids the given ones.
  ghost predicate IsSimpleWalk(g: Graph, t: Node, avoid: set<Node>, w: Walk) {
    && IsWalk(g, t, w)
    && NoRepeats(Visits(g, t, w))
    && forall i :: 0 <= i <= |w| ==> Visits(g, t, w)[i] !in avoid
  }

  // ----- the depth-first enumeration -----

  // The walks a depth-first traversal from `t` makes, in the order in which it makes them,
  // if it turns back at the nodes to avoid and at those on its way down.
  function Walks(g: Graph, t: Node, avoid: set<Node>): seq<Walk>
    requires Closed(g) && t in g
    decreases |g.Keys - avoid|, 0, 0
  {
    if t in avoid then [] else [[]] + WalksVia(g, t, avoid, |g[t]|)
  }

  // Those that start with one of the first `k` edges out of `t`.
  function WalksVia(g: Graph, t: Node, avoid: set<Node>, k: nat): seq<Walk>
    requires Closed(g) && t in g && t !in avoid && k <= |g[t]|
    decreases |g.Keys - avoid| - 1, 1, k
  {
    if k == 0 then []
    else
      FewerToVisit(g, t, avoid);
      WalksVia(g, t, avoid, k - 1) + Prepend(k - 1, Walks(g, g[t][k - 1].target, avoid + {t}))
  }

  function Prepend(i: nat, ws: seq<Walk>): (r: seq<Walk>)
    ensures |r| == |ws| && forall k :: 0 <= k < |ws| ==> r[k] == [i] + ws[k]
  {
    seq(|ws|, k requires 0 <= k < |ws| => [i] + ws[k])
  }

  lemma {:induction false} FewerToVisit(g: Graph, t: Node, avoid: set<Node>)
    requires t in g && t !in avoid
    ensures |g.Keys - (avoid + {t})| == |g.Keys - avoid| - 1
  {
    assert g.Keys - (avoid + {t}) == (g.Keys - avoid) - {t};
  }

  // ----- the walks made are exactly the simple walks, each once -----

  lemma {:induction false} SimpleWalkCons(g: Graph, t: Node, avoid: set<Node>, w: Walk)
    requires t in g && w != [] && w[0] < |g[t]|
    ensures IsSimpleWalk(g, t, avoid, w)
       <==> t !in avoid && IsSimpleWalk(g, g[t][w[0]].target, avoid + {t}, w[1..])
  {
    var next := g[t][w[0]].target;
    if IsWalk(g, next, w[1..]) {
      var v, v' := Visits(g, t, w), Visits(g, next, w[1..]);
      assert v == [t] + v';
      if IsSimpleWalk(g, t, avoid, w) {
        assert forall i :: 0 <= i < |v'| ==> v'[i] == v[i + 1] && v[i + 1] !in avoid && v[i + 1] != v[0];
      }
      if t !in avoid && IsSimpleWalk(g, next, avoid + {t}, w[1..]) {
        assert forall i :: 0 < i < |v| ==> v[i] == v'[i - 1] && v'[i - 1] !in avoid + {t};
      }
    }
  }

  lemma {:induction false} PrependMembers(i: nat, ws: seq<Walk>, w: Walk)
    ensures w in Prepend(i, ws) <==> w != [] && w[0] == i && w[1..] in ws
  {
    if w != [] && w[0] == i && w[1..] in ws {
      var k :| 0 <= k < |ws| && ws[k] == w[1..];
      assert Prepend(i, ws)[k] == w;
    }
  }

  lemma {:induction false} WalksViaMembers(g: Graph, t: Node, avoid: set<Node>, k: nat, w: Walk)
    requires Closed(g) && t in g && t !in avoid && k <= |g[t]|
    ensures w in WalksVia(g, t, avoid, k)
       <==> w != [] && w[0] < k && w[1..] in Walks(g, g[t][w[0]].target, avoid + {t})
    decreases k
  {
    if k > 0 {
      WalksViaMembers(g, t, avoid, k - 1, w);
      PrependMembers(k - 1, Walks(g, g[t][k - 1].target, avoid + {t}), w);
    }
  }

  lemma {:induction false} WalksAreSimpleWalks(g: Graph, t: Node, avoid: set<Node>, w: Walk)
    requires Closed(g) && t in g
    ensures w in Walks(g, t, avoid) <==> IsSimpleWalk(g, t, avoid, w)
    decreases |w|
  {
    if w == [] {
      assert Visits(g, t, w) == [t];
      if t !in avoid {
        assert Walks(g, t, avoid)[0] == [];
      }
    } else if t in avoid {
      assert IsWalk(g, t, w) ==> Visits(g, t, w)[0] in avoid;
    } else {
      WalksViaMembers(g, t, avoid, |g[t]|, w);
      if w[0] < |g[t]| {
        WalksAreSimpleWalks(g, g[t][w[0]].target, avoid + {t}, w[1..]);
        SimpleWalkCons(g, t, avoid, w);
      }
    }
  }

  ghost predicate AllDifferent(ws: seq<Walk>) {
    forall i, j :: 0 <= i < j < |ws| ==> ws[i] != ws[j]
  }

  lemma {:induction false} WalksViaDiffer(g: Graph, t: Node, avoid: set<Node>, k: nat)
    requires Closed(g) && t in g && t !in avoid && k <= |g[t]|
    ensures AllDifferent(WalksVia(g, t, avoid, k))
    decreases |g.Keys - avoid| - 1, 1, k
  {
    if k > 0 {
      FewerToVisit(g, t, avoid);
      WalksViaDiffer(g, t, avoid, k - 1);
      var target := g[t][k - 1].target;
      WalksDiffer(g, target, avoid + {t});
      var before, inner := WalksVia(g, t, avoid, k - 1), Walks(g, target, avoid + {t});
      var after := Prepend(k - 1, inner);
      forall i, j | 0 <= i < j < |after| ensures after[i] != after[j] {
        assert after[i][1..] == inner[i] && after[j][1..] == inner[j];
      }
      forall i | 0 <= i < |before| ensures before[i] != [] && before[i][0] < k - 1 {
        WalksViaMembers(g, t, avoid, k - 1, before[i]);
      }
    }
  }

  lemma {:induction false} WalksDiffer(g: Graph, t: Node, avoid: set<Node>)
    requires Closed(g) && t in g
    ensures AllDifferent(Walks(g, t, avoid))
    decreases |g.Keys - avoid|, 0, 0
  {
    if t !in avoid {
      WalksViaDiffer(g, t, avoid, |g[t]|);
      var via := WalksVia(g, t, avoid, |g[t]|);
      forall i | 0 <= i < |via| ensures via[i] != [] {
        WalksViaMembers(g, t, avoid, |g[t]|, via[i]);
      }
    }
  }

  // Depth first: a walk is made before those that go on from it, and before those that first
  // leave it by a later edge.
  predicate Before(a: Walk, b: Walk)
    decreases b
  {
    b != [] && (a == [] || a[0] < b[0] || (a[0] == b[0] && Before(a[1..], b[1..])))
  }

  ghost predicate InOrder(ws: seq<Walk>) {
    forall i, j :: 0 <= i < j < |ws| ==> Before(ws[i], ws[j])
  }

  lemma {:induction false} WalksViaInOrder(g: Graph, t: Node, avoid: set<Node>, k: nat)
    requires Closed(g) && t in g && t !in avoid && k <= |g[t]|
    ensures InOrder(WalksVia(g, t, avoid, k))
    decreases |g.Keys - avoid| - 1, 1, k
  {
    if k > 0 {
      FewerToVisit(g, t, avoid);
      WalksViaInOrder(g, t, avoid, k - 1);
      var target := g[t][k - 1].target;
      WalksInOrder(g, target, avoid + {t});
      var before, inner := WalksVia(g, t, avoid, k - 1), Walks(g, target, avoid + {t});
      var after := Prepend(k - 1, inner);
      forall i, j | 0 <= i < j < |after| ensures Before(after[i], after[j]) {
        assert after[i][1..] == inner[i] && after[j][1..] == inner[j];
      }
      forall i | 0 <= i < |before| ensures before[i] != [] && before[i][0] < k - 1 {
        WalksViaMembers(g, t, avoid, k - 1, before[i]);
      }
    }
  }

  lemma {:induction false} WalksInOrder(g: Graph, t: Node, avoid: set<Node>)
    requires Closed(g) && t in g
    ensures InOrder(Walks(g, t, avoid))
    decreases |g.Keys - avoid|, 0, 0
  {
    if t !in avoid {
      WalksViaInOrder(g, t, avoid, |g[t]|);
      var via := WalksVia(g, t, avoid, |g[t]|);
      forall i | 0 <= i < |via| ensures via[i] != [] {
        WalksViaMembers(g, t, avoid, |g[t]|, via[i]);
      }
    }
  }

  // ----- loop erasure -----

  lemma {:induction false} WalkSplit(g: Graph, t: Node, w: Walk, i: nat)
    requires IsWalk(g, t, w) && i <= |w|
    ensures IsWalk(g, t, w[..i]) && IsWalk(g, Visits(g, t, w)[i], w[i..])
    ensures End(g, t, w[..i]) == Visits(g, t, w)[i]
    ensures End(g, Visits(g, t, w)[i], w[i..]) == End(g, t, w)
    decreases w
  {
    if i == 0 {
      assert w[0..] == w;
    } else {
      var next := g[t][w[0]].target;
      WalkSplit(g, next, w[1..], i - 1);
      assert w[..i][1..] == w[1..][..i - 1] && w[1..][i - 1..] == w[i..];
    }
  }

  lemma {:induction false} WalkJoin(g: Graph, t: Node, a: Walk, b: Walk)
    requires IsWalk(g, t, a) && IsWalk(g, End(g, t, a), b)
    ensures IsWalk(g, t, a + b) && End(g, t, a + b) == End(g, End(g, t, a), b)
    decreases a
  {
    if a == [] {
      assert a + b == b;
    } else {
      assert (a + b)[1..] == a[1..] + b;
      WalkJoin(g, g[t][a[0]].target, a[1..], b);
    }
  }

  // Cutting out its loops turns any walk into one that repeats no node and ends alike.
  lemma {:induction false} LoopErasure(g: Graph, t: Node, w: Walk)
    requires IsWalk(g, t, w)
    ensures exists w' :: IsSimpleWalk(g, t, {}, w') && End(g, t, w') == End(g, t, w)
    decreases |w|
  {
    var v := Visits(g, t, w);
    if NoRepeats(v) {
      assert IsSimpleWalk(g, t, {}, w);
    } else {
      var i, j :| 0 <= i < j < |v| && v[i] == v[j];
      WalkSplit(g, t, w, i);
      WalkSplit(g, t, w, j);
      WalkJoin(g, t, w[..i], w[j..]);
      LoopErasure(g, t, w[..i] + w[j..]);
    }
  }

  ghost predicate Reachable(g: Graph, t: Node, x: Node) {
    exists w :: IsWalk(g, t, w) && End(g, t, w) == x
  }

  // ----- the entries recorded along the enumeration -----

  // The text of a path: each element behind a slash.
  function PathText(path: seq<string>): string {
    if path == [] then "" else PathText(path[..|path| - 1]) + "/" + path[|path| - 1]
  }

  // A path with one element is that element behind a slash, and the text of two paths one
  // after the other is their texts one after the other.
  lemma {:induction false} PathTextIs(p: seq<string>, q: seq<string>, x: string)
    ensures PathText([]) == "" && PathText([x]) == "/" + x
    ensures PathText(p + q) == PathText(p) + PathText(q)
  {
    assert [x][..0] == [];
    if q == [] {
      assert p + q == p;
    } else {
      var n := |q| - 1;
      PathTextIs(p, q[..n], x);
      assert (p + q)[..|p + q| - 1] == p + q[..n];
    }
  }

  // The path elements of a walk are those of the edges it takes, in order.
  lemma {:induction false} StepsAre(g: Graph, t: Node, w: Walk)
    requires IsWalk(g, t, w)
    ensures |Steps(g, t, w)| == |w|
    ensures forall i :: 0 <= i < |w| ==>
      && Visits(g, t, w)[i] in g && w[i] < |g[Visits(g, t, w)[i]]|
      && Steps(g, t, w)[i] == g[Visits(g, t, w)[i]][w[i]].step
      && Visits(g, t, w)[i + 1] == g[Visits(g, t, w)[i]][w[i]].target
    decreases w
  {
    if w != [] {
      var next := g[t][w[0]].target;
      StepsAre(g, next, w[1..]);
      forall i | 0 <= i < |w|
        ensures Visits(g, t, w)[i] in g && w[i] < |g[Visits(g, t, w)[i]]|
        ensures Steps(g, t, w)[i] == g[Visits(g, t, w)[i]][w[i]].step
        ensures Visits(g, t, w)[i + 1] == g[Visits(g, t, w)[i]][w[i]].target
      {
        if i > 0 {
          assert Visits(g, t, w)[i] == Visits(g, next, w[1..])[i - 1] && w[i] == w[1..][i - 1];
        }
      }
    }
  }

  datatype Entry = Entry(tid: Node, path: string)

  ghost predicate AllWalks(g: Graph, t: Node, ws: seq<Walk>) {
    forall k :: 0 <= k < |ws| ==> IsWalk(g, t, ws[k])
  }

  // One entry per walk: the node it ends in, and the entry path extended by its steps.
  function Entries(g: Graph, t: Node, path: seq<string>, ws: seq<Walk>): (r: seq<Entry>)
    requires AllWalks(g, t, ws)
    ensures |r| == |ws|
  {
    seq(|ws|, k requires 0 <= k < |ws| => Entry(End(g, t, ws[k]), PathText(path + Steps(g, t, ws[k]))))
  }

  lemma {:induction false} WalksAreWalks(g: Graph, t: Node, avoid: set<Node>)
    requires Closed(g) && t in g
    ensures AllWalks(g, t, Walks(g, t, avoid))
  {
    var ws := Walks(g, t, avoid);
    forall k | 0 <= k < |ws| ensures IsWalk(g, t, ws[k]) {
      WalksAreSimpleWalks(g, t, avoid, ws[k]);
    }
  }

  lemma {:induction false} WalksViaAreWalks(g: Graph, t: Node, avoid: set<Node>, k: nat)
    requires Closed(g) && t in g && t !in avoid && k <= |g[t]|
    ensures AllWalks(g, t, WalksVia(g, t, avoid, k))
  {
    var ws := WalksVia(g, t, avoid, k);
    forall i | 0 <= i < |ws| ensures IsWalk(g, t, ws[i]) {
      WalksViaMembers(g, t, avoid, k, ws[i]);
      WalksAreSimpleWalks(g, g[t][ws[i][0]].target, avoid + {t}, ws[i][1..]);
    }
  }

  lemma {:induction false} EntriesAppend(g: Graph, t: Node, path: seq<string>, ws: seq<Walk>, ws': seq<Walk>)
    requires AllWalks(g, t, ws) && AllWalks(g, t, ws')
    ensures AllWalks(g, t, ws + ws')
    ensures Entries(g, t, path, ws + ws') == Entries(g, t, path, ws) + Entries(g, t, path, ws')
  {
  }

  lemma {:induction false} EntryPrepend(g: Graph, t: Node, path: seq<string>, k: nat, w: Walk)
    requires t in g && k < |g[t]| && IsWalk(g, g[t][k].target, w)
    ensures IsWalk(g, t, [k] + w)
    ensures End(g, t, [k] + w) == End(g, g[t][k].target, w)
    ensures path + Steps(g, t, [k] + w) == path + [g[t][k].step] + Steps(g, g[t][k].target, w)
  {
    assert ([k] + w)[1..] == w;
  }

  lemma {:induction false} EntriesPrepend(g: Graph, t: Node, path: seq<string>, k: nat, ws: seq<Walk>)
    requires t in g && k < |g[t]| && AllWalks(g, g[t][k].target, ws)
    ensures AllWalks(g, t, Prepend(k, ws))
    ensures Entries(g, t, path, Prepend(k, ws)) == Entries(g, g[t][k].target, path + [g[t][k].step], ws)
  {
    var e, long := g[t][k], Prepend(k, ws);
    forall i | 0 <= i < |ws|
      ensures IsWalk(g, t, long[i]) && End(g, t, long[i]) == End(g, e.target, ws[i])
      ensures path + Steps(g, t, long[i]) == path + [e.step] + Steps(g, e.target, ws[i])
    {
      EntryPrepend(g, t, path, k, ws[i]);
    }
  }

  // What a traversal from `t`, entered on `path`, records.
  function Gathered(g: Graph, t: Node, path: seq<string>, avoid: set<Node>): seq<Entry>
    requires Closed(g) && t in g
  {
    WalksAreWalks(g, t, avoid);
    Entries(g, t, path, Walks(g, t, avoid))
  }

  // What it records behind the edges number `lo` up to `hi` out of `t`.
  function Followed(g: Graph, t: Node, path: seq<string>, avoid: set<Node>, lo: nat, hi: nat): seq<Entry>
    requires Closed(g) && t in g && lo <= hi <= |g[t]|
    decreases hi - lo
  {
    if lo == hi then []
    else
      var e := g[t][hi - 1];
      Followed(g, t, path, avoid, lo, hi - 1) + Gathered(g, e.target, path + [e.step], avoid + {t})
  }

  lemma {:induction false} FollowedSplit(g: Graph, t: Node, path: seq<string>, avoid: set<Node>,
                                         lo: nat, mid: nat, hi: nat)
    requires Closed(g) && t in g && lo <= mid <= hi <= |g[t]|
    ensures Followed(g, t, path, avoid, lo, mid) + Followed(g, t, path, avoid, mid, hi)
         == Followed(g, t, path, avoid, lo, hi)
    decreases hi - mid
  {
    if mid < hi {
      FollowedSplit(g, t, path, avoid, lo, mid, hi - 1);
    }
  }

  // Following edge number `k` after those before it.
  lemma {:induction false} FollowedNext(g: Graph, t: Node, path: seq<string>, avoid: set<Node>,
                                        lo: nat, k: nat, start: seq<Entry>)
    requires Closed(g) && t in g && lo <= k < |g[t]|
    ensures start + Followed(g, t, path, avoid, lo, k)
            + Gathered(g, g[t][k].target, path + [g[t][k].step], avoid + {t})
         == start + Followed(g, t, path, avoid, lo, k + 1)
  {
  }

  lemma {:induction false} FollowedIsVia(g: Graph, t: Node, path: seq<string>, avoid: set<Node>, k: nat)
    requires Closed(g) && t in g && t !in avoid && k <= |g[t]|
    ensures AllWalks(g, t, WalksVia(g, t, avoid, k))
    ensures Followed(g, t, path, avoid, 0, k) == Entries(g, t, path, WalksVia(g, t, avoid, k))
    decreases k
  {
    WalksViaAreWalks(g, t, avoid, k);
    if k > 0 {
      FollowedIsVia(g, t, path, avoid, k - 1);
      var inner := Walks(g, g[t][k - 1].target, avoid + {t});
      WalksAreWalks(g, g[t][k - 1].target, avoid + {t});
      EntriesPrepend(g, t, path, k - 1, inner);
      EntriesAppend(g, t, path, WalksVia(g, t, avoid, k - 1), Prepend(k - 1, inner));
    }
  }

  // Recording a node and following all its edges is gathering from it.
  lemma {:induction false} GatheredUnfold(g: Graph, t: Node, path: seq<string>, avoid: set<Node>)
    requires Closed(g) && t in g && t !in avoid
    ensures Gathered(g, t, path, avoid)
         == [Entry(t, PathText(path))] + Followed(g, t, path, avoid, 0, |g[t]|)
  {
    FollowedIsVia(g, t, path, avoid, |g[t]|);
    assert path + Steps(g, t, []) == path;
    EntriesAppend(g, t, path, [[]], WalksVia(g, t, avoid, |g[t]|));
  }

  lemma {:induction false} GatheredInThree(g: Graph, t: Node, path: seq<string>, avoid: set<Node>,
                                           lo: nat, mid: nat, start: seq<Entry>)
    requires Closed(g) && t in g && t !in avoid && lo <= mid <= |g[t]|
    ensures start + [Entry(t, PathText(path))] + Followed(g, t, path, avoid, 0, lo)
            + Followed(g, t, path, avoid, lo, mid) + Followed(g, t, path, avoid, mid, |g[t]|)
         == start + Gathered(g, t, path, avoid)
  {
    FollowedSplit(g, t, path, avoid, 0, lo, mid);
    FollowedSplit(g, t, path, avoid, 0, mid, |g[t]|);
    GatheredUnfold(g, t, path, avoid);
  }

  // The text of an entry is that of the path of the traversal followed by that of the steps
  // of its walk.
  lemma {:induction false} EntryText(g: Graph, t: Node, path: seq<string>, avoid: set<Node>, k: nat)
    requires Closed(g) && t in g && k < |Gathered(g, t, path, avoid)|
    ensures exists w :: IsSimpleWalk(g, t, avoid, w)
                        && Gathered(g, t, path, avoid)[k] == Entry(End(g, t, w), PathText(path) + PathText(Steps(g, t, w)))
  {
    var ws := Walks(g, t, avoid);
    WalksAreSimpleWalks(g, t, avoid, ws[k]);
    WalksAreWalks(g, t, avoid);
    PathTextIs(path, Steps(g, t, ws[k]), "");
    assert ws[k] in ws;
  }

  // A traversal records one entry per simple walk and no other: its entries are those of a
  // list that holds each simple walk exactly once, in the depth-first order.
  lemma {:induction false} GatheredIsExact(g: Graph, t: Node, path: seq<string>, avoid: set<Node>)
    requires Closed(g) && t in g
    ensures exists ws :: AllWalks(g, t, ws) && AllDifferent(ws) && InOrder(ws)
                         && Gathered(g, t, path, avoid) == Entries(g, t, path, ws)
                         && forall w :: w in ws <==> IsSimpleWalk(g, t, avoid, w)
  {
    var ws := Walks(g, t, avoid);
    WalksAreWalks(g, t, avoid);
    WalksDiffer(g, t, avoid);
    WalksInOrder(g, t, avoid);
    forall w ensures w in ws <==> IsSimpleWalk(g, t, avoid, w) {
      WalksAreSimpleWalks(g, t, avoid, w);
    }
    assert Gathered(g, t, path, avoid) == Entries(g, t, path, ws);
  }

  // A traversal that avoids nothing records a node if and only if its root reaches it.
  lemma {:induction false} GatheredIffReachable(g: Graph, t: Node, path: seq<string>, x: Node)
    requires Closed(g) && t in g
    ensures (exists k :: 0 <= k < |Gathered(g, t, path, {})| && Gathered(g, t, path, {})[k].tid == x)
       <==> Reachable(g, t, x)
  {
    var ws := Walks(g, t, {});
    WalksAreWalks(g, t, {});
    var es := Gathered(g, t, path, {});
    if k :| 0 <= k < |es| && es[k].tid == x {
      assert IsWalk(g, t, ws[k]) && End(g, t, ws[k]) == x;
    }
    if w :| IsWalk(g, t, w) && End(g, t, w) == x {
      LoopErasure(g, t, w);
      var w' :| IsSimpleWalk(g, t, {}, w') && End(g, t, w') == x;
      WalksAreSimpleWalks(g, t, {}, w');
      var k :| 0 <= k < |ws| && ws[k] == w';
      assert es[k].tid == x;
    }
  }
}
