/**
The library load order of `bindings/python/ns__init__.py`: rounds that each load
the modules whose dependencies were all loaded in earlier rounds.
*/
module LoadOrder {

  type Module = string
  type Dependencies = map<Module, seq<Module>>

  // ----- the layers -----

  // Whether all dependencies of a module are among the modules loaded so far.
  predicate CanLoad(deps: Dependencies, m: Module, current: set<Module>)
    requires m in deps
  {
    forall i :: 0 <= i < |deps[m]| ==> deps[m][i] in current
  }

  function Loadables(deps: Dependencies, current: set<Module>): set<Module> {
    set m | m in deps && CanLoad(deps, m, current)
  }

  // The modules loaded in the first `k` rounds.
  function Loaded(deps: Dependencies, k: nat): set<Module> {
    if k == 0 then {} else Loadables(deps, Loaded(deps, k - 1))
  }

  lemma {:induction false} LoadedGrows(deps: Dependencies, k: nat)
    ensures Loaded(deps, k) <= Loaded(deps, k + 1)
  {
    if k > 0 {
      LoadedGrows(deps, k - 1);
    }
  }

  lemma {:induction false} LoadedMonotonic(deps: Dependencies, j: nat, k: nat)
    requires j <= k
    ensures Loaded(deps, j) <= Loaded(deps, k)
    decreases k
  {
    if j < k {
      LoadedMonotonic(deps, j, k - 1);
      LoadedGrows(deps, k - 1);
    }
  }

  // ----- dependency chains -----

  // Every dependency is itself one of the modules.
  ghost predicate Closed(deps: Dependencies) {
    forall m :: m in deps ==> forall i :: 0 <= i < |deps[m]| ==> deps[m][i] in deps
  }

  // A chain leads from each module to one of its dependencies.
  ghost predicate IsChain(deps: Dependencies, c: seq<Module>) {
    && c != []
    && (forall i :: 0 <= i < |c| ==> c[i] in deps)
    && (forall i :: 0 <= i < |c| - 1 ==> c[i + 1] in deps[c[i]])
  }

  ghost predicate ChainFrom(deps: Dependencies, m: Module, links: nat, c: seq<Module>) {
    IsChain(deps, c) && c[0] == m && |c| == links + 1
  }

  ghost predicate HasChain(deps: Dependencies, m: Module, links: nat) {
    exists c :: ChainFrom(deps, m, links, c)
  }

  // No chain returns to where it started.
  ghost predicate Acyclic(deps: Dependencies) {
    forall c :: IsChain(deps, c) && |c| > 1 ==> c[0] != c[|c| - 1]
  }

  lemma {:induction false} ChainCons(deps: Dependencies, m: Module, links: nat, c: seq<Module>)
    requires m in deps && c != [] && c[0] in deps[m]
    requires ChainFrom(deps, c[0], links, c)
    ensures ChainFrom(deps, m, links + 1, [m] + c)
  {
    var c' := [m] + c;
    forall i | 0 <= i < |c'| - 1 ensures c'[i + 1] in deps[c'[i]] {
      assert i > 0 ==> c'[i] == c[i - 1];
    }
  }

  // A module is still waiting after `k` rounds exactly if a chain of `k` links starts at it.
  lemma {:induction false} WaitingIffChain(deps: Dependencies, m: Module, k: nat)
    requires Closed(deps) && m in deps
    ensures m !in Loaded(deps, k) <==> HasChain(deps, m, k)
    decreases k
  {
    if k == 0 {
      assert ChainFrom(deps, m, 0, [m]);
    } else {
      if m !in Loaded(deps, k) {
        var i :| 0 <= i < |deps[m]| && deps[m][i] !in Loaded(deps, k - 1);
        WaitingIffChain(deps, deps[m][i], k - 1);
        var c :| ChainFrom(deps, deps[m][i], k - 1, c);
        ChainCons(deps, m, k - 1, c);
      }
      if c :| ChainFrom(deps, m, k, c) {
        var d := c[1];
        assert ChainFrom(deps, d, k - 1, c[1..]);
        WaitingIffChain(deps, d, k - 1);
        var i :| 0 <= i < |deps[m]| && deps[m][i] == d;
      }
    }
  }

  ghost predicate Distinct(c: seq<Module>) {
    forall i, j :: 0 <= i < j < |c| ==> c[i] != c[j]
  }

  lemma {:induction false} DistinctFits(c: seq<Module>, s: set<Module>)
    requires Distinct(c) && forall i :: 0 <= i < |c| ==> c[i] in s
    ensures |c| <= |s|
    decreases |c|
  {
    if c != [] {
      var n := |c| - 1;
      DistinctFits(c[..n], s - {c[n]});
    }
  }

  lemma {:induction false} ChainIsShort(deps: Dependencies, c: seq<Module>)
    requires Acyclic(deps) && IsChain(deps, c)
    ensures |c| <= |deps.Keys|
  {
    if i, j :| 0 <= i < j < |c| && c[i] == c[j] {
      var cycle := c[i..j + 1];
      assert IsChain(deps, cycle) by {
        assert forall k :: 0 <= k < |cycle| ==> cycle[k] == c[i + k];
      }
      assert false;
    }
    DistinctFits(c, deps.Keys);
  }

  // Without missing modules and cycles everything is loaded within as many rounds as there
  // are modules.
  lemma {:induction false} EverythingLoads(deps: Dependencies)
    requires Closed(deps) && Acyclic(deps)
    ensures Loaded(deps, |deps.Keys|) == deps.Keys
  {
    var n := |deps.Keys|;
    forall m | m in deps ensures m in Loaded(deps, n) {
      WaitingIffChain(deps, m, n);
      forall c | IsChain(deps, c) ensures |c| <= n {
        ChainIsShort(deps, c);
      }
    }
    assert n == 0 ==> deps.Keys == {};
  }

  // A module with a missing dependency, or on a cycle, is never loaded.
  lemma {:induction false} MissingNeverLoads(deps: Dependencies, m: Module, i: nat, k: nat)
    requires m in deps && i < |deps[m]| && deps[m][i] !in deps
    ensures m !in Loaded(deps, k)
  {
  }

  lemma {:induction false} CycleNeverLoads(deps: Dependencies, c: seq<Module>, i: nat, k: nat)
    requires IsChain(deps, c) && |c| > 1 && c[0] == c[|c| - 1] && i < |c|
    ensures c[i] !in Loaded(deps, k)
    decreases k
  {
    if k > 0 {
      var next := if i == |c| - 1 then 1 else i + 1;
      assert c[next] in deps[c[i]];
      CycleNeverLoads(deps, c, next, k - 1);
      var j :| 0 <= j < |deps[c[i]]| && deps[c[i]][j] == c[next];
    }
  }

  ghost predicate Loadable(deps: Dependencies) {
    exists k: nat :: Loaded(deps, k) == deps.Keys
  }

  // Some number of rounds loads everything if and only if every dependency is known and
  // none is circular.
  lemma {:induction false} LoadableIff(deps: Dependencies)
    ensures Loadable(deps) <==> Closed(deps) && Acyclic(deps)
  {
    if Closed(deps) && Acyclic(deps) {
      EverythingLoads(deps);
    }
    if k: nat :| Loaded(deps, k) == deps.Keys {
      forall m, i | m in deps && 0 <= i < |deps[m]| ensures deps[m][i] in deps {
        if deps[m][i] !in deps {
          MissingNeverLoads(deps, m, i, k);
        }
      }
      forall c | IsChain(deps, c) && |c| > 1 ensures c[0] != c[|c| - 1] {
        if c[0] == c[|c| - 1] {
          CycleNeverLoads(deps, c, 0, k);
        }
      }
    }
  }

  // ----- the layering is the quickest one -----

  // An assignment of rounds is valid if every dependency is loaded in an earlier round.
  ghost predicate ValidRounds(deps: Dependencies, round: map<Module, nat>) {
    && round.Keys == deps.Keys
    && forall m :: m in deps ==> forall i :: 0 <= i < |deps[m]| ==> deps[m][i] in deps && round[deps[m][i]] < round[m]
  }

  lemma {:induction false} NoQuickerRounds(deps: Dependencies, round: map<Module, nat>, m: Module, k: nat)
    requires ValidRounds(deps, round) && m in deps && m !in Loaded(deps, k)
    ensures round[m] >= k
    decreases k
  {
    if k > 0 {
      var i :| 0 <= i < |deps[m]| && deps[m][i] !in Loaded(deps, k - 1);
      NoQuickerRounds(deps, round, deps[m][i], k - 1);
    }
  }

  // ----- the rounds in list form -----

  function SetOf(xs: seq<Module>): set<Module> {
    set x | x in xs
  }

  // The elements inside, and those outside, a set, in order.
  function Select(xs: seq<Module>, s: set<Module>): seq<Module> {
    if xs == [] then []
    else Select(xs[..|xs| - 1], s) + if xs[|xs| - 1] in s then [xs[|xs| - 1]] else []
  }

  function Without(xs: seq<Module>, s: set<Module>): seq<Module> {
    if xs == [] then []
    else Without(xs[..|xs| - 1], s) + if xs[|xs| - 1] in s then [] else [xs[|xs| - 1]]
  }

  // What `list.remove` leaves: everything but the first occurrence.
  function RemoveFirst(xs: seq<Module>, x: Module): seq<Module>
    requires x in xs
  {
    if xs[0] == x then xs[1..] else [xs[0]] + RemoveFirst(xs[1..], x)
  }

  // Selecting keeps the order: two lists one after the other give what each gives, and a list
  // of one module gives it or nothing.
  lemma {:induction false} SelectInOrder(p: seq<Module>, q: seq<Module>, x: Module, s: set<Module>)
    ensures Select(p + q, s) == Select(p, s) + Select(q, s) && Without(p + q, s) == Without(p, s) + Without(q, s)
    ensures Select([x], s) == (if x in s then [x] else []) && Without([x], s) == if x in s then [] else [x]
  {
    assert [x][..0] == [];
    if q == [] {
      assert p + q == p;
    } else {
      var n := |q| - 1;
      SelectInOrder(p, q[..n], x, s);
      assert (p + q)[..|p + q| - 1] == p + q[..n];
    }
  }

  lemma {:induction false} RemoveFirstIs(p: seq<Module>, x: Module, q: seq<Module>)
    requires x !in p
    ensures x in p + [x] + q && RemoveFirst(p + [x] + q, x) == p + q
  {
    var all := p + [x] + q;
    assert all[|p|] == x;
    if p == [] {
      assert all[1..] == q && p + q == q;
    } else {
      RemoveFirstIs(p[1..], x, q);
      assert all[1..] == p[1..] + [x] + q && [p[0]] + (p[1..] + q) == p + q;
    }
  }

  lemma {:induction false} SelectMembers(xs: seq<Module>, s: set<Module>, x: Module)
    ensures x in Select(xs, s) <==> x in xs && x in s
  {
    if xs != [] {
      SelectMembers(xs[..|xs| - 1], s, x);
      assert xs == xs[..|xs| - 1] + [xs[|xs| - 1]];
    }
  }

  lemma {:induction false} WithoutMembers(xs: seq<Module>, s: set<Module>, x: Module)
    ensures x in Without(xs, s) <==> x in xs && x !in s
  {
    if xs != [] {
      WithoutMembers(xs[..|xs| - 1], s, x);
      assert xs == xs[..|xs| - 1] + [xs[|xs| - 1]];
    }
  }

  lemma {:induction false} WithoutNothing(xs: seq<Module>)
    ensures Without(xs, {}) == xs
  {
    if xs != [] {
      WithoutNothing(xs[..|xs| - 1]);
    }
  }

  lemma {:induction false} RemoveLast(xs: seq<Module>, x: Module)
    requires x !in xs
    ensures RemoveFirst(xs + [x], x) == xs
  {
    if xs == [] {
    } else {
      assert (xs + [x])[1..] == xs[1..] + [x];
      RemoveLast(xs[1..], x);
    }
  }

  lemma {:induction false} RemoveEarlier(xs: seq<Module>, x: Module, y: Module)
    requires x in xs
    ensures x in xs + [y]
    ensures RemoveFirst(xs + [y], x) == RemoveFirst(xs, x) + [y]
  {
    if xs[0] == x {
      assert (xs + [y])[1..] == xs[1..] + [y];
    } else {
      assert (xs + [y])[1..] == xs[1..] + [y];
      RemoveEarlier(xs[1..], x, y);
    }
  }

  // Removing one more module from a list without repeats.
  lemma {:induction false} RemoveFromWithout(xs: seq<Module>, s: set<Module>, x: Module)
    requires Distinct(xs) && x in xs && x !in s
    ensures x in Without(xs, s)
    ensures RemoveFirst(Without(xs, s), x) == Without(xs, s + {x})
  {
    var n := |xs| - 1;
    var y := xs[n];
    WithoutMembers(xs, s, x);
    WithoutMembers(xs[..n], s, x);
    if y == x {
      RemoveLast(Without(xs[..n], s), x);
      SameWithout(xs[..n], s, s + {x});
    } else {
      RemoveFromWithout(xs[..n], s, x);
      if y !in s {
        RemoveEarlier(Without(xs[..n], s), x, y);
        assert Without(xs, s + {x}) == Without(xs[..n], s + {x}) + [y];
      } else {
        assert Without(xs, s) == Without(xs[..n], s);
      }
    }
  }

  lemma {:induction false} SameWithout(xs: seq<Module>, s: set<Module>, s': set<Module>)
    requires forall x :: x in xs ==> (x in s <==> x in s')
    ensures Without(xs, s) == Without(xs, s')
  {
    if xs != [] {
      SameWithout(xs[..|xs| - 1], s, s');
    }
  }

  lemma {:induction false} SameSelect(xs: seq<Module>, s: set<Module>, s': set<Module>)
    requires forall x :: x in xs ==> (x in s <==> x in s')
    ensures Select(xs, s) == Select(xs, s')
  {
    if xs != [] {
      SameSelect(xs[..|xs| - 1], s, s');
    }
  }

  lemma {:induction false} WithoutTwice(xs: seq<Module>, s: set<Module>, s': set<Module>)
    requires s <= s'
    ensures Without(Without(xs, s), s') == Without(xs, s')
  {
    if xs != [] {
      var n := |xs| - 1;
      WithoutTwice(xs[..n], s, s');
      var w := Without(xs[..n], s);
      if xs[n] in s {
        assert Without(xs, s) == w;
        assert Without(xs, s') == Without(xs[..n], s');
      } else {
        assert Without(xs, s) == w + [xs[n]];
        assert (w + [xs[n]])[..|w|] == w;
      }
    }
  }

  lemma {:induction false} WithoutDistinct(xs: seq<Module>, s: set<Module>)
    requires Distinct(xs)
    ensures Distinct(Without(xs, s))
  {
    if xs != [] {
      var n := |xs| - 1;
      WithoutDistinct(xs[..n], s);
      WithoutMembers(xs[..n], s, xs[n]);
    }
  }

  lemma {:induction false} SelectDistinct(xs: seq<Module>, s: set<Module>)
    requires Distinct(xs)
    ensures Distinct(Select(xs, s))
  {
    if xs != [] {
      var n := |xs| - 1;
      SelectDistinct(xs[..n], s);
      SelectMembers(xs[..n], s, xs[n]);
    }
  }

  lemma {:induction false} SelectAndWithout(xs: seq<Module>, s: set<Module>)
    ensures multiset(Select(xs, s)) + multiset(Without(xs, s)) == multiset(xs)
  {
    if xs != [] {
      var n := |xs| - 1;
      SelectAndWithout(xs[..n], s);
      assert xs == xs[..n] + [xs[n]];
      assert multiset(xs) == multiset(xs[..n]) + multiset{xs[n]};
      if xs[n] in s {
        assert Without(xs, s) == Without(xs[..n], s);
      } else {
        assert Select(xs, s) == Select(xs[..n], s);
      }
    }
  }

  // ----- splitting a list by growing sets -----

  // Sets that start empty and only grow.
  ghost predicate Growing(stages: seq<set<Module>>) {
    && stages != [] && stages[0] == {}
    && forall k :: 0 <= k < |stages| - 1 ==> stages[k] <= stages[k + 1]
  }

  // The part of a list that each stage adds, one after the other.
  function Parts(order: seq<Module>, stages: seq<set<Module>>): seq<Module>
    requires stages != []
  {
    if |stages| == 1 then []
    else
      var n := |stages| - 1;
      Parts(order, stages[..n]) + Select(Without(order, stages[n - 1]), stages[n])
  }

  lemma {:induction false} PartMembers(order: seq<Module>, s: set<Module>, s': set<Module>, m: Module)
    ensures m in Select(Without(order, s), s') <==> m in order && m !in s && m in s'
  {
    SelectMembers(Without(order, s), s', m);
    WithoutMembers(order, s, m);
  }

  lemma {:induction false} PartsMembers(order: seq<Module>, stages: seq<set<Module>>, m: Module)
    requires Growing(stages)
    ensures m in Parts(order, stages) <==> m in order && m in stages[|stages| - 1]
  {
    if |stages| > 1 {
      var n := |stages| - 1;
      PartsMembers(order, stages[..n], m);
      PartMembers(order, stages[n - 1], stages[n], m);
    }
  }

  lemma {:induction false} PartPermutes(order: seq<Module>, before: seq<Module>, s: set<Module>, s': set<Module>)
    requires s <= s'
    requires multiset(before) + multiset(Without(order, s)) == multiset(order)
    ensures multiset(before + Select(Without(order, s), s')) + multiset(Without(order, s')) == multiset(order)
  {
    WithoutTwice(order, s, s');
    SelectAndWithout(Without(order, s), s');
  }

  lemma {:induction false} PartsPermute(order: seq<Module>, stages: seq<set<Module>>)
    requires Growing(stages)
    ensures multiset(Parts(order, stages)) + multiset(Without(order, stages[|stages| - 1])) == multiset(order)
  {
    if |stages| == 1 {
      WithoutNothing(order);
    } else {
      var n := |stages| - 1;
      PartsPermute(order, stages[..n]);
      PartPermutes(order, Parts(order, stages[..n]), stages[n - 1], stages[n]);
    }
  }

  // All dependencies of a module are in a list.
  ghost predicate DependenciesIn(deps: Dependencies, m: Module, before: seq<Module>) {
    m in deps && forall j :: 0 <= j < |deps[m]| ==> deps[m][j] in before
  }

  // Every module of a list comes after all its dependencies.
  ghost predicate AfterDependencies(deps: Dependencies, sorted: seq<Module>) {
    forall i :: 0 <= i < |sorted| ==> DependenciesIn(deps, sorted[i], sorted[..i])
  }

  lemma {:induction false} OrderExtends(deps: Dependencies, before: seq<Module>, layer: seq<Module>)
    requires AfterDependencies(deps, before)
    requires forall i :: 0 <= i < |layer| ==> DependenciesIn(deps, layer[i], before)
    ensures AfterDependencies(deps, before + layer)
  {
    var all := before + layer;
    forall i | 0 <= i < |all| ensures DependenciesIn(deps, all[i], all[..i]) {
      if i < |before| {
        assert all[..i] == before[..i];
      } else {
        assert DependenciesIn(deps, layer[i - |before|], before);
        assert before <= all[..i];
      }
    }
  }

  // If each stage only adds modules whose dependencies are in the one before.
  ghost predicate Supported(deps: Dependencies, stages: seq<set<Module>>) {
    forall k :: 0 <= k < |stages| - 1 ==> SupportedBy(deps, stages[k], stages[k + 1])
  }

  ghost predicate SupportedBy(deps: Dependencies, s: set<Module>, s': set<Module>) {
    forall m :: m in s' ==> m in deps && CanLoad(deps, m, s)
  }

  lemma {:induction false} PartsInOrder(deps: Dependencies, order: seq<Module>, stages: seq<set<Module>>)
    requires Growing(stages) && Supported(deps, stages)
    requires forall k, m :: 0 <= k < |stages| && m in stages[k] ==> m in order
    ensures AfterDependencies(deps, Parts(order, stages))
  {
    if |stages| > 1 {
      var n := |stages| - 1;
      var before, layer := Parts(order, stages[..n]), Select(Without(order, stages[n - 1]), stages[n]);
      PartsInOrder(deps, order, stages[..n]);
      assert SupportedBy(deps, stages[n - 1], stages[n]);
      forall i | 0 <= i < |layer| ensures DependenciesIn(deps, layer[i], before) {
        PartMembers(order, stages[n - 1], stages[n], layer[i]);
        forall j | 0 <= j < |deps[layer[i]]| ensures deps[layer[i]][j] in before {
          PartsMembers(order, stages[..n], deps[layer[i]][j]);
        }
      }
      OrderExtends(deps, before, layer);
    }
  }

  // ----- the rounds in list form -----

  // Round `k`: the modules not loaded before whose dependencies all were.
  function Layer(deps: Dependencies, order: seq<Module>, k: nat): seq<Module> {
    Select(Without(order, Loaded(deps, k)), Loaded(deps, k + 1))
  }

  function Stages(deps: Dependencies, n: nat): (stages: seq<set<Module>>)
    ensures |stages| == n + 1 && forall k :: 0 <= k <= n ==> stages[k] == Loaded(deps, k)
  {
    seq(n + 1, k requires 0 <= k <= n => Loaded(deps, k))
  }

  lemma {:induction false} StagesGrow(deps: Dependencies, n: nat)
    ensures Growing(Stages(deps, n)) && Supported(deps, Stages(deps, n))
    ensures forall k, m :: 0 <= k <= n && m in Stages(deps, n)[k] ==> m in deps
  {
    var stages := Stages(deps, n);
    forall k | 0 <= k < n ensures stages[k] <= stages[k + 1] && SupportedBy(deps, stages[k], stages[k + 1]) {
      LoadedGrows(deps, k);
    }
  }

  // All rounds together, if there are `n`: every module once, after its dependencies.
  lemma {:induction false} RoundsSort(deps: Dependencies, order: seq<Module>, n: nat)
    requires (forall m :: m in order <==> m in deps) && Loaded(deps, n) == deps.Keys
    ensures multiset(Parts(order, Stages(deps, n))) == multiset(order)
    ensures AfterDependencies(deps, Parts(order, Stages(deps, n)))
  {
    StagesGrow(deps, n);
    PartsPermute(order, Stages(deps, n));
    PartsInOrder(deps, order, Stages(deps, n));
    WithoutAll(order, deps.Keys);
  }

  lemma {:induction false} WithoutAll(xs: seq<Module>, s: set<Module>)
    requires forall x :: x in xs ==> x in s
    ensures Without(xs, s) == []
  {
    if xs != [] {
      WithoutAll(xs[..|xs| - 1], s);
    }
  }

  // Round `k` holds exactly the modules whose longest dependency chain has `k` links.
  lemma {:induction false} LayerIsLongestChain(deps: Dependencies, order: seq<Module>, k: nat, m: Module)
    requires Closed(deps) && (forall x :: x in order <==> x in deps)
    ensures m in Layer(deps, order, k) <==>
            m in deps && HasChain(deps, m, k) && !HasChain(deps, m, k + 1)
  {
    PartMembers(order, Loaded(deps, k), Loaded(deps, k + 1), m);
    if m in deps {
      WaitingIffChain(deps, m, k);
      WaitingIffChain(deps, m, k + 1);
    }
  }

  lemma {:induction false} OnceLoadedStaysLoaded(deps: Dependencies, j: nat, k: nat)
    requires Loaded(deps, j) == deps.Keys && j <= k
    ensures Loaded(deps, k) == deps.Keys
  {
    LoadedMonotonic(deps, j, k);
    LoadedAreModules(deps, k);
  }

  lemma {:induction false} StuckStays(deps: Dependencies, k: nat, j: nat)
    requires Loaded(deps, k + 1) == Loaded(deps, k) && k <= j
    ensures Loaded(deps, j) == Loaded(deps, k)
    decreases j
  {
    if k < j {
      StuckStays(deps, k, j - 1);
    }
  }

  lemma HasMember(xs: seq<Module>)
    ensures xs == [] || exists m :: m in xs
  {
    assert xs == [] || xs[0] in xs;
  }

  // Without missing modules and cycles every round loads at least one module until all are
  // loaded.
  lemma {:induction false} EveryRoundLoads(deps: Dependencies, order: seq<Module>, k: nat)
    requires Closed(deps) && Acyclic(deps) && SetOf(order) == deps.Keys
    ensures Layer(deps, order, k) == [] <==> Loaded(deps, k) == deps.Keys
  {
    LoadedGrows(deps, k);
    LoadedAreModules(deps, k + 1);
    LayerHolds(deps, order, k);
    if Loaded(deps, k) == deps.Keys {
      OnceLoadedStaysLoaded(deps, k, k + 1);
      HasMember(Layer(deps, order, k));
    } else if Layer(deps, order, k) == [] {
      assert Loaded(deps, k + 1) == Loaded(deps, k);
      var n := |deps.Keys|;
      EverythingLoads(deps);
      if k <= n {
        StuckStays(deps, k, n);
      } else {
        OnceLoadedStaysLoaded(deps, n, k);
      }
    }
  }

  lemma {:induction false} LayerHolds(deps: Dependencies, order: seq<Module>, k: nat)
    requires SetOf(order) == deps.Keys
    ensures forall m :: m in Layer(deps, order, k) <==> m in deps && m in Loaded(deps, k + 1) && m !in Loaded(deps, k)
  {
    forall m ensures m in Layer(deps, order, k) <==> m in deps && m in Loaded(deps, k + 1) && m !in Loaded(deps, k) {
      PartMembers(order, Loaded(deps, k), Loaded(deps, k + 1), m);
      assert m in order <==> m in SetOf(order);
    }
  }

  lemma {:induction false} LoadedAreModules(deps: Dependencies, k: nat)
    ensures Loaded(deps, k) <= deps.Keys
  {
  }

  lemma {:induction false} SetOfNext(xs: seq<Module>, i: nat)
    requires Distinct(xs) && i < |xs|
    ensures xs[..i + 1] == xs[..i] + [xs[i]]
    ensures xs[i] !in SetOf(xs[..i]) && SetOf(xs[..i + 1]) == SetOf(xs[..i]) + {xs[i]}
  {
    assert xs[..i + 1] == xs[..i] + [xs[i]];
  }

  // The modules of a round are different, were not loaded before, and are what the round adds.
  lemma {:induction false} RoundIsSound(deps: Dependencies, order: seq<Module>, k: nat)
    requires Distinct(order) && SetOf(order) == deps.Keys
    ensures Distinct(Layer(deps, order, k))
    ensures forall m :: m in Layer(deps, order, k) ==> m in order && m !in Loaded(deps, k)
    ensures Loaded(deps, k) + SetOf(Layer(deps, order, k)) == Loaded(deps, k + 1)
  {
    WithoutDistinct(order, Loaded(deps, k));
    SelectDistinct(Without(order, Loaded(deps, k)), Loaded(deps, k + 1));
    LoadedGrows(deps, k);
    LoadedAreModules(deps, k + 1);
    forall m
      ensures m in Layer(deps, order, k) <==> m in order && m in Loaded(deps, k + 1) && m !in Loaded(deps, k)
      ensures m in order <==> m in deps
    {
      PartMembers(order, Loaded(deps, k), Loaded(deps, k + 1), m);
      assert m in order <==> m in SetOf(order);
    }
  }

  lemma {:induction false} PartsNext(deps: Dependencies, order: seq<Module>, k: nat)
    ensures Parts(order, Stages(deps, k + 1)) == Parts(order, Stages(deps, k)) + Layer(deps, order, k)
  {
    assert Stages(deps, k + 1)[..k + 1] == Stages(deps, k);
  }

  lemma {:induction false} SetOfMembers(xs: seq<Module>)
    ensures forall m :: m in xs <==> m in SetOf(xs)
  {
  }

  // ----- the program -----

  datatype Outcome = Sorted(libraries: seq<Module>) | RecursionError

  ghost predicate AllLoaded(deps: Dependencies, k: nat) {
    Loaded(deps, k) == deps.Keys
  }

  // From round `k` on everything is loaded while some of `frames` stack frames are left.
  ghost predicate EndsWithin(deps: Dependencies, k: nat, frames: nat) {
    exists r :: k <= r < k + frames && AllLoaded(deps, r)
  }

  class Sorter {
    const deps: Dependencies
    ghost const order: seq<Module>  // the modules in the order in which they were found
    var pending: seq<Module>
    var current: seq<Module>
    var steps: map<nat, seq<Module>>

    // Before round `k`: the rounds made, and who is pending and current.
    ghost predicate AtRound(k: nat)
      reads this
    {
      && Distinct(order) && SetOf(order) == deps.Keys
      && pending == Without(order, Loaded(deps, k))
      && SetOf(current) == Loaded(deps, k)
      && (forall j: nat :: j in steps <==> j < k)
      && (forall j: nat :: j in steps ==> steps[j] == Layer(deps, order, j))
    }

    constructor (deps: Dependencies, keys: seq<Module>)
      requires Distinct(keys) && SetOf(keys) == deps.Keys
      ensures this.deps == deps && order == keys && AtRound(0)
    {
      this.deps, order := deps, keys;
      pending, current, steps := keys, [], map[];
      new;
      WithoutNothing(keys);
    }

    method ModulesThatCanBeLoaded() returns (modules: seq<Module>)
      requires forall m :: m in pending ==> m in deps
      ensures modules == Select(pending, Loadables(deps, SetOf(current)))
    {
      modules := [];
      for i := 0 to |pending|
        invariant modules == Select(pending[..i], Loadables(deps, SetOf(current)))
      {
        var pendingModule := pending[i];
        assert pendingModule in pending;
        var canBeLoaded := true;
        for j := 0 to |deps[pendingModule]|
          invariant canBeLoaded
          invariant forall d :: 0 <= d < j ==> deps[pendingModule][d] in SetOf(current)
        {
          if deps[pendingModule][j] !in current {
            canBeLoaded := false;
            break;
          }
        }
        assert canBeLoaded <==> CanLoad(deps, pendingModule, SetOf(current));
        assert pending[..i + 1][..i] == pending[..i];
        if !canBeLoaded {
          continue;
        }
        modules := modules + [pendingModule];
      }
      assert pending[..|pending|] == pending;
    }

    // The loop over the modules of a round: each moves from `pending` to `current` and to
    // its step.
    method MoveModules(k: nat, modules: seq<Module>, ghost s: set<Module>)
      requires Distinct(order) && Distinct(modules) && pending == Without(order, s)
      requires k in steps && steps[k] == []
      requires forall m :: m in modules ==> m in order && m !in s
      modifies this
      ensures pending == Without(order, s + SetOf(modules))
      ensures SetOf(current) == SetOf(old(current)) + SetOf(modules) && current == old(current) + modules
      ensures steps == old(steps)[k := modules]
    {
      assert s + SetOf(modules[..0]) == s;
      assert SetOf(current) + SetOf(modules[..0]) == SetOf(current);
      for i := 0 to |modules|
        invariant pending == Without(order, s + SetOf(modules[..i]))
        invariant SetOf(current) == SetOf(old(current)) + SetOf(modules[..i])
        invariant current == old(current) + modules[..i]
        invariant steps == old(steps)[k := modules[..i]]
      {
        var m := modules[i];
        assert m in modules;
        SetOfNext(modules, i);
        RemoveFromWithout(order, s + SetOf(modules[..i]), m);
        assert s + SetOf(modules[..i]) + {m} == s + SetOf(modules[..i + 1]);
        assert SetOf(current + [m]) == SetOf(current) + {m};
        steps := steps[k := steps[k] + [m]];
        pending := RemoveFirst(pending, m);
        current := current + [m];
      }
      assert modules[..|modules|] == modules;
    }

    // One round: the loadable modules form the next step.
    method LoadRound(k: nat)
      requires AtRound(k)
      modifies this
      ensures AtRound(k + 1)
    {
      AtRoundMembers(k);
      if k !in steps {
        steps := steps[k := []];
      }
      var modules := ModulesThatCanBeLoaded();
      RoundIsSound(deps, order, k);
      MoveModules(k, modules, Loaded(deps, k));
    }

    // The steps one after the other.
    method Concatenate(ghost rounds: nat) returns (sortedLibraries: seq<Module>)
      requires AtRound(rounds)
      ensures sortedLibraries == Parts(order, Stages(deps, rounds))
    {
      sortedLibraries := [];
      var k := 0;
      while k in steps
        invariant 0 <= k <= rounds
        invariant sortedLibraries == Parts(order, Stages(deps, k))
        decreases rounds - k
      {
        PartsNext(deps, order, k);
        sortedLibraries := sortedLibraries + steps[k];
        k := k + 1;
      }
    }

    lemma AtRoundMembers(k: nat)
      requires AtRound(k)
      ensures forall m :: m in pending <==> m in deps && m !in Loaded(deps, k)
    {
      forall m ensures m in pending <==> m in deps && m !in Loaded(deps, k) {
        WithoutMembers(order, Loaded(deps, k), m);
        assert m in order <==> m in SetOf(order);
      }
    }

    // The recursion over the rounds, on a stack that has room for `frames` calls.
    method DependencyOrder(k: nat, frames: nat) returns (ok: bool, ghost rounds: nat)
      requires AtRound(k)
      modifies this
      ensures ok <==> EndsWithin(deps, k, frames)
      ensures ok ==> AtRound(rounds) && AllLoaded(deps, rounds)
      ensures ok ==> forall j: nat :: k <= j < rounds ==> !AllLoaded(deps, j)
      decreases frames
    {
      if frames == 0 {
        return false, 0;
      }
      AtRoundMembers(k);
      LoadedAreModules(deps, k);
      if |pending| == 0 {
        assert AllLoaded(deps, k);
        return true, k;
      }
      assert pending[0] in pending;
      LoadRound(k);
      ok, rounds := DependencyOrder(k + 1, frames - 1);
    }
  }

  // The stack room decides only for circular or missing dependencies, or when it is short.
  lemma {:induction false} EndsIffLoadable(deps: Dependencies, frames: nat)
    ensures EndsWithin(deps, 0, frames) ==> Closed(deps) && Acyclic(deps)
    ensures frames > |deps.Keys| && Closed(deps) && Acyclic(deps) ==> EndsWithin(deps, 0, frames)
  {
    LoadableIff(deps);
    if r :| 0 <= r < frames && AllLoaded(deps, r) {
      assert Loadable(deps);
    }
    if Closed(deps) && Acyclic(deps) {
      EverythingLoads(deps);
      assert AllLoaded(deps, |deps.Keys|);
    }
  }

  // Sorts the libraries: a permutation in which each comes after its dependencies, found
  // exactly if the rounds fit on the stack.  With room for one call more than there are
  // libraries that is the case if and only if no dependency is missing or circular.
  method SortToDependencies(deps: Dependencies, keys: seq<Module>, frames: nat) returns (outcome: Outcome)
    requires Distinct(keys) && SetOf(keys) == deps.Keys
    ensures outcome.Sorted? <==> EndsWithin(deps, 0, frames)
    ensures outcome.Sorted? ==>
      multiset(outcome.libraries) == multiset(keys) && AfterDependencies(deps, outcome.libraries)
    ensures outcome.Sorted? ==> Closed(deps) && Acyclic(deps)
    ensures outcome.Sorted? ==> exists n :: AllLoaded(deps, n) && outcome.libraries == Parts(keys, Stages(deps, n))
    ensures frames > |deps.Keys| && Closed(deps) && Acyclic(deps) ==> outcome.Sorted?
  {
    EndsIffLoadable(deps, frames);
    var sorter := new Sorter(deps, keys);
    ghost var rounds;
    var ok;
    ok, rounds := sorter.DependencyOrder(0, frames);
    if !ok {
      return RecursionError;
    }
    var sortedLibraries := sorter.Concatenate(rounds);
    SetOfMembers(keys);
    RoundsSort(deps, keys, rounds);
    return Sorted(sortedLibraries);
  }
}
