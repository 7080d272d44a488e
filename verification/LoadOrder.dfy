/**
 The order in which the Python bindings load the libraries: `sort_to_dependencies` of
 bindings/python/ns__init__.py. Each round of `dependency_order` loads the pending libraries all of
 whose dependencies were loaded before the round, and the rounds go on until nothing is pending.
 */
module LoadOrder {
  import opened Sequences

  type Library = string

  type Dependencies = map<Library, seq<Library>>

  // ----- Dependency graphs -----

  /** Every library that is depended on is among the libraries to load. */
  ghost predicate Closed(deps: Dependencies) {
    forall m, d :: m in deps && d in deps[m] ==> d in deps
  }

  /** Each library of the chain depends on the one after it. */
  ghost predicate IsChain(deps: Dependencies, chain: seq<Library>) {
    && chain != []
    && (forall i :: 0 <= i < |chain| ==> chain[i] in deps)
    && forall i :: 0 <= i < |chain| - 1 ==> chain[i + 1] in deps[chain[i]]
  }

  ghost predicate Acyclic(deps: Dependencies) {
    forall chain :: IsChain(deps, chain) && |chain| > 1 ==> chain[0] != chain[|chain| - 1]
  }

  /** The longest chain of dependencies that starts at `m` has exactly `n` steps. */
  ghost predicate HasDepth(deps: Dependencies, m: Library, n: nat) {
    && (exists chain :: IsChain(deps, chain) && chain[0] == m && |chain| == n + 1)
    && (forall chain :: IsChain(deps, chain) && chain[0] == m ==> |chain| <= n + 1)
  }

  // ----- Layers -----

  function Flatten(layers: seq<seq<Library>>): seq<Library> {
    if layers == [] then [] else Flatten(layers[..|layers| - 1]) + layers[|layers| - 1]
  }

  ghost predicate Ready(deps: Dependencies, m: Library, loaded: seq<Library>) {
    m in deps && forall d :: d in deps[m] ==> d in loaded
  }

  /** A library's dependencies are in the layers before its own, but not all in those before the previous one. */
  ghost predicate Placed(deps: Dependencies, layers: seq<seq<Library>>, k: nat, m: Library)
    requires k <= |layers|
  {
    && Ready(deps, m, Flatten(layers[..k]))
    && (k > 0 ==> !Ready(deps, m, Flatten(layers[..k - 1])))
  }

  ghost predicate Layered(deps: Dependencies, layers: seq<seq<Library>>) {
    forall k, m :: 0 <= k < |layers| && m in layers[k] ==> Placed(deps, layers, k, m)
  }

  lemma {:induction false} InFlatten(layers: seq<seq<Library>>, x: Library)
    ensures x in Flatten(layers) <==> exists k :: 0 <= k < |layers| && x in layers[k]
  {
    if layers != [] {
      InFlatten(layers[..|layers| - 1], x);
    }
  }

  /** The dependencies of a library are in earlier layers, and one is in the layer just before, if there is one. */
  lemma LayerOfDependency(deps: Dependencies, layers: seq<seq<Library>>, k: nat, m: Library)
    requires Layered(deps, layers) && k < |layers| && m in layers[k]
    ensures forall d :: d in deps[m] ==> exists l :: 0 <= l < k && d in layers[l]
    ensures k > 0 ==> exists d :: d in deps[m] && d in layers[k - 1]
  {
    assert Placed(deps, layers, k, m);
    forall d | d in deps[m] ensures exists l :: 0 <= l < k && d in layers[l] {
      InFlatten(layers[..k], d);
    }
    if k > 0 {
      var d :| d in deps[m] && d !in Flatten(layers[..k - 1]);
      InFlatten(layers[..k], d);
      InFlatten(layers[..k - 1], d);
      assert forall l :: 0 <= l < k - 1 ==> layers[..k - 1][l] == layers[l];
      var l :| 0 <= l < k && d in layers[..k][l];
      assert l == k - 1;
    }
  }

  lemma {:induction false} ChainsAreShort(deps: Dependencies, layers: seq<seq<Library>>, k: nat, chain: seq<Library>)
    requires Layered(deps, layers) && k < |layers| && IsChain(deps, chain) && chain[0] in layers[k]
    ensures |chain| <= k + 1
    decreases k
  {
    if |chain| > 1 {
      LayerOfDependency(deps, layers, k, chain[0]);
      assert chain[0 + 1] in deps[chain[0]];
      var l :| 0 <= l < k && chain[1] in layers[l];
      var rest := chain[1..];
      forall i | 0 <= i < |rest| - 1 ensures rest[i + 1] in deps[rest[i]] {
        assert chain[i + 1 + 1] in deps[chain[i + 1]];
      }
      ChainsAreShort(deps, layers, l, rest);
    }
  }

  lemma {:induction false} LongChain(deps: Dependencies, layers: seq<seq<Library>>, k: nat, m: Library)
    returns (chain: seq<Library>)
    requires Layered(deps, layers) && k < |layers| && m in layers[k]
    ensures IsChain(deps, chain) && chain[0] == m && |chain| == k + 1
    decreases k
  {
    assert Placed(deps, layers, k, m);
    if k == 0 {
      return [m];
    }
    LayerOfDependency(deps, layers, k, m);
    var d :| d in deps[m] && d in layers[k - 1];
    var rest := LongChain(deps, layers, k - 1, d);
    chain := [m] + rest;
    forall i | 0 <= i < |chain| - 1 ensures chain[i + 1] in deps[chain[i]] {
      assert i > 0 ==> rest[i - 1 + 1] in deps[rest[i - 1]];
    }
  }

  /** The number of a layer is the length of the longest chain of dependencies of each library in it. */
  lemma LayersAreDepths(deps: Dependencies, layers: seq<seq<Library>>, k: nat, m: Library)
    requires Layered(deps, layers) && k < |layers| && m in layers[k]
    ensures HasDepth(deps, m, k)
  {
    var chain := LongChain(deps, layers, k, m);
    forall c | IsChain(deps, c) && c[0] == m ensures |c| <= k + 1 {
      ChainsAreShort(deps, layers, k, c);
    }
  }

  /** A graph whose libraries all have a place in some layer has no cycle. */
  lemma LayeredIsAcyclic(deps: Dependencies, layers: seq<seq<Library>>)
    requires Layered(deps, layers)
    requires forall m :: m in deps ==> m in Flatten(layers)
    ensures Acyclic(deps)
  {
    forall chain | IsChain(deps, chain) && |chain| > 1 ensures chain[0] != chain[|chain| - 1] {
      if chain[0] == chain[|chain| - 1] {
        InFlatten(layers, chain[0]);
        var k :| 0 <= k < |layers| && chain[0] in layers[k];
        var long := GoRound(deps, chain, k + 1);
        ChainsAreShort(deps, layers, k, long);
      }
    }
  }

  /** Going round a cycle often enough gives chains as long as one likes. */
  lemma {:induction false} GoRound(deps: Dependencies, cycle: seq<Library>, n: nat) returns (chain: seq<Library>)
    requires IsChain(deps, cycle) && |cycle| > 1 && cycle[0] == cycle[|cycle| - 1]
    ensures IsChain(deps, chain) && chain[0] == cycle[0] && |chain| > n
  {
    if n == 0 {
      return cycle;
    }
    var rest := GoRound(deps, cycle, n - 1);
    var front := cycle[..|cycle| - 1];
    chain := front + rest;
    forall i | 0 <= i < |chain| - 1 ensures chain[i + 1] in deps[chain[i]] {
      if i < |front| {
        assert cycle[i + 1] in deps[cycle[i]];
      } else {
        assert rest[i - |front| + 1] in deps[rest[i - |front|]];
      }
    }
  }

  // ----- When a round loads nothing -----

  /** None of the pending libraries is ready: each waits for another pending library or a missing one. */
  ghost predicate Stuck(deps: Dependencies, pending: set<Library>) {
    && pending != {} && pending <= deps.Keys
    && forall m :: m in pending ==> exists d :: d in deps[m] && (d in pending || d !in deps)
  }

  lemma ExtendChain(deps: Dependencies, chain: seq<Library>, d: Library)
    requires IsChain(deps, chain) && d in deps && d in deps[chain[|chain| - 1]]
    ensures IsChain(deps, chain + [d])
  {
    var longer := chain + [d];
    forall i | 0 <= i < |longer| - 1 ensures longer[i + 1] in deps[longer[i]] {
      if i < |chain| - 1 {
        assert chain[i + 1] in deps[chain[i]];
      }
    }
  }

  lemma SliceOfChain(deps: Dependencies, chain: seq<Library>, i: nat, j: nat)
    requires IsChain(deps, chain) && i < j <= |chain|
    ensures IsChain(deps, chain[i..j])
  {
    var part := chain[i..j];
    forall k | 0 <= k < |part| - 1 ensures part[k + 1] in deps[part[k]] {
      assert chain[i + k + 1] in deps[chain[i + k]];
    }
  }

  lemma SomeWaiting(deps: Dependencies, pending: set<Library>) returns (m: Library)
    requires Stuck(deps, pending)
    ensures m in pending && IsChain(deps, [m])
  {
    m :| m in pending;
  }

  ghost predicate DependsOnMissing(deps: Dependencies, pending: set<Library>) {
    exists m, d :: m in pending && m in deps && d in deps[m] && d !in deps
  }

  ghost predicate IsCycle(deps: Dependencies, cycle: seq<Library>) {
    IsChain(deps, cycle) && |cycle| > 1 && cycle[0] == cycle[|cycle| - 1]
  }

  ghost predicate HoldsCycle(deps: Dependencies, pending: set<Library>) {
    exists cycle :: IsCycle(deps, cycle) && forall k :: 0 <= k < |cycle| ==> cycle[k] in pending
  }

  lemma WaitsFor(deps: Dependencies, pending: set<Library>, m: Library) returns (d: Library)
    requires Stuck(deps, pending) && !DependsOnMissing(deps, pending) && m in pending
    ensures m in deps && d in deps && d in pending && d in deps[m]
  {
    d :| d in deps[m] && (d in pending || d !in deps);
  }

  lemma {:induction false} WaitingChain(deps: Dependencies, pending: set<Library>, n: nat) returns (chain: seq<Library>)
    requires Stuck(deps, pending) && !DependsOnMissing(deps, pending)
    ensures IsChain(deps, chain) && |chain| == n + 1
    ensures forall i :: 0 <= i < |chain| ==> chain[i] in pending
  {
    hide Stuck, DependsOnMissing, IsChain;
    if n == 0 {
      var m := SomeWaiting(deps, pending);
      return [m];
    }
    var front := WaitingChain(deps, pending, n - 1);
    var d := WaitsFor(deps, pending, front[n - 1]);
    ExtendChain(deps, front, d);
    chain := front + [d];
  }

  /** Libraries of which none is ready: some depends on a missing one, or there is a cycle among them. */
  lemma StuckMeansCycle(deps: Dependencies, pending: set<Library>)
    requires Stuck(deps, pending)
    ensures DependsOnMissing(deps, pending) || HoldsCycle(deps, pending)
  {
    hide Stuck, IsChain, DependsOnMissing;
    if !DependsOnMissing(deps, pending) {
      var chain := WaitingChain(deps, pending, |pending|);
      if NoDuplicates(chain) {
        Pigeonhole(chain, pending);
        assert false;
      }
      var i, j :| 0 <= i < j < |chain| && chain[i] == chain[j];
      SliceOfChain(deps, chain, i, j + 1);
      assert IsCycle(deps, chain[i..j + 1]);
    }
  }

  // ----- Rounds without end -----

  /** The libraries that are loaded after n rounds. */
  ghost function LoadedAfter(deps: Dependencies, n: nat): set<Library> {
    if n == 0 then {}
    else LoadedAfter(deps, n - 1) + set m | m in deps && forall d :: d in deps[m] ==> d in LoadedAfter(deps, n - 1)
  }

  lemma {:induction false} LoadedGrows(deps: Dependencies, n: nat, more: nat)
    requires n <= more
    ensures LoadedAfter(deps, n) <= LoadedAfter(deps, more) <= deps.Keys
    decreases more
  {
    if more > 0 {
      LoadedGrows(deps, if n < more then n else n - 1, more - 1);
    }
  }

  /** A round that loads nothing is followed by none that does. */
  lemma {:induction false} NothingEverAfter(deps: Dependencies, n: nat, more: nat)
    requires LoadedAfter(deps, n + 1) == LoadedAfter(deps, n) && n <= more
    ensures LoadedAfter(deps, more) == LoadedAfter(deps, n)
    decreases more
  {
    if more > n {
      NothingEverAfter(deps, n, more - 1);
      if more > n + 1 {
        assert LoadedAfter(deps, more) == LoadedAfter(deps, n + 1);
      }
    }
  }

  /** Rounds load something until one does not. */
  lemma {:induction false} LoadedOrStuck(deps: Dependencies, n: nat)
    ensures |LoadedAfter(deps, n)| >= n || LoadedAfter(deps, n + 1) == LoadedAfter(deps, n)
  {
    if n > 0 {
      LoadedOrStuck(deps, n - 1);
      LoadedGrows(deps, n - 1, n);
      if LoadedAfter(deps, n) == LoadedAfter(deps, n - 1) {
        NothingEverAfter(deps, n - 1, n + 1);
      } else {
        SmallerSet(LoadedAfter(deps, n - 1), LoadedAfter(deps, n));
      }
    }
  }

  lemma SmallerSet(a: set<Library>, b: set<Library>)
    requires a < b
    ensures |a| < |b|
  {
    assert |b| == |a| + |b - a| by {
      assert b == a + (b - a);
    }
    assert b - a != {};
  }

  /** A chain that starts at a library is no longer than the number of rounds in which it was loaded. */
  lemma {:induction false} ChainsWithinRounds(deps: Dependencies, n: nat, chain: seq<Library>)
    requires IsChain(deps, chain) && chain[0] in LoadedAfter(deps, n)
    ensures |chain| <= n
  {
    if chain[0] in LoadedAfter(deps, n - 1) {
      ChainsWithinRounds(deps, n - 1, chain);
    } else if |chain| > 1 {
      assert chain[0 + 1] in deps[chain[0]];
      SliceOfChain(deps, chain, 1, |chain|);
      ChainsWithinRounds(deps, n - 1, chain[1..|chain|]);
    }
  }

  lemma CompleteMeansClosedAndAcyclic(deps: Dependencies, n: nat)
    requires LoadedAfter(deps, n) == deps.Keys
    ensures Closed(deps) && Acyclic(deps)
  {
    forall chain | IsChain(deps, chain) && |chain| > 1 ensures chain[0] != chain[|chain| - 1] {
      if chain[0] == chain[|chain| - 1] {
        var long := GoRound(deps, chain, n);
        ChainsWithinRounds(deps, n, long);
      }
    }
    LoadedAreServed(deps, n);
  }

  lemma {:induction false} LoadedAreServed(deps: Dependencies, n: nat)
    ensures forall m, d :: m in LoadedAfter(deps, n) && m in deps && d in deps[m] ==> d in LoadedAfter(deps, n)
    ensures LoadedAfter(deps, n) <= deps.Keys
  {
    if n > 0 {
      LoadedAreServed(deps, n - 1);
    }
  }

  /** What the rounds do not load any more is stuck. */
  lemma RestIsStuck(deps: Dependencies, n: nat)
    requires LoadedAfter(deps, n + 1) == LoadedAfter(deps, n) != deps.Keys
    ensures Stuck(deps, deps.Keys - LoadedAfter(deps, n))
  {
    LoadedGrows(deps, n, n);
    var loaded := LoadedAfter(deps, n);
    forall m | m in deps.Keys - loaded
      ensures exists d :: d in deps[m] && (d in deps.Keys - loaded || d !in deps)
    {
      assert m !in LoadedAfter(deps, n + 1);
    }
    assert deps.Keys - loaded != {};
  }

  /**
   The rounds come to an end exactly for closed and acyclic dependencies, after no more rounds than there are
   libraries. For all others something is pending after any number of rounds, and the recursion goes on.
   */
  lemma RoundsEndIffClosedAndAcyclic(deps: Dependencies)
    ensures Closed(deps) && Acyclic(deps) ==> LoadedAfter(deps, |deps|) == deps.Keys
    ensures !(Closed(deps) && Acyclic(deps)) ==> forall n: nat :: LoadedAfter(deps, n) != deps.Keys
  {
    var n := |deps|;
    if LoadedAfter(deps, n) != deps.Keys {
      LoadedGrows(deps, n, n);
      SmallerSet(LoadedAfter(deps, n), deps.Keys);
      assert |deps.Keys| == n;
      LoadedOrStuck(deps, n);
      RestIsStuck(deps, n);
      StuckIsNotClosedAndAcyclic(deps, deps.Keys - LoadedAfter(deps, n));
    }
    forall k: nat | LoadedAfter(deps, k) == deps.Keys ensures Closed(deps) && Acyclic(deps) {
      CompleteMeansClosedAndAcyclic(deps, k);
    }
  }

  lemma StuckIsNotClosedAndAcyclic(deps: Dependencies, pending: set<Library>)
    requires Stuck(deps, pending)
    ensures !Closed(deps) || !Acyclic(deps)
  {
    StuckMeansCycle(deps, pending);
    if HoldsCycle(deps, pending) {
      var cycle :| IsCycle(deps, cycle);
      assert IsChain(deps, cycle) && |cycle| > 1;
    }
  }

  // ----- The program -----

  function RemoveFirst(s: seq<Library>, x: Library): seq<Library> {
    if s == [] then [] else if s[0] == x then s[1..] else [s[0]] + RemoveFirst(s[1..], x)
  }

  lemma {:induction false} RemoveFirstOnly(s: seq<Library>, x: Library)
    requires NoDuplicates(s) && x in s
    ensures NoDuplicates(RemoveFirst(s, x)) && |RemoveFirst(s, x)| == |s| - 1
    ensures Elements(RemoveFirst(s, x)) == Elements(s) - {x}
  {
    assert s == [s[0]] + s[1..];
    assert s[0] !in s[1..];
    if s[0] != x {
      var rest := RemoveFirst(s[1..], x);
      RemoveFirstOnly(s[1..], x);
      assert s[0] !in Elements(rest);
      NoDuplicatesConcat([s[0]], rest);
      assert Elements([s[0]] + rest) == {s[0]} + Elements(rest);
    }
  }

  /** What is known between two rounds: which libraries are loaded and why the others are not. */
  ghost predicate RoundsOk(deps: Dependencies, layers: seq<seq<Library>>, current: seq<Library>,
                           pending: seq<Library>)
  {
    && current == Flatten(layers)
    && Layered(deps, layers)
    && NoDuplicates(current) && NoDuplicates(pending)
    && Elements(current) !! Elements(pending)
    && Elements(current) + Elements(pending) == deps.Keys
    && (|layers| > 0 ==> forall m :: m in pending ==> !Ready(deps, m, Flatten(layers[..|layers| - 1])))
    && Elements(current) == LoadedAfter(deps, |layers|)
  }

  // ----- The order within a layer -----

  /** The libraries of a list that are in a set, in the order of the list. */
  ghost function Kept(libraries: seq<Library>, keep: set<Library>): seq<Library> {
    if libraries == [] then []
    else
      var last := libraries[|libraries| - 1];
      Kept(libraries[..|libraries| - 1], keep) + if last in keep then [last] else []
  }

  lemma KeptAppend(s: seq<Library>, x: Library, keep: set<Library>)
    ensures Kept(s + [x], keep) == Kept(s, keep) + if x in keep then [x] else []
  {
    assert (s + [x])[..|s|] == s;
  }

  lemma {:induction false} KeptFront(x: Library, s: seq<Library>, keep: set<Library>)
    ensures Kept([x] + s, keep) == (if x in keep then [x] else []) + Kept(s, keep)
  {
    if s == [] {
      KeptAppend([], x, keep);
      assert [] + [x] == [x] + s;
    } else {
      var front, last := s[..|s| - 1], s[|s| - 1];
      KeptFront(x, front, keep);
      KeptAppend([x] + front, last, keep);
      assert [x] + s == [x] + front + [last];
    }
  }

  lemma {:induction false} KeptAll(s: seq<Library>, keep: set<Library>)
    requires forall x :: x in s ==> x in keep
    ensures Kept(s, keep) == s
  {
    if s != [] {
      KeptAll(s[..|s| - 1], keep);
      assert s[|s| - 1] in keep;
    }
  }

  lemma {:induction false} KeptTwice(s: seq<Library>, a: set<Library>, b: set<Library>)
    ensures Kept(Kept(s, a), b) == Kept(s, a * b)
  {
    if s != [] {
      var front, last := s[..|s| - 1], s[|s| - 1];
      KeptTwice(front, a, b);
      KeptAppend(Kept(front, a), last, b);
      assert Kept(front, a) + [] == Kept(front, a);
    }
  }

  lemma {:induction false} RemoveFirstKeeps(s: seq<Library>, x: Library, keep: set<Library>)
    requires NoDuplicates(s) && x in s && x !in keep && forall y :: y in s && y != x ==> y in keep
    ensures RemoveFirst(s, x) == Kept(s, keep)
  {
    assert s == [s[0]] + s[1..];
    KeptFront(s[0], s[1..], keep);
    if s[0] == x {
      forall y | y in s[1..] ensures y in keep {
        assert y in s && y != s[0];
      }
      KeptAll(s[1..], keep);
    } else {
      RemoveFirstKeeps(s[1..], x, keep);
    }
  }

  /** Each layer lists its libraries in the order of the keys. */
  ghost predicate InOrderOf(keys: seq<Library>, layers: seq<seq<Library>>) {
    forall k :: 0 <= k < |layers| ==> layers[k] == Kept(keys, Elements(layers[k]))
  }

  ghost predicate InKeyOrder(keys: seq<Library>, layers: seq<seq<Library>>, pending: seq<Library>) {
    pending == Kept(keys, Elements(pending)) && InOrderOf(keys, layers)
  }

  lemma RemovalKeepsOrder(keys: seq<Library>, pending: seq<Library>, m: Library)
    requires pending == Kept(keys, Elements(pending)) && NoDuplicates(pending) && m in pending
    ensures RemoveFirst(pending, m) == Kept(keys, Elements(RemoveFirst(pending, m)))
  {
    var left := Elements(pending) - {m};
    RemoveFirstOnly(pending, m);
    RemoveFirstKeeps(pending, m, left);
    KeptTwice(keys, Elements(pending), left);
    assert Elements(pending) * left == left;
  }

  lemma RoundKeepsOrder(keys: seq<Library>, layers: seq<seq<Library>>, waiting: seq<Library>, modules: seq<Library>)
    requires InKeyOrder(keys, layers, waiting) && modules == Kept(waiting, Elements(modules))
    requires Elements(modules) <= Elements(waiting)
    ensures InOrderOf(keys, layers + [modules])
  {
    KeptTwice(keys, Elements(waiting), Elements(modules));
    assert Elements(waiting) * Elements(modules) == Elements(modules);
  }

  /** The outcome that the source promises: the layers of the dependency graph, and every library in one of them. */
  ghost predicate IsLoadOrder(deps: Dependencies, layers: seq<seq<Library>>) {
    && NoDuplicates(Flatten(layers))
    && Elements(Flatten(layers)) == deps.Keys
    && forall k, m :: 0 <= k < |layers| && m in layers[k] ==>
         && HasDepth(deps, m, k)
         && forall d :: d in deps[m] ==> exists l :: 0 <= l < k && d in layers[l]
  }

  lemma LayeredIsLoadOrder(deps: Dependencies, layers: seq<seq<Library>>)
    requires Layered(deps, layers) && NoDuplicates(Flatten(layers)) && Elements(Flatten(layers)) == deps.Keys
    ensures IsLoadOrder(deps, layers)
  {
    forall k, m | 0 <= k < |layers| && m in layers[k]
      ensures HasDepth(deps, m, k)
      ensures forall d :: d in deps[m] ==> exists l :: 0 <= l < k && d in layers[l]
    {
      LayersAreDepths(deps, layers, k, m);
      LayerOfDependency(deps, layers, k, m);
    }
  }

  lemma LoadOrderIsClosedAndAcyclic(deps: Dependencies, layers: seq<seq<Library>>)
    requires Layered(deps, layers) && Elements(Flatten(layers)) == deps.Keys
    ensures Closed(deps) && Acyclic(deps)
  {
    forall m, d | m in deps && d in deps[m] ensures d in deps {
      assert m in Elements(Flatten(layers));
      InFlatten(layers, m);
      var k :| 0 <= k < |layers| && m in layers[k];
      LayerOfDependency(deps, layers, k, m);
      InFlatten(layers, d);
      assert d in Elements(Flatten(layers));
    }
    forall m | m in deps ensures m in Flatten(layers) {
      assert m in Elements(Flatten(layers));
    }
    LayeredIsAcyclic(deps, layers);
  }

  class LoadPlan {
    const deps: Dependencies
    // The libraries in the order in which they were given.
    ghost const keys: seq<Library>
    var pending: seq<Library>
    var current: seq<Library>
    var steps: seq<seq<Library>>

    ghost predicate Valid()
      reads this
    {
      RoundsOk(deps, steps, current, pending) && InKeyOrder(keys, steps, pending)
    }

    constructor (deps: Dependencies, keys: seq<Library>)
      requires NoDuplicates(keys) && Elements(keys) == deps.Keys
      ensures Valid() && this.deps == deps && this.keys == keys && steps == []
    {
      KeptAll(keys, Elements(keys));
      this.deps, this.keys := deps, keys;
      pending, current, steps := keys, [], [];
    }

    method ModulesThatCanBeLoaded() returns (modules: seq<Library>)
      requires Valid()
      ensures NoDuplicates(modules) && modules == Kept(pending, Elements(modules))
      ensures forall m :: m in modules <==> m in pending && Ready(deps, m, current)
    {
      hide Layered, Placed, Flatten, InKeyOrder;
      ghost var ready := set m | m in pending && Ready(deps, m, current);
      modules := [];
      for i := 0 to |pending|
        invariant modules == Kept(pending[..i], ready)
        invariant NoDuplicates(modules)
        invariant forall m :: m in modules <==> m in pending[..i] && Ready(deps, m, current)
      {
        var pendingModule := pending[i];
        assert pendingModule in Elements(pending);
        var canBeLoaded := true;
        var dependencies := deps[pendingModule];
        for j := 0 to |dependencies|
          invariant canBeLoaded
          invariant forall d :: d in dependencies[..j] ==> d in current
        {
          if dependencies[j] !in current {
            canBeLoaded := false;
            break;
          }
        }
        assert canBeLoaded <==> Ready(deps, pendingModule, current);
        assert pendingModule !in pending[..i];
        assert pending[..i + 1] == pending[..i] + [pendingModule];
        KeptAppend(pending[..i], pendingModule, ready);
        if !canBeLoaded {
          continue;
        }
        NoDuplicatesAppend(modules, pendingModule);
        modules := modules + [pendingModule];
      }
      assert pending[..|pending|] == pending;
      assert Elements(modules) == ready;
    }

    /**
     Loads in rounds until nothing is pending, and says whether that was reached. If it was, the layers are
     complete. If not, something is pending after any number of rounds: the source recurses without end, and
     the outcome `false` stands for that.
     */
    method DependencyOrder(stepNumber: nat) returns (finished: bool)
      requires Valid() && stepNumber == |steps|
      modifies this
      ensures finished ==> InOrderOf(keys, steps)
      ensures finished ==> Layered(deps, steps) && NoDuplicates(Flatten(steps)) && Elements(Flatten(steps)) == deps.Keys
      ensures finished ==> LoadedAfter(deps, |steps|) == deps.Keys
      ensures !finished ==> Stuck(deps, Elements(pending)) && forall n: nat :: LoadedAfter(deps, n) != deps.Keys
      decreases |pending|
    {
      hide Layered, Placed, Flatten, Ready, Stuck, LoadedAfter, Kept, InOrderOf;
      if |pending| == 0 {
        return true;
      }
      ghost var layers, loaded, waiting := steps, current, pending;
      var modules := ModulesThatCanBeLoaded();
      steps := steps + [[]];
      for i := 0 to |modules|
        invariant steps == layers + [modules[..i]]
        invariant current == loaded + modules[..i]
        invariant NoDuplicates(pending) && |pending| == |waiting| - i
        invariant pending == Kept(keys, Elements(pending))
        invariant Elements(pending) == Elements(waiting) - Elements(modules[..i])
      {
        var m := modules[i];
        assert m in Elements(waiting) && m !in Elements(modules[..i]);
        assert modules[..i + 1] == modules[..i] + [m];
        assert Elements(modules[..i + 1]) == Elements(modules[..i]) + {m};
        steps := steps[stepNumber := steps[stepNumber] + [m]];
        assert m in Elements(pending);
        RemoveFirstOnly(pending, m);
        RemovalKeepsOrder(keys, pending, m);
        pending := RemoveFirst(pending, m);
        current := current + [m];
      }
      assert modules[..|modules|] == modules;
      RoundKeepsInvariant(deps, layers, loaded, waiting, modules, pending);
      RoundKeepsOrder(keys, layers, waiting, modules);
      if |modules| == 0 {
        assert Elements(pending) == Elements(waiting);
        StuckRound(deps, layers, loaded, waiting);
        return false;
      }
      finished := DependencyOrder(stepNumber + 1);
    }
  }

  lemma RoundLoads(deps: Dependencies, layers: seq<seq<Library>>, loaded: seq<Library>,
                   waiting: seq<Library>, modules: seq<Library>)
    requires RoundsOk(deps, layers, loaded, waiting)
    requires forall m :: m in modules <==> m in waiting && Ready(deps, m, loaded)
    ensures Elements(loaded + modules) == LoadedAfter(deps, |layers| + 1)
  {
    var before := LoadedAfter(deps, |layers|);
    hide Layered;
    forall m ensures m in Elements(loaded + modules) <==> m in LoadedAfter(deps, |layers| + 1) {
      assert m in loaded <==> m in before;
      assert Ready(deps, m, loaded) <==> m in deps && forall d :: d in deps[m] ==> d in before by {
        assert forall d :: d in loaded <==> d in before;
      }
      assert m in deps ==> m in Elements(loaded) || m in Elements(waiting);
    }
  }

  lemma RoundKeepsInvariant(deps: Dependencies, layers: seq<seq<Library>>, loaded: seq<Library>,
                            waiting: seq<Library>, modules: seq<Library>, pending: seq<Library>)
    requires RoundsOk(deps, layers, loaded, waiting)
    requires NoDuplicates(modules)
    requires forall m :: m in modules <==> m in waiting && Ready(deps, m, loaded)
    requires NoDuplicates(pending) && Elements(pending) == Elements(waiting) - Elements(modules)
    ensures RoundsOk(deps, layers + [modules], loaded + modules, pending)
  {
    RoundLoads(deps, layers, loaded, waiting, modules);
    hide LoadedAfter;
    var longer := layers + [modules];
    assert longer[..|layers|] == layers;
    assert Layered(deps, longer) by {
      forall k, m | 0 <= k < |longer| && m in longer[k] ensures Placed(deps, longer, k, m) {
        assert longer[..k] == layers[..k];
        assert k > 0 ==> longer[..k - 1] == layers[..k - 1];
        if k < |layers| {
          assert Placed(deps, layers, k, m);
        } else {
          assert layers[..k] == layers;
        }
      }
    }
    forall m | m in modules ensures m !in loaded {
      assert m in Elements(waiting) && m !in Elements(loaded);
    }
    NoDuplicatesConcat(loaded, modules);
    assert Elements(loaded + modules) == Elements(loaded) + Elements(modules);
    assert Elements(modules) <= Elements(waiting);
    forall m | m in pending ensures !Ready(deps, m, loaded) {
      assert m in Elements(pending);
    }
  }

  /** A round that loads nothing leaves stuck libraries, and no later round loads anything. */
  lemma StuckRound(deps: Dependencies, layers: seq<seq<Library>>, loaded: seq<Library>, pending: seq<Library>)
    requires RoundsOk(deps, layers, loaded, pending) && pending != []
    requires forall m :: m in pending ==> !Ready(deps, m, loaded)
    ensures Stuck(deps, Elements(pending))
    ensures forall n: nat :: n >= |layers| ==> LoadedAfter(deps, n) == Elements(loaded)
    ensures forall n: nat :: LoadedAfter(deps, n) != deps.Keys
  {
    RoundLoads(deps, layers, loaded, pending, []);
    assert loaded + [] == loaded;
    hide LoadedAfter, Layered;
    forall n: nat | n >= |layers| ensures LoadedAfter(deps, n) == Elements(loaded) {
      NothingEverAfter(deps, |layers|, n);
    }
    assert pending[0] in Elements(pending);
    forall n: nat ensures LoadedAfter(deps, n) != deps.Keys {
      LoadedGrows(deps, if n < |layers| then n else |layers|, |layers|);
      assert pending[0] in deps.Keys && pending[0] !in Elements(loaded);
    }
    forall m | m in Elements(pending)
      ensures exists d :: d in deps[m] && (d in Elements(pending) || d !in deps)
    {
      assert m in deps.Keys;
      var d :| d in deps[m] && d !in loaded;
      assert d !in Elements(loaded);
    }
  }

  /**
   Either a load order comes out or the recursion never ends. It ends exactly when the dependencies are
   closed and acyclic; then the order holds each library once, the layers are those of the longest
   chains, and every dependency is in an earlier layer. If it does not end, one of the libraries that are
   left over depends on a missing library, or there is a cycle among them.
   */
  method SortToDependencies(deps: Dependencies, keys: seq<Library>)
    returns (sorted: Option<seq<Library>>, left: seq<Library>)
    requires NoDuplicates(keys) && Elements(keys) == deps.Keys
    ensures sorted.Some? <==> Closed(deps) && Acyclic(deps)
    ensures sorted.Some? ==>
      exists layers :: sorted.value == Flatten(layers) && IsLoadOrder(deps, layers) && InOrderOf(keys, layers)
    ensures sorted.None? ==> DependsOnMissing(deps, Elements(left)) || HoldsCycle(deps, Elements(left))
    ensures sorted.None? <==> forall n: nat :: LoadedAfter(deps, n) != deps.Keys
  {
    hide IsLoadOrder, InOrderOf, Layered, Stuck, LoadedAfter, Closed, Acyclic, DependsOnMissing, HoldsCycle;
    var plan := new LoadPlan(deps, keys);
    var finished := plan.DependencyOrder(0);
    left := plan.pending;
    if !finished {
      StuckMeansCycle(deps, Elements(left));
      StuckIsNotClosedAndAcyclic(deps, Elements(left));
      return None, left;
    }
    LayeredIsLoadOrder(deps, plan.steps);
    LoadOrderIsClosedAndAcyclic(deps, plan.steps);
    var sortedLibraries: seq<Library> := [];
    for i := 0 to |plan.steps|
      invariant sortedLibraries == Flatten(plan.steps[..i])
    {
      assert plan.steps[..i + 1][..i] == plan.steps[..i];
      sortedLibraries := sortedLibraries + plan.steps[i];
    }
    assert plan.steps[..|plan.steps|] == plan.steps;
    sorted := Some(sortedLibraries);
  }
}
