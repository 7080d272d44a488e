/**
 The configuration-path gatherer: `StaticInformation` of utils/print-introspected-doxygen.cc.

 The types form a directed multigraph that may contain cycles. `DoGather` walks it depth first,
 keeping the types on the current walk in one stack and the labels of the walk in another, and
 appends one record per visit. `Edges` collects, in the program's order, the steps it can take from a
 type; `Records` is what one call appends. The theorems relate `Records` to the simple walks
 of the graph, which are defined without reference to the traversal.
 */
module ConfigPaths {
  import opened Sequences

  type Tid = nat

  datatype Edge = Edge(name: string, target: Tid)

  type Record = (Tid, string)

  // ----- The type graph -----

  /** For each type the steps that lead out of it, in the order in which the gatherer tries them. */
  type Adjacency = map<Tid, seq<Edge>>

  ghost predicate Closed(adj: Adjacency) {
    forall t :: t in adj ==> Targets(adj, adj[t])
  }

  ghost predicate Targets(adj: Adjacency, edges: seq<Edge>) {
    forall e :: e in edges ==> e.target in adj
  }

  /** Pushing a new type leaves fewer types that are not on the stack. */
  lemma Narrower(adj: Adjacency, tid: Tid, ancestors: seq<Tid>)
    requires tid in adj.Keys && tid !in ancestors
    ensures adj.Keys - Elements(ancestors + [tid]) < adj.Keys - Elements(ancestors)
    ensures Elements(ancestors + [tid]) == Elements(ancestors) + {tid}
  {
    assert tid in Elements(ancestors + [tid]);
    assert Elements(ancestors) <= Elements(ancestors + [tid]);
  }

  // ----- What one call appends -----

  function PathString(path: seq<string>): string {
    if path == [] then "" else PathString(path[..|path| - 1]) + "/" + path[|path| - 1]
  }

  ghost function Records(adj: Adjacency, tid: Tid, ancestors: seq<Tid>, path: seq<string>): seq<Record>
    requires Closed(adj) && tid in adj.Keys
    decreases adj.Keys - Elements(ancestors), 0, 0
  {
    if tid in ancestors then []
    else
      Narrower(adj, tid, ancestors);
      [(tid, PathString(path))] + EdgeRecords(adj, adj[tid], ancestors + [tid], path)
  }

  ghost function EdgeRecords(adj: Adjacency, edges: seq<Edge>, ancestors: seq<Tid>, path: seq<string>): seq<Record>
    requires Closed(adj) && Targets(adj, edges)
    decreases adj.Keys - Elements(ancestors), 1, |edges|
  {
    if edges == [] then []
    else
      var e := edges[|edges| - 1];
      assert e in edges;
      EdgeRecords(adj, edges[..|edges| - 1], ancestors, path) +
      Records(adj, e.target, ancestors, path + [e.name])
  }

  lemma RecordsOfVisit(adj: Adjacency, tid: Tid, ancestors: seq<Tid>, path: seq<string>)
    requires Closed(adj) && tid in adj && tid !in ancestors
    ensures Targets(adj, adj[tid])
    ensures Records(adj, tid, ancestors, path)
         == [(tid, PathString(path))] + EdgeRecords(adj, adj[tid], ancestors + [tid], path)
  {
  }

  lemma RecordsOfRevisit(adj: Adjacency, tid: Tid, ancestors: seq<Tid>, path: seq<string>)
    requires Closed(adj) && tid in adj && tid in ancestors
    ensures Records(adj, tid, ancestors, path) == []
  {
  }

  lemma EdgeRecordsNone(adj: Adjacency, ancestors: seq<Tid>, path: seq<string>)
    requires Closed(adj)
    ensures Targets(adj, []) && EdgeRecords(adj, [], ancestors, path) == []
  {
  }

  lemma EdgeRecordsAppend(adj: Adjacency, edges: seq<Edge>, e: Edge, ancestors: seq<Tid>, path: seq<string>)
    requires Closed(adj) && Targets(adj, edges) && e.target in adj.Keys
    ensures Targets(adj, edges + [e])
    ensures EdgeRecords(adj, edges + [e], ancestors, path)
         == EdgeRecords(adj, edges, ancestors, path) + Records(adj, e.target, ancestors, path + [e.name])
  {
    assert (edges + [e])[..|edges|] == edges;
  }

  // ----- Walks of the graph -----

  /** A walk is given by the positions of its edges, so parallel edges give different walks. */
  ghost predicate IsWalk(adj: Adjacency, from: Tid, walk: seq<nat>)
    requires Closed(adj) && from in adj.Keys
    decreases walk
  {
    walk == [] ||
    (walk[0] < |adj[from]| && IsWalk(adj, adj[from][walk[0]].target, walk[1..]))
  }

  ghost function Visited(adj: Adjacency, from: Tid, walk: seq<nat>): (types: seq<Tid>)
    requires Closed(adj) && from in adj.Keys && IsWalk(adj, from, walk)
    decreases walk
    ensures |types| == |walk| + 1
  {
    if walk == [] then [from]
    else [from] + Visited(adj, adj[from][walk[0]].target, walk[1..])
  }

  ghost function Labels(adj: Adjacency, from: Tid, walk: seq<nat>): seq<string>
    requires Closed(adj) && from in adj.Keys && IsWalk(adj, from, walk)
    decreases walk
  {
    if walk == [] then []
    else
      [adj[from][walk[0]].name] + Labels(adj, adj[from][walk[0]].target, walk[1..])
  }

  ghost predicate IsSimpleWalk(adj: Adjacency, from: Tid, walk: seq<nat>)
    requires Closed(adj) && from in adj.Keys
  {
    IsWalk(adj, from, walk) && NoDuplicates(Visited(adj, from, walk))
  }

  /** The record that stands for a walk: where it ends, and its labels after those already on the path. */
  ghost function RecordOf(adj: Adjacency, from: Tid, path: seq<string>, walk: seq<nat>): Record
    requires Closed(adj) && from in adj.Keys && IsWalk(adj, from, walk)
  {
    (Visited(adj, from, walk)[|walk|], PathString(path + Labels(adj, from, walk)))
  }

  // ----- The walks in the order of the traversal -----

  ghost function Prepend(k: nat, walks: seq<seq<nat>>): (r: seq<seq<nat>>)
    ensures |r| == |walks|
    ensures forall i :: 0 <= i < |r| ==> r[i] == [k] + walks[i]
  {
    seq(|walks|, i requires 0 <= i < |walks| => [k] + walks[i])
  }

  ghost function Walks(adj: Adjacency, tid: Tid, ancestors: seq<Tid>): seq<seq<nat>>
    requires Closed(adj) && tid in adj.Keys
    decreases adj.Keys - Elements(ancestors), 0, 0
  {
    if tid in ancestors then []
    else
      Narrower(adj, tid, ancestors);
      [[]] + EdgeWalks(adj, adj[tid], ancestors + [tid])
  }

  ghost function EdgeWalks(adj: Adjacency, edges: seq<Edge>, ancestors: seq<Tid>): seq<seq<nat>>
    requires Closed(adj) && Targets(adj, edges)
    decreases adj.Keys - Elements(ancestors), 1, |edges|
  {
    if edges == [] then []
    else
      var e := edges[|edges| - 1];
      assert e in edges;
      EdgeWalks(adj, edges[..|edges| - 1], ancestors) + Prepend(|edges| - 1, Walks(adj, e.target, ancestors))
  }

  // ----- Each record is the record of its walk -----

  lemma {:induction false} RecordsMatchWalks(adj: Adjacency, tid: Tid, ancestors: seq<Tid>, path: seq<string>)
    requires Closed(adj) && tid in adj.Keys
    ensures |Records(adj, tid, ancestors, path)| == |Walks(adj, tid, ancestors)|
    ensures forall i {:trigger Walks(adj, tid, ancestors)[i]} :: 0 <= i < |Walks(adj, tid, ancestors)| ==>
      && IsWalk(adj, tid, Walks(adj, tid, ancestors)[i])
      && Records(adj, tid, ancestors, path)[i] == RecordOf(adj, tid, path, Walks(adj, tid, ancestors)[i])
    decreases adj.Keys - Elements(ancestors), 0, 0
  {
    hide IsWalk, RecordOf, EdgeRecords, EdgeWalks, PathString;
    if tid !in ancestors {
      var inner := ancestors + [tid];
      Narrower(adj, tid, ancestors);
      var n := |adj[tid]|;
      assert adj[tid][..n] == adj[tid];
      RecordsOfVisit(adj, tid, ancestors, path);
      EdgeRecordsMatchWalks(adj, tid, n, inner, path);
      RecordOfStaying(adj, tid, path);
    }
  }

  lemma RecordOfStaying(adj: Adjacency, tid: Tid, path: seq<string>)
    requires Closed(adj) && tid in adj.Keys
    ensures IsWalk(adj, tid, []) && RecordOf(adj, tid, path, []) == (tid, PathString(path))
  {
    assert path + [] == path;
  }

  lemma {:induction false} EdgeRecordsMatchWalks(adj: Adjacency, from: Tid, n: nat, ancestors: seq<Tid>,
                                                 path: seq<string>)
    requires Closed(adj) && from in adj.Keys && n <= |adj[from]|
    requires Targets(adj, adj[from][..n])
    ensures |EdgeRecords(adj, adj[from][..n], ancestors, path)| == |EdgeWalks(adj, adj[from][..n], ancestors)|
    ensures forall i {:trigger EdgeWalks(adj, adj[from][..n], ancestors)[i]} ::
      0 <= i < |EdgeWalks(adj, adj[from][..n], ancestors)| ==>
        && IsWalk(adj, from, EdgeWalks(adj, adj[from][..n], ancestors)[i])
        && EdgeRecords(adj, adj[from][..n], ancestors, path)[i]
           == RecordOf(adj, from, path, EdgeWalks(adj, adj[from][..n], ancestors)[i])
    decreases adj.Keys - Elements(ancestors), 1, n
  {
    hide IsWalk, RecordOf, Records, Walks;
    if n > 0 {
      var e := adj[from][n - 1];
      assert e in adj[from][..n];
      assert adj[from][..n][..n - 1] == adj[from][..n - 1];
      EdgeRecordsMatchWalks(adj, from, n - 1, ancestors, path);
      RecordsMatchWalks(adj, e.target, ancestors, path + [e.name]);
      var records := EdgeRecords(adj, adj[from][..n - 1], ancestors, path);
      var back := Records(adj, e.target, ancestors, path + [e.name]);
      var walks, tails := EdgeWalks(adj, adj[from][..n - 1], ancestors), Walks(adj, e.target, ancestors);
      var allRecords := EdgeRecords(adj, adj[from][..n], ancestors, path);
      var allWalks := EdgeWalks(adj, adj[from][..n], ancestors);
      assert allRecords == records + back;
      assert allWalks == walks + Prepend(n - 1, tails);
      forall i {:trigger allWalks[i]} | 0 <= i < |allWalks|
        ensures IsWalk(adj, from, allWalks[i])
        ensures allRecords[i] == RecordOf(adj, from, path, allWalks[i])
      {
        if i >= |walks| {
          StepRecord(adj, from, n - 1, path, tails[i - |walks|]);
        }
      }
    } else {
      assert adj[from][..n] == [];
    }
  }

  lemma StepRecord(adj: Adjacency, from: Tid, k: nat, path: seq<string>, tail: seq<nat>)
    requires Closed(adj) && from in adj.Keys && k < |adj[from]|
    requires adj[from][k].target in adj.Keys
    requires IsWalk(adj, adj[from][k].target, tail)
    ensures IsWalk(adj, from, [k] + tail)
    ensures Visited(adj, from, [k] + tail) == [from] + Visited(adj, adj[from][k].target, tail)
    ensures RecordOf(adj, from, path, [k] + tail)
         == RecordOf(adj, adj[from][k].target, path + [adj[from][k].name], tail)
  {
    var e := adj[from][k];
    assert ([k] + tail)[1..] == tail;
    assert path + ([e.name] + Labels(adj, e.target, tail)) == path + [e.name] + Labels(adj, e.target, tail);
  }

  // ----- The traversal meets exactly the simple walks -----

  lemma {:induction false} WalksAreSimple(adj: Adjacency, tid: Tid, ancestors: seq<Tid>, walk: seq<nat>)
    requires Closed(adj) && tid in adj.Keys && NoDuplicates(ancestors)
    ensures walk in Walks(adj, tid, ancestors)
      <==> IsWalk(adj, tid, walk) && NoDuplicates(ancestors + Visited(adj, tid, walk))
    decreases adj.Keys - Elements(ancestors), 0, 0
  {
    if tid in ancestors {
      if IsWalk(adj, tid, walk) {
        var nodes := ancestors + Visited(adj, tid, walk);
        var i :| 0 <= i < |ancestors| && ancestors[i] == tid;
        assert nodes[i] == nodes[|ancestors|];
      }
    } else {
      var inner := ancestors + [tid];
      NoDuplicatesAppend(ancestors, tid);
      Narrower(adj, tid, ancestors);
      var n := |adj[tid]|;
      assert adj[tid][..n] == adj[tid];
      EdgeWalksAreSimple(adj, tid, n, inner, walk);
      if walk != [] && IsWalk(adj, tid, walk) {
        var rest := Visited(adj, adj[tid][walk[0]].target, walk[1..]);
        assert ancestors + ([tid] + rest) == inner + rest;
      }
    }
  }

  lemma {:induction false} EdgeWalksAreSimple(adj: Adjacency, from: Tid, n: nat, ancestors: seq<Tid>, walk: seq<nat>)
    requires Closed(adj) && from in adj.Keys && n <= |adj[from]| && NoDuplicates(ancestors)
    requires Targets(adj, adj[from])
    ensures walk in EdgeWalks(adj, adj[from][..n], ancestors)
      <==>
      && walk != [] && walk[0] < n && IsWalk(adj, from, walk)
      && NoDuplicates(ancestors + Visited(adj, adj[from][walk[0]].target, walk[1..]))
    decreases adj.Keys - Elements(ancestors), 1, n
  {
    if n > 0 {
      var es := adj[from][..n];
      var e := es[n - 1];
      assert e in adj[from];
      assert es[..n - 1] == adj[from][..n - 1];
      EdgeWalksAreSimple(adj, from, n - 1, ancestors, walk);
      var tails := Walks(adj, e.target, ancestors);
      var last := Prepend(n - 1, tails);
      if walk != [] {
        WalksAreSimple(adj, e.target, ancestors, walk[1..]);
        if walk[0] == n - 1 && walk[1..] in tails {
          var i :| 0 <= i < |tails| && tails[i] == walk[1..];
          assert last[i] == walk;
        }
        if walk in last {
          var i :| 0 <= i < |last| && last[i] == walk;
          assert walk[1..] == tails[i];
        }
      }
    }
  }

  lemma {:induction false} WalksAreDistinct(adj: Adjacency, tid: Tid, ancestors: seq<Tid>)
    requires Closed(adj) && tid in adj.Keys
    ensures NoDuplicates(Walks(adj, tid, ancestors))
    decreases adj.Keys - Elements(ancestors), 0, 0
  {
    if tid !in ancestors {
      var inner := ancestors + [tid];
      Narrower(adj, tid, ancestors);
      EdgeWalksAreDistinct(adj, adj[tid], inner);
      NoDuplicatesConcat([[]], EdgeWalks(adj, adj[tid], inner));
    }
  }

  lemma {:induction false} EdgeWalksAreDistinct(adj: Adjacency, edges: seq<Edge>, ancestors: seq<Tid>)
    requires Closed(adj) && Targets(adj, edges)
    ensures NoDuplicates(EdgeWalks(adj, edges, ancestors))
    ensures forall w :: w in EdgeWalks(adj, edges, ancestors) ==> w != [] && w[0] < |edges|
    decreases adj.Keys - Elements(ancestors), 1, |edges|
  {
    if edges != [] {
      var e := edges[|edges| - 1];
      assert e in edges;
      EdgeWalksAreDistinct(adj, edges[..|edges| - 1], ancestors);
      WalksAreDistinct(adj, e.target, ancestors);
      var tails := Walks(adj, e.target, ancestors);
      var last := Prepend(|edges| - 1, tails);
      forall i, j | 0 <= i < j < |last| ensures last[i] != last[j] {
        assert last[i][1..] == tails[i] && last[j][1..] == tails[j];
      }
      NoDuplicatesConcat(EdgeWalks(adj, edges[..|edges| - 1], ancestors), last);
    }
  }

  // ----- Main theorems -----

  /**
   A gathering pass from `root` appends one record for each simple walk that starts there: the walks
   behind the records are pairwise different, they are all the simple walks and nothing else, and
   each record names the type where its walk ends together with the walk's labels.
   */
  lemma OneRecordPerSimpleWalk(adj: Adjacency, root: Tid)
    requires Closed(adj) && root in adj.Keys
    ensures var walks := Walks(adj, root, []);
      && NoDuplicates(walks)
      && (forall walk :: walk in walks <==> IsSimpleWalk(adj, root, walk))
      && |Records(adj, root, [], [])| == |walks|
      && (forall i {:trigger walks[i]} :: 0 <= i < |walks| ==>
            IsWalk(adj, root, walks[i]) && Records(adj, root, [], [])[i] == RecordOf(adj, root, [], walks[i]))
  {
    WalksAreDistinct(adj, root, []);
    RecordsMatchWalks(adj, root, [], []);
    forall walk
      ensures walk in Walks(adj, root, []) <==> IsSimpleWalk(adj, root, walk)
    {
      WalksAreSimple(adj, root, [], walk);
      if IsWalk(adj, root, walk) {
        assert [] + Visited(adj, root, walk) == Visited(adj, root, walk);
      }
    }
  }

  /** No two simple walks that start at the root end at one type with the same labels. */
  ghost predicate WalksAreTold(adj: Adjacency, root: Tid)
    requires Closed(adj) && root in adj.Keys
  {
    forall v, w :: IsSimpleWalk(adj, root, v) && IsSimpleWalk(adj, root, w) && v != w
      ==> RecordOf(adj, root, [], v) != RecordOf(adj, root, [], w)
  }

  /** The output of a pass is free of duplicates if and only if different simple walks have different records. */
  lemma DuplicateFreeIffWalksAreTold(adj: Adjacency, root: Tid)
    requires Closed(adj) && root in adj.Keys
    ensures NoDuplicates(Records(adj, root, [], [])) <==> WalksAreTold(adj, root)
  {
    hide *;
    if NoDuplicates(Records(adj, root, [], [])) {
      ToldIfDuplicateFree(adj, root);
    }
    if WalksAreTold(adj, root) {
      DuplicateFreeIfTold(adj, root);
    }
  }

  lemma ToldIfDuplicateFree(adj: Adjacency, root: Tid)
    requires Closed(adj) && root in adj.Keys && NoDuplicates(Records(adj, root, [], []))
    ensures WalksAreTold(adj, root)
  {
    OneRecordPerSimpleWalk(adj, root);
    hide Closed, Records, Walks, IsWalk, IsSimpleWalk, RecordOf;
    var records, walks := Records(adj, root, [], []), Walks(adj, root, []);
    forall v, w | IsSimpleWalk(adj, root, v) && IsSimpleWalk(adj, root, w) && v != w
      ensures RecordOf(adj, root, [], v) != RecordOf(adj, root, [], w)
    {
      var i :| 0 <= i < |walks| && walks[i] == v;
      var j :| 0 <= j < |walks| && walks[j] == w;
      assert records[i] != records[j];
    }
  }

  lemma DuplicateFreeIfTold(adj: Adjacency, root: Tid)
    requires Closed(adj) && root in adj.Keys && WalksAreTold(adj, root)
    ensures NoDuplicates(Records(adj, root, [], []))
  {
    OneRecordPerSimpleWalk(adj, root);
    hide Closed, Records, Walks, IsWalk, IsSimpleWalk, RecordOf;
    var records, walks := Records(adj, root, [], []), Walks(adj, root, []);
    forall i, j | 0 <= i < j < |records| ensures records[i] != records[j] {
      assert walks[i] in walks && walks[j] in walks && walks[i] != walks[j];
    }
  }

  // ----- When labels tell walks apart -----

  /** The labels out of each type are pairwise different. */
  ghost predicate LabelsDiffer(adj: Adjacency) {
    forall t, i, j :: t in adj && 0 <= i < j < |adj[t]| ==> adj[t][i].name != adj[t][j].name
  }

  /** A label without the mark of a container. */
  function Base(name: string): string {
    if HasIndex(name) then name[..|name| - 4] else name
  }

  predicate HasIndex(name: string) {
    |name| >= 4 && name[|name| - 4..] == "/[i]"
  }

  /** Names have no slash of their own, and none is the mark itself. */
  predicate IsPlain(name: string) {
    '/' !in Base(name) && Base(name) != "[i]"
  }

  ghost predicate LabelsPlain(adj: Adjacency) {
    forall t, e :: t in adj && e in adj[t] ==> IsPlain(e.name)
  }

  lemma {:induction false} LabelsGiveWalk(adj: Adjacency, from: Tid, v: seq<nat>, w: seq<nat>)
    requires Closed(adj) && from in adj.Keys && IsWalk(adj, from, v) && IsWalk(adj, from, w)
    requires LabelsDiffer(adj) && Labels(adj, from, v) == Labels(adj, from, w)
    ensures v == w
    decreases v
  {
    if v == [] || w == [] {
    } else {
      var p, q := Labels(adj, from, v), Labels(adj, from, w);
      assert p[0] == q[0] && p[1..] == q[1..];
      assert v[0] == w[0];
      LabelsGiveWalk(adj, adj[from][v[0]].target, v[1..], w[1..]);
      assert v == [v[0]] + v[1..] && w == [w[0]] + w[1..];
    }
  }

  lemma {:induction false} WalkHasPlainLabels(adj: Adjacency, from: Tid, walk: seq<nat>)
    requires Closed(adj) && from in adj.Keys && IsWalk(adj, from, walk) && LabelsPlain(adj)
    ensures forall l :: l in Labels(adj, from, walk) ==> IsPlain(l)
    decreases walk
  {
    if walk != [] {
      assert adj[from][walk[0]] in adj[from];
      WalkHasPlainLabels(adj, adj[from][walk[0]].target, walk[1..]);
    }
  }

  lemma LastPart(s: string, a: string, t: string, b: string)
    requires '/' !in a && '/' !in b && s + "/" + a == t + "/" + b
    ensures s == t && a == b
  {
    var u := s + "/" + a;
    assert u[|s|] == '/' && u[|t|] == '/';
    NoSlashBehind(s, a);
    NoSlashBehind(t, b);
    assert u[..|s|] == s && u[|s| + 1..] == a && u[..|t|] == t && u[|t| + 1..] == b;
  }

  lemma NoSlashBehind(s: string, a: string)
    requires '/' !in a
    ensures forall k :: |s| < k < |s + "/" + a| ==> (s + "/" + a)[k] != '/'
  {
    forall k | |s| < k < |s + "/" + a| ensures (s + "/" + a)[k] != '/' {
      assert (s + "/" + a)[k] == a[k - |s| - 1];
    }
  }

  /** What stands behind the last slash of a path that ends in a label, and what stands before it. */
  ghost function Tail(a: string): string {
    if HasIndex(a) then "[i]" else a
  }

  ghost function Front(s: string, a: string): string {
    if HasIndex(a) then s + "/" + Base(a) else s
  }

  lemma SplitPath(s: string, a: string)
    ensures s + "/" + a == Front(s, a) + "/" + Tail(a)
  {
    SplitIndex(a);
    hide HasIndex, Base;
    assert HasIndex(a) ==> s + "/" + a == (s + "/" + Base(a)) + "/" + "[i]";
  }

  lemma TailIsPlain(a: string)
    requires IsPlain(a)
    ensures '/' !in Tail(a) && (HasIndex(a) <==> Tail(a) == "[i]")
  {
    SplitIndex(a);
  }

  lemma SameFront(s: string, a: string, t: string, b: string)
    requires IsPlain(a) && IsPlain(b) && (HasIndex(a) <==> HasIndex(b))
    requires Front(s, a) == Front(t, b) && Tail(a) == Tail(b)
    ensures s == t && a == b
  {
    SplitIndex(a);
    SplitIndex(b);
    hide HasIndex, Base;
    if HasIndex(a) {
      LastPart(s, Base(a), t, Base(b));
    }
  }

  /** The last label of a path can be told from its text. */
  lemma LastLabel(s: string, a: string, t: string, b: string)
    requires IsPlain(a) && IsPlain(b) && s + "/" + a == t + "/" + b
    ensures s == t && a == b
  {
    hide *;
    SplitPath(s, a);
    SplitPath(t, b);
    TailIsPlain(a);
    TailIsPlain(b);
    LastPart(Front(s, a), Tail(a), Front(t, b), Tail(b));
    SameFront(s, a, t, b);
  }

  lemma SplitIndex(a: string)
    ensures HasIndex(a) ==> a == Base(a) + "/" + "[i]"
    ensures !HasIndex(a) ==> a == Base(a)
  {
    if HasIndex(a) {
      assert a == a[..|a| - 4] + a[|a| - 4..];
    }
  }

  lemma {:induction false} PathGivesLabels(p: seq<string>, q: seq<string>)
    requires forall l :: l in p || l in q ==> IsPlain(l)
    requires PathString(p) == PathString(q)
    ensures p == q
  {
    if p == [] || q == [] {
    } else {
      var m, n := |p| - 1, |q| - 1;
      hide IsPlain;
      LastLabel(PathString(p[..m]), p[m], PathString(q[..n]), q[n]);
      PathGivesLabels(p[..m], q[..n]);
      assert p == p[..m] + [p[m]] && q == q[..n] + [q[n]];
    }
  }

  /** With labels that differ at every type, and plain ones, the output of every pass is free of duplicates. */
  lemma DuplicateFreeByLabels(adj: Adjacency, root: Tid)
    requires Closed(adj) && root in adj.Keys && LabelsDiffer(adj) && LabelsPlain(adj)
    ensures NoDuplicates(Records(adj, root, [], []))
  {
    DuplicateFreeIffWalksAreTold(adj, root);
    hide Closed, LabelsDiffer, LabelsPlain, Records, IsPlain, IsWalk, Visited, Labels, PathString, NoDuplicates;
    forall v, w | IsSimpleWalk(adj, root, v) && IsSimpleWalk(adj, root, w) && v != w
      ensures RecordOf(adj, root, [], v) != RecordOf(adj, root, [], w)
    {
      var p, q := Labels(adj, root, v), Labels(adj, root, w);
      assert [] + p == p && [] + q == q;
      WalkHasPlainLabels(adj, root, v);
      WalkHasPlainLabels(adj, root, w);
      if PathString(p) == PathString(q) {
        PathGivesLabels(p, q);
        LabelsGiveWalk(adj, root, v, w);
      }
    }
  }

  // ----- Records that are repeated -----

  /** One more edge at the end of a walk. */
  lemma {:induction false} LongerWalk(adj: Adjacency, from: Tid, walk: seq<nat>, k: nat)
    requires Closed(adj) && from in adj.Keys && IsWalk(adj, from, walk)
    requires var end := Visited(adj, from, walk)[|walk|]; end in adj.Keys && k < |adj[end]|
    ensures IsWalk(adj, from, walk + [k])
    ensures var e := adj[Visited(adj, from, walk)[|walk|]][k];
      && Visited(adj, from, walk + [k]) == Visited(adj, from, walk) + [e.target]
      && Labels(adj, from, walk + [k]) == Labels(adj, from, walk) + [e.name]
    decreases walk
  {
    var longer := walk + [k];
    if walk == [] {
      assert longer[1..] == [];
      assert adj[from][k] in adj[from];
    } else {
      assert longer[1..] == walk[1..] + [k];
      LongerWalk(adj, adj[from][walk[0]].target, walk[1..], k);
    }
  }

  lemma LongerSimpleWalk(adj: Adjacency, root: Tid, walk: seq<nat>, k: nat)
    requires Closed(adj) && root in adj.Keys && IsSimpleWalk(adj, root, walk)
    requires var end := Visited(adj, root, walk)[|walk|];
      end in adj.Keys && k < |adj[end]| && adj[end][k].target !in Visited(adj, root, walk)
    ensures IsSimpleWalk(adj, root, walk + [k])
    ensures var e := adj[Visited(adj, root, walk)[|walk|]][k];
      RecordOf(adj, root, [], walk + [k]) == (e.target, PathString([] + (Labels(adj, root, walk) + [e.name])))
  {
    LongerWalk(adj, root, walk, k);
    hide Closed, Visited, Labels, IsWalk, NoDuplicates;
    NoDuplicatesAppend(Visited(adj, root, walk), adj[Visited(adj, root, walk)[|walk|]][k].target);
  }

  /** Two equal edges out of any type that a simple walk reaches, to a type not on it, repeat a record. */
  lemma ParallelEdgesRepeatRecords(adj: Adjacency, root: Tid, walk: seq<nat>, i: nat, j: nat)
    requires Closed(adj) && root in adj.Keys && IsSimpleWalk(adj, root, walk)
    requires var end := Visited(adj, root, walk)[|walk|];
      && end in adj.Keys && i < j < |adj[end]| && adj[end][i] == adj[end][j]
      && adj[end][i].target !in Visited(adj, root, walk)
    ensures !NoDuplicates(Records(adj, root, [], []))
  {
    LongerSimpleWalk(adj, root, walk, i);
    LongerSimpleWalk(adj, root, walk, j);
    DuplicateFreeIffWalksAreTold(adj, root);
    hide Closed, Records, IsWalk, IsSimpleWalk, RecordOf, Visited;
    assert (walk + [i])[|walk|] != (walk + [j])[|walk|];
  }

  // ----- Queries -----

  /** The configuration paths recorded for `tid`, in the order of the records. */
  ghost function PathsOf(records: seq<Record>, tid: Tid): seq<string> {
    if records == [] then []
    else
      PathsOf(records[..|records| - 1], tid) +
      if records[|records| - 1].0 == tid then [records[|records| - 1].1] else []
  }

  lemma {:induction false} PathsOfMembers(records: seq<Record>, tid: Tid, p: string)
    ensures p in PathsOf(records, tid) <==> (tid, p) in records
  {
    if records != [] {
      PathsOfMembers(records[..|records| - 1], tid, p);
      assert records == records[..|records| - 1] + [records[|records| - 1]];
    }
  }

  /** What a query returns after one pass: the labels of the simple walks from the root to the type. */
  lemma PathsAreSimpleWalksTo(adj: Adjacency, root: Tid, tid: Tid, p: string)
    requires Closed(adj) && root in adj.Keys
    ensures p in PathsOf(Records(adj, root, [], []), tid)
      <==> exists walk :: IsSimpleWalk(adj, root, walk) && RecordOf(adj, root, [], walk) == (tid, p)
  {
    OneRecordPerSimpleWalk(adj, root);
    var records, walks := Records(adj, root, [], []), Walks(adj, root, []);
    PathsOfMembers(records, tid, p);
    if (tid, p) in records {
      var i :| 0 <= i < |records| && records[i] == (tid, p);
      assert walks[i] in walks;
      assert IsSimpleWalk(adj, root, walks[i]) && RecordOf(adj, root, [], walks[i]) == (tid, p);
    }
    if walk :| IsSimpleWalk(adj, root, walk) && RecordOf(adj, root, [], walk) == (tid, p) {
      var i :| 0 <= i < |walks| && walks[i] == walk;
      assert records[i] == (tid, p);
    }
  }

  // ----- The registry -----

  /** What `DoGather` distinguishes about an attribute: the kind of its checker. */
  datatype Attribute =
    | PointerTo(name: string, pointee: Tid)
    | ContainerOf(name: string, item: Tid)
    | Plain(name: string)
  {
    predicate Within(types: set<Tid>) {
      match this
      case PointerTo(_, p) => p in types
      case ContainerOf(_, p) => p in types
      case Plain(_) => true
    }
  }

  /** The type registry of the simulator, which the gatherer only reads. */
  datatype Registry = Registry(
    objectTid: Tid,
    registered: seq<Tid>,
    byName: map<string, Tid>,
    names: map<Tid, string>,
    attributes: map<Tid, seq<Attribute>>,
    descends: set<(Tid, Tid)>)
  {
    function Types(): set<Tid> {
      Elements(registered)
    }

    function NameOf(tid: Tid): string {
      if tid in names then names[tid] else ""
    }

    /** Type handles come from the registry, so every handle it mentions is registered. */
    ghost predicate Closed() {
      && names.Keys == attributes.Keys == Types()
      && (forall n :: n in byName ==> byName[n] in Types())
      && (forall t :: t in attributes ==> forall a :: a in attributes[t] ==> a.Within(Types()))
    }
  }

  /** The registry together with the aggregation pairs recorded so far. */
  datatype Graph = Graph(reg: Registry, aggregates: seq<(Tid, Tid)>) {
    ghost predicate Closed() {
      && reg.Closed()
      && forall p :: p in aggregates ==> p.0 in reg.Types() && p.1 in reg.Types()
    }
  }

  // ----- The steps out of a type -----

  function AttributeStep(reg: Registry, attribute: Attribute): seq<Edge> {
    match attribute
    case PointerTo(name, pointee) => if pointee == reg.objectTid then [] else [Edge(name, pointee)]
    case ContainerOf(name, item) => [Edge(name + "/[i]", item)]
    case Plain(_) => []
  }

  function AttributeEdges(reg: Registry, attributes: seq<Attribute>): seq<Edge> {
    if attributes == [] then []
    else AttributeEdges(reg, attributes[..|attributes| - 1]) + AttributeStep(reg, attributes[|attributes| - 1])
  }

  function ChildStep(reg: Registry, tid: Tid, candidate: Tid): seq<Edge> {
    if (candidate, tid) in reg.descends then [Edge("$" + reg.NameOf(candidate), candidate)] else []
  }

  function ChildEdges(reg: Registry, tid: Tid, candidates: seq<Tid>): seq<Edge> {
    if candidates == [] then []
    else ChildEdges(reg, tid, candidates[..|candidates| - 1]) + ChildStep(reg, tid, candidates[|candidates| - 1])
  }

  function AggregateStep(reg: Registry, tid: Tid, pair: (Tid, Tid)): seq<Edge> {
    if pair.1 == tid then [Edge("$" + reg.NameOf(pair.0), pair.0)]
    else if pair.0 == tid then [Edge("$" + reg.NameOf(pair.1), pair.1)]
    else []
  }

  function AggregateEdges(reg: Registry, tid: Tid, pairs: seq<(Tid, Tid)>): seq<Edge> {
    if pairs == [] then []
    else AggregateEdges(reg, tid, pairs[..|pairs| - 1]) + AggregateStep(reg, tid, pairs[|pairs| - 1])
  }

  function Edges(g: Graph, tid: Tid): seq<Edge>
    requires tid in g.reg.attributes
  {
    AttributeEdges(g.reg, g.reg.attributes[tid]) +
    ChildEdges(g.reg, tid, g.reg.registered) +
    AggregateEdges(g.reg, tid, g.aggregates)
  }

  lemma NoAttributes(reg: Registry)
    ensures [] + AttributeEdges(reg, []) == [] == AttributeEdges(reg, [])
  {
  }

  lemma AttributeEdgesStep(reg: Registry, items: seq<Attribute>, k: nat, before: seq<Edge>)
    requires k < |items|
    ensures before + AttributeEdges(reg, items[..k + 1])
         == before + AttributeEdges(reg, items[..k]) + AttributeStep(reg, items[k])
    ensures AttributeStep(reg, items[k]) == [] ==>
      before + AttributeEdges(reg, items[..k + 1]) == before + AttributeEdges(reg, items[..k])
  {
    assert items[..k + 1][..k] == items[..k];
  }

  lemma ChildEdgesStep(reg: Registry, tid: Tid, items: seq<Tid>, k: nat, before: seq<Edge>)
    requires k < |items|
    ensures before + ChildEdges(reg, tid, items[..k + 1])
         == before + ChildEdges(reg, tid, items[..k]) + ChildStep(reg, tid, items[k])
    ensures ChildStep(reg, tid, items[k]) == [] ==>
      before + ChildEdges(reg, tid, items[..k + 1]) == before + ChildEdges(reg, tid, items[..k])
  {
    assert items[..k + 1][..k] == items[..k];
  }

  lemma NoPairs(reg: Registry, tid: Tid)
    ensures AggregateEdges(reg, tid, []) == []
  {
  }

  lemma StepOfPair(reg: Registry, tid: Tid, pair: (Tid, Tid))
    ensures pair.1 == tid ==> AggregateStep(reg, tid, pair) == [Edge("$" + reg.NameOf(pair.0), pair.0)]
    ensures pair.1 != tid && pair.0 == tid ==>
      AggregateStep(reg, tid, pair) == [Edge("$" + reg.NameOf(pair.1), pair.1)]
    ensures pair.1 != tid && pair.0 != tid ==> AggregateStep(reg, tid, pair) == []
  {
  }

  lemma AggregateEdgesStep(reg: Registry, tid: Tid, items: seq<(Tid, Tid)>, k: nat, before: seq<Edge>)
    requires k < |items|
    ensures before + AggregateEdges(reg, tid, items[..k + 1])
         == before + AggregateEdges(reg, tid, items[..k]) + AggregateStep(reg, tid, items[k])
    ensures AggregateStep(reg, tid, items[k]) == [] ==>
      before + AggregateEdges(reg, tid, items[..k + 1]) == before + AggregateEdges(reg, tid, items[..k])
  {
    assert items[..k + 1][..k] == items[..k];
  }

  ghost predicate EdgesWithin(edges: seq<Edge>, types: set<Tid>) {
    forall e :: e in edges ==> e.target in types
  }

  lemma {:induction false} AttributeEdgesWithin(reg: Registry, attributes: seq<Attribute>)
    requires forall a :: a in attributes ==> a.Within(reg.Types())
    ensures EdgesWithin(AttributeEdges(reg, attributes), reg.Types())
  {
    if attributes != [] {
      AttributeEdgesWithin(reg, attributes[..|attributes| - 1]);
      assert attributes[|attributes| - 1] in attributes;
    }
  }

  lemma {:induction false} ChildEdgesWithin(reg: Registry, tid: Tid, candidates: seq<Tid>)
    requires Elements(candidates) <= reg.Types()
    ensures EdgesWithin(ChildEdges(reg, tid, candidates), reg.Types())
  {
    if candidates != [] {
      assert candidates[|candidates| - 1] in Elements(candidates);
      assert Elements(candidates[..|candidates| - 1]) <= Elements(candidates);
      ChildEdgesWithin(reg, tid, candidates[..|candidates| - 1]);
    }
  }

  lemma {:induction false} AggregateEdgesWithin(reg: Registry, tid: Tid, pairs: seq<(Tid, Tid)>)
    requires forall p :: p in pairs ==> p.0 in reg.Types() && p.1 in reg.Types()
    ensures EdgesWithin(AggregateEdges(reg, tid, pairs), reg.Types())
  {
    if pairs != [] {
      assert pairs[|pairs| - 1] in pairs;
      AggregateEdgesWithin(reg, tid, pairs[..|pairs| - 1]);
    }
  }

  /** The type graph behind a registry and the recorded aggregation pairs. */
  ghost function TypeGraph(g: Graph): (adj: Adjacency)
    requires g.Closed()
    ensures adj.Keys == g.reg.Types() && Closed(adj)
    ensures forall t :: t in adj ==> adj[t] == Edges(g, t)
  {
    var adj := map t | t in g.reg.Types() :: Edges(g, t);
    assert Closed(adj) by {
      forall t | t in adj ensures Targets(adj, adj[t]) {
        AttributeEdgesWithin(g.reg, g.reg.attributes[t]);
        ChildEdgesWithin(g.reg, t, g.reg.registered);
        AggregateEdgesWithin(g.reg, t, g.aggregates);
      }
    }
    adj
  }

  // ----- Which steps there are -----

  /** An attribute leads to another type: a pointer to anything but an Object, or a container. */
  ghost predicate AttributeLeads(reg: Registry, a: Attribute, e: Edge) {
    || (a.PointerTo? && a.pointee != reg.objectTid && e == Edge(a.name, a.pointee))
    || (a.ContainerOf? && e == Edge(a.name + "/[i]", a.item))
  }

  ghost predicate ChildLeads(reg: Registry, t: Tid, child: Tid, e: Edge) {
    (child, t) in reg.descends && child in reg.names && e == Edge("$" + reg.names[child], child)
  }

  ghost predicate PairLeads(reg: Registry, t: Tid, pair: (Tid, Tid), e: Edge) {
    || (pair.0 == t && pair.1 in reg.names && e == Edge("$" + reg.names[pair.1], pair.1))
    || (pair.1 == t && pair.0 in reg.names && e == Edge("$" + reg.names[pair.0], pair.0))
  }

  ghost function OneIf(b: bool): nat {
    if b then 1 else 0
  }

  ghost function AttributesLeading(reg: Registry, attributes: seq<Attribute>, e: Edge): nat {
    if attributes == [] then 0
    else
      AttributesLeading(reg, attributes[..|attributes| - 1], e)
      + OneIf(AttributeLeads(reg, attributes[|attributes| - 1], e))
  }

  ghost function ChildrenLeading(reg: Registry, t: Tid, types: seq<Tid>, e: Edge): nat {
    if types == [] then 0
    else ChildrenLeading(reg, t, types[..|types| - 1], e) + OneIf(ChildLeads(reg, t, types[|types| - 1], e))
  }

  ghost function PairsLeading(reg: Registry, t: Tid, pairs: seq<(Tid, Tid)>, e: Edge): nat {
    if pairs == [] then 0
    else PairsLeading(reg, t, pairs[..|pairs| - 1], e) + OneIf(PairLeads(reg, t, pairs[|pairs| - 1], e))
  }

  lemma CountOfConcat(a: seq<Edge>, b: seq<Edge>, e: Edge)
    ensures multiset(a + b)[e] == multiset(a)[e] + multiset(b)[e]
  {
  }

  lemma InOneMore<T>(s: seq<T>, x: T)
    requires s != []
    ensures x in s <==> x in s[..|s| - 1] || x == s[|s| - 1]
  {
    assert s == s[..|s| - 1] + [s[|s| - 1]];
  }

  lemma AttributeStepCount(reg: Registry, a: Attribute, e: Edge)
    ensures multiset(AttributeStep(reg, a))[e] == OneIf(AttributeLeads(reg, a, e))
  {
  }

  lemma ChildStepCount(reg: Registry, t: Tid, c: Tid, e: Edge)
    requires c in reg.names
    ensures multiset(ChildStep(reg, t, c))[e] == OneIf(ChildLeads(reg, t, c, e))
  {
  }

  lemma AggregateStepCount(reg: Registry, t: Tid, p: (Tid, Tid), e: Edge)
    requires p.0 in reg.names && p.1 in reg.names
    ensures multiset(AggregateStep(reg, t, p))[e] == OneIf(PairLeads(reg, t, p, e))
  {
  }

  lemma {:induction false} AttributeEdgesCount(reg: Registry, attributes: seq<Attribute>, e: Edge)
    ensures multiset(AttributeEdges(reg, attributes))[e] == AttributesLeading(reg, attributes, e)
  {
    hide AttributeStep, AttributeLeads, OneIf;
    if attributes != [] {
      var front, a := attributes[..|attributes| - 1], attributes[|attributes| - 1];
      AttributeEdgesCount(reg, front, e);
      AttributeStepCount(reg, a, e);
      CountOfConcat(AttributeEdges(reg, front), AttributeStep(reg, a), e);
    }
  }

  lemma {:induction false} ChildEdgesCount(reg: Registry, t: Tid, types: seq<Tid>, e: Edge)
    requires forall c :: c in types ==> c in reg.names
    ensures multiset(ChildEdges(reg, t, types))[e] == ChildrenLeading(reg, t, types, e)
  {
    hide ChildStep, ChildLeads, OneIf;
    if types != [] {
      var front, c := types[..|types| - 1], types[|types| - 1];
      ChildEdgesCount(reg, t, front, e);
      assert c in types;
      ChildStepCount(reg, t, c, e);
      CountOfConcat(ChildEdges(reg, t, front), ChildStep(reg, t, c), e);
    }
  }

  lemma {:induction false} PairEdgesCount(reg: Registry, t: Tid, pairs: seq<(Tid, Tid)>, e: Edge)
    requires forall p :: p in pairs ==> p.0 in reg.names && p.1 in reg.names
    ensures multiset(AggregateEdges(reg, t, pairs))[e] == PairsLeading(reg, t, pairs, e)
  {
    hide AggregateStep, PairLeads, OneIf;
    if pairs != [] {
      var front, p := pairs[..|pairs| - 1], pairs[|pairs| - 1];
      PairEdgesCount(reg, t, front, e);
      assert p in pairs;
      AggregateStepCount(reg, t, p, e);
      CountOfConcat(AggregateEdges(reg, t, front), AggregateStep(reg, t, p), e);
    }
  }

  lemma {:induction false} SomeAttributeLeads(reg: Registry, attributes: seq<Attribute>, e: Edge)
    ensures AttributesLeading(reg, attributes, e) > 0 <==> exists a :: a in attributes && AttributeLeads(reg, a, e)
  {
    hide AttributeLeads;
    if attributes != [] {
      SomeAttributeLeads(reg, attributes[..|attributes| - 1], e);
      forall a ensures a in attributes <==>
        a in attributes[..|attributes| - 1] || a == attributes[|attributes| - 1]
      {
        InOneMore(attributes, a);
      }
    }
  }

  lemma {:induction false} SomeChildLeads(reg: Registry, t: Tid, types: seq<Tid>, e: Edge)
    ensures ChildrenLeading(reg, t, types, e) > 0 <==> exists c :: c in types && ChildLeads(reg, t, c, e)
  {
    hide ChildLeads;
    if types != [] {
      SomeChildLeads(reg, t, types[..|types| - 1], e);
      forall c ensures c in types <==> c in types[..|types| - 1] || c == types[|types| - 1] {
        InOneMore(types, c);
      }
    }
  }

  lemma {:induction false} SomePairLeads(reg: Registry, t: Tid, pairs: seq<(Tid, Tid)>, e: Edge)
    ensures PairsLeading(reg, t, pairs, e) > 0 <==> exists p :: p in pairs && PairLeads(reg, t, p, e)
  {
    hide PairLeads;
    if pairs != [] {
      SomePairLeads(reg, t, pairs[..|pairs| - 1], e);
      forall p ensures p in pairs <==> p in pairs[..|pairs| - 1] || p == pairs[|pairs| - 1] {
        InOneMore(pairs, p);
      }
    }
  }

  /**
   The steps out of a type, each as often as there are reasons for it: pointer attributes except those to Object,
   container attributes, registered children, and aggregation pairs in both directions.
   */
  lemma StepsOutOfType(g: Graph, t: Tid, e: Edge)
    requires g.Closed() && t in g.reg.attributes
    ensures t in TypeGraph(g)
    ensures multiset(TypeGraph(g)[t])[e] == AttributesLeading(g.reg, g.reg.attributes[t], e)
      + ChildrenLeading(g.reg, t, g.reg.registered, e) + PairsLeading(g.reg, t, g.aggregates, e)
    ensures e in TypeGraph(g)[t] <==>
      || (exists a :: a in g.reg.attributes[t] && AttributeLeads(g.reg, a, e))
      || (exists c :: c in g.reg.registered && ChildLeads(g.reg, t, c, e))
      || (exists p :: p in g.aggregates && PairLeads(g.reg, t, p, e))
  {
    hide AttributeEdges, ChildEdges, AggregateEdges, AttributesLeading, ChildrenLeading, PairsLeading;
    hide AttributeLeads, ChildLeads, PairLeads;
    RegisteredAreNamed(g);
    var attributes, types, pairs := g.reg.attributes[t], g.reg.registered, g.aggregates;
    var a, c, p := AttributeEdges(g.reg, attributes), ChildEdges(g.reg, t, types), AggregateEdges(g.reg, t, pairs);
    AttributeEdgesCount(g.reg, attributes, e);
    ChildEdgesCount(g.reg, t, types, e);
    PairEdgesCount(g.reg, t, pairs, e);
    SomeAttributeLeads(g.reg, attributes, e);
    SomeChildLeads(g.reg, t, types, e);
    SomePairLeads(g.reg, t, pairs, e);
    assert TypeGraph(g)[t] == a + c + p;
    CountOfConcat(a, c, e);
    CountOfConcat(a + c, p, e);
    assert e in TypeGraph(g)[t] <==> multiset(TypeGraph(g)[t])[e] > 0;
  }

  lemma RegisteredAreNamed(g: Graph)
    requires g.Closed()
    ensures forall c :: c in g.reg.registered ==> c in g.reg.names
    ensures forall p :: p in g.aggregates ==> p.0 in g.reg.names && p.1 in g.reg.names
  {
    forall c | c in g.reg.registered ensures c in g.reg.names {
      assert c in g.reg.Types();
    }
  }

  // ----- Aggregation pairs that are recorded twice -----

  /** Where the step of a pair is among the aggregation steps. */
  lemma {:induction false} AggregatePosition(reg: Registry, tid: Tid, pairs: seq<(Tid, Tid)>, p: nat) returns (i: nat)
    requires p < |pairs| && (pairs[p].0 == tid || pairs[p].1 == tid)
    ensures i == |AggregateEdges(reg, tid, pairs[..p])| < |AggregateEdges(reg, tid, pairs)|
    ensures [AggregateEdges(reg, tid, pairs)[i]] == AggregateStep(reg, tid, pairs[p])
  {
    var n := |pairs| - 1;
    if p == n {
      i := |AggregateEdges(reg, tid, pairs[..n])|;
    } else {
      assert pairs[..n][..p] == pairs[..p];
      i := AggregatePosition(reg, tid, pairs[..n], p);
    }
  }

  lemma RepeatedStep(reg: Registry, tid: Tid, pairs: seq<(Tid, Tid)>, p: nat, q: nat) returns (i: nat, j: nat)
    requires p < q < |pairs| && pairs[p] == pairs[q] && (pairs[p].0 == tid || pairs[p].1 == tid)
    ensures i < j < |AggregateEdges(reg, tid, pairs)|
    ensures var steps := AggregateEdges(reg, tid, pairs);
      [steps[i]] == [steps[j]] == AggregateStep(reg, tid, pairs[p])
  {
    hide AggregateEdges, AggregateStep;
    i := AggregatePosition(reg, tid, pairs, p);
    j := AggregatePosition(reg, tid, pairs, q);
    assert pairs[..q][..p] == pairs[..p];
    var k := AggregatePosition(reg, tid, pairs[..q], p);
  }

  /** The steps out of either type of a pair that is recorded twice. */
  lemma RepeatedEdge(g: Graph, p: nat, q: nat, root: Tid) returns (i: nat, j: nat)
    requires root in g.reg.attributes && p < q < |g.aggregates| && g.aggregates[p] == g.aggregates[q]
    requires g.aggregates[p].0 != g.aggregates[p].1
    requires root == g.aggregates[p].0 || root == g.aggregates[p].1
    ensures var edges := Edges(g, root); i < j < |edges| && edges[i] == edges[j] && edges[i].target != root
  {
    hide AttributeEdges, ChildEdges, AggregateEdges, AggregateStep;
    var k, l := RepeatedStep(g.reg, root, g.aggregates, p, q);
    var before := AttributeEdges(g.reg, g.reg.attributes[root]) + ChildEdges(g.reg, root, g.reg.registered);
    i, j := |before| + k, |before| + l;
    StepLeaves(g.reg, root, g.aggregates[p]);
    EdgesBehind(before, AggregateEdges(g.reg, root, g.aggregates), k, l);
  }

  lemma StepLeaves(reg: Registry, tid: Tid, pair: (Tid, Tid))
    requires pair.0 != pair.1 && (tid == pair.0 || tid == pair.1)
    ensures var step := AggregateStep(reg, tid, pair); |step| == 1 && step[0].target != tid
  {
  }

  lemma EdgesBehind(before: seq<Edge>, steps: seq<Edge>, k: nat, l: nat)
    requires k < l < |steps| && [steps[k]] == [steps[l]]
    ensures var edges := before + steps; edges[|before| + k] == edges[|before| + l] == steps[k]
  {
    assert [steps[k]][0] == [steps[l]][0];
  }

  /** A pair that is recorded twice repeats records of every pass from either of its types. */
  lemma RepeatedPairRepeatsRecords(g: Graph, p: nat, q: nat, root: Tid)
    requires g.Closed() && p < q < |g.aggregates| && g.aggregates[p] == g.aggregates[q]
    requires g.aggregates[p].0 != g.aggregates[p].1
    requires root == g.aggregates[p].0 || root == g.aggregates[p].1
    ensures root in TypeGraph(g) && !NoDuplicates(Records(TypeGraph(g), root, [], []))
  {
    assert g.aggregates[p] in g.aggregates;
    assert root in g.reg.Types();
    var i, j := RepeatedEdge(g, p, q, root);
    hide Edges, Records;
    var adj := TypeGraph(g);
    assert Visited(adj, root, []) == [root];
    ParallelEdgesRepeatRecords(adj, root, [], i, j);
  }

  // ----- The program -----

  class StaticInformation {
    const reg: Registry
    var output: seq<Record>
    var currentPath: seq<string>
    var alreadyProcessed: seq<Tid>
    var aggregates: seq<(Tid, Tid)>
    var noTids: seq<string>

    // The type graph that the registry and the aggregation pairs make up.
    ghost var adj: Adjacency

    ghost predicate Registered()
      reads this`aggregates, this`adj
    {
      && Graph(reg, aggregates).Closed()
      && adj == TypeGraph(Graph(reg, aggregates))
    }

    ghost predicate Valid()
      reads this
    {
      Registered() && Walking()
    }

    /** The two stacks describe one walk whose types are all different. */
    ghost predicate Walking()
      reads this
    {
      && NoDuplicates(alreadyProcessed)
      && |currentPath| == |alreadyProcessed|
      && Elements(alreadyProcessed) <= adj.Keys
    }

    /** Since `start` the output has grown by what the steps `taken` from `tid` yield. */
    ghost predicate Appended(tid: Tid, start: seq<Record>, taken: seq<Edge>)
      requires Closed(adj)
      reads this
    {
      && Targets(adj, taken)
      && output == start + EdgeRecords(adj, taken, alreadyProcessed + [tid], currentPath)
    }

    constructor (reg: Registry)
      requires reg.Closed()
      ensures Valid() && this.reg == reg
      ensures output == [] && currentPath == [] && alreadyProcessed == [] && aggregates == [] && noTids == []
    {
      this.reg := reg;
      output, currentPath, alreadyProcessed, aggregates, noTids := [], [], [], [], [];
      adj := TypeGraph(Graph(reg, []));
    }

    /** Both names must be registered; the first that is not is remembered instead of the pair. */
    method RecordAggregationInfo(a: string, b: string)
      requires Valid()
      modifies this`aggregates, this`noTids, this`adj
      ensures Valid()
      ensures aggregates == old(aggregates) +
        if a in reg.byName && b in reg.byName then [(reg.byName[a], reg.byName[b])] else []
      ensures noTids == old(noTids) +
        if a !in reg.byName then [a] else if b !in reg.byName then [b] else []
    {
      hide NoDuplicates, Edges;
      if a !in reg.byName {
        noTids := noTids + [a];
        return;
      }
      if b !in reg.byName {
        noTids := noTids + [b];
        return;
      }
      aggregates := aggregates + [(reg.byName[a], reg.byName[b])];
      adj := TypeGraph(Graph(reg, aggregates));
    }

    method GetCurrentPath() returns (path: string)
      ensures path == PathString(currentPath)
    {
      path := "";
      for i := 0 to |currentPath|
        invariant path == PathString(currentPath[..i])
      {
        assert currentPath[..i + 1][..i] == currentPath[..i];
        path := path + "/" + currentPath[i];
      }
      assert currentPath[..|currentPath|] == currentPath;
    }

    method HasAlreadyBeenProcessed(tid: Tid) returns (found: bool)
      ensures found <==> tid in alreadyProcessed
    {
      for i := 0 to |alreadyProcessed|
        invariant tid !in alreadyProcessed[..i]
      {
        if alreadyProcessed[i] == tid {
          return true;
        }
      }
      found := false;
    }

    method Get(tid: Tid) returns (paths: seq<string>)
      ensures paths == PathsOf(output, tid)
    {
      paths := [];
      for i := 0 to |output|
        invariant paths == PathsOf(output[..i], tid)
      {
        assert output[..i + 1][..i] == output[..i];
        if output[i].0 == tid {
          paths := paths + [output[i].1];
        }
      }
      assert output[..|output|] == output;
    }

    /** A pass leaves the output as it is: the duplicates are removed from a copy. */
    method Gather(tid: Tid)
      requires Valid() && tid in reg.Types() && alreadyProcessed == []
      modifies this`output, this`currentPath, this`alreadyProcessed
      ensures Valid() && alreadyProcessed == [] && currentPath == []
      ensures output == old(output) + Records(adj, tid, [], [])
    {
      assert currentPath == [];
      DoGather(tid);
    }

    lemma AttributeTarget(tid: Tid, i: nat)
      requires Registered() && tid in adj && tid in reg.attributes && i < |reg.attributes[tid]|
      ensures reg.attributes[tid][i].Within(adj.Keys)
    {
      assert reg.attributes[tid][i] in reg.attributes[tid];
    }

    lemma AggregateTargets(k: nat)
      requires Registered() && k < |aggregates|
      ensures aggregates[k].0 in adj && aggregates[k].1 in adj
    {
      assert aggregates[k] in aggregates;
    }

    lemma ChildTarget(j: nat)
      requires Registered() && j < |reg.registered|
      ensures reg.registered[j] in adj
    {
      assert reg.registered[j] in reg.Types();
    }

    /** The steps out of a type are those of the three loops, one after the other. */
    lemma StepsOf(tid: Tid)
      requires Registered() && tid in adj
      ensures Closed(adj) && Targets(adj, adj[tid])
      ensures tid in reg.attributes
      ensures adj[tid] == AttributeEdges(reg, reg.attributes[tid])
        + ChildEdges(reg, tid, reg.registered) + AggregateEdges(reg, tid, aggregates)
    {
    }

    lemma NothingAppended(tid: Tid, start: seq<Record>)
      requires Closed(adj) && output == start
      ensures Appended(tid, start, [])
    {
      EdgeRecordsNone(adj, alreadyProcessed + [tid], currentPath);
    }

    method DoGather(tid: Tid)
      requires Registered() && Walking() && tid in adj
      modifies this`output, this`currentPath, this`alreadyProcessed
      ensures Registered() && Walking()
      ensures alreadyProcessed == old(alreadyProcessed) && currentPath == old(currentPath)
      ensures output == old(output) + Records(adj, tid, alreadyProcessed, currentPath)
      decreases adj.Keys - Elements(alreadyProcessed), 2
    {
      hide Registered, Closed, Targets, Records, EdgeRecords, NoDuplicates;
      StepsOf(tid);
      var processed := HasAlreadyBeenProcessed(tid);
      if processed {
        RecordsOfRevisit(adj, tid, alreadyProcessed, currentPath);
        return;
      }
      RecordsOfVisit(adj, tid, alreadyProcessed, currentPath);
      var path := GetCurrentPath();
      output := output + [(tid, path)];

      ghost var start := output;
      ghost var taken1, taken2 := AttributeEdges(reg, reg.attributes[tid]), ChildEdges(reg, tid, reg.registered);
      GatherAttributes(tid, start);
      GatherChildren(tid, start, taken1);
      GatherAggregates(tid, start, taken1 + taken2);
      assert adj[tid] == taken1 + taken2 + AggregateEdges(reg, tid, aggregates);
    }

    /** The loop over the attributes. */
    method GatherAttributes(tid: Tid, ghost start: seq<Record>)
      requires Registered() && Walking() && tid in adj && tid !in alreadyProcessed
      requires output == start
      modifies this`output, this`currentPath, this`alreadyProcessed
      ensures Registered() && Walking()
      ensures alreadyProcessed == old(alreadyProcessed) && currentPath == old(currentPath)
      ensures Appended(tid, start, AttributeEdges(reg, reg.attributes[tid]))
      decreases adj.Keys - Elements(alreadyProcessed), 1
    {
      hide Registered, Closed, Targets, Records, EdgeRecords, NoDuplicates, Elements, Walking;
      hide Appended, AttributeEdges, Valid;
      StepsOf(tid);
      ghost var ancestors, labels := alreadyProcessed, currentPath;
      var attributes := reg.attributes[tid];
      NothingAppended(tid, start);
      NoAttributes(reg);
      for i := 0 to |attributes|
        invariant Registered() && Walking() && alreadyProcessed == ancestors && currentPath == labels
        invariant Appended(tid, start, [] + AttributeEdges(reg, attributes[..i]))
      {
        AttributeEdgesStep(reg, attributes, i, []);
        AttributeTarget(tid, i);
        match attributes[i] {
          case PointerTo(name, pointee) =>
            if pointee != reg.objectTid {
              Follow(tid, name, pointee, start, [] + AttributeEdges(reg, attributes[..i]));
            }
          case ContainerOf(name, item) =>
            Follow(tid, name + "/[i]", item, start, [] + AttributeEdges(reg, attributes[..i]));
          case Plain(_) =>
        }
      }
      assert attributes[..|attributes|] == attributes;
      assert [] + AttributeEdges(reg, attributes) == AttributeEdges(reg, attributes);
    }

    /** The loop over the registered types. */
    method GatherChildren(tid: Tid, ghost start: seq<Record>, ghost before: seq<Edge>)
      requires Registered() && Walking() && tid in adj && tid !in alreadyProcessed
      requires Appended(tid, start, before)
      modifies this`output, this`currentPath, this`alreadyProcessed
      ensures Registered() && Walking()
      ensures alreadyProcessed == old(alreadyProcessed) && currentPath == old(currentPath)
      ensures Appended(tid, start, before + ChildEdges(reg, tid, reg.registered))
      decreases adj.Keys - Elements(alreadyProcessed), 1
    {
      hide Registered, Closed, Targets, Records, EdgeRecords, NoDuplicates, Elements, Walking;
      StepsOf(tid);
      ghost var ancestors, labels := alreadyProcessed, currentPath;
      assert before + ChildEdges(reg, tid, reg.registered[..0]) == before;
      for j := 0 to |reg.registered|
        invariant Registered() && Walking() && alreadyProcessed == ancestors && currentPath == labels
        invariant Appended(tid, start, before + ChildEdges(reg, tid, reg.registered[..j]))
      {
        ChildEdgesStep(reg, tid, reg.registered, j, before);
        ChildTarget(j);
        var child := reg.registered[j];
        if (child, tid) in reg.descends {
          Follow(tid, "$" + reg.NameOf(child), child, start, before + ChildEdges(reg, tid, reg.registered[..j]));
        }
      }
      assert reg.registered[..|reg.registered|] == reg.registered;
    }

    /** The loop over the aggregation pairs. */
    method GatherAggregates(tid: Tid, ghost start: seq<Record>, ghost before: seq<Edge>)
      requires Registered() && Walking() && tid in adj && tid !in alreadyProcessed
      requires Appended(tid, start, before)
      modifies this`output, this`currentPath, this`alreadyProcessed
      ensures Registered() && Walking()
      ensures alreadyProcessed == old(alreadyProcessed) && currentPath == old(currentPath)
      ensures Appended(tid, start, before + AggregateEdges(reg, tid, aggregates))
      decreases adj.Keys - Elements(alreadyProcessed), 1
    {
      hide Registered, Closed, Targets, Records, EdgeRecords, NoDuplicates, Elements, Walking;
      hide AggregateEdges, AggregateStep, Appended, Valid;
      StepsOf(tid);
      NoPairs(reg, tid);
      ghost var ancestors, labels := alreadyProcessed, currentPath;
      assert before + AggregateEdges(reg, tid, aggregates[..0]) == before;
      for k := 0 to |aggregates|
        invariant Registered() && Walking() && alreadyProcessed == ancestors && currentPath == labels
        invariant Appended(tid, start, before + AggregateEdges(reg, tid, aggregates[..k]))
      {
        AggregateEdgesStep(reg, tid, aggregates, k, before);
        AggregateTargets(k);
        var item := aggregates[k];
        StepOfPair(reg, tid, item);
        if item.0 == tid || item.1 == tid {
          var other: Tid := 0;
          if item.0 == tid {
            other := item.1;
          }
          if item.1 == tid {
            other := item.0;
          }
          var name := "$" + reg.NameOf(other);
          Follow(tid, name, other, start, before + AggregateEdges(reg, tid, aggregates[..k]));
        }
      }
      assert aggregates[..|aggregates|] == aggregates;
    }

    /** The step the three loops share: push the label and the type, recurse, pop both. */
    method Follow(tid: Tid, name: string, target: Tid, ghost start: seq<Record>, ghost taken: seq<Edge>)
      requires Registered() && Walking() && tid in adj && target in adj && tid !in alreadyProcessed
      requires Appended(tid, start, taken)
      modifies this`output, this`currentPath, this`alreadyProcessed
      ensures Registered() && Walking()
      ensures alreadyProcessed == old(alreadyProcessed) && currentPath == old(currentPath)
      ensures Appended(tid, start, taken + [Edge(name, target)])
      decreases adj.Keys - Elements(alreadyProcessed), 0
    {
      hide Registered, Closed, Targets, Records, EdgeRecords, NoDuplicates, Elements;
      ghost var ancestors, labels := alreadyProcessed, currentPath;
      NoDuplicatesAppend(alreadyProcessed, tid);
      Narrower(adj, tid, alreadyProcessed);
      currentPath := currentPath + [name];
      alreadyProcessed := alreadyProcessed + [tid];
      DoGather(target);
      PopUndoesPush(ancestors, tid);
      PopUndoesPush(labels, name);
      alreadyProcessed := alreadyProcessed[..|alreadyProcessed| - 1];
      currentPath := currentPath[..|currentPath| - 1];
      StepsOf(tid);
      EdgeRecordsAppend(adj, taken, Edge(name, target), ancestors + [tid], labels);
      ConcatAssociative(start, EdgeRecords(adj, taken, ancestors + [tid], labels),
                        Records(adj, target, ancestors + [tid], labels + [name]));
    }
  }

  // ----- A pass as the source makes it -----

  const NODE: Tid := 0
  const ICMP: Tid := 1

  function TwoTypes(objectTid: Tid): Registry {
    Registry(objectTid, [NODE, ICMP], map["ns3::Node" := NODE, "ns3::Icmpv4L4Protocol" := ICMP],
             map[NODE := "ns3::Node", ICMP := "ns3::Icmpv4L4Protocol"], map[NODE := [], ICMP := []], {})
  }

  /** The source records this pair twice, and a pass from either type then repeats a record. */
  method GatherAfterRecordingTwice(objectTid: Tid) returns (info: StaticInformation)
    ensures fresh(info) && !NoDuplicates(info.output)
  {
    TwoTypesClosed(objectTid);
    TwiceRepeats(objectTid);
    hide TwoTypes, Edges, Records, NoDuplicates, TypeGraph;
    var reg := TwoTypes(objectTid);
    info := new StaticInformation(reg);
    info.RecordAggregationInfo("ns3::Node", "ns3::Icmpv4L4Protocol");
    info.RecordAggregationInfo("ns3::Node", "ns3::Icmpv4L4Protocol");
    assert info.aggregates == [(NODE, ICMP), (NODE, ICMP)];
    info.Gather(NODE);
    assert [] + Records(info.adj, NODE, [], []) == Records(info.adj, NODE, [], []);
  }

  lemma TwiceRepeats(objectTid: Tid)
    ensures var g := Graph(TwoTypes(objectTid), [(NODE, ICMP), (NODE, ICMP)]);
      g.Closed() && NODE in TypeGraph(g) && !NoDuplicates(Records(TypeGraph(g), NODE, [], []))
  {
    TwoTypesClosed(objectTid);
    var g := Graph(TwoTypes(objectTid), [(NODE, ICMP), (NODE, ICMP)]);
    hide Edges, Records, NoDuplicates, TypeGraph;
    RepeatedPairRepeatsRecords(g, 0, 1, NODE);
  }

  lemma TwoTypesClosed(objectTid: Tid)
    ensures TwoTypes(objectTid).Closed() && TwoTypes(objectTid).Types() == {NODE, ICMP}
    ensures var names := TwoTypes(objectTid).byName;
      && "ns3::Node" in names && names["ns3::Node"] == NODE
      && "ns3::Icmpv4L4Protocol" in names && names["ns3::Icmpv4L4Protocol"] == ICMP
  {
    assert |"ns3::Node"| != |"ns3::Icmpv4L4Protocol"|;
    assert NODE in [NODE, ICMP] && ICMP in [NODE, ICMP];
  }

  // ----- A pass over steps of every kind -----

  /** A node with a pointer, a container, a pointer to an Object and a plain attribute, and a child. */
  const ALL_KINDS: Registry := Registry(
    5, [0, 1, 2, 3, 4, 5], map["ns3::Node" := 0, "ns3::Ipv4" := 4],
    map[0 := "ns3::Node", 1 := "ns3::Mobility", 2 := "ns3::Device", 3 := "ns3::Host", 4 := "ns3::Ipv4",
        5 := "ns3::Object"],
    map[0 := ATTRIBUTES, 1 := [], 2 := [], 3 := [], 4 := [], 5 := []],
    {(3, 0)})

  const ATTRIBUTES: seq<Attribute> :=
    [PointerTo("Mobility", 1), ContainerOf("DeviceList", 2), PointerTo("Any", 5), Plain("Id")]

  /** The same registry with the node aggregated to an Ipv4. */
  const BESIDE: Graph := Graph(ALL_KINDS, [(0, 4)])

  lemma AllKindsTypes()
    ensures ALL_KINDS.Types() == {0, 1, 2, 3, 4, 5}
  {
    var types := [0, 1, 2, 3, 4, 5];
    assert types[0] == 0 && types[1] == 1 && types[2] == 2 && types[3] == 3 && types[4] == 4 && types[5] == 5;
  }

  lemma AllKindsKeys()
    ensures ALL_KINDS.names.Keys == ALL_KINDS.attributes.Keys == {0, 1, 2, 3, 4, 5}
    ensures forall n :: n in ALL_KINDS.byName ==> ALL_KINDS.byName[n] in {0, 4}
  {
  }

  lemma AllKindsWithin(t: Tid, a: Attribute)
    requires t in ALL_KINDS.attributes && a in ALL_KINDS.attributes[t]
    ensures a.Within({0, 1, 2, 3, 4, 5})
  {
    assert a in ATTRIBUTES;
  }

  lemma AllKindsClosed()
    ensures ALL_KINDS.Closed() && ALL_KINDS.Types() == {0, 1, 2, 3, 4, 5} && BESIDE.Closed()
  {
    AllKindsTypes();
    AllKindsKeys();
    forall t, a | t in ALL_KINDS.attributes && a in ALL_KINDS.attributes[t] ensures a.Within(ALL_KINDS.Types()) {
      AllKindsWithin(t, a);
    }
    hide ALL_KINDS, ATTRIBUTES;
    assert ALL_KINDS.Closed();
    OnlyPair();
  }

  lemma OnlyPair()
    ensures BESIDE.reg == ALL_KINDS && forall p :: p in BESIDE.aggregates ==> p == (0, 4)
  {
  }

  lemma AllKindsNames()
    ensures "ns3::Node" in ALL_KINDS.byName && ALL_KINDS.byName["ns3::Node"] == 0
    ensures "ns3::Ipv4" in ALL_KINDS.byName && ALL_KINDS.byName["ns3::Ipv4"] == 4
  {
    assert |"ns3::Node"| == 9 && |"ns3::Ipv4"| == 9 && "ns3::Node"[5] != "ns3::Ipv4"[5];
  }

  lemma OneMoreAttribute(reg: Registry, attributes: seq<Attribute>, a: Attribute)
    ensures AttributeEdges(reg, attributes + [a]) == AttributeEdges(reg, attributes) + AttributeStep(reg, a)
  {
    assert (attributes + [a])[..|attributes|] == attributes;
  }

  lemma FourSteps()
    ensures AttributeStep(ALL_KINDS, PointerTo("Mobility", 1)) == [Edge("Mobility", 1)]
    ensures AttributeStep(ALL_KINDS, ContainerOf("DeviceList", 2)) == [Edge("DeviceList/[i]", 2)]
    ensures AttributeStep(ALL_KINDS, PointerTo("Any", 5)) == [] && AttributeStep(ALL_KINDS, Plain("Id")) == []
  {
    assert "DeviceList" + "/[i]" == "DeviceList/[i]";
  }

  lemma AllKindsAttributes()
    ensures AttributeEdges(ALL_KINDS, ATTRIBUTES) == [Edge("Mobility", 1), Edge("DeviceList/[i]", 2)]
  {
    FourSteps();
    assert AttributeEdges(ALL_KINDS, []) == [];
    var p, c, o, x := PointerTo("Mobility", 1), ContainerOf("DeviceList", 2), PointerTo("Any", 5), Plain("Id");
    assert ATTRIBUTES == [] + [p] + [c] + [o] + [x];
    hide AttributeEdges, AttributeStep, ALL_KINDS, ATTRIBUTES;
    OneMoreAttribute(ALL_KINDS, [], p);
    OneMoreAttribute(ALL_KINDS, [] + [p], c);
    OneMoreAttribute(ALL_KINDS, [] + [p] + [c], o);
    OneMoreAttribute(ALL_KINDS, [] + [p] + [c] + [o], x);
  }

  lemma OneMoreChild(reg: Registry, t: Tid, types: seq<Tid>, c: Tid)
    ensures ChildEdges(reg, t, types + [c]) == ChildEdges(reg, t, types) + ChildStep(reg, t, c)
  {
    assert (types + [c])[..|types|] == types;
  }

  lemma ChildSteps(t: Tid, c: Tid)
    ensures ChildStep(ALL_KINDS, t, c) == if (c, t) == (3, 0) then [Edge("$ns3::Host", 3)] else []
  {
    assert "$" + "ns3::Host" == "$ns3::Host";
  }

  lemma SixChildren(reg: Registry, t: Tid, a: Tid, b: Tid, c: Tid, d: Tid, e: Tid, f: Tid)
    ensures ChildEdges(reg, t, [a, b, c, d, e, f]) == [] + ChildStep(reg, t, a) + ChildStep(reg, t, b)
      + ChildStep(reg, t, c) + ChildStep(reg, t, d) + ChildStep(reg, t, e) + ChildStep(reg, t, f)
  {
    assert ChildEdges(reg, t, []) == [];
    var none: seq<Tid> := [];
    assert [a, b, c, d, e, f] == none + [a] + [b] + [c] + [d] + [e] + [f];
    hide *;
    OneMoreChild(reg, t, none, a);
    OneMoreChild(reg, t, none + [a], b);
    OneMoreChild(reg, t, none + [a] + [b], c);
    OneMoreChild(reg, t, none + [a] + [b] + [c], d);
    OneMoreChild(reg, t, none + [a] + [b] + [c] + [d], e);
    OneMoreChild(reg, t, none + [a] + [b] + [c] + [d] + [e], f);
  }

  lemma AllKindsChildren(t: Tid)
    ensures ChildEdges(ALL_KINDS, t, [0, 1, 2, 3, 4, 5]) == if t == 0 then [Edge("$ns3::Host", 3)] else []
  {
    hide *;
    SixChildren(ALL_KINDS, t, 0, 1, 2, 3, 4, 5);
    ChildSteps(t, 0);
    ChildSteps(t, 1);
    ChildSteps(t, 2);
    ChildSteps(t, 3);
    ChildSteps(t, 4);
    ChildSteps(t, 5);
  }

  lemma PairStep(t: Tid)
    ensures AggregateStep(ALL_KINDS, t, (0, 4)) ==
      if t == 0 then [Edge("$ns3::Ipv4", 4)] else if t == 4 then [Edge("$ns3::Node", 0)] else []
  {
    assert "$" + "ns3::Ipv4" == "$ns3::Ipv4" && "$" + "ns3::Node" == "$ns3::Node";
  }

  lemma OnePair(reg: Registry, t: Tid, pair: (Tid, Tid))
    ensures AggregateEdges(reg, t, [pair]) == AggregateStep(reg, t, pair)
  {
    assert [pair][..0] == [];
    assert AggregateEdges(reg, t, []) == [];
  }

  lemma AllKindsPairs(t: Tid)
    ensures AggregateEdges(ALL_KINDS, t, [(0, 4)]) ==
      if t == 0 then [Edge("$ns3::Ipv4", 4)] else if t == 4 then [Edge("$ns3::Node", 0)] else []
  {
    hide *;
    OnePair(ALL_KINDS, t, (0, 4));
    PairStep(t);
  }

  lemma EdgesOf(g: Graph, t: Tid)
    requires g.Closed() && t in g.reg.Types() && t in g.reg.attributes
    ensures t in TypeGraph(g)
    ensures TypeGraph(g)[t] == AttributeEdges(g.reg, g.reg.attributes[t])
      + ChildEdges(g.reg, t, g.reg.registered) + AggregateEdges(g.reg, t, g.aggregates)
  {
    hide AttributeEdges, ChildEdges, AggregateEdges, Closed;
  }

  lemma AllKindsGraph(t: Tid)
    requires t < 6
    ensures BESIDE.Closed() && t in TypeGraph(BESIDE)
    ensures TypeGraph(BESIDE)[t] ==
      if t == 0 then
        [Edge("Mobility", 1), Edge("DeviceList/[i]", 2)] + [Edge("$ns3::Host", 3)] + [Edge("$ns3::Ipv4", 4)]
      else if t == 4 then [] + [Edge("$ns3::Node", 0)] else []
  {
    AllKindsClosed();
    AllKindsFields(t);
    hide *;
    EdgesOf(BESIDE, t);
    AllKindsAttributes();
    AllKindsChildren(t);
    AllKindsPairs(t);
    NoAttributes(ALL_KINDS);
  }

  lemma AllKindsFields(t: Tid)
    requires t < 6
    ensures BESIDE.reg == ALL_KINDS && BESIDE.aggregates == [(0, 4)] && ALL_KINDS.registered == [0, 1, 2, 3, 4, 5]
    ensures t in ALL_KINDS.attributes && ALL_KINDS.attributes[t] == if t == 0 then ATTRIBUTES else []
  {
  }

  lemma LeafRecords(adj: Adjacency, tid: Tid, ancestors: seq<Tid>, path: seq<string>)
    requires Closed(adj) && tid in adj && tid !in ancestors && adj[tid] == []
    ensures Records(adj, tid, ancestors, path) == [(tid, PathString(path))]
  {
    hide Closed, PathString, EdgeRecords;
    RecordsOfVisit(adj, tid, ancestors, path);
    EdgeRecordsNone(adj, ancestors + [tid], path);
  }

  /** A type whose one step leads back to an ancestor yields one record. */
  lemma BackRecords(adj: Adjacency, tid: Tid, e: Edge, ancestors: seq<Tid>, path: seq<string>)
    requires Closed(adj) && tid in adj && tid !in ancestors && adj[tid] == [e] && e.target in ancestors
    ensures Records(adj, tid, ancestors, path) == [(tid, PathString(path))]
  {
    RecordsOfVisit(adj, tid, ancestors, path);
    assert [] + [e] == [e] && e in [e];
    EdgeRecordsNone(adj, ancestors + [tid], path);
    hide PathString, EdgeRecords;
    EdgeRecordsAppend(adj, [], e, ancestors + [tid], path);
    RecordsOfRevisit(adj, e.target, ancestors + [tid], path + [e.name]);
  }

  lemma FourEdges(adj: Adjacency, a: Edge, b: Edge, c: Edge, d: Edge, ancestors: seq<Tid>, path: seq<string>)
    requires Closed(adj) && a.target in adj && b.target in adj && c.target in adj && d.target in adj
    ensures Targets(adj, [a, b] + [c] + [d])
    ensures EdgeRecords(adj, [a, b] + [c] + [d], ancestors, path) ==
      Records(adj, a.target, ancestors, path + [a.name]) + Records(adj, b.target, ancestors, path + [b.name])
      + Records(adj, c.target, ancestors, path + [c.name]) + Records(adj, d.target, ancestors, path + [d.name])
  {
    var none: seq<Edge> := [];
    assert none + [a] + [b] == [a, b];
    hide *;
    EdgeRecordsNone(adj, ancestors, path);
    EdgeRecordsAppend(adj, none, a, ancestors, path);
    EdgeRecordsAppend(adj, none + [a], b, ancestors, path);
    EdgeRecordsAppend(adj, [a, b], c, ancestors, path);
    EdgeRecordsAppend(adj, [a, b] + [c], d, ancestors, path);
  }

  lemma StarRecords(adj: Adjacency, a: Edge, b: Edge, c: Edge, d: Edge, back: Edge)
    requires Closed(adj) && 0 in adj && adj[0] == [a, b] + [c] + [d]
    requires a.target == 1 && b.target == 2 && c.target == 3 && d.target == 4 && back.target == 0
    requires 1 in adj && adj[1] == [] && 2 in adj && adj[2] == [] && 3 in adj && adj[3] == []
    requires 4 in adj && adj[4] == [back]
    ensures Records(adj, 0, [], []) ==
      [(0, PathString([]))] + ([(1, PathString([] + [a.name]))] + [(2, PathString([] + [b.name]))]
      + [(3, PathString([] + [c.name]))] + [(4, PathString([] + [d.name]))])
  {
    hide *;
    var root: seq<Tid> := [];
    var path: seq<string> := [];
    RecordsOfVisit(adj, 0, root, path);
    FourEdges(adj, a, b, c, d, root + [0], path);
    LeafRecords(adj, 1, root + [0], path + [a.name]);
    LeafRecords(adj, 2, root + [0], path + [b.name]);
    LeafRecords(adj, 3, root + [0], path + [c.name]);
    BackRecords(adj, 4, back, root + [0], path + [d.name]);
  }

  lemma AllKindsWalks(adj: Adjacency)
    requires BESIDE.Closed() && adj == TypeGraph(BESIDE)
    ensures Closed(adj) && 0 in adj
    ensures Records(adj, 0, [], []) ==
      [(0, PathString([]))] + ([(1, PathString([] + ["Mobility"]))] + [(2, PathString([] + ["DeviceList/[i]"]))]
      + [(3, PathString([] + ["$ns3::Host"]))] + [(4, PathString([] + ["$ns3::Ipv4"]))])
  {
    hide *;
    AllKindsGraph(0);
    AllKindsGraph(1);
    AllKindsGraph(2);
    AllKindsGraph(3);
    AllKindsGraph(4);
    JustOne(Edge("$ns3::Node", 0));
    StarRecords(adj, Edge("Mobility", 1), Edge("DeviceList/[i]", 2), Edge("$ns3::Host", 3), Edge("$ns3::Ipv4", 4),
                Edge("$ns3::Node", 0));
  }

  lemma AllKindsRecords(adj: Adjacency)
    requires BESIDE.Closed() && adj == TypeGraph(BESIDE)
    ensures Closed(adj) && 0 in adj
    ensures Records(adj, 0, [], []) ==
      [(0, "")] + ([(1, "/Mobility")] + [(2, "/DeviceList/[i]")] + [(3, "/$ns3::Host")] + [(4, "/$ns3::Ipv4")])
  {
    hide *;
    AllKindsWalks(adj);
    NoLabel();
    OneLabel("Mobility", "/Mobility");
    OneLabel("DeviceList/[i]", "/DeviceList/[i]");
    OneLabel("$ns3::Host", "/$ns3::Host");
    OneLabel("$ns3::Ipv4", "/$ns3::Ipv4");
  }

  lemma JustOne(e: Edge)
    ensures [] + [e] == [e]
  {
  }

  lemma NoLabel()
    ensures PathString([]) == ""
  {
  }

  lemma OneLabel(name: string, text: string)
    requires "/" + name == text
    ensures PathString([] + [name]) == text
  {
    assert ([] + [name])[..0] == [];
    assert "" + "/" + name == "/" + name;
  }

  lemma FiveRecords(a: Record, b: Record, c: Record, d: Record, e: Record)
    ensures [] + ([a] + ([b] + [c] + [d] + [e])) == [a, b, c, d, e]
  {
  }

  lemma AggregatedBeside(reg: Registry, aggregates: seq<(Tid, Tid)>)
    requires reg == ALL_KINDS && aggregates == [] + [(0, 4)]
    ensures Graph(reg, aggregates) == BESIDE
  {
  }

  /** One pass from the node takes a step of each kind, and neither the pointer to an Object nor the way back. */
  method GatherAllKinds() returns (info: StaticInformation)
    ensures fresh(info)
    ensures info.output ==
      [(0, ""), (1, "/Mobility"), (2, "/DeviceList/[i]"), (3, "/$ns3::Host"), (4, "/$ns3::Ipv4")]
  {
    AllKindsClosed();
    AllKindsNames();
    hide ALL_KINDS, BESIDE, ATTRIBUTES, Edges, Records, NoDuplicates, TypeGraph;
    info := new StaticInformation(ALL_KINDS);
    info.RecordAggregationInfo("ns3::Node", "ns3::Ipv4");
    AggregatedBeside(info.reg, info.aggregates);
    AllKindsRecords(info.adj);
    info.Gather(0);
    FiveRecords((0, ""), (1, "/Mobility"), (2, "/DeviceList/[i]"), (3, "/$ns3::Host"), (4, "/$ns3::Ipv4"));
  }
}
