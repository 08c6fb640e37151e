/**
 * Turning one file-system event into work (build-server/build/incremental_graph.py).
 * A path is classified by whether it exists and whether the graph tracks
 * it. A changed or new file yields the tasks reachable from its node; a
 * vanished one unlinks and removes every node that has become invalid.
 * Reachability is a recursive depth-first walk with no visited set.
 *
 * Python iterates each `edges_out` set in an order of its own choosing:
 * that order is the parameter `walk`, which lists the set exactly once.
 * The interpreter's recursion limit is the parameter `fuel`, the number
 * of nested `_run_dfs` calls allowed; a walk that goes deeper ends in
 * its recursion-depth error.
 */
module IncrementalGraph {
  import opened Wrappers
  import opened ByteOrder
  import opened BuildPaths
  import opened Sequences
  import opened BuildGraph
  import opened BuildTasks

  /** The order in which a node's `edges_out` set is iterated. */
  type Walk = (NodeId, set<NodeId>) -> seq<NodeId>

  /** Every iteration lists each element of the set once. */
  ghost predicate Enumerates(walk: Walk)
  {
    forall n: NodeId, s: set<NodeId> :: |walk(n, s)| == |s| && (set x | x in walk(n, s)) == s
  }

  /** Two partial walks one after the other; None if either ran out of depth. */
  function Then(x: Option<seq<NodeId>>, y: Option<seq<NodeId>>): Option<seq<NodeId>>
  {
    if x.None? || y.None? then None else Some(x.value + y.value)
  }

  /**
   * `_run_dfs(n)` with at most fuel nested calls: n itself, then the walk
   * from each of its `edges_out` in turn; None when the calls nest deeper.
   */
  function Dfs(outs: map<NodeId, set<NodeId>>, walk: Walk, n: NodeId, fuel: nat): (r: Option<seq<NodeId>>)
    ensures r.Some? ==> fuel > 0 && |r.value| >= 1 && r.value[0] == n
    decreases fuel, 0
  {
    if fuel == 0 then None
    else Then(Some([n]), DfsEach(outs, walk, walk(n, EdgesOf(outs, n)), fuel - 1))
  }

  /** The walks from each of kids in turn, concatenated. */
  function DfsEach(outs: map<NodeId, set<NodeId>>, walk: Walk, kids: seq<NodeId>, fuel: nat): (r: Option<seq<NodeId>>)
    ensures r.Some? ==> |r.value| >= |kids|
    decreases fuel, 1, |kids|
  {
    if kids == [] then Some([])
    else Then(Dfs(outs, walk, kids[0], fuel), DfsEach(outs, walk, kids[1..], fuel))
  }

  /** Walking from a + b is walking from a, then from b. */
  lemma {:induction false} DfsEachAppend(outs: map<NodeId, set<NodeId>>, walk: Walk, a: seq<NodeId>, b: seq<NodeId>, fuel: nat)
    ensures DfsEach(outs, walk, a + b, fuel) == Then(DfsEach(outs, walk, a, fuel), DfsEach(outs, walk, b, fuel))
    decreases |a|
  {
    if a == [] {
      assert a + b == b;
      if DfsEach(outs, walk, b, fuel).Some? {
        assert [] + DfsEach(outs, walk, b, fuel).value == DfsEach(outs, walk, b, fuel).value;
      }
    } else {
      assert (a + b)[0] == a[0] && (a + b)[1..] == a[1..] + b;
      DfsEachAppend(outs, walk, a[1..], b, fuel);
      var x, y, z := Dfs(outs, walk, a[0], fuel), DfsEach(outs, walk, a[1..], fuel), DfsEach(outs, walk, b, fuel);
      if x.Some? && y.Some? && z.Some? {
        assert x.value + (y.value + z.value) == (x.value + y.value) + z.value;
      }
    }
  }

  /** A path: each node after the first is in the `edges_out` of the one before. */
  ghost predicate IsPath(outs: map<NodeId, set<NodeId>>, p: seq<NodeId>)
  {
    |p| >= 1 && forall i | 0 <= i < |p| - 1 :: p[i + 1] in EdgesOf(outs, p[i])
  }

  /** b can be reached from a by following edges out, in zero or more steps. */
  ghost predicate Reaches(outs: map<NodeId, set<NodeId>>, a: NodeId, b: NodeId)
  {
    exists p :: IsPath(outs, p) && p[0] == a && p[|p| - 1] == b
  }

  /** If the walk from kids finishes, so does the walk from each kid, and what it lists is listed. */
  lemma {:induction false} DfsEachMember(outs: map<NodeId, set<NodeId>>, walk: Walk, kids: seq<NodeId>, fuel: nat, k: NodeId)
    requires DfsEach(outs, walk, kids, fuel).Some? && k in kids
    ensures Dfs(outs, walk, k, fuel).Some?
    ensures forall x | x in Dfs(outs, walk, k, fuel).value :: x in DfsEach(outs, walk, kids, fuel).value
    decreases |kids|
  {
    if kids[0] != k {
      DfsEachMember(outs, walk, kids[1..], fuel, k);
    }
  }

  /** Everything the walk from n lists is reachable from n. */
  lemma {:induction false} DfsSound(outs: map<NodeId, set<NodeId>>, walk: Walk, n: NodeId, fuel: nat, x: NodeId)
    requires Enumerates(walk) && Dfs(outs, walk, n, fuel).Some? && x in Dfs(outs, walk, n, fuel).value
    ensures Reaches(outs, n, x)
    decreases fuel, 0
  {
    if x == n {
      assert IsPath(outs, [n]);
    } else {
      var kids := walk(n, EdgesOf(outs, n));
      DfsEachSound(outs, walk, kids, fuel - 1, x);
      var k :| k in kids && Reaches(outs, k, x);
      assert k in (set y | y in kids);
      var p :| IsPath(outs, p) && p[0] == k && p[|p| - 1] == x;
      var q := [n] + p;
      assert forall i | 0 < i < |q| :: q[i] == p[i - 1];
      assert IsPath(outs, q);
    }
  }

  /** Everything the walk from kids lists is reachable from one of them. */
  lemma {:induction false} DfsEachSound(outs: map<NodeId, set<NodeId>>, walk: Walk, kids: seq<NodeId>, fuel: nat, x: NodeId)
    requires Enumerates(walk) && DfsEach(outs, walk, kids, fuel).Some? && x in DfsEach(outs, walk, kids, fuel).value
    ensures exists k | k in kids :: Reaches(outs, k, x)
    decreases fuel, 1, |kids|
  {
    if x in Dfs(outs, walk, kids[0], fuel).value {
      DfsSound(outs, walk, kids[0], fuel, x);
    } else {
      DfsEachSound(outs, walk, kids[1..], fuel, x);
      var k :| k in kids[1..] && Reaches(outs, k, x);
      assert k in kids;
    }
  }

  /** A walk that finishes lists the end of every path from its root. */
  lemma {:induction false} DfsComplete(outs: map<NodeId, set<NodeId>>, walk: Walk, p: seq<NodeId>, fuel: nat)
    requires Enumerates(walk) && IsPath(outs, p) && Dfs(outs, walk, p[0], fuel).Some?
    ensures p[|p| - 1] in Dfs(outs, walk, p[0], fuel).value
    decreases |p|
  {
    if |p| > 1 {
      var kids := walk(p[0], EdgesOf(outs, p[0]));
      assert p[1] in (set y | y in kids);
      DfsEachMember(outs, walk, kids, fuel - 1, p[1]);
      assert forall i | 0 <= i < |p| - 1 :: p[1..][i] == p[i + 1];
      assert IsPath(outs, p[1..]);
      DfsComplete(outs, walk, p[1..], fuel - 1);
    }
  }

  /**
   * `_run_dfs` lists its root first and then exactly the nodes reachable
   * from it.
   */
  lemma DfsListsReachable(outs: map<NodeId, set<NodeId>>, walk: Walk, n: NodeId, fuel: nat)
    requires Enumerates(walk) && Dfs(outs, walk, n, fuel).Some?
    ensures Dfs(outs, walk, n, fuel).value[0] == n
    ensures forall x :: x in Dfs(outs, walk, n, fuel).value <==> Reaches(outs, n, x)
  {
    forall x
      ensures x in Dfs(outs, walk, n, fuel).value <==> Reaches(outs, n, x)
    {
      if x in Dfs(outs, walk, n, fuel).value {
        DfsSound(outs, walk, n, fuel, x);
      }
      if Reaches(outs, n, x) {
        var p :| IsPath(outs, p) && p[0] == n && p[|p| - 1] == x;
        DfsComplete(outs, walk, p, fuel);
      }
    }
  }

  /** Every edge leads to a node of lower rank: the graph has no cycle. */
  ghost predicate Ranked(outs: map<NodeId, set<NodeId>>, rank: NodeId -> nat)
  {
    forall a, b | b in EdgesOf(outs, a) :: rank(b) < rank(a)
  }

  /** On a graph without cycles the walk finishes once fuel exceeds the root's rank. */
  lemma {:induction false} DfsTerminates(outs: map<NodeId, set<NodeId>>, walk: Walk, rank: NodeId -> nat, n: NodeId, fuel: nat)
    requires Enumerates(walk) && Ranked(outs, rank) && fuel > rank(n)
    ensures Dfs(outs, walk, n, fuel).Some?
    decreases fuel, 0
  {
    var kids := walk(n, EdgesOf(outs, n));
    forall k | k in kids
      ensures fuel - 1 > rank(k)
    {
      assert k in (set y | y in kids);
    }
    DfsEachTerminates(outs, walk, rank, kids, fuel - 1);
  }

  /** The walks from kids all finish when fuel exceeds each kid's rank. */
  lemma {:induction false} DfsEachTerminates(outs: map<NodeId, set<NodeId>>, walk: Walk, rank: NodeId -> nat,
                                             kids: seq<NodeId>, fuel: nat)
    requires Enumerates(walk) && Ranked(outs, rank) && forall k | k in kids :: fuel > rank(k)
    ensures DfsEach(outs, walk, kids, fuel).Some?
    decreases fuel, 1, |kids|
  {
    if kids != [] {
      DfsTerminates(outs, walk, rank, kids[0], fuel);
      DfsEachTerminates(outs, walk, rank, kids[1..], fuel);
    }
  }

  /** A walk that finishes from the start of a path also finishes from its end, with that much less depth. */
  lemma {:induction false} DfsAlongPath(outs: map<NodeId, set<NodeId>>, walk: Walk, p: seq<NodeId>, fuel: nat)
    requires Enumerates(walk) && IsPath(outs, p) && Dfs(outs, walk, p[0], fuel).Some?
    ensures fuel >= |p| && Dfs(outs, walk, p[|p| - 1], fuel - (|p| - 1)).Some?
    decreases |p|
  {
    if |p| > 1 {
      var kids := walk(p[0], EdgesOf(outs, p[0]));
      assert p[1] in (set y | y in kids);
      DfsEachMember(outs, walk, kids, fuel - 1, p[1]);
      assert forall i | 0 <= i < |p| - 1 :: p[1..][i] == p[i + 1];
      DfsAlongPath(outs, walk, p[1..], fuel - 1);
    }
  }

  /** From a node on a cycle the walk never finishes, whatever the recursion limit. */
  lemma {:induction false} CycleDiverges(outs: map<NodeId, set<NodeId>>, walk: Walk, p: seq<NodeId>, fuel: nat)
    requires Enumerates(walk) && IsPath(outs, p) && |p| > 1 && p[0] == p[|p| - 1]
    ensures Dfs(outs, walk, p[0], fuel).None?
    decreases fuel
  {
    if Dfs(outs, walk, p[0], fuel).Some? {
      DfsAlongPath(outs, walk, p, fuel);
      CycleDiverges(outs, walk, p, fuel - (|p| - 1));
    }
  }

  /** The edges of a diamond: file 0 feeds tasks 1 and 2, which both output file 3. */
  const DIAMOND: map<NodeId, set<NodeId>> := map[0 := {1, 2}, 1 := {3}, 2 := {3}]

  /** The walks from the diamond's two tasks: each lists the task, then file 3. */
  lemma DiamondBranches(walk: Walk)
    requires Enumerates(walk)
    ensures Dfs(DIAMOND, walk, 1, 2) == Some([1, 3]) && Dfs(DIAMOND, walk, 2, 2) == Some([2, 3])
  {
    assert EdgesOf(DIAMOND, 1) == {3} && EdgesOf(DIAMOND, 2) == {3} && EdgesOf(DIAMOND, 3) == {};
    var k1 := walk(1, {3});
    assert 3 in (set x | x in k1);
    assert k1 == [3];
    var k2 := walk(2, {3});
    assert 3 in (set x | x in k2);
    assert k2 == [3];
    assert walk(3, {}) == [];
    assert Dfs(DIAMOND, walk, 3, 1) == Then(Some([3]), DfsEach(DIAMOND, walk, [], 0));
    assert [3] + [] == [3];
    assert DfsEach(DIAMOND, walk, [3], 1) == Then(Dfs(DIAMOND, walk, 3, 1), DfsEach(DIAMOND, walk, [], 1));
    assert DfsEach(DIAMOND, walk, [3], 1) == Some([3]);
    assert Dfs(DIAMOND, walk, 1, 2) == Then(Some([1]), DfsEach(DIAMOND, walk, [3], 1));
    assert Dfs(DIAMOND, walk, 2, 2) == Then(Some([2]), DfsEach(DIAMOND, walk, [3], 1));
    assert [1] + [3] == [1, 3] && [2] + [3] == [2, 3];
  }

  /** With no visited set, the walk over the diamond lists file 3 twice, once per path. */
  lemma DiamondListsTwice(walk: Walk)
    requires Enumerates(walk)
    ensures Dfs(DIAMOND, walk, 0, 3) == Some([0, 1, 3, 2, 3]) || Dfs(DIAMOND, walk, 0, 3) == Some([0, 2, 3, 1, 3])
  {
    DiamondBranches(walk);
    assert EdgesOf(DIAMOND, 0) == {1, 2};
    var k := walk(0, {1, 2});
    assert 1 in (set x | x in k) && 2 in (set x | x in k);
    assert k == [k[0], k[1]] && k[1..] == [k[1]];
    var first, second := Dfs(DIAMOND, walk, k[0], 2), Dfs(DIAMOND, walk, k[1], 2);
    assert [k[1]][1..] == [];
    assert DfsEach(DIAMOND, walk, [k[1]], 2) == Then(second, DfsEach(DIAMOND, walk, [], 2));
    assert DfsEach(DIAMOND, walk, k, 2) == Then(first, DfsEach(DIAMOND, walk, [k[1]], 2));
    assert Dfs(DIAMOND, walk, 0, 3) == Then(Some([0]), DfsEach(DIAMOND, walk, k, 2));
    if k[0] == 1 {
      assert k[1] == 2;
      assert [0] + ([1, 3] + ([2, 3] + [])) == [0, 1, 3, 2, 3];
    } else {
      assert k[0] == 2 && k[1] == 1;
      assert [0] + ([2, 3] + ([1, 3] + [])) == [0, 2, 3, 1, 3];
    }
  }

  /** `filter(lambda n: n.is_task, ns)`: the task nodes of ns, in their order. */
  function TasksOf(nodes: map<NodeId, Node>, ns: seq<NodeId>): (r: seq<NodeId>)
    ensures forall x | x in r :: x in ns && x in nodes && nodes[x].TaskNode?
    ensures forall i | 0 <= i < |ns| && ns[i] in nodes && nodes[ns[i]].TaskNode? :: ns[i] in r
  {
    if ns == [] then []
    else (if ns[0] in nodes && nodes[ns[0]].TaskNode? then [ns[0]] else []) + TasksOf(nodes, ns[1..])
  }

  /** Filtering keeps the order: filtering a + b is filtering a, then b. */
  lemma {:induction false} TasksOfAppend(nodes: map<NodeId, Node>, a: seq<NodeId>, b: seq<NodeId>)
    ensures TasksOf(nodes, a + b) == TasksOf(nodes, a) + TasksOf(nodes, b)
    decreases |a|
  {
    if a == [] {
      assert a + b == b;
    } else {
      assert (a + b)[0] == a[0] && (a + b)[1..] == a[1..] + b;
      TasksOfAppend(nodes, a[1..], b);
      var h := if a[0] in nodes && nodes[a[0]].TaskNode? then [a[0]] else [];
      assert TasksOf(nodes, a + b) == h + TasksOf(nodes, a[1..] + b);
      assert h + (TasksOf(nodes, a[1..]) + TasksOf(nodes, b)) == (h + TasksOf(nodes, a[1..])) + TasksOf(nodes, b);
    }
  }

  /** `_tasks_from(root)` as a value: the task nodes of the walk, or None when it nests too deep. */
  function ReachedTasks(nodes: map<NodeId, Node>, outs: map<NodeId, set<NodeId>>, walk: Walk, root: NodeId, fuel: nat): Option<seq<NodeId>>
  {
    var d := Dfs(outs, walk, root, fuel);
    if d.None? then None else Some(TasksOf(nodes, d.value))
  }

  /** `_tasks_from(root)` lists exactly the task nodes reachable from root. */
  lemma ReachedTasksMeaning(nodes: map<NodeId, Node>, outs: map<NodeId, set<NodeId>>, walk: Walk, root: NodeId, fuel: nat)
    requires Enumerates(walk) && Dfs(outs, walk, root, fuel).Some?
    ensures ReachedTasks(nodes, outs, walk, root, fuel).Some?
    ensures forall x :: x in ReachedTasks(nodes, outs, walk, root, fuel).value <==>
      x in nodes && nodes[x].TaskNode? && Reaches(outs, root, x)
  {
    DfsListsReachable(outs, walk, root, fuel);
  }

  /**
   * `_run_dfs(root, acc)`: root is appended to acc, then the walk from
   * each of root's `edges_out` in turn; None when the calls nest deeper
   * than fuel.
   */
  method RunDfs(g: BuildGraph, root: NodeId, acc: seq<NodeId>, walk: Walk, fuel: nat) returns (r: Option<seq<NodeId>>)
    ensures r == Then(Some(acc), Dfs(g.edgesOut, walk, root, fuel))
    decreases fuel, 0
  {
    if fuel == 0 {
      return None;
    }
    var kids := walk(root, g.Out(root));
    r := RunEach(g, kids, acc + [root], walk, fuel - 1);
    if r.Some? {
      ghost var rest := DfsEach(g.edgesOut, walk, kids, fuel - 1).value;
      assert acc + [root] + rest == acc + ([root] + rest);
    }
  }

  /** The loop of `_run_dfs`: the walk from each of kids in turn, appended to acc. */
  method RunEach(g: BuildGraph, kids: seq<NodeId>, acc: seq<NodeId>, walk: Walk, fuel: nat) returns (r: Option<seq<NodeId>>)
    ensures r == Then(Some(acc), DfsEach(g.edgesOut, walk, kids, fuel))
    decreases fuel, 1
  {
    ghost var outs := g.edgesOut;
    var out := acc;
    assert DfsEach(outs, walk, kids[..0], fuel) == Some([]);
    assert out == out + [];
    for i := 0 to |kids|
      invariant DfsEach(outs, walk, kids[..i], fuel).Some?
      invariant out == acc + DfsEach(outs, walk, kids[..i], fuel).value
    {
      var sub := RunDfs(g, kids[i], out, walk, fuel);
      DfsEachAppend(outs, walk, kids[..i], [kids[i]], fuel);
      assert kids[..i + 1] == kids[..i] + [kids[i]];
      assert DfsEach(outs, walk, [kids[i]], fuel) == Then(Dfs(outs, walk, kids[i], fuel), Some([]));
      if sub.None? {
        DfsEachAppend(outs, walk, kids[..i + 1], kids[i + 1..], fuel);
        assert kids[..i + 1] + kids[i + 1..] == kids;
        return None;
      }
      assert Dfs(outs, walk, kids[i], fuel).value + [] == Dfs(outs, walk, kids[i], fuel).value;
      out := sub.value;
    }
    assert kids[..|kids|] == kids;
    return Some(out);
  }

  /** `_tasks_from(root)`. */
  method TasksFrom(g: BuildGraph, root: NodeId, walk: Walk, fuel: nat) returns (r: Option<seq<NodeId>>)
    ensures r == ReachedTasks(g.nodes, g.edgesOut, walk, root, fuel)
  {
    var d := RunDfs(g, root, [], walk, fuel);
    if d.None? {
      return None;
    }
    assert [] + Dfs(g.edgesOut, walk, root, fuel).value == Dfs(g.edgesOut, walk, root, fuel).value;
    return Some(TasksOf(g.nodes, d.value));
  }

  /** What handling a file-system event ends in besides a list of tasks. */
  datatype ChangeError =
    /** An exception from `build_file` or `remove_node`. */
    | TaskFailed(error: TaskError)
    /** The walk nested deeper than the recursion limit. */
    | RecursionDepth

  /** A walk's task list as the event's result. */
  function AsTasks(t: Option<seq<NodeId>>): Result<seq<NodeId>, ChangeError>
  {
    if t.None? then Failure(RecursionDepth) else Success(t.value)
  }

  /** A task is among the tasks reached from each of its inputs. */
  lemma InputReachesTask(nodes: map<NodeId, Node>, ins: map<NodeId, set<NodeId>>, outs: map<NodeId, set<NodeId>>,
                         walk: Walk, f: NodeId, t: NodeId, fuel: nat)
    requires Enumerates(walk) && Reciprocal(ins, outs) && f in EdgesOf(ins, t)
    requires t in nodes && nodes[t].TaskNode? && Dfs(outs, walk, f, fuel).Some?
    ensures t in ReachedTasks(nodes, outs, walk, f, fuel).value
  {
    assert IsPath(outs, [f, t]);
    ReachedTasksMeaning(nodes, outs, walk, f, fuel);
  }

  /** `_file_did_change(graph, path)`: the tasks reachable from the file's node; nothing changes. */
  method FileDidChange(g: BuildGraph, path: Path, walk: Walk, fuel: nat) returns (r: Result<seq<NodeId>, ChangeError>)
    requires path in g.fileMap
    ensures r == AsTasks(ReachedTasks(g.nodes, g.edgesOut, walk, g.fileMap[path], fuel))
  {
    var t := TasksFrom(g, g.fileMap[path], walk, fuel);
    r := AsTasks(t);
  }

  /**
   * `_file_did_appear(graph, path)`: `build_file(path)`, then the tasks
   * reachable from the path's node, or none if the path is still not in
   * `file_map`. For an absolute path this includes the task just made.
   */
  method FileDidAppear(g: BuildGraph, path: Path, registry: seq<Builder>, disk: Disk, parse: MetadataReader,
                       walk: Walk, fuel: nat) returns (r: Result<seq<NodeId>, ChangeError>)
    requires g.Valid() && IsRegistry(registry)
    modifies g
    ensures g.Valid() && Grown(old(g.nodes), old(g.fileMap), g.nodes, g.fileMap)
    ensures ShouldIgnore(path).Failure? ==> r == Failure(TaskFailed(BadPath(PathError.IndexError))) && unchanged(g)
    ensures r.Failure? && r.error.TaskFailed? ==> g.tasks == old(g.tasks)
    ensures r.Success? && path !in g.fileMap ==> r.value == []
    ensures path in g.fileMap && !(r.Failure? && r.error.TaskFailed?) ==>
      r == AsTasks(ReachedTasks(g.nodes, g.edgesOut, walk, g.fileMap[path], fuel))
    ensures Enumerates(walk) && r.Success? && |path| > 0 && path[0] == SLASH ==>
      forall t | t in g.tasks && t !in old(g.tasks) :: t in r.value
  {
    var b := BuildFile(g, path, registry, disk, parse);
    if b.Failure? {
      return Failure(TaskFailed(b.error));
    }
    if path !in g.fileMap {
      return Success([]);
    }
    var tasks := TasksFrom(g, g.fileMap[path], walk, fuel);
    r := AsTasks(tasks);
    if Enumerates(walk) && r.Success? && |path| > 0 && path[0] == SLASH && b.value.Some? {
      assert Join(g.root, path) == path;
      InputReachesTask(g.nodes, g.edgesIn, g.edgesOut, walk, g.fileMap[path], b.value.value, fuel);
    }
  }

  /** The parts of the graph and the disk that `_file_did_disappear` changes. */
  datatype GraphState = GraphState(edgesIn: map<NodeId, set<NodeId>>, edgesOut: map<NodeId, set<NodeId>>,
                                   fileMap: map<Path, NodeId>, tasks: seq<NodeId>, files: Files)

  function StateOf(g: BuildGraph, disk: Disk): GraphState
    reads g, disk
  {
    GraphState(g.edgesIn, g.edgesOut, g.fileMap, g.tasks, disk.files)
  }

  /** The filenames of the file nodes among ns. */
  function FileNames(nodes: map<NodeId, Node>, ns: set<NodeId>): set<Path>
  {
    set n | n in ns && n in nodes && nodes[n].FileNode? :: nodes[n].filename
  }

  /** o was among the `edges_out` of some node of removed. */
  ghost predicate OutputOf(outs: map<NodeId, set<NodeId>>, removed: set<NodeId>, o: NodeId)
  {
    exists n | n in removed :: o in EdgesOf(outs, n)
  }

  /** The filenames of the files that the nodes of removed had as outputs. */
  ghost function OutputNames(nodes: map<NodeId, Node>, outs: map<NodeId, set<NodeId>>, removed: set<NodeId>): set<Path>
  {
    set o | o in nodes && nodes[o].FileNode? && OutputOf(outs, removed, o) :: nodes[o].filename
  }

  /** The edges of the nodes of removed are gone, and all others kept. */
  ghost predicate EdgesDropped(s0: GraphState, removed: set<NodeId>, s: GraphState)
  {
    (forall a :: EdgesOf(s.edgesIn, a) == if a in removed then {} else EdgesOf(s0.edgesIn, a) - removed) &&
    (forall a :: EdgesOf(s.edgesOut, a) == if a in removed then {} else EdgesOf(s0.edgesOut, a) - removed)
  }

  /** Each task of removed lost an entry of `tasks`; every other node kept all of its. */
  ghost predicate TasksDropped(nodes: map<NodeId, Node>, s0: GraphState, removed: set<NodeId>, s: GraphState)
  {
    (forall t | t !in removed :: multiset(s.tasks)[t] == multiset(s0.tasks)[t]) &&
    (forall t | t in removed && t in nodes && nodes[t].TaskNode? :: multiset(s.tasks)[t] < multiset(s0.tasks)[t])
  }

  /** Exactly the output files of the nodes of removed are gone, and so are their own files. */
  ghost predicate FilesDropped(nodes: map<NodeId, Node>, s0: GraphState, removed: set<NodeId>, s: GraphState)
  {
    s.files == s0.files - OutputNames(nodes, s0.edgesOut, removed) &&
    (forall o | o in removed && o in nodes && nodes[o].FileNode? :: nodes[o].filename !in s.files)
  }

  /**
   * From s0, the nodes of removed have been removed and their outputs
   * deleted, and nothing else: their edges are gone, their filenames
   * have left `file_map`, their tasks have left `tasks`, and their
   * output files have left the disk.
   */
  ghost predicate Dropped(nodes: map<NodeId, Node>, s0: GraphState, removed: set<NodeId>, s: GraphState)
  {
    EdgesDropped(s0, removed, s) && s.fileMap == s0.fileMap - FileNames(nodes, removed) &&
    TasksDropped(nodes, s0, removed, s) && FilesDropped(nodes, s0, removed, s)
  }

  /** The inner loop of `_file_did_disappear`: delete every file among n's outputs that exists. */
  method UnlinkOutputs(g: BuildGraph, n: NodeId, disk: Disk)
    modifies disk
    ensures disk.files == old(disk.files) - FileNames(g.nodes, g.Out(n))
  {
    var left := g.Out(n);
    while left != {}
      invariant left <= g.Out(n)
      invariant disk.files == old(disk.files) - FileNames(g.nodes, g.Out(n) - left)
      decreases left
    {
      var o :| o in left;
      assert FileNames(g.nodes, g.Out(n) - (left - {o})) == FileNames(g.nodes, g.Out(n) - left) + FileNames(g.nodes, {o});
      if o in g.nodes && g.nodes[o].FileNode? && g.nodes[o].filename in disk.files {
        disk.Unlink(g.nodes[o].filename);
      }
      left := left - {o};
    }
  }

  /** One invalid node n removed: from Dropped for removed, Dropped for removed + {n}. */
  lemma DropStep(nodes: map<NodeId, Node>, s0: GraphState, removed: set<NodeId>, s: GraphState, n: NodeId, s': GraphState)
    requires Dropped(nodes, s0, removed, s) && Bipartite(nodes, s0.edgesOut) && n in nodes
    requires nodes[n].FileNode? ==> nodes[n].filename !in s.files
    requires EdgesOf(s'.edgesIn, n) == {} && EdgesOf(s'.edgesOut, n) == {}
    requires forall a | a != n :: EdgesOf(s'.edgesIn, a) == EdgesOf(s.edgesIn, a) - {n}
    requires forall a | a != n :: EdgesOf(s'.edgesOut, a) == EdgesOf(s.edgesOut, a) - {n}
    requires s'.files == s.files - FileNames(nodes, EdgesOf(s.edgesOut, n))
    requires nodes[n].TaskNode? ==>
      s'.fileMap == s.fileMap && n in s.tasks && multiset(s'.tasks) == multiset(s.tasks) - multiset{n}
    requires nodes[n].FileNode? ==> s'.fileMap == s.fileMap - {nodes[n].filename} && s'.tasks == s.tasks
    ensures Dropped(nodes, s0, removed + {n}, s')
  {
    EdgesDropStep(s0, removed, s, n, s');
    FileMapDropStep(nodes, s0.fileMap, removed, s.fileMap, n, s'.fileMap);
    TasksDropStep(nodes, s0, removed, s, n, s');
    FilesDropStep(nodes, s0, removed, s, n, s');
  }

  lemma EdgesDropStep(s0: GraphState, removed: set<NodeId>, s: GraphState, n: NodeId, s': GraphState)
    requires EdgesDropped(s0, removed, s)
    requires EdgesOf(s'.edgesIn, n) == {} && EdgesOf(s'.edgesOut, n) == {}
    requires forall a | a != n :: EdgesOf(s'.edgesIn, a) == EdgesOf(s.edgesIn, a) - {n}
    requires forall a | a != n :: EdgesOf(s'.edgesOut, a) == EdgesOf(s.edgesOut, a) - {n}
    ensures EdgesDropped(s0, removed + {n}, s')
  {
  }

  lemma FileMapDropStep(nodes: map<NodeId, Node>, fileMap0: map<Path, NodeId>, removed: set<NodeId>,
                        fileMap: map<Path, NodeId>, n: NodeId, fileMap': map<Path, NodeId>)
    requires fileMap == fileMap0 - FileNames(nodes, removed) && n in nodes
    requires nodes[n].TaskNode? ==> fileMap' == fileMap
    requires nodes[n].FileNode? ==> fileMap' == fileMap - {nodes[n].filename}
    ensures fileMap' == fileMap0 - FileNames(nodes, removed + {n})
  {
    assert FileNames(nodes, removed + {n}) == FileNames(nodes, removed) + FileNames(nodes, {n});
  }

  lemma TasksDropStep(nodes: map<NodeId, Node>, s0: GraphState, removed: set<NodeId>, s: GraphState, n: NodeId, s': GraphState)
    requires TasksDropped(nodes, s0, removed, s) && n in nodes
    requires nodes[n].TaskNode? ==> n in s.tasks && multiset(s'.tasks) == multiset(s.tasks) - multiset{n}
    requires nodes[n].FileNode? ==> s'.tasks == s.tasks
    ensures TasksDropped(nodes, s0, removed + {n}, s')
  {
  }

  lemma FilesDropStep(nodes: map<NodeId, Node>, s0: GraphState, removed: set<NodeId>, s: GraphState, n: NodeId, s': GraphState)
    requires FilesDropped(nodes, s0, removed, s) && EdgesDropped(s0, removed, s) && Bipartite(nodes, s0.edgesOut) && n in nodes
    requires nodes[n].FileNode? ==> nodes[n].filename !in s.files
    requires s'.files == s.files - FileNames(nodes, EdgesOf(s.edgesOut, n))
    ensures FilesDropped(nodes, s0, removed + {n}, s')
  {
    var r' := removed + {n};
    forall p
      ensures p in s'.files <==> p in s0.files && p !in OutputNames(nodes, s0.edgesOut, r')
    {
      OutputNameStep(nodes, s0, removed, s, n, p);
    }
    assert s'.files == s0.files - OutputNames(nodes, s0.edgesOut, r');
  }

  /** A filename is an output of removed + {n} when it is one of removed, or of n's remaining outputs, or already gone. */
  lemma OutputNameStep(nodes: map<NodeId, Node>, s0: GraphState, removed: set<NodeId>, s: GraphState, n: NodeId, p: Path)
    requires FilesDropped(nodes, s0, removed, s) && EdgesDropped(s0, removed, s) && Bipartite(nodes, s0.edgesOut) && n in nodes
    requires nodes[n].FileNode? ==> nodes[n].filename !in s.files
    ensures p in OutputNames(nodes, s0.edgesOut, removed) ==> p in OutputNames(nodes, s0.edgesOut, removed + {n})
    ensures p in FileNames(nodes, EdgesOf(s.edgesOut, n)) ==> p in OutputNames(nodes, s0.edgesOut, removed + {n})
    ensures p in OutputNames(nodes, s0.edgesOut, removed + {n}) ==>
      p in OutputNames(nodes, s0.edgesOut, removed) || p in FileNames(nodes, EdgesOf(s.edgesOut, n)) || p !in s.files
  {
    var r' := removed + {n};
    if p in OutputNames(nodes, s0.edgesOut, removed) {
      var o :| o in nodes && nodes[o].FileNode? && OutputOf(s0.edgesOut, removed, o) && nodes[o].filename == p;
      var m :| m in removed && o in EdgesOf(s0.edgesOut, m);
      assert OutputOf(s0.edgesOut, r', o);
    }
    if p in FileNames(nodes, EdgesOf(s.edgesOut, n)) {
      var o :| o in EdgesOf(s.edgesOut, n) && o in nodes && nodes[o].FileNode? && nodes[o].filename == p;
      assert OutputOf(s0.edgesOut, r', o);
    }
    if p in OutputNames(nodes, s0.edgesOut, r') && p !in OutputNames(nodes, s0.edgesOut, removed) {
      var o :| o in nodes && nodes[o].FileNode? && OutputOf(s0.edgesOut, r', o) && nodes[o].filename == p;
      if o !in removed && n !in removed {
        assert o in EdgesOf(s.edgesOut, n);
      }
    }
  }

  /** A node reachable from an existing node exists: edges join existing nodes. */
  lemma ReachedExists(nodes: map<NodeId, Node>, outs: map<NodeId, set<NodeId>>, a: NodeId, b: NodeId)
    requires Bipartite(nodes, outs) && a in nodes && Reaches(outs, a, b)
    ensures b in nodes
  {
    var p :| IsPath(outs, p) && p[0] == a && p[|p| - 1] == b;
    if |p| > 1 {
      assert Joins(nodes, p[|p| - 2], p[|p| - 1]);
    }
  }

  /** The files left once the nodes of removed have had their outputs deleted. */
  ghost function FilesAfter(nodes: map<NodeId, Node>, s0: GraphState, removed: set<NodeId>): Files
  {
    s0.files - OutputNames(nodes, s0.edgesOut, removed)
  }

  /** n's `edges_in` once the nodes of removed are gone: none if n is one of them. */
  ghost function InputsAfter(s0: GraphState, removed: set<NodeId>, n: NodeId): set<NodeId>
  {
    if n in removed then {} else EdgesOf(s0.edgesIn, n) - removed
  }

  /**
   * `n.is_valid` is false once, starting from s0, the nodes of removed
   * have been removed and their output files deleted.
   */
  ghost predicate InvalidAfter(nodes: map<NodeId, Node>, s0: GraphState, removed: set<NodeId>, n: NodeId)
  {
    n in nodes && !NodeIsValid(nodes, map[n := InputsAfter(s0, removed, n)], n, FilesAfter(nodes, s0, removed))
  }

  /**
   * The removal rule of `_file_did_disappear`: the nodes of the walk
   * order affected that, each at its turn, are invalid in the graph the
   * earlier turns left; a node listed twice is judged at each of its turns.
   */
  ghost function Removal(nodes: map<NodeId, Node>, s0: GraphState, affected: seq<NodeId>): set<NodeId>
    decreases |affected|
  {
    if affected == [] then {}
    else
      var prev := Removal(nodes, s0, affected[..|affected| - 1]);
      if InvalidAfter(nodes, s0, prev, affected[|affected| - 1]) then prev + {affected[|affected| - 1]} else prev
  }

  /**
   * A node is removed exactly when at one of its turns in the walk it is
   * invalid in the graph the earlier turns left: a reachable node that
   * stays valid keeps its place and its output files.
   */
  lemma {:induction false} RemovalMeaning(nodes: map<NodeId, Node>, s0: GraphState, affected: seq<NodeId>, x: NodeId)
    ensures x in Removal(nodes, s0, affected) <==>
      exists k | 0 <= k < |affected| :: affected[k] == x && InvalidAfter(nodes, s0, Removal(nodes, s0, affected[..k]), x)
    decreases |affected|
  {
    if affected != [] {
      var n := |affected| - 1;
      var front := affected[..n];
      RemovalMeaning(nodes, s0, front, x);
      forall k | 0 <= k < n
        ensures affected[k] == front[k] && affected[..k] == front[..k]
      {
      }
      if InvalidAfter(nodes, s0, Removal(nodes, s0, front), x) && affected[n] == x {
        assert affected[..n] == front;
      }
    }
  }

  /** In a state Dropped describes, `is_valid` is read off s0 and removed. */
  lemma ValidInDropped(nodes: map<NodeId, Node>, s0: GraphState, removed: set<NodeId>, s: GraphState, n: NodeId)
    requires Dropped(nodes, s0, removed, s) && n in nodes
    ensures NodeIsValid(nodes, s.edgesIn, n, s.files) <==> !InvalidAfter(nodes, s0, removed, n)
  {
    assert EdgesOf(s.edgesIn, n) == EdgesOf(map[n := InputsAfter(s0, removed, n)], n);
  }

  /**
   * Removing a node for the first time raises only when the source's own
   * bookkeeping lacks it: a task missing from `tasks`, or a file whose
   * name is missing from `file_map`.
   */
  ghost predicate FirstRemovalRaises(nodes: map<NodeId, Node>, s0: GraphState, removed: set<NodeId>, x: NodeId)
    requires x in nodes
  {
    if nodes[x].TaskNode? then x !in s0.tasks else nodes[x].filename !in s0.fileMap - FileNames(nodes, removed)
  }

  /**
   * The body of `_file_did_disappear`'s loop for a node n that is
   * invalid: its output files that exist are deleted, then
   * `remove_node(n)`, which raises for a node already removed.
   */
  method DropNode(g: BuildGraph, disk: Disk, n: NodeId, ghost s0: GraphState, ghost removed: set<NodeId>)
      returns (r: Result<(), GraphError>)
    requires g.Valid() && n in g.nodes && !NodeIsValid(g.nodes, g.edgesIn, n, disk.files)
    requires Dropped(g.nodes, s0, removed, StateOf(g, disk)) && Bipartite(g.nodes, s0.edgesOut)
    modifies g, disk
    ensures g.Valid() && g.nodes == old(g.nodes)
    ensures r.Success? ==> Dropped(g.nodes, s0, removed + {n}, StateOf(g, disk))
    ensures r.Failure? ==> r.error == KeyError || r.error == ValueError
    ensures r.Failure? && n !in removed ==> FirstRemovalRaises(g.nodes, s0, removed, n)
  {
    ghost var s := StateOf(g, disk);
    UnlinkOutputs(g, n, disk);
    r := g.RemoveNode(n);
    if r.Success? {
      ghost var s' := StateOf(g, disk);
      if g.nodes[n].TaskNode? {
        EraseFirstCount(s.tasks, n);
      }
      forall a | a != n
        ensures EdgesOf(s'.edgesIn, a) == EdgesOf(s.edgesIn, a) - {n}
        ensures EdgesOf(s'.edgesOut, a) == EdgesOf(s.edgesOut, a) - {n}
      {
        assert g.In(a) == old(g.In(a)) - {n} && g.Out(a) == old(g.Out(a)) - {n};
      }
      DropStep(g.nodes, s0, removed, s, n, s');
    }
  }

  /** One turn of `_file_did_disappear`'s loop: n is dropped when it is invalid now. */
  method Visit(g: BuildGraph, disk: Disk, n: NodeId, ghost s0: GraphState, ghost removed: set<NodeId>)
      returns (r: Result<(), GraphError>, ghost removed': set<NodeId>)
    requires g.Valid() && n in g.nodes && Bipartite(g.nodes, s0.edgesOut)
    requires Dropped(g.nodes, s0, removed, StateOf(g, disk))
    modifies g, disk
    ensures g.Valid() && g.nodes == old(g.nodes)
    ensures removed' == if InvalidAfter(g.nodes, s0, removed, n) then removed + {n} else removed
    ensures r.Success? ==> Dropped(g.nodes, s0, removed', StateOf(g, disk))
    ensures r.Failure? ==> InvalidAfter(g.nodes, s0, removed, n) && (r.error == KeyError || r.error == ValueError)
    ensures r.Failure? && n !in removed ==> FirstRemovalRaises(g.nodes, s0, removed, n)
  {
    ValidInDropped(g.nodes, s0, removed, StateOf(g, disk), n);
    removed' := removed;
    r := Success(());
    if !NodeIsValid(g.nodes, g.edgesIn, n, disk.files) {
      r := DropNode(g, disk, n, s0, removed);
      removed' := removed + {n};
    }
  }

  /**
   * The loop of `_file_did_disappear` over the walk order affected: every
   * node invalid at its turn has its existing output files deleted and is
   * removed, until a removal raises.
   */
  method RemoveInvalid(g: BuildGraph, disk: Disk, affected: seq<NodeId>, ghost s0: GraphState)
      returns (r: Result<(), GraphError>, ghost removed: set<NodeId>)
    requires g.Valid() && s0 == StateOf(g, disk) && forall x | x in affected :: x in g.nodes
    modifies g, disk
    ensures g.Valid() && g.nodes == old(g.nodes) && forall x | x in removed :: x in affected
    ensures r.Success? ==> Dropped(g.nodes, s0, removed, StateOf(g, disk)) && removed == Removal(g.nodes, s0, affected)
    ensures r.Failure? ==> r.error == KeyError || r.error == ValueError
    ensures r.Failure? ==> exists k | 0 <= k < |affected| ::
        removed == Removal(g.nodes, s0, affected[..k]) && InvalidAfter(g.nodes, s0, removed, affected[k]) &&
        (affected[k] !in removed ==> FirstRemovalRaises(g.nodes, s0, removed, affected[k]))
  {
    removed := {};
    assert FileNames(g.nodes, {}) == {} && OutputNames(g.nodes, s0.edgesOut, {}) == {};
    for i := 0 to |affected|
      invariant g.Valid() && g.nodes == old(g.nodes)
      invariant Dropped(g.nodes, s0, removed, StateOf(g, disk))
      invariant forall x | x in removed :: x in affected
      invariant removed == Removal(g.nodes, s0, affected[..i])
    {
      assert affected[..i + 1][..i] == affected[..i];
      ghost var before := removed;
      var visited;
      visited, removed := Visit(g, disk, affected[i], s0, removed);
      if visited.Failure? {
        assert before == Removal(g.nodes, s0, affected[..i]) && InvalidAfter(g.nodes, s0, before, affected[i]);
        return visited, before;
      }
    }
    assert affected[..|affected|] == affected;
    return Success(()), removed;
  }

  /**
   * The outcome of `_file_did_disappear` for the walk order affected
   * (None when the walk is too deep), from s0 to s: [] with exactly the
   * nodes Removal names removed, or the KeyError or ValueError of a
   * `remove_node` at some turn k, with the nodes before it removed.
   */
  ghost predicate RemovedAsWalked(nodes: map<NodeId, Node>, s0: GraphState, affected: Option<seq<NodeId>>,
                                  r: Result<seq<NodeId>, ChangeError>, removed: set<NodeId>, s: GraphState)
  {
    (affected.None? ==> r == Failure(RecursionDepth)) &&
    (r.Success? ==>
       r.value == [] && affected.Some? && removed == Removal(nodes, s0, affected.value) && Dropped(nodes, s0, removed, s)) &&
    (r.Failure? && r != Failure(RecursionDepth) ==>
       affected.Some? && (r == Failure(TaskFailed(Raised(KeyError))) || r == Failure(TaskFailed(Raised(ValueError)))) &&
       exists k | 0 <= k < |affected.value| ::
         removed == Removal(nodes, s0, affected.value[..k]) && InvalidAfter(nodes, s0, removed, affected.value[k]) &&
         (affected.value[k] !in removed ==> FirstRemovalRaises(nodes, s0, removed, affected.value[k])))
  }

  /**
   * `_file_did_disappear(graph, path)`: in the order of the walk from the
   * path's node, every node that is invalid at its turn has its existing
   * output files deleted and is removed (Removal). The result is always
   * []; the vanished file's own node is among those removed.
   */
  method FileDidDisappear(g: BuildGraph, path: Path, disk: Disk, walk: Walk, fuel: nat)
      returns (r: Result<seq<NodeId>, ChangeError>, ghost removed: set<NodeId>)
    requires g.Valid() && path in g.fileMap && Enumerates(walk)
    modifies g, disk
    ensures g.Valid() && g.nodes == old(g.nodes)
    ensures Dfs(old(g.edgesOut), walk, old(g.fileMap[path]), fuel).None? ==> unchanged(g) && unchanged(disk)
    ensures RemovedAsWalked(g.nodes, old(StateOf(g, disk)), Dfs(old(g.edgesOut), walk, old(g.fileMap[path]), fuel),
                            r, removed, StateOf(g, disk))
    ensures r.Success? ==> forall n | n in removed :: Reaches(old(g.edgesOut), old(g.fileMap[path]), n)
    ensures r.Success? && path !in old(disk.files) ==> old(g.fileMap[path]) in removed && path !in g.fileMap
  {
    var root := g.fileMap[path];
    var walked := RunDfs(g, root, [], walk, fuel);
    if walked.None? {
      return Failure(RecursionDepth), {};
    }
    var affected := walked.value;
    ghost var outs0 := g.edgesOut;
    assert affected == Dfs(outs0, walk, root, fuel).value;
    DfsListsReachable(outs0, walk, root, fuel);
    forall x | x in affected
      ensures x in g.nodes
    {
      ReachedExists(g.nodes, outs0, root, x);
    }
    ghost var s0 := StateOf(g, disk);
    var dropped;
    dropped, removed := RemoveInvalid(g, disk, affected, s0);
    if dropped.Failure? {
      return Failure(TaskFailed(Raised(dropped.error))), removed;
    }
    if path !in s0.files {
      assert affected[..0] == [] && InvalidAfter(g.nodes, s0, Removal(g.nodes, s0, affected[..0]), affected[0]);
      RemovalMeaning(g.nodes, s0, affected, root);
      assert path in FileNames(g.nodes, removed);
    }
    return Success([]), removed;
  }

  /**
   * `tasks_from_fs_change(graph, path)`: by whether the path exists and
   * whether the graph tracks it, a changed, appeared or disappeared file,
   * or nothing to do.
   */
  method TasksFromFsChange(g: BuildGraph, path: Path, registry: seq<Builder>, disk: Disk, parse: MetadataReader,
                           walk: Walk, fuel: nat) returns (r: Result<seq<NodeId>, ChangeError>, ghost removed: set<NodeId>)
    requires g.Valid() && IsRegistry(registry) && Enumerates(walk)
    modifies g, disk
    ensures g.Valid()
    ensures path in old(disk.files) && path in old(g.fileMap) ==>
      unchanged(g) && unchanged(disk) && r == AsTasks(ReachedTasks(g.nodes, g.edgesOut, walk, g.fileMap[path], fuel))
    ensures path in old(disk.files) && path !in old(g.fileMap) ==>
      unchanged(disk) && Grown(old(g.nodes), old(g.fileMap), g.nodes, g.fileMap) &&
      (ShouldIgnore(path).Failure? ==> r == Failure(TaskFailed(BadPath(PathError.IndexError))) && unchanged(g)) &&
      (r.Failure? && r.error.TaskFailed? ==> g.tasks == old(g.tasks)) &&
      (r.Success? && path !in g.fileMap ==> r.value == []) &&
      (path in g.fileMap && !(r.Failure? && r.error.TaskFailed?) ==>
         r == AsTasks(ReachedTasks(g.nodes, g.edgesOut, walk, g.fileMap[path], fuel))) &&
      (r.Success? && |path| > 0 && path[0] == SLASH ==> forall t | t in g.tasks && t !in old(g.tasks) :: t in r.value)
    ensures path !in old(disk.files) && path in old(g.fileMap) ==>
      g.nodes == old(g.nodes) && (r.Success? ==> path !in g.fileMap) &&
      RemovedAsWalked(g.nodes, old(StateOf(g, disk)), Dfs(old(g.edgesOut), walk, old(g.fileMap[path]), fuel),
                      r, removed, StateOf(g, disk))
    ensures path !in old(disk.files) && path !in old(g.fileMap) ==> r == Success([]) && unchanged(g) && unchanged(disk)
  {
    removed := {};
    var onDisk := path in disk.files;
    var inGraph := path in g.fileMap;
    if onDisk && inGraph {
      r := FileDidChange(g, path, walk, fuel);
    } else if onDisk && !inGraph {
      r := FileDidAppear(g, path, registry, disk, parse, walk, fuel);
    } else if !onDisk && inGraph {
      r, removed := FileDidDisappear(g, path, disk, walk, fuel);
    } else {
      r := Success([]);
    }
  }
}
