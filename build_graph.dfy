/**
 * The asset build graph: file nodes and task nodes joined by reciprocal
 * edge sets, a content-hash cache on every output file, the staleness
 * test that reads it, and the graph operations of build_graph.py.
 *
 * Python objects are named by node ids: `nodes` holds every node ever
 * made (a removed node stays an object; it is only unlinked), and each
 * node's `edges_in`/`edges_out` sets are the entries of `edgesIn` and
 * `edgesOut`. The file system is a map from path to contents; SHA-1 is
 * an uninterpreted function of the contents.
 */
module BuildGraph {
  import opened Wrappers
  import opened ByteOrder
  import opened BuildPaths
  import opened Sequences
  import opened PyValues
  import opened RbdefEncode
  import opened RbdefDecode
  import opened CacheFormat

  type NodeId = nat

  /** The exceptions the graph operations and tasks raise. */
  datatype GraphError =
    /** `set.remove` or `del` of a missing element, or a missing JSON key. */
    | KeyError
    /** `list.remove` of a missing element, or undecodable JSON. */
    | ValueError
    /** A file that cannot be opened. */
    | IOError
    /** `list(...)[0]` of an empty collection. */
    | IndexError

  /** Why `load_build_cache` stops: `load` raised, or the file holds no dict of byte strings. */
  datatype LoadError = Undecodable(error: DecodeError) | NotACache

  /** What `as_file_node` accepts: a file node, or a path. */
  datatype FileRef = NodeRef(id: NodeId) | PathRef(path: Path)
  type Digest = seq<Byte>
  type Files = map<Path, seq<Byte>>

  /** The tasks build_tasks.py makes, with the nodes each keeps a reference to. */
  datatype TaskKind =
    /** A task made by `build_task_single` from a function, such as `copy_png`. */
    | FunctionTask(name: Path)
    /** `BuildMeshTask`: `mesh_node`, `settings_node`, `dest_node`. */
    | MeshTask(meshNode: NodeId, settingsNode: NodeId, destNode: NodeId)
    /**
     * `BuildShaderTask`: `shader_metadata`, `destination`, and the vertex
     * and fragment shader nodes, which are set together or not at all.
     */
    | ShaderTask(metadata: NodeId, destination: NodeId, shaders: Option<(NodeId, NodeId)>)

  datatype Node =
    | FileNode(filename: Path, buildCache: map<Path, Digest>)
    | TaskNode(kind: TaskKind)

  /** The outside world the build engine reads and writes. */
  class Disk {
    var files: Files
    /** `hash_file` of a file's contents. */
    const sha1: seq<Byte> -> Digest

    constructor (files: Files, sha1: seq<Byte> -> Digest)
      ensures this.files == files && this.sha1 == sha1
    {
      this.files, this.sha1 := files, sha1;
    }

    /** `os.unlink(p)` of an existing file. */
    method Unlink(p: Path)
      requires p in files
      modifies this
      ensures files == old(files) - {p}
    {
      files := files - {p};
    }

    /** The file system as a task's `run` left it. */
    method Store(after: Files)
      modifies this
      ensures files == after
    {
      files := after;
    }

    /** A file written whole. */
    method Write(p: Path, contents: seq<Byte>)
      modifies this
      ensures files == old(files)[p := contents]
    {
      files := files[p := contents];
    }
  }

  /** `cache_build(sources)`: the hash of every source that exists, and nothing else. */
  function FreshCache(names: set<Path>, files: Files, sha1: seq<Byte> -> Digest): (r: map<Path, Digest>)
  {
    map p | p in names && p in files :: sha1(files[p])
  }

  /** `load_build_cache(sources, cache)`: the entries of cache for these sources. */
  function KeptCache(names: set<Path>, cache: map<Path, Digest>): (r: map<Path, Digest>)
  {
    map p | p in names && p in cache :: cache[p]
  }

  /**
   * `node_is_invalid` in `is_invalid`: a cached source is stale when it
   * is missing or its hash changed; an uncached source when it exists.
   */
  predicate SourceIsInvalid(cache: map<Path, Digest>, p: Path, files: Files, sha1: seq<Byte> -> Digest)
  {
    if p in cache then p !in files || cache[p] != sha1(files[p]) else p in files
  }

  /** `FileNode.is_invalid(sources)`: the output is missing, or some source is stale. */
  predicate OutputIsInvalid(filename: Path, cache: map<Path, Digest>, names: set<Path>, files: Files,
                            sha1: seq<Byte> -> Digest)
  {
    filename !in files || exists p | p in names :: SourceIsInvalid(cache, p, files, sha1)
  }

  /**
   * An output that exists is valid exactly when every one of its sources
   * is as it was when cached: cached sources exist with the cached hash,
   * and uncached ones do not exist. In particular an uncached source that
   * is missing does not invalidate.
   */
  lemma OutputValidIff(filename: Path, cache: map<Path, Digest>, names: set<Path>, files: Files,
                       sha1: seq<Byte> -> Digest)
    requires filename in files
    ensures !OutputIsInvalid(filename, cache, names, files, sha1) <==>
      forall p | p in names ::
        (p in cache ==> p in files && cache[p] == sha1(files[p])) && (p !in cache ==> p !in files)
  {
  }

  /**
   * Recording fresh hashes makes an existing output valid: right after
   * `cache_build`, with the disk unchanged, `is_invalid` is false.
   */
  lemma FreshCacheIsValid(filename: Path, names: set<Path>, files: Files, sha1: seq<Byte> -> Digest)
    requires filename in files
    ensures !OutputIsInvalid(filename, FreshCache(names, files, sha1), names, files, sha1)
  {
    var cache := FreshCache(names, files, sha1);
    forall p | p in names
      ensures !SourceIsInvalid(cache, p, files, sha1)
    {
      if p in files {
        assert p in cache;
      }
    }
  }

  /**
   * After `cache_build`, any change to a source is noticed: a source
   * that is edited (to contents of another hash), deleted, or created
   * makes the output invalid.
   */
  lemma SourceChangeInvalidates(filename: Path, names: set<Path>, files: Files, later: Files,
                                sha1: seq<Byte> -> Digest, p: Path)
    requires p in names
    requires (p in files) != (p in later) ||
             (p in files && p in later && sha1(files[p]) != sha1(later[p]))
    ensures OutputIsInvalid(filename, FreshCache(names, files, sha1), names, later, sha1)
  {
    assert SourceIsInvalid(FreshCache(names, files, sha1), p, later, sha1);
  }

  /** Loading a cache back for the same sources keeps exactly what was recorded for them. */
  lemma KeptFreshCache(names: set<Path>, files: Files, sha1: seq<Byte> -> Digest, saved: map<Path, Digest>)
    requires forall p | p in FreshCache(names, files, sha1) :: p in saved && saved[p] == FreshCache(names, files, sha1)[p]
    requires forall p | p in names && p in saved :: p in files
    ensures KeptCache(names, saved) == FreshCache(names, files, sha1)
  {
  }

  /** One more source in `cache_build`: one more entry when it exists. */
  lemma FreshCacheAdd(names: set<Path>, p: Path, files: Files, sha1: seq<Byte> -> Digest)
    ensures FreshCache(names + {p}, files, sha1) ==
      if p in files then FreshCache(names, files, sha1)[p := sha1(files[p])] else FreshCache(names, files, sha1)
  {
  }

  /** One more source in `load_build_cache`: one more entry when the cache has it. */
  lemma KeptCacheAdd(names: set<Path>, p: Path, cache: map<Path, Digest>)
    ensures KeptCache(names + {p}, cache) == if p in cache then KeptCache(names, cache)[p := cache[p]] else KeptCache(names, cache)
  {
  }

  /** A node's edge set, empty for a node without one. */
  function EdgesOf(m: map<NodeId, set<NodeId>>, n: NodeId): set<NodeId>
  {
    if n in m then m[n] else {}
  }

  /** b is in a's edges_out exactly when a is in b's edges_in. */
  ghost predicate Reciprocal(ins: map<NodeId, set<NodeId>>, outs: map<NodeId, set<NodeId>>)
  {
    (forall a, b | b in EdgesOf(outs, a) :: a in EdgesOf(ins, b)) &&
    (forall a, b | a in EdgesOf(ins, b) :: b in EdgesOf(outs, a))
  }

  /** a and b are existing nodes, one a file node and the other a task node. */
  predicate Joins(nodes: map<NodeId, Node>, a: NodeId, b: NodeId)
  {
    a in nodes && b in nodes && nodes[a].FileNode? != nodes[b].FileNode?
  }

  /** Edges join existing nodes, always a file node and a task node. */
  ghost predicate Bipartite(nodes: map<NodeId, Node>, outs: map<NodeId, set<NodeId>>)
  {
    forall a, b | b in EdgesOf(outs, a) :: Joins(nodes, a, b)
  }

  /** connect_nodes(a, b) on the edge maps. */
  lemma ConnectKeepsEdges(nodes: map<NodeId, Node>, ins: map<NodeId, set<NodeId>>, outs: map<NodeId, set<NodeId>>,
                          a: NodeId, b: NodeId)
    requires Reciprocal(ins, outs) && Bipartite(nodes, outs)
    requires Joins(nodes, a, b)
    ensures var outs' := outs[a := EdgesOf(outs, a) + {b}];
      var ins' := ins[b := EdgesOf(ins, b) + {a}];
      Reciprocal(ins', outs') && Bipartite(nodes, outs')
  {
    var outs' := outs[a := EdgesOf(outs, a) + {b}];
    var ins' := ins[b := EdgesOf(ins, b) + {a}];
    forall x, y | y in EdgesOf(outs', x)
      ensures x in EdgesOf(ins', y)
    {
      if x != a || y != b {
        assert y in EdgesOf(outs, x);
        assert x in EdgesOf(ins, y);
      }
    }
    forall x, y | x in EdgesOf(ins', y)
      ensures y in EdgesOf(outs', x)
    {
      if x != a || y != b {
        assert x in EdgesOf(ins, y);
        assert y in EdgesOf(outs, x);
      }
    }
    forall x, y | y in EdgesOf(outs', x)
      ensures Joins(nodes, x, y)
    {
      if x != a || y != b {
        assert y in EdgesOf(outs, x);
      }
    }
  }

  /** disconnect_nodes(a, b) on the edge maps. */
  lemma DisconnectKeepsEdges(nodes: map<NodeId, Node>, ins: map<NodeId, set<NodeId>>, outs: map<NodeId, set<NodeId>>,
                             a: NodeId, b: NodeId)
    requires Reciprocal(ins, outs) && Bipartite(nodes, outs)
    ensures var outs' := outs[a := EdgesOf(outs, a) - {b}];
      var ins' := ins[b := EdgesOf(ins, b) - {a}];
      Reciprocal(ins', outs') && Bipartite(nodes, outs')
  {
    var outs' := outs[a := EdgesOf(outs, a) - {b}];
    var ins' := ins[b := EdgesOf(ins, b) - {a}];
    forall x, y | y in EdgesOf(outs', x)
      ensures x in EdgesOf(ins', y)
    {
      assert y in EdgesOf(outs, x);
      assert x in EdgesOf(ins, y);
    }
    forall x, y | x in EdgesOf(ins', y)
      ensures y in EdgesOf(outs', x)
    {
      assert x in EdgesOf(ins, y);
      assert y in EdgesOf(outs, x);
    }
    forall x, y | y in EdgesOf(outs', x)
      ensures Joins(nodes, x, y)
    {
      assert y in EdgesOf(outs, x);
    }
  }

  /** The edge maps after `connect_nodes(s, t)` for each s of sources in turn. */
  function ConnectedFrom(ins: map<NodeId, set<NodeId>>, outs: map<NodeId, set<NodeId>>, sources: seq<NodeId>,
                         t: NodeId): (r: (map<NodeId, set<NodeId>>, map<NodeId, set<NodeId>>))
  {
    if |sources| == 0 then (ins, outs)
    else
      var (i, o) := ConnectedFrom(ins, outs, sources[..|sources| - 1], t);
      var s := sources[|sources| - 1];
      (i[t := EdgesOf(i, t) + {s}], o[s := EdgesOf(o, s) + {t}])
  }

  /** The edge maps after `connect_nodes(t, o)` for each o of targets in turn. */
  function ConnectedTo(ins: map<NodeId, set<NodeId>>, outs: map<NodeId, set<NodeId>>, t: NodeId,
                       targets: seq<NodeId>): (r: (map<NodeId, set<NodeId>>, map<NodeId, set<NodeId>>))
  {
    if |targets| == 0 then (ins, outs)
    else
      var (i, o) := ConnectedTo(ins, outs, t, targets[..|targets| - 1]);
      var d := targets[|targets| - 1];
      (i[d := EdgesOf(i, d) + {t}], o[t := EdgesOf(o, t) + {d}])
  }

  /** Connecting every source to t adds t to the outputs of exactly the sources. */
  lemma {:induction false} ConnectedFromOut(ins: map<NodeId, set<NodeId>>, outs: map<NodeId, set<NodeId>>,
                                            sources: seq<NodeId>, t: NodeId, a: NodeId)
    requires t !in sources
    ensures EdgesOf(ConnectedFrom(ins, outs, sources, t).1, a) == EdgesOf(outs, a) + (if a in sources then {t} else {})
  {
    if |sources| > 0 {
      var init := sources[..|sources| - 1];
      var s := sources[|sources| - 1];
      assert sources == init + [s];
      assert a in sources <==> a in init || a == s;
      ConnectedFromOut(ins, outs, init, t, a);
      ConnectedFromOut(ins, outs, init, t, s);
    }
  }

  /** Connecting every source to t gives t the sources as inputs and changes no other node's inputs. */
  lemma {:induction false} ConnectedFromIn(ins: map<NodeId, set<NodeId>>, outs: map<NodeId, set<NodeId>>,
                                           sources: seq<NodeId>, t: NodeId, b: NodeId)
    ensures EdgesOf(ConnectedFrom(ins, outs, sources, t).0, b) ==
            EdgesOf(ins, b) + (if b == t then (set x | x in sources) else {})
  {
    if |sources| > 0 {
      var init := sources[..|sources| - 1];
      var s := sources[|sources| - 1];
      assert sources == init + [s];
      assert (set x | x in sources) == (set x | x in init) + {s};
      ConnectedFromIn(ins, outs, init, t, b);
      ConnectedFromIn(ins, outs, init, t, t);
    }
  }

  /**
   * Connecting every source to t gives t exactly those sources as new
   * inputs and each source t as a new output, and touches no other edge.
   */
  lemma ConnectedFromMeaning(ins: map<NodeId, set<NodeId>>, outs: map<NodeId, set<NodeId>>,
                              sources: seq<NodeId>, t: NodeId)
    requires t !in sources
    ensures var (i, o) := ConnectedFrom(ins, outs, sources, t);
      EdgesOf(i, t) == EdgesOf(ins, t) + (set s | s in sources) && EdgesOf(o, t) == EdgesOf(outs, t) &&
      (forall a | a != t :: EdgesOf(o, a) == EdgesOf(outs, a) + (if a in sources then {t} else {})) &&
      (forall b | b != t :: EdgesOf(i, b) == EdgesOf(ins, b))
  {
    ConnectedFromIn(ins, outs, sources, t, t);
    ConnectedFromOut(ins, outs, sources, t, t);
    forall a | a != t
      ensures EdgesOf(ConnectedFrom(ins, outs, sources, t).1, a) ==
              EdgesOf(outs, a) + (if a in sources then {t} else {})
      ensures EdgesOf(ConnectedFrom(ins, outs, sources, t).0, a) == EdgesOf(ins, a)
    {
      ConnectedFromOut(ins, outs, sources, t, a);
      ConnectedFromIn(ins, outs, sources, t, a);
    }
  }

  /** Connecting t to every target adds t to the inputs of exactly the targets. */
  lemma {:induction false} ConnectedToIn(ins: map<NodeId, set<NodeId>>, outs: map<NodeId, set<NodeId>>,
                                         t: NodeId, targets: seq<NodeId>, b: NodeId)
    requires t !in targets
    ensures EdgesOf(ConnectedTo(ins, outs, t, targets).0, b) == EdgesOf(ins, b) + (if b in targets then {t} else {})
  {
    if |targets| > 0 {
      var init := targets[..|targets| - 1];
      var d := targets[|targets| - 1];
      assert targets == init + [d];
      assert b in targets <==> b in init || b == d;
      ConnectedToIn(ins, outs, t, init, b);
      ConnectedToIn(ins, outs, t, init, d);
    }
  }

  /** Connecting t to every target gives t the targets as outputs and changes no other node's outputs. */
  lemma {:induction false} ConnectedToOut(ins: map<NodeId, set<NodeId>>, outs: map<NodeId, set<NodeId>>,
                                          t: NodeId, targets: seq<NodeId>, a: NodeId)
    ensures EdgesOf(ConnectedTo(ins, outs, t, targets).1, a) ==
            EdgesOf(outs, a) + (if a == t then (set x | x in targets) else {})
  {
    if |targets| > 0 {
      var init := targets[..|targets| - 1];
      var d := targets[|targets| - 1];
      assert targets == init + [d];
      assert (set x | x in targets) == (set x | x in init) + {d};
      ConnectedToOut(ins, outs, t, init, a);
      ConnectedToOut(ins, outs, t, init, t);
    }
  }

  /**
   * Connecting t to every target gives t exactly those targets as new
   * outputs and each target t as a new input, and touches no other edge.
   */
  lemma ConnectedToMeaning(ins: map<NodeId, set<NodeId>>, outs: map<NodeId, set<NodeId>>,
                            t: NodeId, targets: seq<NodeId>)
    requires t !in targets
    ensures var (i, o) := ConnectedTo(ins, outs, t, targets);
      EdgesOf(o, t) == EdgesOf(outs, t) + (set d | d in targets) && EdgesOf(i, t) == EdgesOf(ins, t) &&
      (forall b | b != t :: EdgesOf(i, b) == EdgesOf(ins, b) + (if b in targets then {t} else {})) &&
      (forall a | a != t :: EdgesOf(o, a) == EdgesOf(outs, a))
  {
    ConnectedToIn(ins, outs, t, targets, t);
    ConnectedToOut(ins, outs, t, targets, t);
    forall b | b != t
      ensures EdgesOf(ConnectedTo(ins, outs, t, targets).0, b) ==
              EdgesOf(ins, b) + (if b in targets then {t} else {})
      ensures EdgesOf(ConnectedTo(ins, outs, t, targets).1, b) == EdgesOf(outs, b)
    {
      ConnectedToIn(ins, outs, t, targets, b);
      ConnectedToOut(ins, outs, t, targets, b);
    }
  }

  /** The edge maps after `TaskNode.__init__` wires t: an edge from every input, then to every output. */
  function Wired(ins: map<NodeId, set<NodeId>>, outs: map<NodeId, set<NodeId>>, inputs: seq<NodeId>, t: NodeId,
                 outputs: seq<NodeId>): (r: (map<NodeId, set<NodeId>>, map<NodeId, set<NodeId>>))
  {
    var (i, o) := ConnectedFrom(ins, outs, inputs, t);
    ConnectedTo(i, o, t, outputs)
  }

  /**
   * Wiring a task without edges gives it exactly the inputs and outputs
   * asked for, adds it to each input's outputs and each output's inputs,
   * and touches no other edge.
   */
  lemma WiredMeaning(ins: map<NodeId, set<NodeId>>, outs: map<NodeId, set<NodeId>>, inputs: seq<NodeId>, t: NodeId,
                     outputs: seq<NodeId>)
    requires t !in inputs && t !in outputs && EdgesOf(ins, t) == {} && EdgesOf(outs, t) == {}
    ensures var (i, o) := Wired(ins, outs, inputs, t, outputs);
      EdgesOf(i, t) == (set s | s in inputs) && EdgesOf(o, t) == (set d | d in outputs) &&
      (forall a | a != t :: EdgesOf(o, a) == EdgesOf(outs, a) + (if a in inputs then {t} else {})) &&
      (forall b | b != t :: EdgesOf(i, b) == EdgesOf(ins, b) + (if b in outputs then {t} else {}))
  {
    ConnectedFromMeaning(ins, outs, inputs, t);
    var (i1, o1) := ConnectedFrom(ins, outs, inputs, t);
    ConnectedToMeaning(i1, o1, t, outputs);
  }

  /** A node that does not exist yet has no edges. */
  lemma NoEdgesOfFreshNode(nodes: map<NodeId, Node>, ins: map<NodeId, set<NodeId>>, outs: map<NodeId, set<NodeId>>,
                           t: NodeId)
    requires Reciprocal(ins, outs) && Bipartite(nodes, outs) && t !in nodes
    ensures EdgesOf(ins, t) == {} && EdgesOf(outs, t) == {}
  {
    assert forall a | a in EdgesOf(ins, t) :: Joins(nodes, a, t);
    assert forall b | b in EdgesOf(outs, t) :: Joins(nodes, t, b);
  }

  /** A new node, with no edges, keeps the edges joining existing nodes of two kinds. */
  lemma NewNodeKeepsEdges(nodes: map<NodeId, Node>, outs: map<NodeId, set<NodeId>>, id: NodeId, node: Node)
    requires Bipartite(nodes, outs) && id !in nodes
    ensures Bipartite(nodes[id := node], outs)
  {
    forall x, y | y in EdgesOf(outs, x)
      ensures Joins(nodes[id := node], x, y)
    {
      assert x != id && y != id;
    }
  }

  /** A task node given another kind keeps the edges joining nodes of two kinds. */
  lemma RekindKeepsEdges(nodes: map<NodeId, Node>, outs: map<NodeId, set<NodeId>>, t: NodeId, kind: TaskKind)
    requires Bipartite(nodes, outs) && t in nodes && nodes[t].TaskNode?
    ensures Bipartite(nodes[t := TaskNode(kind)], outs)
  {
    forall x, y | y in EdgesOf(outs, x)
      ensures Joins(nodes[t := TaskNode(kind)], x, y)
    {
      assert Joins(nodes, x, y);
    }
  }

  /** The build cache's file name. */
  const CACHE_FILE: Path := Ascii("rw_build_cache.rbdef")

  /** Only new nodes and new file_map entries: every existing one is kept as it was. */
  ghost predicate Extends(nodes0: map<NodeId, Node>, fileMap0: map<Path, NodeId>,
                          nodes: map<NodeId, Node>, fileMap: map<Path, NodeId>)
  {
    (forall n | n in nodes0 :: n in nodes && nodes[n] == nodes0[n]) &&
    (forall k | k in fileMap0 :: k in fileMap && fileMap[k] == fileMap0[k])
  }

  /** Every file_map entry names a file node with that filename. */
  ghost predicate NamesFiles(nodes: map<NodeId, Node>, fileMap: map<Path, NodeId>)
  {
    forall p | p in fileMap :: fileMap[p] in nodes && nodes[fileMap[p]].FileNode? &&
      nodes[fileMap[p]].filename == p
  }

  /** Every entry of tasks is a task node. */
  ghost predicate ListsTasks(nodes: map<NodeId, Node>, tasks: seq<NodeId>)
  {
    forall t | t in tasks :: t in nodes && nodes[t].TaskNode?
  }

  /** Node ids below next have been handed out; the rest are free. */
  ghost predicate Allocated(nodes: map<NodeId, Node>, next: NodeId)
  {
    forall n | n in nodes :: n < next
  }

  /** A file node's filename. */
  function NameIn(nodes: map<NodeId, Node>, n: NodeId): Path
  {
    if n in nodes && nodes[n].FileNode? then nodes[n].filename else []
  }

  /** The filenames of a set of file nodes. */
  function NamesIn(nodes: map<NodeId, Node>, ns: set<NodeId>): set<Path>
  {
    set n | n in ns :: NameIn(nodes, n)
  }

  /** A file node's `build_cache`. */
  function CacheIn(nodes: map<NodeId, Node>, n: NodeId): map<Path, Digest>
  {
    if n in nodes && nodes[n].FileNode? then nodes[n].buildCache else map[]
  }

  /** Whether every node of ns is a file node. */
  predicate AllFiles(nodes: map<NodeId, Node>, ns: set<NodeId>)
  {
    forall n | n in ns :: n in nodes && nodes[n].FileNode?
  }

  /** `is_invalid(sources)` of file node o, read from the graph. */
  predicate OutputInvalidIn(nodes: map<NodeId, Node>, o: NodeId, sources: set<NodeId>, files: Files,
                            sha1: seq<Byte> -> Digest)
  {
    OutputIsInvalid(NameIn(nodes, o), CacheIn(nodes, o), NamesIn(nodes, sources), files, sha1)
  }

  /** `is_output_invalid` of task t: some output is invalid against the task's inputs. */
  predicate TaskOutputInvalid(nodes: map<NodeId, Node>, ins: map<NodeId, set<NodeId>>,
                              outs: map<NodeId, set<NodeId>>, t: NodeId, files: Files, sha1: seq<Byte> -> Digest)
  {
    exists o | o in EdgesOf(outs, t) :: OutputInvalidIn(nodes, o, EdgesOf(ins, t), files, sha1)
  }

  /** The nodes with every file node of outs given the build cache `cache`. */
  function Recached(nodes: map<NodeId, Node>, outs: set<NodeId>, cache: map<Path, Digest>): (r: map<NodeId, Node>)
  {
    map n | n in nodes :: if n in outs && nodes[n].FileNode? then FileNode(nodes[n].filename, cache) else nodes[n]
  }

  /** Recording one more output's cache is one more map update. */
  lemma RecachedStep(nodes: map<NodeId, Node>, done: set<NodeId>, o: NodeId, cache: map<Path, Digest>)
    requires o in nodes && nodes[o].FileNode?
    ensures Recached(nodes, done + {o}, cache) == Recached(nodes, done, cache)[o := FileNode(nodes[o].filename, cache)]
  {
  }

  /** Changing build caches keeps every filename, and so the graph's invariants. */
  lemma RecachedKeepsNames(nodes: map<NodeId, Node>, outs: set<NodeId>, cache: map<Path, Digest>,
                           ns: set<NodeId>)
    ensures NamesIn(Recached(nodes, outs, cache), ns) == NamesIn(nodes, ns)
    ensures forall n | n in nodes :: NameIn(Recached(nodes, outs, cache), n) == NameIn(nodes, n)
  {
    var r := Recached(nodes, outs, cache);
    assert forall n :: NameIn(r, n) == NameIn(nodes, n);
  }

  /**
   * Idempotence of a build step: once every output of t has been given
   * the fresh hashes of t's inputs, and every output exists, the task's
   * outputs are not invalid while the disk stays as it is.
   */
  lemma RanTaskIsValid(nodes: map<NodeId, Node>, ins: map<NodeId, set<NodeId>>, outs: map<NodeId, set<NodeId>>,
                       t: NodeId, files: Files, sha1: seq<Byte> -> Digest)
    requires AllFiles(nodes, EdgesOf(outs, t))
    requires forall o | o in EdgesOf(outs, t) :: NameIn(nodes, o) in files
    ensures var hashes := FreshCache(NamesIn(nodes, EdgesOf(ins, t)), files, sha1);
      !TaskOutputInvalid(Recached(nodes, EdgesOf(outs, t), hashes), ins, outs, t, files, sha1)
  {
    var hashes := FreshCache(NamesIn(nodes, EdgesOf(ins, t)), files, sha1);
    var r := Recached(nodes, EdgesOf(outs, t), hashes);
    RecachedKeepsNames(nodes, EdgesOf(outs, t), hashes, EdgesOf(ins, t));
    forall o | o in EdgesOf(outs, t)
      ensures !OutputInvalidIn(r, o, EdgesOf(ins, t), files, sha1)
    {
      assert CacheIn(r, o) == hashes;
      FreshCacheIsValid(NameIn(r, o), NamesIn(nodes, EdgesOf(ins, t)), files, sha1);
    }
  }

  /** The edge maps after `disconnect_nodes(s, n)` for each s of sources in turn. */
  function DisconnectedFrom(ins: map<NodeId, set<NodeId>>, outs: map<NodeId, set<NodeId>>, sources: seq<NodeId>,
                            n: NodeId): (r: (map<NodeId, set<NodeId>>, map<NodeId, set<NodeId>>))
  {
    if |sources| == 0 then (ins, outs)
    else
      var (i, o) := DisconnectedFrom(ins, outs, sources[..|sources| - 1], n);
      var s := sources[|sources| - 1];
      (i[n := EdgesOf(i, n) - {s}], o[s := EdgesOf(o, s) - {n}])
  }

  /** The edge maps after `disconnect_nodes(n, d)` for each d of targets in turn. */
  function DisconnectedTo(ins: map<NodeId, set<NodeId>>, outs: map<NodeId, set<NodeId>>, n: NodeId,
                          targets: seq<NodeId>): (r: (map<NodeId, set<NodeId>>, map<NodeId, set<NodeId>>))
  {
    if |targets| == 0 then (ins, outs)
    else
      var (i, o) := DisconnectedTo(ins, outs, n, targets[..|targets| - 1]);
      var d := targets[|targets| - 1];
      (i[d := EdgesOf(i, d) - {n}], o[n := EdgesOf(o, n) - {d}])
  }

  /** Disconnecting sources from n takes n out of each source's outputs and them out of n's inputs. */
  lemma {:induction false} DisconnectedFromMeaning(ins: map<NodeId, set<NodeId>>, outs: map<NodeId, set<NodeId>>,
                                                   sources: seq<NodeId>, n: NodeId)
    requires n !in sources
    ensures var (i, o) := DisconnectedFrom(ins, outs, sources, n);
      EdgesOf(i, n) == EdgesOf(ins, n) - (set s | s in sources) && EdgesOf(o, n) == EdgesOf(outs, n) &&
      (forall a | a != n :: EdgesOf(o, a) == EdgesOf(outs, a) - (if a in sources then {n} else {})) &&
      (forall b | b != n :: EdgesOf(i, b) == EdgesOf(ins, b))
  {
    if |sources| > 0 {
      var init := sources[..|sources| - 1];
      assert sources == init + [sources[|sources| - 1]];
      DisconnectedFromMeaning(ins, outs, init, n);
    }
  }

  /** Disconnecting n from targets takes them out of n's outputs and n out of each target's inputs. */
  lemma {:induction false} DisconnectedToMeaning(ins: map<NodeId, set<NodeId>>, outs: map<NodeId, set<NodeId>>,
                                                 n: NodeId, targets: seq<NodeId>)
    requires n !in targets
    ensures var (i, o) := DisconnectedTo(ins, outs, n, targets);
      EdgesOf(o, n) == EdgesOf(outs, n) - (set d | d in targets) && EdgesOf(i, n) == EdgesOf(ins, n) &&
      (forall b | b != n :: EdgesOf(i, b) == EdgesOf(ins, b) - (if b in targets then {n} else {})) &&
      (forall a | a != n :: EdgesOf(o, a) == EdgesOf(outs, a))
  {
    if |targets| > 0 {
      var init := targets[..|targets| - 1];
      assert targets == init + [targets[|targets| - 1]];
      DisconnectedToMeaning(ins, outs, n, init);
    }
  }

  /**
   * `is_valid`: a file node when its file exists; a task node when all
   * its inputs exist, except that a mesh task asks only about its mesh
   * file and a shader task only about its metadata file.
   */
  predicate NodeIsValid(nodes: map<NodeId, Node>, ins: map<NodeId, set<NodeId>>, n: NodeId, files: Files)
    requires n in nodes
  {
    match nodes[n]
    case FileNode(filename, _) => filename in files
    case TaskNode(FunctionTask(_)) => forall i | i in EdgesOf(ins, n) :: NameIn(nodes, i) in files
    case TaskNode(MeshTask(mesh, _, _)) => NameIn(nodes, mesh) in files
    case TaskNode(ShaderTask(metadata, _, _)) => NameIn(nodes, metadata) in files
  }

  /**
   * A function task is valid exactly when every input exists; in
   * particular one left with no inputs is valid, as `all([])` is true.
   */
  lemma FunctionTaskValidIff(nodes: map<NodeId, Node>, ins: map<NodeId, set<NodeId>>, n: NodeId, files: Files, name: Path)
    requires n in nodes && nodes[n] == TaskNode(FunctionTask(name))
    ensures NodeIsValid(nodes, ins, n, files) <==> forall i | i in EdgesOf(ins, n) :: NameIn(nodes, i) in files
    ensures EdgesOf(ins, n) == {} ==> NodeIsValid(nodes, ins, n, files)
  {
  }

  /**
   * The caches of the file nodes of ks merged into one dict, a later node
   * overwriting an earlier one: every entry comes from some node's cache,
   * and every node's entries have a key in it.
   */
  ghost predicate MergeOf(bc: map<Path, Digest>, nodes: map<NodeId, Node>, fileMap: map<Path, NodeId>, ks: set<Path>)
  {
    (forall p | p in bc :: exists k | k in ks && k in fileMap ::
       p in CacheIn(nodes, fileMap[k]) && CacheIn(nodes, fileMap[k])[p] == bc[p]) &&
    (forall k, p | k in ks && k in fileMap && p in CacheIn(nodes, fileMap[k]) :: p in bc)
  }

  /** Merging one more node's cache over the others. */
  lemma MergeStep(bc: map<Path, Digest>, nodes: map<NodeId, Node>, fileMap: map<Path, NodeId>, ks: set<Path>, k: Path)
    requires MergeOf(bc, nodes, fileMap, ks) && k in fileMap
    ensures MergeOf(bc + CacheIn(nodes, fileMap[k]), nodes, fileMap, ks + {k})
  {
    var c := CacheIn(nodes, fileMap[k]);
    var bc' := bc + c;
    forall p | p in bc'
      ensures exists j | j in ks + {k} && j in fileMap :: p in CacheIn(nodes, fileMap[j]) && CacheIn(nodes, fileMap[j])[p] == bc'[p]
    {
      if p in c {
        assert p in CacheIn(nodes, fileMap[k]) && CacheIn(nodes, fileMap[k])[p] == bc'[p];
      } else {
        var j :| j in ks && j in fileMap && p in CacheIn(nodes, fileMap[j]) && CacheIn(nodes, fileMap[j])[p] == bc[p];
        assert j in ks + {k};
      }
    }
  }

  /**
   * When the file nodes' caches agree wherever they share a key, the
   * merged dict holds exactly their common value, whatever the order of
   * the merge. (Where they disagree, the merge keeps one of them.)
   */
  lemma MergeOfConsistent(bc: map<Path, Digest>, nodes: map<NodeId, Node>, fileMap: map<Path, NodeId>, k: Path, p: Path)
    requires MergeOf(bc, nodes, fileMap, fileMap.Keys)
    requires k in fileMap && p in CacheIn(nodes, fileMap[k])
    requires forall j | j in fileMap && p in CacheIn(nodes, fileMap[j]) :: CacheIn(nodes, fileMap[j])[p] == CacheIn(nodes, fileMap[k])[p]
    ensures p in bc && bc[p] == CacheIn(nodes, fileMap[k])[p]
  {
  }

  /**
   * The node caches after `load_build_cache` visits the tasks ts in
   * turn, each giving its outputs the entries of c for its inputs.
   */
  function Reloaded(nodes: map<NodeId, Node>, ins: map<NodeId, set<NodeId>>, outs: map<NodeId, set<NodeId>>,
                    ts: seq<NodeId>, c: map<Path, Digest>): (r: map<NodeId, Node>)
  {
    if |ts| == 0 then nodes
    else
      var t := ts[|ts| - 1];
      Recached(Reloaded(nodes, ins, outs, ts[..|ts| - 1], c), EdgesOf(outs, t), KeptCache(NamesIn(nodes, EdgesOf(ins, t)), c))
  }

  /** Reloading never changes a filename. */
  lemma {:induction false} ReloadedKeepsNames(nodes: map<NodeId, Node>, ins: map<NodeId, set<NodeId>>,
                                              outs: map<NodeId, set<NodeId>>, ts: seq<NodeId>, c: map<Path, Digest>)
    ensures forall n :: NameIn(Reloaded(nodes, ins, outs, ts, c), n) == NameIn(nodes, n)
    ensures forall n :: (n in Reloaded(nodes, ins, outs, ts, c) <==> n in nodes)
    ensures forall n | n in nodes :: Reloaded(nodes, ins, outs, ts, c)[n].FileNode? == nodes[n].FileNode?
  {
    if |ts| > 0 {
      ReloadedKeepsNames(nodes, ins, outs, ts[..|ts| - 1], c);
    }
  }

  /**
   * An output that exactly one task t of ts produces ends up with the
   * entries of c for t's inputs; one that no task produces keeps its cache.
   */
  lemma {:induction false} ReloadedOutput(nodes: map<NodeId, Node>, ins: map<NodeId, set<NodeId>>,
                                          outs: map<NodeId, set<NodeId>>, ts: seq<NodeId>, c: map<Path, Digest>,
                                          o: NodeId, t: NodeId)
    requires o in nodes && nodes[o].FileNode?
    requires forall k | 0 <= k < |ts| :: o in EdgesOf(outs, ts[k]) ==> ts[k] == t
    ensures var made := t in ts && o in EdgesOf(outs, t);
      CacheIn(Reloaded(nodes, ins, outs, ts, c), o) ==
        if made then KeptCache(NamesIn(nodes, EdgesOf(ins, t)), c) else CacheIn(nodes, o)
  {
    if |ts| > 0 {
      var init := ts[..|ts| - 1];
      ReloadedOutput(nodes, ins, outs, init, c, o, t);
      ReloadedKeepsNames(nodes, ins, outs, init, c);
      assert ts == init + [ts[|ts| - 1]];
    }
  }

  /**
   * What reloading restores: an output whose cache names only its task's
   * inputs, and which has an entry for every input the saved dict has,
   * gets exactly its own cache back from a dict that agrees with it.
   */
  lemma KeptRestores(cache: map<Path, Digest>, names: set<Path>, saved: map<Path, Digest>)
    requires forall p | p in cache :: p in names && p in saved && saved[p] == cache[p]
    requires forall p | p in names && p in saved :: p in cache
    ensures KeptCache(names, saved) == cache
  {
  }

  /** What a task's `run` did: returned whether it succeeded, or raised; either way the files it left. */
  datatype RunOutcome = Returned(ok: bool, files: Files) | Threw(error: GraphError, files: Files)

  /** The tasks' `run`: what running task t does, starting from the given files. */
  type Runner = (NodeId, Files) -> RunOutcome

  /**
   * The state of the `build` loop: whether each task visited so far ran,
   * the nodes and the files, and the exception that ended the loop.
   */
  datatype BuildRun = BuildRun(ran: seq<bool>, nodes: map<NodeId, Node>, files: Files, raised: Option<GraphError>)

  /**
   * One task of the loop: when its outputs are invalid now it is run, and
   * on success of `run` `run_task` gives every output the fresh hashes of
   * its inputs. An exception from `run` is recorded.
   */
  function BuildStep(ins: map<NodeId, set<NodeId>>, outs: map<NodeId, set<NodeId>>, sha1: seq<Byte> -> Digest,
                     run: Runner, s: BuildRun, t: NodeId): (r: BuildRun)
    ensures |r.ran| == |s.ran| + 1 && r.ran[..|s.ran|] == s.ran
    ensures r.ran[|s.ran|] == TaskOutputInvalid(s.nodes, ins, outs, t, s.files, sha1)
  {
    if !TaskOutputInvalid(s.nodes, ins, outs, t, s.files, sha1) then s.(ran := s.ran + [false])
    else
      match run(t, s.files)
      case Threw(e, left) => BuildRun(s.ran + [true], s.nodes, left, Some(e))
      case Returned(ok, after) =>
        var hashes := FreshCache(NamesIn(s.nodes, EdgesOf(ins, t)), after, sha1);
        BuildRun(s.ran + [true], if ok then Recached(s.nodes, EdgesOf(outs, t), hashes) else s.nodes, after, None)
  }

  /**
   * The loop of the `build` command over the tasks ts in order, from the
   * given nodes and files, until a task raises.
   */
  function BuildRuns(ins: map<NodeId, set<NodeId>>, outs: map<NodeId, set<NodeId>>, sha1: seq<Byte> -> Digest,
                     run: Runner, nodes: map<NodeId, Node>, files: Files, ts: seq<NodeId>): (r: BuildRun)
    ensures |r.ran| <= |ts|
    ensures r.raised.None? ==> |r.ran| == |ts|
    ensures r.raised.Some? ==> |r.ran| > 0 && r.ran[|r.ran| - 1]
    decreases |ts|
  {
    if |ts| == 0 then BuildRun([], nodes, files, None)
    else
      var prev := BuildRuns(ins, outs, sha1, run, nodes, files, ts[..|ts| - 1]);
      if prev.raised.Some? then prev else BuildStep(ins, outs, sha1, run, prev, ts[|ts| - 1])
  }

  /** An exception ends the build: the tasks after it are not visited. */
  lemma {:induction false} BuildRunsStop(ins: map<NodeId, set<NodeId>>, outs: map<NodeId, set<NodeId>>,
                                         sha1: seq<Byte> -> Digest, run: Runner, nodes: map<NodeId, Node>,
                                         files: Files, ts: seq<NodeId>, more: seq<NodeId>)
    requires BuildRuns(ins, outs, sha1, run, nodes, files, ts).raised.Some?
    ensures BuildRuns(ins, outs, sha1, run, nodes, files, ts + more) == BuildRuns(ins, outs, sha1, run, nodes, files, ts)
    decreases |more|
  {
    if |more| == 0 {
      assert ts + more == ts;
    } else {
      var init := more[..|more| - 1];
      BuildRunsStop(ins, outs, sha1, run, nodes, files, ts, init);
      assert (ts + more)[..|ts + more| - 1] == ts + init;
    }
  }

  /**
   * What `ran` records: the k-th task ran exactly when its outputs were
   * invalid in the state the tasks before it left.
   */
  lemma {:induction false} BuildRunsRan(ins: map<NodeId, set<NodeId>>, outs: map<NodeId, set<NodeId>>,
                                        sha1: seq<Byte> -> Digest, run: Runner, nodes: map<NodeId, Node>,
                                        files: Files, ts: seq<NodeId>, k: nat)
    requires k < |BuildRuns(ins, outs, sha1, run, nodes, files, ts).ran|
    ensures var before := BuildRuns(ins, outs, sha1, run, nodes, files, ts[..k]);
      k < |ts| && before.raised.None? &&
      BuildRuns(ins, outs, sha1, run, nodes, files, ts).ran[k] == TaskOutputInvalid(before.nodes, ins, outs, ts[k], before.files, sha1)
    decreases |ts|
  {
    var init := ts[..|ts| - 1];
    var prev := BuildRuns(ins, outs, sha1, run, nodes, files, init);
    if k < |prev.ran| {
      BuildRunsRan(ins, outs, sha1, run, nodes, files, init, k);
      assert init[..k] == ts[..k] && init[k] == ts[k];
    } else {
      assert init == ts[..k];
    }
  }

  /**
   * With every task up to date at the start, the build runs nothing and
   * changes nothing.
   */
  lemma {:induction false} BuildRunsUpToDate(ins: map<NodeId, set<NodeId>>, outs: map<NodeId, set<NodeId>>,
                                             sha1: seq<Byte> -> Digest, run: Runner, nodes: map<NodeId, Node>,
                                             files: Files, ts: seq<NodeId>)
    requires forall k | 0 <= k < |ts| :: !TaskOutputInvalid(nodes, ins, outs, ts[k], files, sha1)
    ensures BuildRuns(ins, outs, sha1, run, nodes, files, ts) == BuildRun(seq(|ts|, _ => false), nodes, files, None)
    decreases |ts|
  {
    if |ts| > 0 {
      var init := ts[..|ts| - 1];
      BuildRunsUpToDate(ins, outs, sha1, run, nodes, files, init);
      assert seq(|init|, _ => false) + [false] == seq(|ts|, _ => false);
    }
  }

  /**
   * A build step is idempotent: once a task's `run` succeeded and left
   * every output in place, the task is no longer invalid, so the same
   * step again runs nothing.
   */
  lemma BuildStepValidates(ins: map<NodeId, set<NodeId>>, outs: map<NodeId, set<NodeId>>, sha1: seq<Byte> -> Digest,
                           run: Runner, s: BuildRun, t: NodeId)
    requires AllFiles(s.nodes, EdgesOf(outs, t))
    requires TaskOutputInvalid(s.nodes, ins, outs, t, s.files, sha1) && run(t, s.files).Returned? && run(t, s.files).ok
    requires forall o | o in EdgesOf(outs, t) :: NameIn(s.nodes, o) in run(t, s.files).files
    ensures var r := BuildStep(ins, outs, sha1, run, s, t);
      r.raised.None? && !TaskOutputInvalid(r.nodes, ins, outs, t, r.files, sha1) &&
      BuildStep(ins, outs, sha1, run, r, t) == r.(ran := r.ran + [false])
  {
    RanTaskIsValid(s.nodes, ins, outs, t, run(t, s.files).files, sha1);
  }

  /** The nodes once `load_build_cache` is done, or why it raised. */
  ghost function LoadedNodes(nodes: map<NodeId, Node>, ins: map<NodeId, set<NodeId>>, outs: map<NodeId, set<NodeId>>,
                             ts: seq<NodeId>, files: Files, name: Path): Result<map<NodeId, Node>, LoadError>
  {
    if name !in files then Success(nodes)
    else
      match Loads(files[name])
      case Failure(e) => Failure(Undecodable(e))
      case Success(v) =>
        match CacheOfValue(v)
        case None => Failure(NotACache)
        case Some(c) => Success(Reloaded(nodes, ins, outs, ts, c))
  }

  /**
   * `save_build_cache` from the files before to the files after: entries
   * are the items of the merged caches, and their encoding is written to
   * the cache file, or the encoder's error leaves the files as they were.
   */
  ghost predicate SavedCache(nodes: map<NodeId, Node>, fileMap: map<Path, NodeId>, name: Path,
                             entries: seq<(PyValue, PyValue)>, before: Files, after: Files,
                             saved: Result<(), EncodeError>)
  {
    (exists bc :: MergeOf(bc, nodes, fileMap, fileMap.Keys) && ItemsOf(entries, bc)) &&
    NoFloats(PyDict(entries)) &&
    (saved.Success? <==> Dumps(PyDict(entries)).Success?) &&
    (saved.Success? ==> after == before[name := Dumps(PyDict(entries)).value]) &&
    (saved.Failure? ==> saved.error == Dumps(PyDict(entries)).error && after == before)
  }

  /** Why the `build` command stopped: the exception of loading, of a task, or of saving. */
  datatype BuildError = LoadFailed(load: LoadError) | TaskRaised(raised: GraphError) | SaveFailed(save: EncodeError)

  class BuildGraph {
    var nodes: map<NodeId, Node>
    var edgesIn: map<NodeId, set<NodeId>>
    var edgesOut: map<NodeId, set<NodeId>>
    /** `file_map`: absolute path to file node. */
    var fileMap: map<Path, NodeId>
    /** `tasks`, in the order they were added. */
    var tasks: seq<NodeId>
    /** The next free node id. */
    var next: NodeId
    const root: Path
    const outDir: Path
    /** `os.getcwd()`, against which `relpath` makes paths absolute. */
    const cwd: Path

    ghost predicate Valid()
      reads this
    {
      Reciprocal(edgesIn, edgesOut) && Bipartite(nodes, edgesOut) &&
      NamesFiles(nodes, fileMap) && ListsTasks(nodes, tasks) && Allocated(nodes, next)
    }

    /** A node's `edges_in`. */
    function In(n: NodeId): set<NodeId>
      reads this
    {
      EdgesOf(edgesIn, n)
    }

    /** A node's `edges_out`. */
    function Out(n: NodeId): set<NodeId>
      reads this
    {
      EdgesOf(edgesOut, n)
    }

    /** `BuildGraph(root, out_dir)`: no files and no tasks; cwd is the process's working directory. */
    constructor (root: Path, outDir: Path, cwd: Path)
      ensures Valid() && nodes == map[] && fileMap == map[] && tasks == []
      ensures edgesIn == map[] && edgesOut == map[]
      ensures this.root == root && this.outDir == outDir && this.cwd == cwd
    {
      nodes, edgesIn, edgesOut, fileMap, tasks, next := map[], map[], map[], map[], [], 0;
      this.root, this.outDir, this.cwd := root, outDir, cwd;
    }

    /**
     * `file(name)`: the node for `path.join(root, name)`, made on first
     * use; asking again gives the same node and changes nothing.
     */
    method File(name: Path) returns (n: NodeId)
      requires Valid()
      modifies this
      ensures Valid()
      ensures var abs := Join(root, name);
        abs in fileMap && fileMap[abs] == n && n in nodes && nodes[n].FileNode? && nodes[n].filename == abs
      ensures Join(root, name) in old(fileMap) ==> n == old(fileMap[Join(root, name)]) && unchanged(this)
      ensures Join(root, name) !in old(fileMap) ==>
        n == old(next) && n !in old(nodes) && next == old(next) + 1 &&
        nodes == old(nodes)[n := FileNode(Join(root, name), map[])] &&
        fileMap == old(fileMap)[Join(root, name) := n]
      ensures edgesIn == old(edgesIn) && edgesOut == old(edgesOut) && tasks == old(tasks)
      ensures Extends(old(nodes), old(fileMap), nodes, fileMap)
    {
      var abs := Join(root, name);
      if abs in fileMap {
        n := fileMap[abs];
        return;
      }
      n := next;
      NewNodeKeepsEdges(nodes, edgesOut, n, FileNode(abs, map[]));
      nodes := nodes[n := FileNode(abs, map[])];
      fileMap := fileMap[abs := n];
      next := next + 1;
    }

    /** `add_task(task)`: appends to `tasks`. */
    method AddTask(t: NodeId)
      requires Valid() && t in nodes && nodes[t].TaskNode?
      modifies this
      ensures Valid() && tasks == old(tasks) + [t]
      ensures nodes == old(nodes) && edgesIn == old(edgesIn) && edgesOut == old(edgesOut)
      ensures fileMap == old(fileMap) && next == old(next)
    {
      tasks := tasks + [t];
    }

    /** `as_file_node(f)`: a file node as it is, a path through `file`. */
    method AsFileNode(f: FileRef) returns (n: NodeId)
      requires Valid()
      requires f.NodeRef? ==> f.id in nodes && nodes[f.id].FileNode?
      modifies this
      ensures Valid() && n in nodes && nodes[n].FileNode?
      ensures f.NodeRef? ==> n == f.id && unchanged(this)
      ensures f.PathRef? ==> Join(root, f.path) in fileMap && n == fileMap[Join(root, f.path)] && nodes[n].filename == Join(root, f.path)
      ensures edgesIn == old(edgesIn) && edgesOut == old(edgesOut) && tasks == old(tasks)
      ensures Extends(old(nodes), old(fileMap), nodes, fileMap)
    {
      if f.NodeRef? {
        return f.id;
      }
      n := File(f.path);
    }

    /**
     * `as_output_node(src)`: the file node under the output directory
     * that mirrors src below its top directory, or the error `relpath`
     * and the join raise. A node is taken by its filename.
     */
    method AsOutputNode(src: OutputSource) returns (r: Result<NodeId, PathError>)
      requires Valid()
      modifies this
      ensures Valid()
      ensures OutputNameIntended(cwd, root, outDir, src).Failure? ==>
        r == Failure(OutputNameIntended(cwd, root, outDir, src).error) && unchanged(this)
      ensures OutputNameIntended(cwd, root, outDir, src).Success? ==>
        var abs := Join(root, OutputNameIntended(cwd, root, outDir, src).value);
        r.Success? && abs in fileMap && fileMap[abs] == r.value && r.value in nodes &&
        nodes[r.value].FileNode? && nodes[r.value].filename == abs
      ensures edgesIn == old(edgesIn) && edgesOut == old(edgesOut) && tasks == old(tasks)
      ensures Extends(old(nodes), old(fileMap), nodes, fileMap)
    {
      var name := OutputNameIntended(cwd, root, outDir, src);
      if name.Failure? {
        return Failure(name.error);
      }
      var n := File(name.value);
      return Success(n);
    }

    /** `connect_nodes(a, b)`: b joins a's `edges_out` and a joins b's `edges_in`. */
    method Connect(a: NodeId, b: NodeId)
      requires Valid() && Joins(nodes, a, b)
      modifies this
      ensures Valid()
      ensures edgesOut == old(edgesOut)[a := old(Out(a)) + {b}]
      ensures edgesIn == old(edgesIn)[b := old(In(b)) + {a}]
      ensures nodes == old(nodes) && fileMap == old(fileMap) && tasks == old(tasks) && next == old(next)
    {
      ConnectKeepsEdges(nodes, edgesIn, edgesOut, a, b);
      edgesOut := edgesOut[a := Out(a) + {b}];
      edgesIn := edgesIn[b := In(b) + {a}];
    }

    /**
     * `disconnect_nodes(a, b)`: removes the edge both ways; with no such
     * edge `set.remove` raises KeyError before anything changes.
     */
    method Disconnect(a: NodeId, b: NodeId) returns (r: Result<(), GraphError>)
      requires Valid()
      modifies this
      ensures Valid()
      ensures b in old(Out(a)) ==>
        r == Success(()) && edgesOut == old(edgesOut)[a := old(Out(a)) - {b}] &&
        edgesIn == old(edgesIn)[b := old(In(b)) - {a}]
      ensures b !in old(Out(a)) ==> r == Failure(KeyError) && edgesOut == old(edgesOut) && edgesIn == old(edgesIn)
      ensures nodes == old(nodes) && fileMap == old(fileMap) && tasks == old(tasks) && next == old(next)
    {
      if b !in Out(a) {
        return Failure(KeyError);
      }
      DisconnectKeepsEdges(nodes, edgesIn, edgesOut, a, b);
      edgesOut := edgesOut[a := Out(a) - {b}];
      edgesIn := edgesIn[b := In(b) - {a}];
      r := Success(());
    }

    /**
     * `TaskNode(bld, inputs, outputs)`: a new task node with an edge from
     * every input and to every output; the task is not yet in `tasks`.
     */
    method NewTask(kind: TaskKind, inputs: seq<NodeId>, outputs: seq<NodeId>) returns (t: NodeId)
      requires Valid()
      requires forall i | 0 <= i < |inputs| :: inputs[i] in nodes && nodes[inputs[i]].FileNode?
      requires forall i | 0 <= i < |outputs| :: outputs[i] in nodes && nodes[outputs[i]].FileNode?
      modifies this
      ensures Valid()
      ensures t == old(next) && t !in old(nodes) && nodes == old(nodes)[t := TaskNode(kind)]
      ensures In(t) == (set i | i in inputs) && Out(t) == (set o | o in outputs)
      ensures (edgesIn, edgesOut) == Wired(old(edgesIn), old(edgesOut), inputs, t, outputs)
      ensures fileMap == old(fileMap) && tasks == old(tasks) && next == old(next) + 1
    {
      t := next;
      NoEdgesOfFreshNode(nodes, edgesIn, edgesOut, t);
      NewNodeKeepsEdges(nodes, edgesOut, t, TaskNode(kind));
      nodes := nodes[t := TaskNode(kind)];
      next := next + 1;
      ghost var (ins0, outs0) := (edgesIn, edgesOut);
      ConnectFrom(inputs, t);
      ConnectedFromMeaning(ins0, outs0, inputs, t);
      ghost var (ins1, outs1) := (edgesIn, edgesOut);
      ConnectTo(t, outputs);
      ConnectedToMeaning(ins1, outs1, t, outputs);
      WiredMeaning(ins0, outs0, inputs, t, outputs);
    }

    /** The first loop of `TaskNode.__init__`: an edge from every source to t. */
    method ConnectFrom(sources: seq<NodeId>, t: NodeId)
      requires Valid() && t in nodes && nodes[t].TaskNode?
      requires forall i | 0 <= i < |sources| :: sources[i] in nodes && nodes[sources[i]].FileNode?
      modifies this
      ensures Valid() && (edgesIn, edgesOut) == ConnectedFrom(old(edgesIn), old(edgesOut), sources, t)
      ensures nodes == old(nodes) && fileMap == old(fileMap) && tasks == old(tasks) && next == old(next)
    {
      for k := 0 to |sources|
        invariant Valid() && nodes == old(nodes) && fileMap == old(fileMap) && tasks == old(tasks) && next == old(next)
        invariant (edgesIn, edgesOut) == ConnectedFrom(old(edgesIn), old(edgesOut), sources[..k], t)
      {
        assert sources[..k + 1][..k] == sources[..k];
        Connect(sources[k], t);
      }
      assert sources[..|sources|] == sources;
    }

    /** The second loop of `TaskNode.__init__`: an edge from t to every target. */
    method ConnectTo(t: NodeId, targets: seq<NodeId>)
      requires Valid() && t in nodes && nodes[t].TaskNode?
      requires forall i | 0 <= i < |targets| :: targets[i] in nodes && nodes[targets[i]].FileNode?
      modifies this
      ensures Valid() && (edgesIn, edgesOut) == ConnectedTo(old(edgesIn), old(edgesOut), t, targets)
      ensures nodes == old(nodes) && fileMap == old(fileMap) && tasks == old(tasks) && next == old(next)
    {
      for k := 0 to |targets|
        invariant Valid() && nodes == old(nodes) && fileMap == old(fileMap) && tasks == old(tasks) && next == old(next)
        invariant (edgesIn, edgesOut) == ConnectedTo(old(edgesIn), old(edgesOut), t, targets[..k])
      {
        assert targets[..k + 1][..k] == targets[..k];
        Connect(t, targets[k]);
      }
      assert targets[..|targets|] == targets;
    }

    /**
     * A task's own fields assigned (`self.vertex_shader = vsh`): the
     * node's kind changes and nothing else does.
     */
    method SetTaskKind(t: NodeId, kind: TaskKind)
      requires Valid() && t in nodes && nodes[t].TaskNode?
      modifies this
      ensures Valid() && nodes == old(nodes)[t := TaskNode(kind)]
      ensures edgesIn == old(edgesIn) && edgesOut == old(edgesOut)
      ensures fileMap == old(fileMap) && tasks == old(tasks) && next == old(next)
    {
      RekindKeepsEdges(nodes, edgesOut, t, kind);
      nodes := nodes[t := TaskNode(kind)];
    }

    /** `cache_build(sources)` on file node o: the fresh hash of every source that exists. */
    method CacheBuild(o: NodeId, sources: set<NodeId>, disk: Disk)
      requires Valid() && o in nodes && nodes[o].FileNode?
      modifies this
      ensures Valid()
      ensures nodes == old(nodes)[o := FileNode(old(nodes[o].filename), FreshCache(NamesIn(old(nodes), sources), disk.files, disk.sha1))]
      ensures edgesIn == old(edgesIn) && edgesOut == old(edgesOut)
      ensures fileMap == old(fileMap) && tasks == old(tasks) && next == old(next)
    {
      var cache := HashSources(sources, disk);
      nodes := nodes[o := FileNode(nodes[o].filename, cache)];
      assert forall n :: NameIn(nodes, n) == NameIn(old(nodes), n);
    }

    /** The loop of `cache_build`: hash each source that exists, keyed by its filename. */
    method HashSources(sources: set<NodeId>, disk: Disk) returns (cache: map<Path, Digest>)
      ensures cache == FreshCache(NamesIn(nodes, sources), disk.files, disk.sha1)
    {
      cache := map[];
      var left := sources;
      while left != {}
        invariant left <= sources
        invariant cache == FreshCache(NamesIn(nodes, sources - left), disk.files, disk.sha1)
      {
        var n :| n in left;
        var name := NameIn(nodes, n);
        assert NamesIn(nodes, sources - (left - {n})) == NamesIn(nodes, sources - left) + {name};
        FreshCacheAdd(NamesIn(nodes, sources - left), name, disk.files, disk.sha1);
        if name in disk.files {
          cache := cache[name := disk.sha1(disk.files[name])];
        }
        left := left - {n};
      }
      assert sources - left == sources;
    }

    /** `load_build_cache(sources, cache)` on file node o: the entries of cache for those sources. */
    method LoadCache(o: NodeId, sources: set<NodeId>, cache: map<Path, Digest>)
      requires Valid() && o in nodes && nodes[o].FileNode?
      modifies this
      ensures Valid()
      ensures nodes == old(nodes)[o := FileNode(old(nodes[o].filename), KeptCache(NamesIn(old(nodes), sources), cache))]
      ensures edgesIn == old(edgesIn) && edgesOut == old(edgesOut)
      ensures fileMap == old(fileMap) && tasks == old(tasks) && next == old(next)
    {
      var kept := KeepSources(sources, cache);
      nodes := nodes[o := FileNode(nodes[o].filename, kept)];
      assert forall n :: NameIn(nodes, n) == NameIn(old(nodes), n);
    }

    /** The loop of `load_build_cache`: copy the entry of each source the cache has. */
    method KeepSources(sources: set<NodeId>, cache: map<Path, Digest>) returns (kept: map<Path, Digest>)
      ensures kept == KeptCache(NamesIn(nodes, sources), cache)
    {
      kept := map[];
      var left := sources;
      while left != {}
        invariant left <= sources
        invariant kept == KeptCache(NamesIn(nodes, sources - left), cache)
      {
        var n :| n in left;
        var name := NameIn(nodes, n);
        assert NamesIn(nodes, sources - (left - {n})) == NamesIn(nodes, sources - left) + {name};
        KeptCacheAdd(NamesIn(nodes, sources - left), name, cache);
        if name in cache {
          kept := kept[name := cache[name]];
        }
        left := left - {n};
      }
      assert sources - left == sources;
    }

    /** `is_output_invalid`: whether any output of task t is invalid against t's inputs. */
    method IsOutputInvalid(t: NodeId, disk: Disk) returns (r: bool)
      ensures r == TaskOutputInvalid(nodes, edgesIn, edgesOut, t, disk.files, disk.sha1)
    {
      var left := Out(t);
      while left != {}
        invariant left <= Out(t)
        invariant forall o | o in Out(t) - left :: !OutputInvalidIn(nodes, o, In(t), disk.files, disk.sha1)
      {
        var o :| o in left;
        if OutputInvalidIn(nodes, o, In(t), disk.files, disk.sha1) {
          return true;
        }
        left := left - {o};
      }
      assert Out(t) - left == Out(t);
      return false;
    }

    /**
     * `run_task(task)`: `ran` is what the task's `run` returned, and disk
     * is the file system after it. A failed run changes nothing; a
     * successful one gives every output the hashes hashes of the inputs.
     */
    method RunTask(t: NodeId, disk: Disk, ran: bool) returns (ok: bool)
      requires Valid() && t in nodes && nodes[t].TaskNode?
      modifies this
      ensures Valid() && ok == ran
      ensures !ran ==> unchanged(this)
      ensures ran ==> nodes == Recached(old(nodes), old(Out(t)), FreshCache(NamesIn(old(nodes), old(In(t))), disk.files, disk.sha1))
      ensures edgesIn == old(edgesIn) && edgesOut == old(edgesOut)
      ensures fileMap == old(fileMap) && tasks == old(tasks) && next == old(next)
    {
      if !ran {
        return false;
      }
      ghost var nodes0 := nodes;
      ghost var hashes := FreshCache(NamesIn(nodes, In(t)), disk.files, disk.sha1);
      var left := Out(t);
      assert Recached(nodes0, Out(t) - left, hashes) == nodes0;
      while left != {}
        invariant left <= Out(t) && Valid()
        invariant nodes == Recached(nodes0, Out(t) - left, hashes)
        invariant edgesIn == old(edgesIn) && edgesOut == old(edgesOut)
        invariant fileMap == old(fileMap) && tasks == old(tasks) && next == old(next)
      {
        var o :| o in left;
        assert Joins(nodes0, t, o);
        RecachedKeepsNames(nodes0, Out(t) - left, hashes, In(t));
        RecachedStep(nodes0, Out(t) - left, o, hashes);
        assert Out(t) - (left - {o}) == (Out(t) - left) + {o};
        CacheBuild(o, In(t), disk);
        left := left - {o};
      }
      assert Out(t) - left == Out(t);
      return true;
    }

    /**
     * `remove_node(n)`: disconnects n from a snapshot of its inputs and
     * then of its outputs, then drops it from `tasks` (ValueError when it
     * is not there) or from `file_map` (KeyError when its name is not
     * there). The edges are gone whether or not the last step raises.
     */
    method RemoveNode(n: NodeId) returns (r: Result<(), GraphError>)
      requires Valid() && n in nodes
      modifies this
      ensures Valid() && In(n) == {} && Out(n) == {}
      ensures forall a | a != n :: Out(a) == old(Out(a)) - {n}
      ensures forall b | b != n :: In(b) == old(In(b)) - {n}
      ensures nodes == old(nodes) && next == old(next)
      ensures nodes[n].TaskNode? ==>
        fileMap == old(fileMap) &&
        if n in old(tasks) then r == Success(()) && tasks == EraseFirst(old(tasks), n)
        else r == Failure(ValueError) && tasks == old(tasks)
      ensures nodes[n].FileNode? ==>
        tasks == old(tasks) &&
        if nodes[n].filename in old(fileMap) then r == Success(()) && fileMap == old(fileMap) - {nodes[n].filename}
        else r == Failure(KeyError) && fileMap == old(fileMap)
    {
      DetachInputs(n);
      DetachOutputs(n);
      if nodes[n].TaskNode? {
        if n !in tasks {
          return Failure(ValueError);
        }
        EraseFirstKeeps(tasks, n);
        tasks := EraseFirst(tasks, n);
      } else {
        if nodes[n].filename !in fileMap {
          return Failure(KeyError);
        }
        fileMap := fileMap - {nodes[n].filename};
      }
      r := Success(());
    }

    /** The first loop of `remove_node`: disconnect every input of n. */
    method DetachInputs(n: NodeId)
      requires Valid() && n in nodes
      modifies this
      ensures Valid() && In(n) == {} && Out(n) == old(Out(n))
      ensures forall a | a != n :: Out(a) == old(Out(a)) - {n}
      ensures forall b | b != n :: In(b) == old(In(b))
      ensures nodes == old(nodes) && fileMap == old(fileMap) && tasks == old(tasks) && next == old(next)
    {
      ghost var (ins0, outs0) := (edgesIn, edgesOut);
      ghost var order: seq<NodeId> := [];
      var left := In(n);
      while left != {}
        invariant Valid() && nodes == old(nodes) && fileMap == old(fileMap) && tasks == old(tasks) && next == old(next)
        invariant (edgesIn, edgesOut) == DisconnectedFrom(ins0, outs0, order, n)
        invariant In(n) == left && left <= EdgesOf(ins0, n)
        invariant forall s | s in order :: s in EdgesOf(ins0, n)
        decreases left
      {
        var s :| s in left;
        assert n in Out(s);
        assert (order + [s])[..|order|] == order;
        var _ := Disconnect(s, n);
        order := order + [s];
        left := In(n);
      }
      assert n !in order by {
        assert Joins(nodes, n, n) ==> false;
      }
      DisconnectedFromMeaning(ins0, outs0, order, n);
    }

    /** The second loop of `remove_node`: disconnect every output of n. */
    method DetachOutputs(n: NodeId)
      requires Valid() && n in nodes
      modifies this
      ensures Valid() && Out(n) == {} && In(n) == old(In(n))
      ensures forall b | b != n :: In(b) == old(In(b)) - {n}
      ensures forall a | a != n :: Out(a) == old(Out(a))
      ensures nodes == old(nodes) && fileMap == old(fileMap) && tasks == old(tasks) && next == old(next)
    {
      ghost var (ins0, outs0) := (edgesIn, edgesOut);
      ghost var order: seq<NodeId> := [];
      var left := Out(n);
      while left != {}
        invariant Valid() && nodes == old(nodes) && fileMap == old(fileMap) && tasks == old(tasks) && next == old(next)
        invariant (edgesIn, edgesOut) == DisconnectedTo(ins0, outs0, n, order)
        invariant Out(n) == left && left <= EdgesOf(outs0, n)
        invariant forall d | d in order :: d in EdgesOf(outs0, n)
        decreases left
      {
        var d :| d in left;
        assert (order + [d])[..|order|] == order;
        var _ := Disconnect(n, d);
        order := order + [d];
        left := Out(n);
      }
      assert n !in order by {
        assert Joins(nodes, n, n) ==> false;
      }
      DisconnectedToMeaning(ins0, outs0, n, order);
    }

    /** `build_cache_filename`: the cache file in the output directory under root. */
    function BuildCacheFilename(): Path
      reads this
    {
      Join(Join(root, outDir), CACHE_FILE)
    }

    /**
     * The first loop of `save_build_cache`: every file node's cache merged
     * into one dict, in `file_map`'s iteration order, which is unspecified.
     */
    method MergeCaches() returns (bc: map<Path, Digest>)
      ensures MergeOf(bc, nodes, fileMap, fileMap.Keys)
    {
      bc := map[];
      var left := fileMap.Keys;
      while left != {}
        invariant left <= fileMap.Keys
        invariant MergeOf(bc, nodes, fileMap, fileMap.Keys - left)
      {
        var k :| k in left;
        MergeStep(bc, nodes, fileMap, fileMap.Keys - left, k);
        assert (fileMap.Keys - left) + {k} == fileMap.Keys - (left - {k});
        bc := bc + CacheIn(nodes, fileMap[k]);
        left := left - {k};
      }
      assert fileMap.Keys - left == fileMap.Keys;
    }

    /**
     * `save_build_cache`: the merged dict written with `dump` to the cache
     * file; entries lists its items in the dict's (unspecified) order.
     */
    method SaveBuildCache(disk: Disk) returns (r: Result<(), EncodeError>, entries: seq<(PyValue, PyValue)>)
      modifies disk
      ensures SavedCache(nodes, fileMap, BuildCacheFilename(), entries, old(disk.files), disk.files, r)
    {
      var bc := MergeCaches();
      entries := Items(bc);
      CacheRoundTrip(entries, bc);
      var bytes := Dumps(PyDict(entries));
      if bytes.Failure? {
        return Failure(bytes.error), entries;
      }
      disk.Write(BuildCacheFilename(), bytes.value);
      r := Success(());
    }

    /** `bc.items()` as `dump` walks them: each key once, in the dict's order. */
    method Items(bc: map<Path, Digest>) returns (entries: seq<(PyValue, PyValue)>)
      ensures ItemsOf(entries, bc)
    {
      entries := [];
      var left := bc.Keys;
      while left != {}
        invariant left <= bc.Keys && StrPairs(entries)
        invariant forall i | 0 <= i < |entries| :: entries[i].0.bytes in bc && bc[entries[i].0.bytes] == entries[i].1.bytes
        invariant forall k | k in bc && k !in left :: exists i | 0 <= i < |entries| :: entries[i].0.bytes == k
      {
        var k :| k in left;
        ghost var prev := entries;
        entries := entries + [(PyStr(k), PyStr(bc[k]))];
        forall j | j in bc && j !in left - {k}
          ensures exists i | 0 <= i < |entries| :: entries[i].0.bytes == j
        {
          if j == k {
            assert entries[|prev|].0.bytes == j;
          } else {
            var i :| 0 <= i < |prev| && prev[i].0.bytes == j;
            assert entries[i] == prev[i];
          }
        }
        left := left - {k};
      }
    }

    /** The inner loop of `load_build_cache`: every output of t gets the entries of c for t's inputs. */
    method LoadOutputs(t: NodeId, c: map<Path, Digest>)
      requires Valid() && t in nodes && nodes[t].TaskNode?
      modifies this
      ensures Valid()
      ensures nodes == Recached(old(nodes), old(Out(t)), KeptCache(NamesIn(old(nodes), old(In(t))), c))
      ensures edgesIn == old(edgesIn) && edgesOut == old(edgesOut)
      ensures fileMap == old(fileMap) && tasks == old(tasks) && next == old(next)
    {
      ghost var nodes0 := nodes;
      ghost var kept := KeptCache(NamesIn(nodes, In(t)), c);
      var left := Out(t);
      assert Recached(nodes0, Out(t) - left, kept) == nodes0;
      while left != {}
        invariant left <= Out(t) && Valid()
        invariant nodes == Recached(nodes0, Out(t) - left, kept)
        invariant edgesIn == old(edgesIn) && edgesOut == old(edgesOut)
        invariant fileMap == old(fileMap) && tasks == old(tasks) && next == old(next)
      {
        var o :| o in left;
        assert Joins(nodes0, t, o);
        RecachedKeepsNames(nodes0, Out(t) - left, kept, In(t));
        RecachedStep(nodes0, Out(t) - left, o, kept);
        assert Out(t) - (left - {o}) == (Out(t) - left) + {o};
        LoadCache(o, In(t), c);
        left := left - {o};
      }
      assert Out(t) - left == Out(t);
    }

    /**
     * `load_build_cache`: nothing when the cache file is missing; otherwise
     * the file is decoded and each task in turn gives its outputs the
     * entries for its inputs.
     */
    method LoadBuildCache(disk: Disk) returns (r: Result<(), LoadError>)
      requires Valid()
      modifies this
      ensures Valid()
      ensures BuildCacheFilename() !in disk.files ==> r == Success(()) && unchanged(this)
      ensures BuildCacheFilename() in disk.files ==>
        var v := Loads(disk.files[BuildCacheFilename()]);
        (v.Failure? ==> r == Failure(Undecodable(v.error)) && unchanged(this)) &&
        (v.Success? && CacheOfValue(v.value).None? ==> r == Failure(NotACache) && unchanged(this)) &&
        (v.Success? && CacheOfValue(v.value).Some? ==>
           r == Success(()) && nodes == Reloaded(old(nodes), edgesIn, edgesOut, tasks, CacheOfValue(v.value).value))
      ensures edgesIn == old(edgesIn) && edgesOut == old(edgesOut)
      ensures fileMap == old(fileMap) && tasks == old(tasks) && next == old(next)
    {
      var name := BuildCacheFilename();
      if name !in disk.files {
        return Success(());
      }
      var v := Loads(disk.files[name]);
      if v.Failure? {
        return Failure(Undecodable(v.error));
      }
      var c := CacheOfValue(v.value);
      if c.None? {
        return Failure(NotACache);
      }
      ghost var nodes0 := nodes;
      for k := 0 to |tasks|
        invariant fileMap == old(fileMap) && tasks == old(tasks) && next == old(next)
        invariant edgesIn == old(edgesIn) && edgesOut == old(edgesOut)
        invariant Valid()
        invariant nodes == Reloaded(nodes0, edgesIn, edgesOut, tasks[..k], c.value)
      {
        assert tasks[k] in tasks;
        ReloadedKeepsNames(nodes0, edgesIn, edgesOut, tasks[..k], c.value);
        assert NamesIn(nodes, In(tasks[k])) == NamesIn(nodes0, In(tasks[k]));
        assert tasks[..k + 1][..k] == tasks[..k];
        LoadOutputs(tasks[k], c.value);
      }
      assert tasks[..|tasks|] == tasks;
      r := Success(());
    }

    /**
     * The loop of the `build` command: each task in `tasks` order is run
     * when its outputs are invalid at that moment, until one raises. ran
     * says whether each task visited ran; raised is the exception that
     * ended the loop.
     */
    method RunInvalidTasks(disk: Disk, run: Runner) returns (ran: seq<bool>, raised: Option<GraphError>)
      requires Valid()
      modifies this, disk
      ensures Valid()
      ensures var b := BuildRuns(edgesIn, edgesOut, disk.sha1, run, old(nodes), old(disk.files), tasks);
        ran == b.ran && raised == b.raised && nodes == b.nodes && disk.files == b.files
      ensures edgesIn == old(edgesIn) && edgesOut == old(edgesOut)
      ensures fileMap == old(fileMap) && tasks == old(tasks) && next == old(next)
    {
      ghost var nodes0, files0 := nodes, disk.files;
      ran, raised := [], None;
      var k := 0;
      while k < |tasks| && raised.None?
        invariant k <= |tasks|
        invariant fileMap == old(fileMap) && tasks == old(tasks) && next == old(next)
        invariant edgesIn == old(edgesIn) && edgesOut == old(edgesOut)
        invariant Valid()
        invariant BuildRun(ran, nodes, disk.files, raised) == BuildRuns(edgesIn, edgesOut, disk.sha1, run, nodes0, files0, tasks[..k])
      {
        var t := tasks[k];
        assert t in tasks;
        ghost var s := BuildRun(ran, nodes, disk.files, raised);
        assert tasks[..k + 1][..k] == tasks[..k];
        assert BuildRuns(edgesIn, edgesOut, disk.sha1, run, nodes0, files0, tasks[..k + 1]) == BuildStep(edgesIn, edgesOut, disk.sha1, run, s, t);
        var invalid;
        invalid, raised := BuildTask(t, disk, run, s);
        ran := ran + [invalid];
        k := k + 1;
      }
      if k < |tasks| {
        BuildRunsStop(edgesIn, edgesOut, disk.sha1, run, nodes0, files0, tasks[..k], tasks[k..]);
        assert tasks[..k] + tasks[k..] == tasks;
      } else {
        assert tasks[..k] == tasks;
      }
    }

    /** One task of the `build` loop, from the state s of the loop. */
    method BuildTask(t: NodeId, disk: Disk, run: Runner, ghost s: BuildRun) returns (invalid: bool, raised: Option<GraphError>)
      requires Valid() && t in nodes && nodes[t].TaskNode?
      requires s.nodes == nodes && s.files == disk.files && s.raised.None?
      modifies this, disk
      ensures Valid()
      ensures BuildRun(s.ran + [invalid], nodes, disk.files, raised) == BuildStep(edgesIn, edgesOut, disk.sha1, run, s, t)
      ensures edgesIn == old(edgesIn) && edgesOut == old(edgesOut)
      ensures fileMap == old(fileMap) && tasks == old(tasks) && next == old(next)
    {
      raised := None;
      invalid := IsOutputInvalid(t, disk);
      if invalid {
        var outcome := run(t, disk.files);
        disk.Store(outcome.files);
        if outcome.Threw? {
          raised := Some(outcome.error);
        } else {
          var _ := RunTask(t, disk, outcome.ok);
        }
      }
    }

    /**
     * The `build` command: load the cache, run the invalid tasks, save the
     * cache. An exception from any of the three ends it there.
     */
    method BuildCommand(disk: Disk, run: Runner) returns (r: Result<seq<bool>, BuildError>, ghost entries: seq<(PyValue, PyValue)>)
      requires Valid()
      modifies this, disk
      ensures Valid()
      ensures edgesIn == old(edgesIn) && edgesOut == old(edgesOut)
      ensures fileMap == old(fileMap) && tasks == old(tasks) && next == old(next)
      ensures var l := LoadedNodes(old(nodes), edgesIn, edgesOut, tasks, old(disk.files), BuildCacheFilename());
        l.Failure? ==> r == Failure(LoadFailed(l.error)) && nodes == old(nodes) && disk.files == old(disk.files)
      ensures var l := LoadedNodes(old(nodes), edgesIn, edgesOut, tasks, old(disk.files), BuildCacheFilename());
        l.Success? ==>
          var b := BuildRuns(edgesIn, edgesOut, disk.sha1, run, l.value, old(disk.files), tasks);
          nodes == b.nodes &&
          (b.raised.Some? ==> r == Failure(TaskRaised(b.raised.value)) && disk.files == b.files) &&
          (b.raised.None? && r.Success? ==>
             r.value == b.ran && SavedCache(nodes, fileMap, BuildCacheFilename(), entries, b.files, disk.files, Success(()))) &&
          (b.raised.None? && r.Failure? ==>
             r.error.SaveFailed? &&
             SavedCache(nodes, fileMap, BuildCacheFilename(), entries, b.files, disk.files, Failure(r.error.save)))
    {
      var loaded := LoadBuildCache(disk);
      if loaded.Failure? {
        return Failure(LoadFailed(loaded.error)), [];
      }
      var ran, raised := RunInvalidTasks(disk, run);
      if raised.Some? {
        return Failure(TaskRaised(raised.value)), [];
      }
      var saved;
      saved, entries := SaveBuildCache(disk);
      if saved.Failure? {
        return Failure(SaveFailed(saved.error)), entries;
      }
      r := Success(ran);
    }
  }
}
