/**
 * The build task registry of build_tasks.py: which task a source file
 * gets (by the regular expression of its extension), how each task is
 * wired into the build graph, and the shader task, which re-reads its
 * metadata to rewire its own inputs.
 *
 * `BUILD_TASKS` maps one pattern to each builder; its iteration order is
 * that of a Python 2 dict, so it is a parameter here, any ordering of the
 * three builders. The JSON metadata reader and msgpack writer are
 * function parameters.
 */
module BuildTasks {
  import opened Wrappers
  import opened ByteOrder
  import opened BuildPaths
  import opened BuildGraph

  /** Where `$` matches: at the very end of p, or just before a final newline. */
  predicate AtEnd(p: Path, j: int)
  {
    j == |p| || (j == |p| - 1 && 0 <= j && p[j] == NEWLINE)
  }

  /** ext occurs in p at position i. */
  predicate OccursAt(p: Path, ext: Path, i: nat)
  {
    i + |ext| <= |p| && p[i..i + |ext|] == ext
  }

  /** `re.search(r'<ext>$', p)`: ext occurs somewhere in p where `$` then holds. */
  ghost predicate SearchMatches(p: Path, ext: Path)
  {
    exists i: nat :: OccursAt(p, ext, i) && AtEnd(p, i + |ext|)
  }

  /** The match decided from the end of p: the last bytes, or those before a final newline, are ext. */
  predicate EndsWithExt(p: Path, ext: Path)
  {
    (|ext| <= |p| && p[|p| - |ext|..] == ext) ||
    (|ext| < |p| && p[|p| - 1] == NEWLINE && p[|p| - 1 - |ext|..|p| - 1] == ext)
  }

  /** Deciding the match from the end is the regular expression search. */
  lemma EndsWithExtIff(p: Path, ext: Path)
    ensures EndsWithExt(p, ext) <==> SearchMatches(p, ext)
  {
    if EndsWithExt(p, ext) {
      if |ext| <= |p| && p[|p| - |ext|..] == ext {
        assert OccursAt(p, ext, |p| - |ext|) && AtEnd(p, |p|);
      } else {
        var i := |p| - 1 - |ext|;
        assert OccursAt(p, ext, i) && AtEnd(p, i + |ext|);
      }
    }
    if SearchMatches(p, ext) {
      var i: nat :| OccursAt(p, ext, i) && AtEnd(p, i + |ext|);
      if i + |ext| == |p| {
        assert p[|p| - |ext|..] == ext;
      } else {
        assert p[|p| - 1 - |ext|..|p| - 1] == ext;
      }
    }
  }

  /** The three entries of `BUILD_TASKS`. */
  datatype Builder =
    /** `BuildMeshTask`, for `\.fbx$`. */
    | CompileFbx
    /** `copy_png`, for `\.png$`. */
    | CopyPng
    /** `BuildShaderTask`, for `\.rwshader$`. */
    | CompileShader

  /** The extension each builder's pattern ends with. */
  function Pattern(b: Builder): (r: Path)
    ensures |r| >= 4 && r[0] == DOT
  {
    match b
    case CompileFbx => Ascii(".fbx")
    case CopyPng => Ascii(".png")
    case CompileShader => Ascii(".rwshader")
  }

  /** An iteration order of `BUILD_TASKS`: each builder exactly once. */
  predicate IsRegistry(order: seq<Builder>)
  {
    |order| == 3 && CompileFbx in order && CopyPng in order && CompileShader in order
  }

  /** The first builder in order whose pattern matches p, as `build_file`'s loop breaks. */
  function FirstMatch(order: seq<Builder>, p: Path): (r: Option<Builder>)
    ensures r.Some? ==> r.value in order && EndsWithExt(p, Pattern(r.value))
    ensures r.None? <==> forall b | b in order :: !EndsWithExt(p, Pattern(b))
  {
    if |order| == 0 then None
    else if EndsWithExt(p, Pattern(order[0])) then Some(order[0])
    else FirstMatch(order[1..], p)
  }

  /** The byte the match of ext lines up with its last byte. */
  lemma MatchLastByte(p: Path, ext: Path)
    requires |ext| > 0 && ext[|ext| - 1] != NEWLINE && EndsWithExt(p, ext)
    ensures p[|p| - 1] == NEWLINE ==> |p| >= 2 && p[|p| - 2] == ext[|ext| - 1]
    ensures p[|p| - 1] != NEWLINE ==> p[|p| - 1] == ext[|ext| - 1]
  {
    if |ext| <= |p| && p[|p| - |ext|..] == ext {
      assert p[|p| - 1] == p[|p| - |ext|..][|ext| - 1];
    } else {
      assert p[|p| - 2] == p[|p| - 1 - |ext|..|p| - 1][|ext| - 1];
    }
  }

  /** No path matches two of the patterns: their last bytes x, g and r differ. */
  lemma PatternsExclusive(p: Path, b1: Builder, b2: Builder)
    requires EndsWithExt(p, Pattern(b1)) && EndsWithExt(p, Pattern(b2))
    ensures b1 == b2
  {
    PatternLastBytes();
    MatchLastByte(p, Pattern(b1));
    MatchLastByte(p, Pattern(b2));
  }

  /** The last bytes of the three patterns: `x`, `g` and `r`. */
  lemma PatternLastBytes()
    ensures Pattern(CompileFbx)[|Pattern(CompileFbx)| - 1] == 120
    ensures Pattern(CopyPng)[|Pattern(CopyPng)| - 1] == 103
    ensures Pattern(CompileShader)[|Pattern(CompileShader)| - 1] == 114
  {
    assert Pattern(CompileFbx)[3] == 'x' as int % 256;
    assert Pattern(CopyPng)[3] == 'g' as int % 256;
    assert Pattern(CompileShader)[8] == 'r' as int % 256;
  }

  /**
   * The dict's iteration order does not matter: in every order the first
   * match is the one builder whose pattern matches, or none.
   */
  lemma FirstMatchAnyOrder(order: seq<Builder>, p: Path, b: Builder)
    requires IsRegistry(order)
    ensures FirstMatch(order, p) == Some(b) <==> EndsWithExt(p, Pattern(b))
  {
    if EndsWithExt(p, Pattern(b)) {
      var r := FirstMatch(order, p);
      if r.Some? {
        PatternsExclusive(p, r.value, b);
      }
    }
  }

  /** The extension of a compiled mesh. */
  const MESH_EXT: Path := Ascii(".mesh-mp")
  /** The extension of a mesh's import settings file, appended to its name. */
  const SETTINGS_EXT: Path := Ascii(".rwsettings")
  /** The extension of a compiled shader. */
  const SHADER_OUT_EXT: Path := Ascii(".rwshader-mp")
  /** The name of the PNG copying task. */
  const COPY_PNG: Path := Ascii("Copy PNG")

  /** What `build_file` and the tasks' construction raise. */
  datatype TaskError =
    /** From the path functions: `bname[0]`, `relpath`. */
    | BadPath(path: PathError)
    /** From the graph, the file system or the metadata. */
    | Raised(error: GraphError)

  /** The metadata's two shader names read as `json.load` and the two keys would. */
  type MetadataReader = seq<Byte> -> Result<(Path, Path), GraphError>

  /**
   * The graph only grew: nodes and file_map entries are kept, except that
   * a task node may have had its own fields assigned.
   */
  ghost predicate Grown(nodes0: map<NodeId, Node>, fileMap0: map<Path, NodeId>,
                        nodes: map<NodeId, Node>, fileMap: map<Path, NodeId>)
  {
    (forall n | n in nodes0 :: n in nodes && (nodes0[n].FileNode? ==> nodes[n] == nodes0[n]) &&
       nodes[n].FileNode? == nodes0[n].FileNode?) &&
    (forall k | k in fileMap0 :: k in fileMap && fileMap[k] == fileMap0[k])
  }

  /** The node kind made for a builder, given the nodes it keeps. */
  predicate Made(b: Builder, kind: TaskKind)
  {
    match b
    case CompileFbx => kind.MeshTask?
    case CopyPng => kind == FunctionTask(COPY_PNG)
    case CompileShader => kind.ShaderTask? && kind.shaders.Some?
  }

  /**
   * `FunctionTaskNode(bld, srcs, [])` of `build_task_single` for a
   * function: one output, `as_output_node(output_map_fn(i.filename))` of
   * the first input i, and an edge from every input.
   */
  method NewFunctionTask(g: BuildGraph, name: Path, outputMap: Path -> Path, srcs: seq<NodeId>)
      returns (r: Result<NodeId, TaskError>)
    requires g.Valid()
    requires forall i | 0 <= i < |srcs| :: srcs[i] in g.nodes && g.nodes[srcs[i]].FileNode?
    modifies g
    ensures g.Valid() && g.tasks == old(g.tasks)
    ensures Grown(old(g.nodes), old(g.fileMap), g.nodes, g.fileMap)
    ensures |srcs| == 0 ==> r == Failure(Raised(GraphError.IndexError)) && unchanged(g)
    ensures |srcs| > 0 ==>
      var out := OutputNameIntended(g.cwd, g.root, g.outDir, NameSource(outputMap(NameIn(old(g.nodes), srcs[0]))));
      (out.Failure? ==> r == Failure(BadPath(out.error))) &&
      (out.Success? ==> r.Success? && var t := r.value;
         t !in old(g.nodes) && t in g.nodes && g.nodes[t] == TaskNode(FunctionTask(name)) &&
         g.In(t) == (set s | s in srcs) && |g.Out(t)| == 1 &&
         Join(g.root, out.value) in g.fileMap && g.Out(t) == {g.fileMap[Join(g.root, out.value)]})
  {
    if |srcs| == 0 {
      return Failure(Raised(GraphError.IndexError));
    }
    ghost var out := OutputNameIntended(g.cwd, g.root, g.outDir, NameSource(outputMap(NameIn(g.nodes, srcs[0]))));
    var o := g.AsOutputNode(NameSource(outputMap(NameIn(g.nodes, srcs[0]))));
    if o.Failure? {
      return Failure(BadPath(o.error));
    }
    ghost var abs := Join(g.root, out.value);
    assert abs in g.fileMap && g.fileMap[abs] == o.value;
    var t := WireFunctionTask(g, name, srcs, o.value);
    return Success(t);
  }

  /** The task of `build_task_single` wired to its inputs and its one output o. */
  method WireFunctionTask(g: BuildGraph, name: Path, srcs: seq<NodeId>, o: NodeId) returns (t: NodeId)
    requires g.Valid() && o in g.nodes && g.nodes[o].FileNode?
    requires forall i | 0 <= i < |srcs| :: srcs[i] in g.nodes && g.nodes[srcs[i]].FileNode?
    modifies g
    ensures g.Valid() && g.tasks == old(g.tasks) && g.fileMap == old(g.fileMap)
    ensures Grown(old(g.nodes), old(g.fileMap), g.nodes, g.fileMap)
    ensures t !in old(g.nodes) && t in g.nodes && g.nodes[t] == TaskNode(FunctionTask(name))
    ensures g.In(t) == (set s | s in srcs) && g.Out(t) == {o}
  {
    t := g.NewTask(FunctionTask(name), srcs, [o]);
    assert (set d | d in [o]) == {o};
  }

  /** The output `as_output_node(change_ext(name, ext))` names, relative to root. */
  function DefaultOutput(g: BuildGraph, name: Path, ext: Path): Result<Path, PathError>
  {
    OutputNameIntended(g.cwd, g.root, g.outDir, NameSource(ChangeExt(name, ext)))
  }

  /** `if not dest: dest = bld.as_output_node(change_ext(src.filename, ext))`. */
  method OutputOrDefault(g: BuildGraph, src: NodeId, ext: Path, dest: Option<NodeId>) returns (r: Result<NodeId, TaskError>)
    requires g.Valid() && src in g.nodes && g.nodes[src].FileNode?
    requires dest.Some? ==> dest.value in g.nodes && g.nodes[dest.value].FileNode?
    modifies g
    ensures g.Valid() && g.tasks == old(g.tasks) && Extends(old(g.nodes), old(g.fileMap), g.nodes, g.fileMap)
    ensures g.edgesIn == old(g.edgesIn) && g.edgesOut == old(g.edgesOut)
    ensures dest.Some? ==> r == Success(dest.value)
    ensures dest.None? ==>
      var out := DefaultOutput(g, old(g.nodes[src].filename), ext);
      (out.Failure? ==> r == Failure(BadPath(out.error))) &&
      (out.Success? ==> r.Success? && Join(g.root, out.value) in g.fileMap && r.value == g.fileMap[Join(g.root, out.value)])
    ensures r.Success? ==> r.value in g.nodes && g.nodes[r.value].FileNode?
  {
    if dest.Some? {
      return Success(dest.value);
    }
    var o := g.AsOutputNode(NameSource(ChangeExt(g.nodes[src].filename, ext)));
    if o.Failure? {
      return Failure(BadPath(o.error));
    }
    return Success(o.value);
  }

  /**
   * `BuildMeshTask(bld, src, dest)`: the output defaults to the mesh's
   * name with the extension `.mesh-mp`; the inputs are the mesh and its
   * `.rwsettings` file.
   */
  method NewMeshTask(g: BuildGraph, src: NodeId, dest: Option<NodeId>) returns (r: Result<NodeId, TaskError>)
    requires g.Valid() && src in g.nodes && g.nodes[src].FileNode?
    requires dest.Some? ==> dest.value in g.nodes && g.nodes[dest.value].FileNode?
    modifies g
    ensures g.Valid() && g.tasks == old(g.tasks)
    ensures Grown(old(g.nodes), old(g.fileMap), g.nodes, g.fileMap)
    ensures var out := DefaultOutput(g, old(g.nodes[src].filename), MESH_EXT);
      (dest.None? && out.Failure? ==> r == Failure(BadPath(out.error))) &&
      (dest.Some? || out.Success? ==> r.Success?)
    ensures r.Success? ==>
      var t := r.value;
      var settingsName := Join(g.root, old(g.nodes[src].filename) + SETTINGS_EXT);
      var out := DefaultOutput(g, old(g.nodes[src].filename), MESH_EXT);
      t !in old(g.nodes) && t in g.nodes && g.nodes[t].TaskNode? && g.nodes[t].kind.MeshTask? &&
      var MeshTask(mesh, settings, d) := g.nodes[t].kind;
      mesh == src && settingsName in g.fileMap && settings == g.fileMap[settingsName] &&
      g.In(t) == {src, settings} && g.Out(t) == {d} &&
      (dest.Some? ==> d == dest.value) &&
      (dest.None? ==> out.Success? && Join(g.root, out.value) in g.fileMap && d == g.fileMap[Join(g.root, out.value)])
  {
    var d := OutputOrDefault(g, src, MESH_EXT, dest);
    if d.Failure? {
      return Failure(d.error);
    }
    var t := WireMeshTask(g, src, d.value);
    return Success(t);
  }

  /** The rest of `BuildMeshTask.__init__`: the settings node, and the task wired to both inputs and the output. */
  method WireMeshTask(g: BuildGraph, src: NodeId, d: NodeId) returns (t: NodeId)
    requires g.Valid() && src in g.nodes && g.nodes[src].FileNode? && d in g.nodes && g.nodes[d].FileNode?
    modifies g
    ensures g.Valid() && g.tasks == old(g.tasks)
    ensures Grown(old(g.nodes), old(g.fileMap), g.nodes, g.fileMap)
    ensures var settingsName := Join(g.root, old(g.nodes[src].filename) + SETTINGS_EXT);
      t !in old(g.nodes) && settingsName in g.fileMap && t in g.nodes &&
      g.nodes[t] == TaskNode(MeshTask(src, g.fileMap[settingsName], d)) &&
      g.In(t) == {src, g.fileMap[settingsName]} && g.Out(t) == {d}
  {
    var settings := g.AsFileNode(PathRef(g.nodes[src].filename + SETTINGS_EXT));
    t := g.NewTask(MeshTask(src, settings, d), [src, settings], [d]);
    assert (set s | s in [src, settings]) == {src, settings};
    assert (set o | o in [d]) == {d};
  }

  /** The nodes `_update_dependencies` disconnects: the previous shaders, when set. */
  function PreviousShaders(shaders: Option<(NodeId, NodeId)>): (r: set<NodeId>)
    ensures shaders.None? <==> r == {}
  {
    if shaders.Some? then {shaders.value.0, shaders.value.1} else {}
  }

  /**
   * Whether both disconnects of `_update_dependencies` succeed: each
   * previous shader still feeds the task, and the two are distinct, as
   * removing the same edge twice raises.
   */
  predicate DisconnectsSucceed(shaders: Option<(NodeId, NodeId)>, outs: map<NodeId, set<NodeId>>, t: NodeId)
  {
    shaders.Some? ==>
      t in EdgesOf(outs, shaders.value.0) && t in EdgesOf(outs, shaders.value.1) &&
      shaders.value.0 != shaders.value.1
  }

  /**
   * `_update_dependencies`: disconnect the previous vertex and fragment
   * shaders if set, read the metadata file, and connect the two files it
   * names, relative to its directory. The new shader nodes are returned.
   * Afterwards the task's inputs are the old ones less the previous
   * shaders, plus the new ones.
   */
  method UpdateDependencies(g: BuildGraph, t: NodeId, disk: Disk, parse: MetadataReader)
      returns (r: Result<(NodeId, NodeId), TaskError>)
    requires g.Valid() && t in g.nodes && g.nodes[t].TaskNode? && g.nodes[t].kind.ShaderTask?
    requires g.nodes[t].kind.metadata in g.nodes && g.nodes[t].kind.metadata in g.In(t)
    modifies g
    ensures g.Valid() && g.tasks == old(g.tasks) && t in g.nodes && g.nodes[t].TaskNode? && g.nodes[t].kind.ShaderTask?
    ensures g.nodes[t].kind.metadata == old(g.nodes[t].kind.metadata)
    ensures g.nodes[t].kind.destination == old(g.nodes[t].kind.destination)
    ensures Grown(old(g.nodes), old(g.fileMap), g.nodes, g.fileMap)
    ensures var ShaderTask(metadata, destination, shaders) := old(g.nodes[t].kind);
      var meta := NameIn(old(g.nodes), metadata);
      r.Success? <==>
        DisconnectsSucceed(shaders, old(g.edgesOut), t) && meta in disk.files && parse(disk.files[meta]).Success?
    ensures var ShaderTask(metadata, destination, shaders) := old(g.nodes[t].kind);
      var meta := NameIn(old(g.nodes), metadata);
      (!DisconnectsSucceed(shaders, old(g.edgesOut), t) ==> r == Failure(Raised(KeyError))) &&
      (DisconnectsSucceed(shaders, old(g.edgesOut), t) && meta !in disk.files ==> r == Failure(Raised(IOError))) &&
      (DisconnectsSucceed(shaders, old(g.edgesOut), t) && meta in disk.files && parse(disk.files[meta]).Failure? ==>
         r == Failure(Raised(parse(disk.files[meta]).error)))
    ensures r.Success? ==>
      var ShaderTask(metadata, destination, shaders) := old(g.nodes[t].kind);
      var names := parse(disk.files[NameIn(old(g.nodes), metadata)]).value;
      var dir := DirName(NameIn(old(g.nodes), metadata));
      var (v, f) := r.value;
      g.nodes[t] == TaskNode(ShaderTask(metadata, destination, Some((v, f)))) &&
      Join(g.root, Join(dir, names.0)) in g.fileMap && v == g.fileMap[Join(g.root, Join(dir, names.0))] &&
      Join(g.root, Join(dir, names.1)) in g.fileMap && f == g.fileMap[Join(g.root, Join(dir, names.1))] &&
      g.In(t) == (old(g.In(t)) - PreviousShaders(shaders)) + {v, f} && g.Out(t) == old(g.Out(t))
  {
    var ShaderTask(metadata, destination, shaders) := g.nodes[t].kind;
    var detached := DetachShaders(g, t);
    if !detached {
      return Failure(Raised(KeyError));
    }
    var meta := NameIn(g.nodes, metadata);
    if meta !in disk.files {
      return Failure(Raised(IOError));
    }
    var names := parse(disk.files[meta]);
    if names.Failure? {
      return Failure(Raised(names.error));
    }
    var shadersNow := AttachShaders(g, t, DirName(meta), names.value);
    return Success(shadersNow);
  }

  /**
   * The first step of `_update_dependencies`: when the shaders are set,
   * disconnect the vertex and then the fragment shader from the task.
   */
  method DetachShaders(g: BuildGraph, t: NodeId) returns (ok: bool)
    requires g.Valid() && t in g.nodes && g.nodes[t].TaskNode? && g.nodes[t].kind.ShaderTask?
    modifies g
    ensures g.Valid() && ok == DisconnectsSucceed(old(g.nodes[t].kind.shaders), old(g.edgesOut), t)
    ensures ok ==> g.In(t) == old(g.In(t)) - PreviousShaders(old(g.nodes[t].kind.shaders)) && g.Out(t) == old(g.Out(t))
    ensures !ok ==> g.Out(t) == old(g.Out(t))
    ensures !ok ==> var v := old(g.nodes[t].kind.shaders).value.0;
      g.In(t) == if t in old(g.Out(v)) then old(g.In(t)) - {v} else old(g.In(t))
    ensures g.nodes == old(g.nodes) && g.fileMap == old(g.fileMap) && g.tasks == old(g.tasks)
  {
    var shaders := g.nodes[t].kind.shaders;
    if shaders.None? {
      return true;
    }
    var (v, f) := shaders.value;
    var first := g.Disconnect(v, t);
    if first.Failure? {
      return false;
    }
    assert v != t by {
      assert Joins(g.nodes, v, t);
    }
    var second := g.Disconnect(f, t);
    if second.Failure? {
      return false;
    }
    assert f != t by {
      assert Joins(g.nodes, f, t);
    }
    return true;
  }

  /**
   * The last step of `_update_dependencies`: the file nodes for the two
   * shader names, relative to dir, recorded in the task and connected to it.
   */
  method AttachShaders(g: BuildGraph, t: NodeId, dir: Path, names: (Path, Path)) returns (shaders: (NodeId, NodeId))
    requires g.Valid() && t in g.nodes && g.nodes[t].TaskNode? && g.nodes[t].kind.ShaderTask?
    modifies g
    ensures g.Valid() && g.tasks == old(g.tasks) && Grown(old(g.nodes), old(g.fileMap), g.nodes, g.fileMap)
    ensures var ShaderTask(metadata, destination, _) := old(g.nodes[t].kind);
      t in g.nodes && g.nodes[t] == TaskNode(ShaderTask(metadata, destination, Some(shaders)))
    ensures Join(g.root, Join(dir, names.0)) in g.fileMap && shaders.0 == g.fileMap[Join(g.root, Join(dir, names.0))]
    ensures Join(g.root, Join(dir, names.1)) in g.fileMap && shaders.1 == g.fileMap[Join(g.root, Join(dir, names.1))]
    ensures g.In(t) == old(g.In(t)) + {shaders.0, shaders.1} && g.Out(t) == old(g.Out(t))
  {
    shaders := ShaderNodes(g, dir, names);
    WireShaders(g, t, shaders.0, shaders.1);
  }

  /** `as_file_node` of the two shader names, relative to dir. */
  method ShaderNodes(g: BuildGraph, dir: Path, names: (Path, Path)) returns (shaders: (NodeId, NodeId))
    requires g.Valid()
    modifies g
    ensures g.Valid() && g.tasks == old(g.tasks) && Extends(old(g.nodes), old(g.fileMap), g.nodes, g.fileMap)
    ensures g.edgesIn == old(g.edgesIn) && g.edgesOut == old(g.edgesOut)
    ensures shaders.0 in g.nodes && g.nodes[shaders.0].FileNode? && shaders.1 in g.nodes && g.nodes[shaders.1].FileNode?
    ensures Join(g.root, Join(dir, names.0)) in g.fileMap && shaders.0 == g.fileMap[Join(g.root, Join(dir, names.0))]
    ensures Join(g.root, Join(dir, names.1)) in g.fileMap && shaders.1 == g.fileMap[Join(g.root, Join(dir, names.1))]
  {
    var v := g.AsFileNode(PathRef(Join(dir, names.0)));
    var f := g.AsFileNode(PathRef(Join(dir, names.1)));
    return (v, f);
  }

  /** `self.vertex_shader, self.fragment_shader = vsh, fsh`, then both connected to the task. */
  method WireShaders(g: BuildGraph, t: NodeId, v: NodeId, f: NodeId)
    requires g.Valid() && t in g.nodes && g.nodes[t].TaskNode? && g.nodes[t].kind.ShaderTask?
    requires v in g.nodes && g.nodes[v].FileNode? && f in g.nodes && g.nodes[f].FileNode?
    modifies g
    ensures g.Valid() && g.tasks == old(g.tasks) && g.fileMap == old(g.fileMap)
    ensures var ShaderTask(metadata, destination, _) := old(g.nodes[t].kind);
      g.nodes == old(g.nodes)[t := TaskNode(ShaderTask(metadata, destination, Some((v, f))))]
    ensures g.In(t) == old(g.In(t)) + {v, f} && g.Out(t) == old(g.Out(t))
  {
    var kind := g.nodes[t].kind;
    g.SetTaskKind(t, ShaderTask(kind.metadata, kind.destination, Some((v, f))));
    g.Connect(v, t);
    g.Connect(f, t);
  }

  /**
   * `BuildShaderTask(bld, src, dest)`: the output defaults to the
   * metadata's name with the extension `.rwshader-mp`; the metadata is
   * the first input and `_update_dependencies` adds the two shaders. If
   * that raises, the half-built task is left in the graph, unlisted.
   */
  method NewShaderTask(g: BuildGraph, src: NodeId, dest: Option<NodeId>, disk: Disk, parse: MetadataReader)
      returns (r: Result<NodeId, TaskError>)
    requires g.Valid() && src in g.nodes && g.nodes[src].FileNode?
    requires dest.Some? ==> dest.value in g.nodes && g.nodes[dest.value].FileNode?
    modifies g
    ensures g.Valid() && g.tasks == old(g.tasks)
    ensures Grown(old(g.nodes), old(g.fileMap), g.nodes, g.fileMap)
    ensures var out := DefaultOutput(g, old(g.nodes[src].filename), SHADER_OUT_EXT);
      var meta := old(g.nodes[src].filename);
      (dest.None? && out.Failure? ==> r == Failure(BadPath(out.error))) &&
      (dest.Some? || out.Success? ==>
         (meta !in disk.files ==> r == Failure(Raised(IOError))) &&
         (meta in disk.files && parse(disk.files[meta]).Failure? ==> r == Failure(Raised(parse(disk.files[meta]).error))) &&
         (meta in disk.files && parse(disk.files[meta]).Success? ==> r.Success?))
    ensures r.Success? ==>
      var t := r.value;
      var out := DefaultOutput(g, old(g.nodes[src].filename), SHADER_OUT_EXT);
      t !in old(g.nodes) && t in g.nodes && g.nodes[t].TaskNode? && g.nodes[t].kind.ShaderTask? &&
      var ShaderTask(metadata, d, shaders) := g.nodes[t].kind;
      metadata == src && ShadersNamed(g, old(g.nodes[src].filename), disk, parse, shaders) &&
      g.In(t) == {src, shaders.value.0, shaders.value.1} && g.Out(t) == {d} &&
      (dest.Some? ==> d == dest.value) &&
      (dest.None? ==> out.Success? && Join(g.root, out.value) in g.fileMap && d == g.fileMap[Join(g.root, out.value)])
  {
    var d := OutputOrDefault(g, src, SHADER_OUT_EXT, dest);
    if d.Failure? {
      return Failure(d.error);
    }
    r := WireShaderTask(g, src, d.value, disk, parse);
  }

  /**
   * The shader nodes are those for the two names the metadata file gives,
   * relative to its directory.
   */
  ghost predicate ShadersNamed(g: BuildGraph, meta: Path, disk: Disk, parse: MetadataReader, shaders: Option<(NodeId, NodeId)>)
    reads g, disk
  {
    meta in disk.files && parse(disk.files[meta]).Success? && shaders.Some? &&
    var names := parse(disk.files[meta]).value;
    var dir := DirName(meta);
    Join(g.root, Join(dir, names.0)) in g.fileMap && shaders.value.0 == g.fileMap[Join(g.root, Join(dir, names.0))] &&
    Join(g.root, Join(dir, names.1)) in g.fileMap && shaders.value.1 == g.fileMap[Join(g.root, Join(dir, names.1))]
  }

  /** The rest of `BuildShaderTask.__init__`: the task wired to src and d, then `_update_dependencies`. */
  method WireShaderTask(g: BuildGraph, src: NodeId, d: NodeId, disk: Disk, parse: MetadataReader)
      returns (r: Result<NodeId, TaskError>)
    requires g.Valid() && src in g.nodes && g.nodes[src].FileNode? && d in g.nodes && g.nodes[d].FileNode?
    modifies g
    ensures g.Valid() && g.tasks == old(g.tasks)
    ensures Grown(old(g.nodes), old(g.fileMap), g.nodes, g.fileMap)
    ensures var meta := old(g.nodes[src].filename);
      (meta !in disk.files ==> r == Failure(Raised(IOError))) &&
      (meta in disk.files && parse(disk.files[meta]).Failure? ==> r == Failure(Raised(parse(disk.files[meta]).error))) &&
      (meta in disk.files && parse(disk.files[meta]).Success? ==> r.Success?)
    ensures r.Success? ==>
      var t := r.value;
      t !in old(g.nodes) && t in g.nodes && g.nodes[t].TaskNode? && g.nodes[t].kind.ShaderTask? &&
      var ShaderTask(metadata, d', shaders) := g.nodes[t].kind;
      metadata == src && d' == d && ShadersNamed(g, old(g.nodes[src].filename), disk, parse, shaders) &&
      g.In(t) == {src, shaders.value.0, shaders.value.1} && g.Out(t) == {d}
  {
    ghost var srcName := g.nodes[src].filename;
    var t := g.NewTask(ShaderTask(src, d, None), [src], [d]);
    assert (set s | s in [src]) == {src};
    assert (set o | o in [d]) == {d};
    assert NameIn(g.nodes, src) == srcName;
    assert DisconnectsSucceed(None, g.edgesOut, t) && PreviousShaders(None) == {};
    ghost var in0 := g.In(t);
    var u := UpdateDependencies(g, t, disk, parse);
    if u.Failure? {
      return Failure(u.error);
    }
    assert g.In(t) == in0 + {u.value.0, u.value.1};
    return Success(t);
  }

  /**
   * The registry's constructor for builder b, called as `fn(bld, [i], [])`:
   * a new task made from the file node i with no destination given.
   */
  method MakeTask(g: BuildGraph, b: Builder, i: NodeId, disk: Disk, parse: MetadataReader)
      returns (r: Result<NodeId, TaskError>)
    requires g.Valid() && i in g.nodes && g.nodes[i].FileNode?
    modifies g
    ensures g.Valid() && g.tasks == old(g.tasks) && Grown(old(g.nodes), old(g.fileMap), g.nodes, g.fileMap)
    ensures r.Success? ==>
      r.value !in old(g.nodes) && r.value in g.nodes && g.nodes[r.value].TaskNode? &&
      Made(b, g.nodes[r.value].kind) && i in g.In(r.value)
  {
    match b {
      case CopyPng =>
        r := NewFunctionTask(g, COPY_PNG, x => x, [i]);
        if r.Success? {
          assert i in (set s | s in [i]);
        }
      case CompileFbx =>
        r := NewMeshTask(g, i, None);
      case CompileShader =>
        r := NewShaderTask(g, i, None, disk, parse);
    }
  }

  /**
   * `build_file(bld, path)`: an ignored path adds nothing; otherwise the
   * first builder whose pattern matches is given `as_file_node(path)` as
   * its only source and no destination, and the task it makes is added.
   * With no match nothing changes. The added task is returned.
   */
  method BuildFile(g: BuildGraph, p: Path, order: seq<Builder>, disk: Disk, parse: MetadataReader)
      returns (r: Result<Option<NodeId>, TaskError>)
    requires g.Valid() && IsRegistry(order)
    modifies g
    ensures g.Valid() && Grown(old(g.nodes), old(g.fileMap), g.nodes, g.fileMap)
    ensures ShouldIgnore(p).Failure? ==> r == Failure(BadPath(PathError.IndexError)) && unchanged(g)
    ensures ShouldIgnore(p) == Success(true) ==> r == Success(None) && unchanged(g)
    ensures ShouldIgnore(p) == Success(false) && FirstMatch(order, p).None? ==> r == Success(None) && unchanged(g)
    ensures r == Success(None) ==> unchanged(g)
    ensures r.Failure? ==> g.tasks == old(g.tasks)
    ensures r.Success? && r.value.Some? ==>
      var t := r.value.value;
      ShouldIgnore(p) == Success(false) && FirstMatch(order, p).Some? &&
      t !in old(g.nodes) && g.tasks == old(g.tasks) + [t] &&
      t in g.nodes && g.nodes[t].TaskNode? && Made(FirstMatch(order, p).value, g.nodes[t].kind) &&
      Join(g.root, p) in g.fileMap && g.fileMap[Join(g.root, p)] in g.In(t)
  {
    var ignore := ShouldIgnore(p);
    if ignore.Failure? {
      return Failure(BadPath(ignore.error));
    }
    if ignore.value {
      return Success(None);
    }
    var b := FirstMatch(order, p);
    if b.None? {
      return Success(None);
    }
    var i := g.AsFileNode(PathRef(p));
    var made := MakeTask(g, b.value, i, disk, parse);
    if made.Failure? {
      return Failure(made.error);
    }
    g.AddTask(made.value);
    return Success(Some(made.value));
  }

  /**
   * `copy_png`'s `run`: the first input and the first output of the
   * task (`list(...)[0]` of a set, any of its elements), the input's
   * contents copied to the output. No input or output raises IndexError,
   * a missing input IOError.
   */
  method CopyPngRun(g: BuildGraph, t: NodeId, disk: Disk) returns (r: Result<bool, TaskError>)
    modifies disk
    ensures g.In(t) == {} || g.Out(t) == {} ==> r == Failure(Raised(GraphError.IndexError)) && disk.files == old(disk.files)
    ensures r.Failure? ==> disk.files == old(disk.files)
    ensures r.Success? ==> r.value && exists i, o | i in g.In(t) && o in g.Out(t) ::
      NameIn(g.nodes, i) in old(disk.files) && disk.files == old(disk.files)[NameIn(g.nodes, o) := old(disk.files)[NameIn(g.nodes, i)]]
    ensures g.In(t) != {} && g.Out(t) != {} ==>
      ((forall i | i in g.In(t) :: NameIn(g.nodes, i) in old(disk.files)) ==> r.Success?) &&
      ((forall i | i in g.In(t) :: NameIn(g.nodes, i) !in old(disk.files)) ==> r == Failure(Raised(IOError)))
  {
    if g.In(t) == {} || g.Out(t) == {} {
      return Failure(Raised(GraphError.IndexError));
    }
    var i :| i in g.In(t);
    var o :| o in g.Out(t);
    var source := NameIn(g.nodes, i);
    if source !in disk.files {
      return Failure(Raised(IOError));
    }
    disk.Write(NameIn(g.nodes, o), disk.files[source]);
    return Success(true);
  }

  /**
   * `BuildShaderTask.run`: rewire the dependencies first, then read both
   * shaders; a shader that cannot be read makes the run return False
   * without writing. Otherwise the destination is written with what
   * `assemble` makes of the metadata and the two shader sources.
   */
  method ShaderRun(g: BuildGraph, t: NodeId, disk: Disk, parse: MetadataReader,
                   assemble: (seq<Byte>, seq<Byte>, seq<Byte>) -> seq<Byte>)
      returns (r: Result<bool, TaskError>, deps: Result<(NodeId, NodeId), TaskError>)
    requires g.Valid() && t in g.nodes && g.nodes[t].TaskNode? && g.nodes[t].kind.ShaderTask?
    requires g.nodes[t].kind.metadata in g.nodes && g.nodes[t].kind.metadata in g.In(t)
    modifies g, disk
    ensures g.Valid() && g.tasks == old(g.tasks) && t in g.nodes && g.nodes[t].TaskNode? && g.nodes[t].kind.ShaderTask?
    ensures Grown(old(g.nodes), old(g.fileMap), g.nodes, g.fileMap)
    ensures deps.Failure? ==> r == Failure(deps.error) && disk.files == old(disk.files)
    ensures deps.Success? ==> r.Success? && g.nodes[t].kind.shaders == Some(deps.value)
    ensures deps.Success? ==>
      var (v, f) := deps.value;
      var (vn, fn) := (NameIn(g.nodes, v), NameIn(g.nodes, f));
      (r == Success(false) <==> vn !in old(disk.files) || fn !in old(disk.files)) &&
      (r == Success(false) ==> disk.files == old(disk.files)) &&
      (r == Success(true) ==>
         var meta := NameIn(g.nodes, g.nodes[t].kind.metadata);
         meta in old(disk.files) &&
         disk.files == old(disk.files)[NameIn(g.nodes, g.nodes[t].kind.destination) :=
                                       assemble(old(disk.files)[meta], old(disk.files)[vn], old(disk.files)[fn])])
  {
    deps := UpdateDependencies(g, t, disk, parse);
    if deps.Failure? {
      return Failure(deps.error), deps;
    }
    var (v, f) := deps.value;
    var meta := NameIn(g.nodes, g.nodes[t].kind.metadata);
    var vn := NameIn(g.nodes, v);
    var fn := NameIn(g.nodes, f);
    if vn !in disk.files || fn !in disk.files {
      return Success(false), deps;
    }
    disk.Write(NameIn(g.nodes, g.nodes[t].kind.destination), assemble(disk.files[meta], disk.files[vn], disk.files[fn]));
    return Success(true), deps;
  }
}
