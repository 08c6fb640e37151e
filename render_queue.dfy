/**
 * The render queue: the frame's draw commands, sorted so that commands of
 * one camera, shader, texture and material run together, then executed
 * in order so that each material is filled once and flushed once per run
 * of commands that share it.
 *
 * Objects the commands point to are identified by numbers: a camera by
 * its address in units of the camera's size, a material and a mesh by an
 * identity.
 */
module RenderQueues {
  import opened Wrappers
  import opened Floats
  import Matrix4
  import opened GlState
  import opened Shaders
  import opened Materials

  type Transform = m: Matrix4.Matrix4 | Matrix4.Valid(m) witness Matrix4.Zero()

  /** A command as the queue compares and executes it; `queueIndex` and `texture` are those of its material. */
  datatype RenderCommand = RenderCommand(
    camera: int,
    mesh: nat,
    transform: Transform,
    material: nat,
    queueIndex: int,
    texture: Option<GLuint>)

  /**
   * `Texture::index`: the texture name plus one, or 0 for a material without
   * a texture. The sum is taken in `GLuint`, so the largest name wraps to 0.
   */
  function TextureIndex(texture: Option<GLuint>): (r: nat)
    ensures r < 0x1_0000_0000
    ensures r == 0 <==> texture.None? || texture == Some(UINT_MAX)
    ensures forall t: GLuint | texture == Some(t) && t != UINT_MAX :: r == t + 1
  {
    if texture.Some? then (texture.value + 1) % 0x1_0000_0000 else 0
  }

  /** The depth a command is sorted by: entry (2, 3) of its transform. */
  function Depth(c: RenderCommand): F32
  {
    Matrix4.Get(c.transform, 2, 3)
  }

  /**
   * `operator<`: each key is compared by the sign of its difference
   * converted to `int`, the depths by the float `<`.
   */
  predicate Less(a: RenderCommand, b: RenderCommand)
  {
    var camera := Int32Cast(a.camera - b.camera);
    if camera != 0 then camera < 0
    else
      var queue := Int32Cast(a.queueIndex - b.queueIndex);
      if queue != 0 then queue < 0
      else
        var texture := Int32Cast(TextureIndex(a.texture) - TextureIndex(b.texture));
        if texture != 0 then texture < 0
        else FloatLess(Depth(a), Depth(b))
  }

  /** The lexicographic order on camera, queue index, texture index and depth. */
  predicate KeyLess(a: RenderCommand, b: RenderCommand)
  {
    || a.camera < b.camera
    || (a.camera == b.camera && a.queueIndex < b.queueIndex)
    || (a.camera == b.camera && a.queueIndex == b.queueIndex && TextureIndex(a.texture) < TextureIndex(b.texture))
    || (a.camera == b.camera && a.queueIndex == b.queueIndex && TextureIndex(a.texture) == TextureIndex(b.texture)
        && OrderKey(Depth(a)) < OrderKey(Depth(b)))
  }

  /** Two commands whose differences fit in `int` and whose depths are numbers. */
  predicate Comparable(a: RenderCommand, b: RenderCommand)
  {
    && -INT_RANGE / 2 < a.camera - b.camera < INT_RANGE / 2
    && -INT_RANGE / 2 < a.queueIndex - b.queueIndex < INT_RANGE / 2
    && -INT_RANGE / 2 < TextureIndex(a.texture) - TextureIndex(b.texture) < INT_RANGE / 2
    && !IsNaN(Depth(a)) && !IsNaN(Depth(b))
  }

  /** For comparable commands `operator<` is the lexicographic order on the four keys. */
  lemma LessIsLexicographic(a: RenderCommand, b: RenderCommand)
    requires Comparable(a, b)
    ensures Less(a, b) <==> KeyLess(a, b)
  {
    assert Int32Cast(a.camera - b.camera) == a.camera - b.camera;
    assert Int32Cast(a.queueIndex - b.queueIndex) == a.queueIndex - b.queueIndex;
    assert Int32Cast(TextureIndex(a.texture) - TextureIndex(b.texture)) == TextureIndex(a.texture) - TextureIndex(b.texture);
  }

  /** A camera difference that does not fit in `int` can put the later camera first. */
  lemma WideCameraDifferenceInverts(a: RenderCommand, b: RenderCommand)
    requires a.camera == b.camera + INT_RANGE / 2
    ensures !Comparable(a, b) && Less(a, b) && !KeyLess(a, b)
  {
    assert Int32Cast(a.camera - b.camera) == -INT_RANGE / 2;
  }

  /**
   * A command whose texture has the largest name ties on the texture key
   * with one that has no texture: the two are comparable, and only their
   * depths order them.
   */
  lemma LargestTextureTiesUntextured(a: RenderCommand, b: RenderCommand)
    requires a.camera == b.camera && a.queueIndex == b.queueIndex
    requires a.texture == Some(UINT_MAX) && b.texture.None?
    requires !IsNaN(Depth(a)) && !IsNaN(Depth(b))
    ensures Comparable(a, b) && Comparable(b, a)
    ensures Less(a, b) <==> FloatLess(Depth(a), Depth(b))
    ensures Less(b, a) <==> FloatLess(Depth(b), Depth(a))
  {
    assert TextureIndex(a.texture) == 0 == TextureIndex(b.texture);
    assert Int32Cast(0) == 0;
  }

  /** On comparable commands `operator<` is a strict weak order, as `std::sort` needs. */
  lemma LessIsStrictWeakOrder(a: RenderCommand, b: RenderCommand, c: RenderCommand)
    requires Comparable(a, b) && Comparable(b, c) && Comparable(a, c)
    ensures !Less(a, a)
    ensures Less(a, b) ==> !Less(b, a)
    ensures Less(a, b) && Less(b, c) ==> Less(a, c)
    ensures Less(a, c) ==> Less(a, b) || Less(b, c)
  {
    LessIsLexicographic(a, b);
    LessIsLexicographic(b, a);
    LessIsLexicographic(b, c);
    LessIsLexicographic(a, c);
    assert Comparable(a, a);
    LessIsLexicographic(a, a);
  }

  // ---------------------------------------------------------------------
  // Sorting

  /** Every pair of commands of the queue is comparable. */
  predicate AllComparable(s: seq<RenderCommand>)
  {
    forall a, b | a in s && b in s :: Comparable(a, b)
  }

  /** Non-decreasing under `operator<`: no command is less than one before it. */
  predicate Sorted(s: seq<RenderCommand>)
  {
    forall i, j | 0 <= i < j < |s| :: !Less(s[j], s[i])
  }

  /** `x` goes before the first command that is not less than it. */
  function Insert(x: RenderCommand, s: seq<RenderCommand>): seq<RenderCommand>
    decreases |s|
  {
    if |s| == 0 || !Less(s[0], x) then [x] + s else [s[0]] + Insert(x, s[1..])
  }

  /** The order `std::sort` produces, fixed here as insertion; any two sorted permutations differ only among equivalent commands. */
  function SortCommands(s: seq<RenderCommand>): seq<RenderCommand>
    decreases |s|
  {
    if |s| == 0 then [] else Insert(s[0], SortCommands(s[1..]))
  }

  lemma {:induction false} InsertPermutes(x: RenderCommand, s: seq<RenderCommand>)
    ensures multiset(Insert(x, s)) == multiset(s) + multiset{x}
    decreases |s|
  {
    if |s| > 0 && Less(s[0], x) {
      InsertPermutes(x, s[1..]);
      assert s == [s[0]] + s[1..];
    }
  }

  /** A command no later command is less than can head a sorted queue. */
  lemma ConsSorted(y: RenderCommand, r: seq<RenderCommand>)
    requires Sorted(r)
    requires forall k | 0 <= k < |r| :: !Less(r[k], y)
    ensures Sorted([y] + r)
  {
    var q := [y] + r;
    forall i, j | 0 <= i < j < |q|
      ensures !Less(q[j], q[i])
    {
      assert q[j] == r[j - 1];
      if i > 0 {
        assert q[i] == r[i - 1];
      }
    }
  }

  /** A command not above the head of a sorted queue is not above any of it. */
  lemma BelowHead(x: RenderCommand, s: seq<RenderCommand>)
    requires Sorted(s) && AllComparable([x] + s) && |s| > 0 && !Less(s[0], x)
    ensures forall j | 0 <= j < |s| :: !Less(s[j], x)
  {
    forall j | 0 <= j < |s|
      ensures !Less(s[j], x)
    {
      assert s[j] in [x] + s && s[0] in [x] + s && x in [x] + s;
      LessIsStrictWeakOrder(s[j], s[0], x);
    }
  }

  /** What is inserted behind the head of a sorted queue stays above the head. */
  lemma AboveHead(x: RenderCommand, s: seq<RenderCommand>, rest: seq<RenderCommand>)
    requires Sorted(s) && AllComparable([x] + s) && |s| > 0 && Less(s[0], x)
    requires multiset(rest) == multiset(s[1..]) + multiset{x}
    ensures forall k | 0 <= k < |rest| :: !Less(rest[k], s[0])
  {
    forall k | 0 <= k < |rest|
      ensures !Less(rest[k], s[0])
    {
      assert rest[k] in multiset(rest);
      if rest[k] == x {
        assert x in [x] + s && s[0] in [x] + s;
        LessIsStrictWeakOrder(s[0], x, x);
      } else {
        assert rest[k] in multiset(s[1..]);
        var m :| 0 <= m < |s[1..]| && s[1..][m] == rest[k];
        assert s[m + 1] == rest[k];
      }
    }
  }

  lemma {:induction false} InsertSorted(x: RenderCommand, s: seq<RenderCommand>)
    requires Sorted(s) && AllComparable([x] + s)
    ensures Sorted(Insert(x, s))
    decreases |s|
  {
    if |s| == 0 {
    } else if !Less(s[0], x) {
      BelowHead(x, s);
      ConsSorted(x, s);
    } else {
      assert AllComparable([x] + s[1..]) by {
        forall a | a in [x] + s[1..]
          ensures a in [x] + s
        {
        }
      }
      InsertSorted(x, s[1..]);
      InsertPermutes(x, s[1..]);
      AboveHead(x, s, Insert(x, s[1..]));
      ConsSorted(s[0], Insert(x, s[1..]));
    }
  }

  lemma {:induction false} SortPermutes(s: seq<RenderCommand>)
    ensures multiset(SortCommands(s)) == multiset(s)
    decreases |s|
  {
    if |s| > 0 {
      SortPermutes(s[1..]);
      InsertPermutes(s[0], SortCommands(s[1..]));
      assert s == [s[0]] + s[1..];
    }
  }

  /** Commands drawn from a comparable queue are comparable. */
  lemma ComparableWithin(s: seq<RenderCommand>, t: seq<RenderCommand>)
    requires AllComparable(t) && multiset(s) <= multiset(t)
    ensures AllComparable(s)
  {
    forall a | a in s
      ensures a in t
    {
      assert a in multiset(s);
    }
  }

  /** What is sorted is a permutation of the queue, and non-decreasing when the commands are comparable. */
  lemma {:induction false} SortCommandsCorrect(s: seq<RenderCommand>)
    ensures multiset(SortCommands(s)) == multiset(s)
    ensures AllComparable(s) ==> Sorted(SortCommands(s))
    decreases |s|
  {
    SortPermutes(s);
    if |s| > 0 && AllComparable(s) {
      var rest := SortCommands(s[1..]);
      assert s == [s[0]] + s[1..];
      ComparableWithin(s[1..], s);
      SortCommandsCorrect(s[1..]);
      SortPermutes(s[1..]);
      ComparableWithin([s[0]] + rest, s);
      InsertSorted(s[0], rest);
    }
  }

  // ---------------------------------------------------------------------
  // Running the queue

  /** What executing the queue does to the materials, in order. */
  datatype Action =
    /** `flush` of the command at this index. */
    | Flush(command: nat)
    /** `activate_material`: the material's buffer is cleared. */
    | Activate(material: nat)
    /** `enqueue_mesh` of the command at this index. */
    | Enqueue(command: nat)

  /** `execute` of command `i` after command `prev`. */
  function ExecuteActions(commands: seq<RenderCommand>, prev: Option<nat>, i: nat): seq<Action>
    requires i < |commands| && (prev.Some? ==> prev.value < |commands|)
  {
    var changed := prev.None? || commands[prev.value].material != commands[i].material;
    (if changed then (if prev.Some? then [Flush(prev.value)] else []) + [Activate(commands[i].material)] else [])
    + [Enqueue(i)]
  }

  /** The actions of the commands from `i` on, after `prev`, and the final flush. */
  function RunFrom(commands: seq<RenderCommand>, i: nat, prev: Option<nat>): seq<Action>
    requires i <= |commands| && (prev.Some? ==> prev.value < |commands|)
    decreases |commands| - i
  {
    if i == |commands| then (if prev.Some? then [Flush(prev.value)] else [])
    else ExecuteActions(commands, prev, i) + RunFrom(commands, i + 1, Some(i))
  }

  /** `run`. */
  function RunActions(commands: seq<RenderCommand>): seq<Action>
  {
    RunFrom(commands, 0, None)
  }

  /** The command before index `i`, if there is one. */
  function Previous(i: nat): Option<nat>
  {
    if i == 0 then None else Some(i - 1)
  }

  /** Command `k` is the last of a run of commands sharing a material. */
  predicate EndsRun(commands: seq<RenderCommand>, k: nat)
  {
    k < |commands| && (k == |commands| - 1 || commands[k].material != commands[k + 1].material)
  }

  lemma {:induction false} FlushesFrom(commands: seq<RenderCommand>, i: nat, k: nat)
    requires i <= |commands|
    ensures Flush(k) in RunFrom(commands, i, Previous(i)) <==> EndsRun(commands, k) && i <= k + 1
    decreases |commands| - i
  {
    if i < |commands| {
      FlushesFrom(commands, i + 1, k);
    }
  }

  /** A flush ends every run of commands sharing a material, the last one included, and nothing else. */
  lemma FlushesAtBoundaries(commands: seq<RenderCommand>, k: nat)
    ensures Flush(k) in RunActions(commands) <==> EndsRun(commands, k)
  {
    FlushesFrom(commands, 0, k);
  }

  lemma {:induction false} EnqueuesFrom(commands: seq<RenderCommand>, i: nat, k: nat)
    requires i <= |commands|
    ensures Enqueue(k) in RunFrom(commands, i, Previous(i)) <==> i <= k < |commands|
    decreases |commands| - i
  {
    if i < |commands| {
      EnqueuesFrom(commands, i + 1, k);
    }
  }

  /** Every command's mesh is enqueued, once it is its turn. */
  lemma EveryCommandEnqueued(commands: seq<RenderCommand>, k: nat)
    ensures Enqueue(k) in RunActions(commands) <==> k < |commands|
  {
    EnqueuesFrom(commands, 0, k);
  }

  /** Command `k` starts a run of commands sharing a material. */
  predicate StartsRun(commands: seq<RenderCommand>, k: nat)
  {
    k < |commands| && (k == 0 || commands[k - 1].material != commands[k].material)
  }

  /** `execute` of command `i` activates its material exactly when it starts a run. */
  lemma ExecuteActivates(commands: seq<RenderCommand>, i: nat, m: nat)
    requires i < |commands|
    ensures Activate(m) in ExecuteActions(commands, Previous(i), i) <==> StartsRun(commands, i) && commands[i].material == m
  {
  }

  lemma {:induction false} ActivatesFrom(commands: seq<RenderCommand>, i: nat, m: nat)
    requires i <= |commands|
    ensures Activate(m) in RunFrom(commands, i, Previous(i)) <==>
      exists k | i <= k < |commands| :: StartsRun(commands, k) && commands[k].material == m
    decreases |commands| - i
  {
    if i < |commands| {
      ActivatesFrom(commands, i + 1, m);
      ExecuteActivates(commands, i, m);
      var here := ExecuteActions(commands, Previous(i), i);
      assert RunFrom(commands, i, Previous(i)) == here + RunFrom(commands, i + 1, Some(i));
      if Activate(m) in RunFrom(commands, i, Previous(i)) {
        if Activate(m) in here {
          assert StartsRun(commands, i) && commands[i].material == m;
        } else {
          var k :| i + 1 <= k < |commands| && StartsRun(commands, k) && commands[k].material == m;
        }
      }
      if exists k | i <= k < |commands| :: StartsRun(commands, k) && commands[k].material == m {
        var k :| i <= k < |commands| && StartsRun(commands, k) && commands[k].material == m;
        if k == i {
          assert Activate(m) in here;
        } else {
          assert Activate(m) in RunFrom(commands, i + 1, Some(i));
        }
      }
    }
  }

  /** A material is cleared exactly where a run of commands using it starts. */
  lemma ActivatesAtRunStarts(commands: seq<RenderCommand>, m: nat)
    ensures Activate(m) in RunActions(commands) <==>
      exists k | 0 <= k < |commands| :: StartsRun(commands, k) && commands[k].material == m
  {
    ActivatesFrom(commands, 0, m);
  }

  /** An empty queue touches no material. */
  lemma EmptyQueueDoesNothing()
    ensures RunActions([]) == []
  {
  }

  // ---------------------------------------------------------------------
  // The queue object

  class RenderQueue {
    var commands: seq<RenderCommand>

    constructor()
      ensures commands == []
    {
      commands := [];
    }

    /** `clear`. */
    method Clear()
      modifies this
      ensures commands == []
    {
      commands := [];
    }

    /** `add_command`: only a command whose mesh the camera may see is queued; `visible` is the frustum test. */
    method AddCommand(command: RenderCommand, visible: bool)
      modifies this
      ensures commands == old(commands) + if visible then [command] else []
    {
      if visible {
        commands := commands + [command];
      }
    }

    /** `sort`: `std::sort` with `operator<`, which needs the commands to be comparable. */
    method Sort()
      requires AllComparable(commands)
      modifies this
      ensures multiset(commands) == multiset(old(commands))
      ensures Sorted(commands)
    {
      SortCommandsCorrect(commands);
      commands := SortCommands(commands);
    }

    /** `run`: each command executed after the one before it, then the last one flushed. */
    method Run(stats: Stats) returns (actions: seq<Action>)
      modifies stats
      ensures actions == RunActions(commands)
      ensures stats.renderQueueSize == |commands|
      ensures stats.drawCalls == old(stats.drawCalls) && stats.triangleCount == old(stats.triangleCount)
      ensures stats.singleDrawEnabled == old(stats.singleDrawEnabled) && stats.singleDrawIndex == old(stats.singleDrawIndex)
    {
      stats.renderQueueSize := |commands|;
      actions := [];
      var prev: Option<nat> := None;
      for i := 0 to |commands|
        invariant prev == Previous(i)
        invariant RunActions(commands) == actions + RunFrom(commands, i, prev)
      {
        actions := actions + ExecuteActions(commands, prev, i);
        prev := Some(i);
      }
      if prev.Some? {
        actions := actions + [Flush(prev.value)];
      }
    }
  }

  /**
   * `flush` of a command on its material: nothing without enqueued
   * meshes; otherwise the camera's projection and identity model-view
   * and normal matrices are set on the shader, the shader is used and
   * the material draws. `completed` is false when a uniform lookup
   * throws or the material's draw stopped.
   */
  method FlushCommand(material: Material, gl: StateCache, stats: Stats, projection: Transform, newVbo: GLuint, newVao: GLuint)
    returns (completed: bool)
    requires material.Valid()
    requires |material.shader.extraAttributes| < 0x1_0000_0000 - NUM_ATTRIBUTES
    modifies material, gl, stats
    ensures material.Valid()
    ensures !old(material.HasEnqueuedMeshes()) ==>
      completed && gl.Snapshot() == old(gl.Snapshot()) && material.vbo == old(material.vbo) && material.vao == old(material.vao)
    ensures stats.drawCalls == old(stats.drawCalls) + (if old(material.HasEnqueuedMeshes()) && completed then 1 else 0)
    ensures stats.triangleCount == old(stats.triangleCount) + (if old(material.HasEnqueuedMeshes()) && completed then material.vertexCount / 3 else 0)
    ensures material.buffer == old(material.buffer) && material.bufferIndex == old(material.bufferIndex)
    ensures material.vertexCount == old(material.vertexCount) && material.shader == old(material.shader)
  {
    if !material.HasEnqueuedMeshes() {
      return true;
    }
    var shader := material.shader;
    var found := shader.SetNamedUniform(gl, UNIFORM_NAMES[0], Mat4(projection));
    if !found {
      return false;
    }
    found := shader.SetNamedUniform(gl, UNIFORM_NAMES[1], Mat4(Matrix4.Identity4()));
    if !found {
      return false;
    }
    found := shader.SetNamedUniform(gl, UNIFORM_NAMES[2], GlState.Mat3(Matrix4.Mat3(Matrix4.Identity4())));
    if !found {
      return false;
    }
    var _ := shader.Use(gl);
    ghost var pointers;
    completed, pointers := material.SubmitDrawCalls(gl, stats, newVbo, newVao);
  }
}
