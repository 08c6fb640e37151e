/**
 * The GL state cache of `gl_state`: every call compares the requested
 * state with what it last set and talks to GL only on a change. Uniform
 * values are cached per program: switching programs saves the current
 * program's values and restores the new one's, and a value set for a
 * program that is not current waits in a pending map until that program
 * is made current.
 *
 * GL itself is the trace of calls the cache issues. Each operation is a
 * function on a snapshot of the cache (`GlSnapshot`); the `StateCache`
 * class holds the state as fields and its methods are proved to perform
 * those functions.
 */
module GlState {
  import opened Floats
  import Matrix4

  /** A `GLuint`. */
  type GLuint = x: int | 0 <= x < 0x1_0000_0000

  /** `UINT_MAX`, the "nothing bound yet" value of every binding. */
  const UINT_MAX: GLuint := 0xFFFF_FFFF

  /** `UniformData`: which overload of `set_uniform` stored it, and its value. */
  datatype UniformData =
    | Empty
    | Int1(i1: int)
    | Mat3(mat3: seq<F32>)
    | Mat4(mat4: Matrix4.Matrix4)

  /** A `GLint`: a uniform location. */
  type GLint = x: int | -0x8000_0000 <= x < 0x8000_0000

  type Uniforms = map<GLint, UniformData>

  datatype AttribType = FloatType

  /** `VertexAttribPointer`: a value compared field by field. */
  datatype VertexAttribPointer = VertexAttribPointer(size: int, attribType: AttribType, normalized: bool, stride: int, offset: int)

  /** The default-constructed pointer. */
  const DEFAULT_POINTER := VertexAttribPointer(-1, FloatType, false, 0, 0)

  /** The GL calls of the engine, in the order they are issued. */
  datatype GlCall =
    | Enable(state: GLuint)
    | Disable(state: GLuint)
    | BindVertexArray(vao: GLuint)
    | BindArrayBuffer(buffer: GLuint)
    | BindTexture(texture: GLuint)
    | DeleteTexture(texture: GLuint)
    | ActiveTexture(unit: GLuint)
    | UseProgram(program: GLuint)
    | SetUniform(uniform: GLint, value: UniformData)
    | DeleteProgram(program: GLuint)
    | EnableVertexAttribArray(attribute: GLuint)
    | SetVertexAttribPointer(attribute: GLuint, pointer: VertexAttribPointer)
    | CreateProgram(program: GLuint)
    | BindAttribLocation(program: GLuint, index: nat, name: string)
    | GenBuffer(buffer: GLuint)
    | GenVertexArray(vao: GLuint)
    | BufferData(data: seq<F32>)
    | BufferSubData(data: seq<F32>)
    | DrawArrays(count: int)

  // ---------------------------------------------------------------------
  // Equality of cached values

  /** Floats compared pairwise with the float `==`. */
  predicate EntriesEqual(a: seq<F32>, b: seq<F32>)
  {
    |a| == |b| && forall i | 0 <= i < |a| :: FloatEq(a[i], b[i])
  }

  /** `operator==` of `UniformData`: the same overload and equal values. */
  predicate SameUniform(a: UniformData, b: UniformData)
  {
    match (a, b)
    case (Empty, Empty) => true
    case (Int1(x), Int1(y)) => x == y
    case (Mat3(x), Mat3(y)) => EntriesEqual(x, y)
    case (Mat4(x), Mat4(y)) => EntriesEqual(x.m, y.m)
    case _ => false
  }

  /** For 4 x 4 matrices the uniform comparison is the matrix `operator==`. */
  lemma SameMatrix4IsEqual(a: Matrix4.Matrix4, b: Matrix4.Matrix4)
    requires Matrix4.Valid(a) && Matrix4.Valid(b)
    ensures SameUniform(Mat4(a), Mat4(b)) <==> Matrix4.Equal(a, b)
  {
    assert |a.m| == 16 && |b.m| == 16;
  }

  /** A matrix holding a NaN compares unequal to every value, itself included. */
  lemma NaNNeverSame(x: Matrix4.Matrix4, i: nat, other: UniformData)
    requires i < |x.m| && IsNaN(x.m[i])
    ensures !SameUniform(Mat4(x), other) && !SameUniform(other, Mat4(x))
  {
  }

  // ---------------------------------------------------------------------
  // The cache, as a value

  datatype GlSnapshot = GlSnapshot(
    knownState: map<GLuint, bool>,
    currentBuffer: GLuint,
    currentVao: GLuint,
    currentTexture: GLuint,
    currentProgram: GLuint,
    currentTextureUnit: GLuint,
    currentUniforms: Uniforms,
    savedStates: map<GLuint, Uniforms>,
    pendingStates: map<GLuint, Uniforms>,
    knownAttribArrays: map<GLuint, bool>,
    attribPointers: map<GLuint, VertexAttribPointer>,
    trace: seq<GlCall>,
    shaderChanges: nat)

  /** The cache at program start: every binding unknown, every map empty. */
  const INITIAL := GlSnapshot(map[], UINT_MAX, UINT_MAX, UINT_MAX, UINT_MAX, UINT_MAX, map[], map[], map[], map[], map[], [], 0)

  /** The condition of the map `if_changed`: the key is absent or holds another value. */
  predicate Differs<K, V(==)>(m: map<K, V>, key: K, value: V)
  {
    key !in m || m[key] != value
  }

  /** The same condition for uniforms, compared with `operator==` of `UniformData`. */
  predicate UniformDiffers(m: Uniforms, key: GLint, value: UniformData)
  {
    key !in m || !SameUniform(m[key], value)
  }

  /** `map[program]` read as `operator[]` does: a missing program has no values. */
  function Lookup(m: map<GLuint, Uniforms>, program: GLuint): Uniforms
  {
    if program in m then m[program] else map[]
  }

  /** `set_state` (and so `enable`, `disable`): glEnable/glDisable only when the cached flag differs. */
  function SetStateStep(s: GlSnapshot, state: GLuint, enabled: bool): (r: GlSnapshot)
  {
    if Differs(s.knownState, state, enabled) then
      s.(knownState := s.knownState[state := enabled], trace := s.trace + [if enabled then Enable(state) else Disable(state)])
    else s
  }

  /** `bind_vertex_array_object`: a new VAO forgets the buffer binding and the attribute caches. */
  function BindVaoStep(s: GlSnapshot, vao: GLuint): (r: GlSnapshot)
  {
    if s.currentVao != vao then
      s.(currentVao := vao, currentBuffer := UINT_MAX, attribPointers := map[], knownAttribArrays := map[],
         trace := s.trace + [BindVertexArray(vao)])
    else s
  }

  /** `bind_array_buffer`: a new buffer forgets the attribute pointers. */
  function BindBufferStep(s: GlSnapshot, buffer: GLuint): (r: GlSnapshot)
  {
    if s.currentBuffer != buffer then
      s.(currentBuffer := buffer, attribPointers := map[], trace := s.trace + [BindArrayBuffer(buffer)])
    else s
  }

  /** `bind_texture`. */
  function BindTextureStep(s: GlSnapshot, texture: GLuint): (r: GlSnapshot)
  {
    if s.currentTexture != texture then s.(currentTexture := texture, trace := s.trace + [BindTexture(texture)]) else s
  }

  /** `delete_texture`: the bound texture is unbound (0 bound) before it is deleted. */
  function DeleteTextureStep(s: GlSnapshot, texture: GLuint): (r: GlSnapshot)
  {
    var unbound := if texture == s.currentTexture then BindTextureStep(s, 0) else s;
    unbound.(trace := unbound.trace + [DeleteTexture(texture)])
  }

  /** `activate_texture_unit`. */
  function ActivateUnitStep(s: GlSnapshot, unit: GLuint): (r: GlSnapshot)
  {
    if s.currentTextureUnit != unit then s.(currentTextureUnit := unit, trace := s.trace + [ActiveTexture(unit)]) else s
  }

  /** `set_uniform(uniform, value)`: nothing without a current program, else glUniform* when the cached value differs. */
  function UniformStep(s: GlSnapshot, uniform: GLint, value: UniformData): (r: GlSnapshot)
  {
    if s.currentProgram == UINT_MAX then s
    else if UniformDiffers(s.currentUniforms, uniform, value) then
      s.(currentUniforms := s.currentUniforms[uniform := value], trace := s.trace + [SetUniform(uniform, value)])
    else s
  }

  /** `set_uniform(program, uniform, value)`: set now for the current program, else kept pending. */
  function ProgramUniformStep(s: GlSnapshot, program: GLuint, uniform: GLint, value: UniformData): (r: GlSnapshot)
  {
    if s.currentProgram == program then UniformStep(s, uniform, value)
    else s.(pendingStates := s.pendingStates[program := Lookup(s.pendingStates, program)[uniform := value]])
  }

  /** The pending values re-sent by `use_program`, visited in `order`; `Empty` values are skipped. */
  function Resend(s: GlSnapshot, pending: Uniforms, order: seq<GLint>): (r: GlSnapshot)
    decreases |order|
  {
    if |order| == 0 then s
    else
      var before := Resend(s, pending, order[..|order| - 1]);
      var k := order[|order| - 1];
      if k in pending && !pending[k].Empty? then UniformStep(before, k, pending[k]) else before
  }

  /** `order` visits each key of `pending` exactly once: an iteration order of the map. */
  predicate IterationOrder(order: seq<GLint>, pending: Uniforms)
  {
    && (forall k | k in pending :: k in order)
    && (forall i | 0 <= i < |order| :: order[i] in pending)
    && (forall i, j | 0 <= i < j < |order| :: order[i] != order[j])
  }

  /**
   * `use_program`: on a change, the current values are saved under the old
   * program, the new program's saved values are restored, its pending
   * values are sent in the map's iteration `order`, and the pending map is
   * emptied.
   */
  function UseProgramStep(s: GlSnapshot, program: GLuint, order: seq<GLint>): (r: GlSnapshot)
  {
    if s.currentProgram == program then s
    else
      var sent := Resend(Switched(s, program), Lookup(s.pendingStates, program), order);
      sent.(pendingStates := sent.pendingStates[program := map[]])
  }

  /** The switch itself: glUseProgram, the old program's values saved and the new program's restored. */
  function Switched(s: GlSnapshot, program: GLuint): (r: GlSnapshot)
  {
    var saved := s.savedStates[s.currentProgram := s.currentUniforms];
    s.(trace := s.trace + [UseProgram(program)], shaderChanges := s.shaderChanges + 1,
       savedStates := saved, currentUniforms := Lookup(saved, program), currentProgram := program)
  }

  /** `delete_program` as written: the program's caches are emptied before switching away from it. */
  function DeleteProgramAsWritten(s: GlSnapshot, program: GLuint, order: seq<GLint>): (r: GlSnapshot)
  {
    var cleared := s.(savedStates := s.savedStates[program := map[]], pendingStates := s.pendingStates[program := map[]]);
    var switched := if cleared.currentProgram == program then UseProgramStep(cleared, 0, order) else cleared;
    switched.(trace := switched.trace + [DeleteProgram(program)])
  }

  /** `delete_program` with the switch to program 0 made before the program's caches are emptied. */
  function DeleteProgramStep(s: GlSnapshot, program: GLuint, order: seq<GLint>): (r: GlSnapshot)
  {
    var switched := if s.currentProgram == program then UseProgramStep(s, 0, order) else s;
    switched.(savedStates := switched.savedStates[program := map[]], pendingStates := switched.pendingStates[program := map[]],
              trace := switched.trace + [DeleteProgram(program)])
  }

  /** `enable_vertex_attrib_array`. */
  function EnableAttribStep(s: GlSnapshot, attribute: GLuint): (r: GlSnapshot)
  {
    if Differs(s.knownAttribArrays, attribute, true) then
      s.(knownAttribArrays := s.knownAttribArrays[attribute := true], trace := s.trace + [EnableVertexAttribArray(attribute)])
    else s
  }

  /** `set_vertex_attrib_pointer`. */
  function AttribPointerStep(s: GlSnapshot, attribute: GLuint, pointer: VertexAttribPointer): (r: GlSnapshot)
  {
    if Differs(s.attribPointers, attribute, pointer) then
      s.(attribPointers := s.attribPointers[attribute := pointer], trace := s.trace + [SetVertexAttribPointer(attribute, pointer)])
    else s
  }

  // ---------------------------------------------------------------------
  // What the cache promises

  /** After `set_state` the flag is cached, and GL heard of it exactly when the cached flag differed. */
  lemma SetStateMeaning(s: GlSnapshot, state: GLuint, enabled: bool)
    ensures SetStateStep(s, state, enabled).knownState == s.knownState[state := enabled]
    ensures SetStateStep(s, state, enabled).trace == s.trace + (if state in s.knownState && s.knownState[state] == enabled then [] else [if enabled then Enable(state) else Disable(state)])
  {
    if state in s.knownState && s.knownState[state] == enabled {
      assert s.knownState[state := enabled] == s.knownState;
      assert s.trace + [] == s.trace;
    }
  }

  /** Enabling (or disabling) twice issues one GL call: the second call changes nothing. */
  lemma SetStateTwice(s: GlSnapshot, state: GLuint, enabled: bool)
    ensures SetStateStep(SetStateStep(s, state, enabled), state, enabled) == SetStateStep(s, state, enabled)
  {
  }

  /** A new VAO makes the next `bind_array_buffer` reach GL even for the buffer that was bound before. */
  lemma NewVaoRebindsBuffer(s: GlSnapshot, vao: GLuint, buffer: GLuint)
    requires s.currentVao != vao && buffer != UINT_MAX
    ensures var r := BindBufferStep(BindVaoStep(s, vao), buffer);
      && r.trace == s.trace + [BindVertexArray(vao), BindArrayBuffer(buffer)]
      && r.currentVao == vao && r.currentBuffer == buffer
      && r.attribPointers == map[] && r.knownAttribArrays == map[]
  {
  }

  /** Binding the VAO that is already bound changes nothing, and leaves the attribute caches alone. */
  lemma SameVaoNoOp(s: GlSnapshot, vao: GLuint)
    requires s.currentVao == vao
    ensures BindVaoStep(s, vao) == s
  {
  }

  /** A new buffer makes every attribute pointer be sent again, even an unchanged one. */
  lemma NewBufferResendsPointers(s: GlSnapshot, buffer: GLuint, attribute: GLuint, pointer: VertexAttribPointer)
    requires s.currentBuffer != buffer
    ensures AttribPointerStep(BindBufferStep(s, buffer), attribute, pointer).trace
      == s.trace + [BindArrayBuffer(buffer), SetVertexAttribPointer(attribute, pointer)]
  {
  }

  /** Deleting the bound texture binds 0 first (one call unless 0 is the texture), then deletes it. */
  lemma DeleteBoundTexture(s: GlSnapshot, texture: GLuint)
    requires s.currentTexture == texture
    ensures DeleteTextureStep(s, texture).currentTexture == 0
    ensures DeleteTextureStep(s, texture).trace == s.trace + (if texture == 0 then [] else [BindTexture(0)]) + [DeleteTexture(texture)]
  {
    if texture == 0 {
      assert s.trace + [] == s.trace;
    }
  }

  /** Deleting a texture that is not bound keeps the binding. */
  lemma DeleteOtherTexture(s: GlSnapshot, texture: GLuint)
    requires s.currentTexture != texture
    ensures DeleteTextureStep(s, texture) == s.(trace := s.trace + [DeleteTexture(texture)])
  {
  }

  /** Without a current program, `set_uniform(uniform, value)` does nothing at all. */
  lemma NoProgramNoUniform(s: GlSnapshot, uniform: GLint, value: UniformData)
    requires s.currentProgram == UINT_MAX
    ensures UniformStep(s, uniform, value) == s
  {
  }

  /** With a current program, a value equal to the cached one is not sent again; any other value is sent and cached. */
  lemma UniformCaching(s: GlSnapshot, uniform: GLint, value: UniformData)
    requires s.currentProgram != UINT_MAX
    ensures uniform in s.currentUniforms && SameUniform(s.currentUniforms[uniform], value) ==> UniformStep(s, uniform, value) == s
    ensures !(uniform in s.currentUniforms && SameUniform(s.currentUniforms[uniform], value)) ==>
      UniformStep(s, uniform, value) == s.(currentUniforms := s.currentUniforms[uniform := value], trace := s.trace + [SetUniform(uniform, value)])
  {
  }

  /** A matrix holding a NaN is sent to GL on every `set_uniform`, since it never equals the cached copy. */
  lemma NaNUniformAlwaysSent(s: GlSnapshot, uniform: GLint, x: Matrix4.Matrix4, i: nat)
    requires s.currentProgram != UINT_MAX && i < |x.m| && IsNaN(x.m[i])
    ensures UniformStep(UniformStep(s, uniform, Mat4(x)), uniform, Mat4(x)).trace
      == s.trace + [SetUniform(uniform, Mat4(x)), SetUniform(uniform, Mat4(x))]
  {
    NaNNeverSame(x, i, Mat4(x));
    if uniform in s.currentUniforms {
      NaNNeverSame(x, i, s.currentUniforms[uniform]);
    }
  }

  /** A value for a program that is not current makes no GL call and waits in that program's pending map. */
  lemma PendingForOtherProgram(s: GlSnapshot, program: GLuint, uniform: GLint, value: UniformData)
    requires s.currentProgram != program
    ensures ProgramUniformStep(s, program, uniform, value).trace == s.trace
    ensures ProgramUniformStep(s, program, uniform, value).currentUniforms == s.currentUniforms
    ensures var pending := Lookup(ProgramUniformStep(s, program, uniform, value).pendingStates, program);
      uniform in pending && pending[uniform] == value
  {
  }

  /** A later pending value for the same uniform replaces the earlier one. */
  lemma PendingOverwrites(s: GlSnapshot, program: GLuint, uniform: GLint, first: UniformData, second: UniformData)
    requires s.currentProgram != program
    ensures ProgramUniformStep(ProgramUniformStep(s, program, uniform, first), program, uniform, second)
      == ProgramUniformStep(s, program, uniform, second)
  {
    var p: Uniforms := Lookup(s.pendingStates, program);
    assert p[uniform := first][uniform := second] == p[uniform := second];
  }

  /** The cached uniform `key` agrees with `value`: it is that value, or one that compares equal to it. */
  predicate Agrees(m: Uniforms, key: GLint, value: UniformData)
  {
    key in m && (m[key] == value || SameUniform(m[key], value))
  }

  /** Re-sending pending values touches only the current uniforms and the trace, which only grows. */
  lemma {:induction false} ResendFrame(s: GlSnapshot, pending: Uniforms, order: seq<GLint>)
    ensures var r := Resend(s, pending, order);
      && r == s.(currentUniforms := r.currentUniforms, trace := r.trace)
      && |r.trace| >= |s.trace| && r.trace[..|s.trace|] == s.trace
    decreases |order|
  {
    if |order| > 0 {
      ResendFrame(s, pending, order[..|order| - 1]);
    }
  }

  /** Re-sending makes every visited non-empty value agree with the cache. */
  lemma {:induction false} ResendAgrees(s: GlSnapshot, pending: Uniforms, order: seq<GLint>)
    requires s.currentProgram != UINT_MAX
    ensures var r := Resend(s, pending, order);
      forall k | k in pending && !pending[k].Empty? && k in order :: Agrees(r.currentUniforms, k, pending[k])
    decreases |order|
  {
    if |order| > 0 {
      var prefix := order[..|order| - 1];
      ResendAgrees(s, pending, prefix);
      ResendFrame(s, pending, prefix);
      assert order == prefix + [order[|order| - 1]];
    }
  }

  /** Re-sending keeps every cached uniform it does not visit with a non-empty value. */
  lemma {:induction false} ResendKeeps(s: GlSnapshot, pending: Uniforms, order: seq<GLint>)
    ensures var r := Resend(s, pending, order);
      forall k | k in s.currentUniforms && (k !in pending || pending[k].Empty? || k !in order) :: k in r.currentUniforms && r.currentUniforms[k] == s.currentUniforms[k]
    decreases |order|
  {
    if |order| > 0 {
      var prefix := order[..|order| - 1];
      ResendKeeps(s, pending, prefix);
      assert order == prefix + [order[|order| - 1]];
    }
  }

  /** With no current program, re-sending changes nothing. */
  lemma {:induction false} ResendWithoutProgram(s: GlSnapshot, pending: Uniforms, order: seq<GLint>)
    requires s.currentProgram == UINT_MAX
    ensures Resend(s, pending, order) == s
    decreases |order|
  {
    if |order| > 0 {
      ResendWithoutProgram(s, pending, order[..|order| - 1]);
    }
  }

  /** The parts of the cache a switch of program sets outright. */
  lemma UseProgramFrame(s: GlSnapshot, program: GLuint, order: seq<GLint>)
    requires s.currentProgram != program
    ensures var r := UseProgramStep(s, program, order);
      && r == s.(savedStates := s.savedStates[s.currentProgram := s.currentUniforms],
                 pendingStates := s.pendingStates[program := map[]],
                 currentProgram := program, shaderChanges := s.shaderChanges + 1,
                 currentUniforms := r.currentUniforms, trace := r.trace)
      && |r.trace| > |s.trace| && r.trace[..|s.trace| + 1] == s.trace + [UseProgram(program)]
  {
    ResendFrame(Switched(s, program), Lookup(s.pendingStates, program), order);
  }

  /**
   * A switch to another program saves the old program's values, restores
   * the new program's values with its pending values applied, empties its
   * pending map, and issues glUseProgram before any re-sent value.
   */
  lemma UseProgramMeaning(s: GlSnapshot, program: GLuint, order: seq<GLint>)
    requires s.currentProgram != program && program != UINT_MAX
    requires IterationOrder(order, Lookup(s.pendingStates, program))
    ensures var r := UseProgramStep(s, program, order);
      var pending := Lookup(s.pendingStates, program);
      var restored := Lookup(s.savedStates[s.currentProgram := s.currentUniforms], program);
      && r.currentProgram == program
      && Lookup(r.savedStates, s.currentProgram) == s.currentUniforms
      && Lookup(r.pendingStates, program) == map[]
      && r.shaderChanges == s.shaderChanges + 1
      && |r.trace| > |s.trace| && r.trace[..|s.trace| + 1] == s.trace + [UseProgram(program)]
      && (forall k | k in pending && !pending[k].Empty? :: Agrees(r.currentUniforms, k, pending[k]))
      && (forall k | k in restored && (k !in pending || pending[k].Empty?) :: k in r.currentUniforms && r.currentUniforms[k] == restored[k])
  {
    UseProgramFrame(s, program, order);
    ResendAgrees(Switched(s, program), Lookup(s.pendingStates, program), order);
    ResendKeeps(Switched(s, program), Lookup(s.pendingStates, program), order);
  }

  /** Switching away and back, with nothing pending for the first program, gives that program its values back. */
  lemma SwitchBackRestores(s: GlSnapshot, other: GLuint, away: seq<GLint>, back: seq<GLint>)
    requires s.currentProgram != other
    requires Lookup(s.pendingStates, s.currentProgram) == map[]
    requires back == []
    ensures UseProgramStep(UseProgramStep(s, other, away), s.currentProgram, back).currentUniforms == s.currentUniforms
    ensures UseProgramStep(UseProgramStep(s, other, away), s.currentProgram, back).currentProgram == s.currentProgram
  {
    UseProgramFrame(s, other, away);
    var turned := UseProgramStep(s, other, away);
    assert Lookup(turned.savedStates, s.currentProgram) == s.currentUniforms;
    assert Lookup(turned.pendingStates, s.currentProgram) == map[];
  }

  /** As written, deleting the current program leaves its values saved: they are saved again by the switch to 0. */
  lemma DeleteKeepsValuesAsWritten(s: GlSnapshot, program: GLuint, order: seq<GLint>)
    requires s.currentProgram == program && program != 0
    ensures Lookup(DeleteProgramAsWritten(s, program, order).savedStates, program) == s.currentUniforms
    ensures DeleteProgramAsWritten(s, program, order).currentProgram == 0
    ensures Lookup(DeleteProgramAsWritten(s, program, order).pendingStates, program) == map[]
  {
    var cleared := s.(savedStates := s.savedStates[program := map[]], pendingStates := s.pendingStates[program := map[]]);
    UseProgramFrame(cleared, 0, order);
  }

  /**
   * The consequence: a program created later under the deleted program's
   * name, as GL reuses names, is believed to hold the old values, so
   * setting one of them again never reaches GL.
   */
  lemma StaleValuesSkipUpload(s: GlSnapshot, program: GLuint, delOrder: seq<GLint>, uniform: GLint)
    requires s.currentProgram == program && program != 0 && program != UINT_MAX
    requires uniform in s.currentUniforms && SameUniform(s.currentUniforms[uniform], s.currentUniforms[uniform])
    ensures var deleted := DeleteProgramAsWritten(s, program, delOrder);
      var recreated := UseProgramStep(deleted, program, []);
      && recreated.currentUniforms == s.currentUniforms
      && UniformStep(recreated, uniform, s.currentUniforms[uniform]).trace == recreated.trace
  {
    DeleteKeepsValuesAsWritten(s, program, delOrder);
    var deleted := DeleteProgramAsWritten(s, program, delOrder);
    UseProgramFrame(deleted, program, []);
  }

  /** `delete_program`: afterwards nothing is saved or pending for the program, and it is no longer current unless it is 0. */
  lemma DeleteProgramForgets(s: GlSnapshot, program: GLuint, order: seq<GLint>)
    ensures var r := DeleteProgramStep(s, program, order);
      && Lookup(r.savedStates, program) == map[] && Lookup(r.pendingStates, program) == map[]
      && (program != 0 ==> r.currentProgram != program)
      && r.trace[|r.trace| - 1] == DeleteProgram(program)
  {
    if s.currentProgram == program && program != 0 {
      UseProgramFrame(s, 0, order);
    }
  }

  /** Enabling an attribute array twice issues one call; a pointer set twice with the same value is sent once. */
  lemma AttribCachesIdempotent(s: GlSnapshot, attribute: GLuint, pointer: VertexAttribPointer)
    ensures EnableAttribStep(EnableAttribStep(s, attribute), attribute) == EnableAttribStep(s, attribute)
    ensures AttribPointerStep(AttribPointerStep(s, attribute, pointer), attribute, pointer) == AttribPointerStep(s, attribute, pointer)
  {
  }

  // ---------------------------------------------------------------------
  // The cache, as the engine's global state

  class StateCache {
    var knownState: map<GLuint, bool>
    var currentBuffer: GLuint
    var currentVao: GLuint
    var currentTexture: GLuint
    var currentProgram: GLuint
    var currentTextureUnit: GLuint
    var currentUniforms: Uniforms
    var savedStates: map<GLuint, Uniforms>
    var pendingStates: map<GLuint, Uniforms>
    var knownAttribArrays: map<GLuint, bool>
    var attribPointers: map<GLuint, VertexAttribPointer>
    /** Every GL call made so far. */
    var trace: seq<GlCall>
    /** `stats::shader_change_count`. */
    var shaderChanges: nat

    function Snapshot(): GlSnapshot
      reads this
    {
      GlSnapshot(knownState, currentBuffer, currentVao, currentTexture, currentProgram, currentTextureUnit,
                 currentUniforms, savedStates, pendingStates, knownAttribArrays, attribPointers, trace, shaderChanges)
    }

    /** The statics' initial values. */
    constructor()
      ensures Snapshot() == INITIAL
    {
      knownState, currentBuffer, currentVao, currentTexture, currentProgram, currentTextureUnit := map[], UINT_MAX, UINT_MAX, UINT_MAX, UINT_MAX, UINT_MAX;
      currentUniforms, savedStates, pendingStates, knownAttribArrays, attribPointers := map[], map[], map[], map[], map[];
      trace, shaderChanges := [], 0;
    }

    /** A GL call made directly, outside the cache. */
    method Issue(call: GlCall)
      modifies this
      ensures Snapshot() == old(Snapshot()).(trace := old(trace) + [call])
    {
      trace := trace + [call];
    }

    method SetState(state: GLuint, enabled: bool)
      modifies this
      ensures Snapshot() == SetStateStep(old(Snapshot()), state, enabled)
    {
      if state !in knownState || knownState[state] != enabled {
        trace := trace + [if enabled then GlCall.Enable(state) else GlCall.Disable(state)];
        knownState := knownState[state := enabled];
      }
    }

    method Enable(state: GLuint)
      modifies this
      ensures Snapshot() == SetStateStep(old(Snapshot()), state, true)
    {
      SetState(state, true);
    }

    method Disable(state: GLuint)
      modifies this
      ensures Snapshot() == SetStateStep(old(Snapshot()), state, false)
    {
      SetState(state, false);
    }

    method BindVertexArrayObject(vao: GLuint)
      modifies this
      ensures Snapshot() == BindVaoStep(old(Snapshot()), vao)
    {
      if currentVao != vao {
        trace := trace + [BindVertexArray(vao)];
        currentBuffer := UINT_MAX;
        attribPointers := map[];
        knownAttribArrays := map[];
        currentVao := vao;
      }
    }

    method BindArrayBuffer(buffer: GLuint)
      modifies this
      ensures Snapshot() == BindBufferStep(old(Snapshot()), buffer)
    {
      if currentBuffer != buffer {
        trace := trace + [GlCall.BindArrayBuffer(buffer)];
        attribPointers := map[];
        currentBuffer := buffer;
      }
    }

    method BindTexture(texture: GLuint)
      modifies this
      ensures Snapshot() == BindTextureStep(old(Snapshot()), texture)
    {
      if currentTexture != texture {
        trace := trace + [GlCall.BindTexture(texture)];
        currentTexture := texture;
      }
    }

    method DeleteTexture(texture: GLuint)
      modifies this
      ensures Snapshot() == DeleteTextureStep(old(Snapshot()), texture)
    {
      if texture == currentTexture {
        BindTexture(0);
      }
      trace := trace + [GlCall.DeleteTexture(texture)];
    }

    method ActivateTextureUnit(unit: GLuint)
      modifies this
      ensures Snapshot() == ActivateUnitStep(old(Snapshot()), unit)
    {
      if currentTextureUnit != unit {
        trace := trace + [ActiveTexture(unit)];
        currentTextureUnit := unit;
      }
    }

    /** `set_uniform(uniform, value)`, one method for the int, Matrix3 and Matrix4 overloads. */
    method SetUniform(uniform: GLint, value: UniformData)
      modifies this
      ensures Snapshot() == UniformStep(old(Snapshot()), uniform, value)
    {
      if currentProgram == UINT_MAX {
        return;
      }
      if uniform !in currentUniforms || !SameUniform(currentUniforms[uniform], value) {
        trace := trace + [GlCall.SetUniform(uniform, value)];
        currentUniforms := currentUniforms[uniform := value];
      }
    }

    /** `set_uniform(program, uniform, value)`. */
    method SetProgramUniform(program: GLuint, uniform: GLint, value: UniformData)
      modifies this
      ensures Snapshot() == ProgramUniformStep(old(Snapshot()), program, uniform, value)
    {
      if currentProgram == program {
        SetUniform(uniform, value);
      } else {
        pendingStates := pendingStates[program := Lookup(pendingStates, program)[uniform := value]];
      }
    }

    /** The loop of `use_program` over the pending values; `order` is the order in which the map was visited. */
    method ResendPending(pending: Uniforms) returns (ghost order: seq<GLint>)
      modifies this
      ensures IterationOrder(order, pending)
      ensures Snapshot() == Resend(old(Snapshot()), pending, order)
    {
      order := [];
      ghost var start := Snapshot();
      var keys := pending.Keys;
      while keys != {}
        invariant keys <= pending.Keys
        invariant forall k | k in pending :: k in keys || k in order
        invariant forall i | 0 <= i < |order| :: order[i] in pending && order[i] !in keys
        invariant forall i, j | 0 <= i < j < |order| :: order[i] != order[j]
        invariant Snapshot() == Resend(start, pending, order)
        decreases keys
      {
        var k :| k in keys;
        var value := pending[k];
        if !value.Empty? {
          SetUniform(k, value);
        }
        assert (order + [k])[..|order|] == order;
        order := order + [k];
        keys := keys - {k};
      }
    }

    /** The switch of `use_program`, before the pending values are sent. */
    method SwitchTo(program: GLuint)
      modifies this
      ensures Snapshot() == Switched(old(Snapshot()), program)
    {
      trace := trace + [GlCall.UseProgram(program)];
      shaderChanges := shaderChanges + 1;
      savedStates := savedStates[currentProgram := currentUniforms];
      currentUniforms := Lookup(savedStates, program);
      currentProgram := program;
    }

    /** `use_program`; `order` is the order in which the pending map was visited. */
    method UseProgram(program: GLuint) returns (ghost order: seq<GLint>)
      modifies this
      ensures old(currentProgram) != program ==> IterationOrder(order, Lookup(old(pendingStates), program))
      ensures Snapshot() == UseProgramStep(old(Snapshot()), program, order)
    {
      order := [];
      if currentProgram == program {
        return;
      }
      var pending := Lookup(pendingStates, program);
      SwitchTo(program);
      order := ResendPending(pending);
      pendingStates := pendingStates[program := map[]];
    }

    /** `delete_program`, switching to program 0 before the program's caches are emptied. */
    method DeleteProgram(program: GLuint) returns (ghost order: seq<GLint>)
      modifies this
      ensures old(currentProgram) == program && program != 0 ==> IterationOrder(order, Lookup(old(pendingStates), 0))
      ensures Snapshot() == DeleteProgramStep(old(Snapshot()), program, order)
    {
      order := [];
      if currentProgram == program {
        order := UseProgram(0);
      }
      savedStates := savedStates[program := map[]];
      pendingStates := pendingStates[program := map[]];
      trace := trace + [GlCall.DeleteProgram(program)];
    }

    /**
     * `delete_program` as the source writes it: the program's caches are
     * emptied first, and only then does the cache switch to program 0.
     */
    method DeleteProgramClearingFirst(program: GLuint) returns (ghost order: seq<GLint>)
      modifies this
      ensures old(currentProgram) == program && program != 0 ==> IterationOrder(order, Lookup(old(pendingStates), 0))
      ensures Snapshot() == DeleteProgramAsWritten(old(Snapshot()), program, order)
    {
      order := [];
      savedStates := savedStates[program := map[]];
      pendingStates := pendingStates[program := map[]];
      if currentProgram == program {
        order := UseProgram(0);
      }
      trace := trace + [GlCall.DeleteProgram(program)];
    }

    method EnableVertexAttribArray(attribute: GLuint)
      modifies this
      ensures Snapshot() == EnableAttribStep(old(Snapshot()), attribute)
    {
      if attribute !in knownAttribArrays || knownAttribArrays[attribute] != true {
        trace := trace + [GlCall.EnableVertexAttribArray(attribute)];
        knownAttribArrays := knownAttribArrays[attribute := true];
      }
    }

    method SetVertexAttribPointer(attribute: GLuint, pointer: VertexAttribPointer)
      modifies this
      ensures Snapshot() == AttribPointerStep(old(Snapshot()), attribute, pointer)
    {
      if attribute !in attribPointers || attribPointers[attribute] != pointer {
        trace := trace + [GlCall.SetVertexAttribPointer(attribute, pointer)];
        attribPointers := attribPointers[attribute := pointer];
      }
    }
  }
}
