/**
 * The shader: the extra vertex attributes its spec declares, how they
 * are laid out after the built-in position, normal and texture
 * coordinate in one interleaved vertex, and which attribute locations
 * they are bound to.
 *
 * The spec is the list of key/value pairs of the decoded spec map;
 * compiling and linking are left to GL, whose answers are parameters.
 */
module Shaders {
  import opened Wrappers
  import opened GlState

  const DEFAULT_QUEUE_INDEX := 100
  const FLOAT_SIZE := 4
  /** The built-in attributes, at locations 0, 1 and 2. */
  const ATTRIBUTE_NAMES: seq<string> := ["rw_vertex", "rw_normal", "rw_texcoord"]
  const NUM_ATTRIBUTES := 3
  /** The uniforms every shader looks up after linking. */
  const UNIFORM_NAMES: seq<string> := ["rw_projection_matrix", "rw_modelview_matrix", "rw_normal_matrix", "rw_texture"]
  const TEXTURE_SAMPLER := UNIFORM_NAMES[3]
  /** Position (3 floats), normal (3 floats) and texture coordinate (2 floats). */
  const BUILTIN_WIDTH := (3 + 3 + 2) * FLOAT_SIZE

  /** The fields of an `AttributeSpec` besides its name. */
  datatype Layout = Layout(width: int, nComps: int, attribType: AttribType, normalized: bool)

  datatype AttributeSpec = AttributeSpec(name: string, layout: Layout)

  /** The layout of the spec string "vec4". */
  const VEC4 := Layout(4 * FLOAT_SIZE, 4, FloatType, false)

  // ---------------------------------------------------------------------
  // Vertex layout

  /** The widths of the attributes added up. */
  function WidthSum(extras: seq<AttributeSpec>): int
    decreases |extras|
  {
    if |extras| == 0 then 0 else WidthSum(extras[..|extras| - 1]) + extras[|extras| - 1].layout.width
  }

  /** `std::accumulate` of the widths, from `sum`. */
  function Accumulate(sum: int, extras: seq<AttributeSpec>): int
    decreases |extras|
  {
    if |extras| == 0 then sum else Accumulate(sum + extras[0].layout.width, extras[1..])
  }

  /** Adding up from the front gives the same sum as adding up from the back. */
  lemma {:induction false} WidthSumCons(extras: seq<AttributeSpec>)
    requires |extras| > 0
    ensures WidthSum(extras) == extras[0].layout.width + WidthSum(extras[1..])
    decreases |extras|
  {
    if |extras| > 1 {
      var init := extras[..|extras| - 1];
      WidthSumCons(init);
      assert init[1..] == extras[1..][..|extras[1..]| - 1];
    } else {
      assert extras[..0] == [] && extras[1..] == [];
    }
  }

  /** The fold of `attribute_stride` is the starting value plus the sum of the widths. */
  lemma {:induction false} AccumulateIsSum(sum: int, extras: seq<AttributeSpec>)
    ensures Accumulate(sum, extras) == sum + WidthSum(extras)
    decreases |extras|
  {
    if |extras| > 0 {
      AccumulateIsSum(sum + extras[0].layout.width, extras[1..]);
      WidthSumCons(extras);
    }
  }

  /** `attribute_stride`: the bytes of one vertex, the built-ins and then every extra attribute. */
  function Stride(extras: seq<AttributeSpec>): (r: int)
    ensures r == BUILTIN_WIDTH + WidthSum(extras)
  {
    AccumulateIsSum(BUILTIN_WIDTH, extras);
    Accumulate(BUILTIN_WIDTH, extras)
  }

  /** Attributes of non-negative width never make a vertex narrower than the built-ins. */
  lemma {:induction false} StrideCoversBuiltins(extras: seq<AttributeSpec>)
    requires forall i | 0 <= i < |extras| :: extras[i].layout.width >= 0
    ensures WidthSum(extras) >= 0 && Stride(extras) >= BUILTIN_WIDTH
    decreases |extras|
  {
    if |extras| > 0 {
      StrideCoversBuiltins(extras[..|extras| - 1]);
    }
  }

  /** The offset of extra attribute `i`: after the built-ins and the extras before it. */
  function ExtraOffset(extras: seq<AttributeSpec>, i: nat): int
    requires i <= |extras|
  {
    BUILTIN_WIDTH + WidthSum(extras[..i])
  }

  /** The attributes are packed: each starts where the one before ends, and the last ends at the stride. */
  lemma PackedLayout(extras: seq<AttributeSpec>, i: nat)
    requires i < |extras|
    ensures ExtraOffset(extras, i + 1) == ExtraOffset(extras, i) + extras[i].layout.width
    ensures ExtraOffset(extras, |extras|) == Stride(extras)
  {
    assert extras[..i + 1][..i] == extras[..i];
    assert extras[..|extras|] == extras;
  }

  /** The pointer of every attribute location, as `initialize_attribute_arrays` sets them. */
  predicate AttributePointers(extras: seq<AttributeSpec>, pointers: seq<VertexAttribPointer>)
  {
    var stride := Stride(extras);
    && |pointers| == NUM_ATTRIBUTES + |extras|
    && pointers[0] == VertexAttribPointer(3, FloatType, false, stride, 0)
    && pointers[1] == VertexAttribPointer(3, FloatType, true, stride, 3 * FLOAT_SIZE)
    && pointers[2] == VertexAttribPointer(2, FloatType, false, stride, 6 * FLOAT_SIZE)
    && forall i | 0 <= i < |extras| ::
         pointers[NUM_ATTRIBUTES + i] == VertexAttribPointer(extras[i].layout.nComps, extras[i].layout.attribType,
                                                             extras[i].layout.normalized, stride, ExtraOffset(extras, i))
  }

  /** The cache after enabling each location and setting its pointer, in location order. */
  function ApplyPointers(s: GlSnapshot, pointers: seq<VertexAttribPointer>): GlSnapshot
    decreases |pointers|
  {
    if |pointers| == 0 then s
    else
      var n := |pointers| - 1;
      if n < 0x1_0000_0000 then
        AttribPointerStep(EnableAttribStep(ApplyPointers(s, pointers[..n]), n), n, pointers[n])
      else ApplyPointers(s, pointers[..n])
  }

  /** After `initialize_attribute_arrays` every location below the count is enabled and holds its pointer. */
  /** The location holds the pointer and is enabled. */
  predicate Installed(s: GlSnapshot, l: GLuint, pointer: VertexAttribPointer)
  {
    l in s.knownAttribArrays && s.knownAttribArrays[l] && l in s.attribPointers && s.attribPointers[l] == pointer
  }

  /** Enabling a location and setting its pointer installs it and keeps every other location as it was. */
  lemma InstallOne(s: GlSnapshot, n: GLuint, pointer: VertexAttribPointer, l: GLuint, other: VertexAttribPointer)
    ensures Installed(AttribPointerStep(EnableAttribStep(s, n), n, pointer), n, pointer)
    ensures l != n && Installed(s, l, other) ==> Installed(AttribPointerStep(EnableAttribStep(s, n), n, pointer), l, other)
  {
    var enabled := EnableAttribStep(s, n);
    assert enabled.attribPointers == s.attribPointers;
    assert enabled.knownAttribArrays == s.knownAttribArrays[n := true];
    var r := AttribPointerStep(enabled, n, pointer);
    assert r.knownAttribArrays == enabled.knownAttribArrays;
    assert r.attribPointers == enabled.attribPointers[n := pointer];
  }

  lemma {:induction false} PointersApplied(s: GlSnapshot, pointers: seq<VertexAttribPointer>)
    requires |pointers| < 0x1_0000_0000
    ensures forall l: GLuint | l < |pointers| :: Installed(ApplyPointers(s, pointers), l, pointers[l])
    decreases |pointers|
  {
    if |pointers| > 0 {
      var n := |pointers| - 1;
      var before := ApplyPointers(s, pointers[..n]);
      PointersApplied(s, pointers[..n]);
      assert ApplyPointers(s, pointers) == AttribPointerStep(EnableAttribStep(before, n), n, pointers[n]);
      forall l: GLuint | l < |pointers|
        ensures Installed(ApplyPointers(s, pointers), l, pointers[l])
      {
        if l < n {
          assert pointers[..n][l] == pointers[l];
        }
        InstallOne(before, n, pointers[n], l, pointers[l]);
      }
    }
  }

  // ---------------------------------------------------------------------
  // The spec

  /** A decoded spec value, by the type `as<T>` asks of it. */
  datatype SpecValue =
    | Text(text: string)
    | Lists(lists: seq<seq<string>>)
    | Number(number: int)
    | OtherValue

  datatype ShaderError =
    /** The type error of `as<T>` on a value of another type. */
    | BadValue(key: string)
    /** An attribute entry without a name and a spec string. */
    | ShortAttribute(entry: seq<string>)

  /** What reading the spec sets: the two shader sources, the extra attributes and the queue index. */
  datatype SpecState = SpecState(vertexSource: string, fragmentSource: string, extras: seq<AttributeSpec>, queueIndex: int)

  /** One `[name, spec]` entry; a spec other than "vec4" leaves the layout at the indeterminate `unset`. */
  function AttributeOf(entry: seq<string>, unset: Layout): (r: Result<AttributeSpec, ShaderError>)
  {
    if |entry| < 2 then Failure(ShortAttribute(entry))
    else Success(AttributeSpec(entry[0], if entry[1] == "vec4" then VEC4 else unset))
  }

  /** The entries of "extra-attributes", in order. */
  function AttributesOf(entries: seq<seq<string>>, unset: Layout): (r: Result<seq<AttributeSpec>, ShaderError>)
    ensures r.Success? ==> |r.value| == |entries|
  {
    if |entries| == 0 then Success([])
    else
      match AttributeOf(entries[0], unset)
      case Failure(e) => Failure(e)
      case Success(a) =>
        match AttributesOf(entries[1..], unset)
        case Failure(e) => Failure(e)
        case Success(rest) => Success([a] + rest)
  }

  /** One key of the spec map; unknown keys are ignored. */
  function SpecStep(st: SpecState, key: string, value: SpecValue, unset: Layout): Result<SpecState, ShaderError>
  {
    if key == "vertex-shader" then
      if value.Text? then Success(st.(vertexSource := value.text)) else Failure(BadValue(key))
    else if key == "fragment-shader" then
      if value.Text? then Success(st.(fragmentSource := value.text)) else Failure(BadValue(key))
    else if key == "extra-attributes" then
      if !value.Lists? then Failure(BadValue(key))
      else
        match AttributesOf(value.lists, unset)
        case Failure(e) => Failure(e)
        case Success(extras) => Success(st.(extras := extras))
    else if key == "queue-index" then
      if value.Number? then Success(st.(queueIndex := value.number)) else Failure(BadValue(key))
    else Success(st)
  }

  /** The loop of `reload_shader` over the spec map, stopping at the first error. */
  function ReadSpec(st: SpecState, spec: seq<(string, SpecValue)>, unset: Layout): Result<SpecState, ShaderError>
    decreases |spec|
  {
    if |spec| == 0 then Success(st)
    else
      match SpecStep(st, spec[0].0, spec[0].1, unset)
      case Failure(e) => Failure(e)
      case Success(next) => ReadSpec(next, spec[1..], unset)
  }

  /** The queue index of the last "queue-index" key, or `current` without one. */
  function LastQueueIndex(current: int, spec: seq<(string, SpecValue)>): int
    decreases |spec|
  {
    if |spec| == 0 then current
    else LastQueueIndex(if spec[0].0 == "queue-index" && spec[0].1.Number? then spec[0].1.number else current, spec[1..])
  }

  /** The list value of the last "extra-attributes" key, or None without one. */
  function LastAttributes(current: Option<seq<seq<string>>>, spec: seq<(string, SpecValue)>): Option<seq<seq<string>>>
    decreases |spec|
  {
    if |spec| == 0 then current
    else LastAttributes(if spec[0].0 == "extra-attributes" && spec[0].1.Lists? then Some(spec[0].1.lists) else current, spec[1..])
  }

  /** For a repeated "queue-index" key the last value wins; without one the index stays. */
  lemma {:induction false} QueueIndexLastWins(st: SpecState, spec: seq<(string, SpecValue)>, unset: Layout)
    requires ReadSpec(st, spec, unset).Success?
    ensures ReadSpec(st, spec, unset).value.queueIndex == LastQueueIndex(st.queueIndex, spec)
    decreases |spec|
  {
    if |spec| > 0 {
      QueueIndexLastWins(SpecStep(st, spec[0].0, spec[0].1, unset).value, spec[1..], unset);
    }
  }

  /** The extra attributes are those of the last "extra-attributes" key, which replaces the earlier lists. */
  lemma {:induction false} AttributesLastWins(st: SpecState, spec: seq<(string, SpecValue)>, unset: Layout)
    requires ReadSpec(st, spec, unset).Success?
    ensures var last := LastAttributes(None, spec);
      && (last.None? ==> ReadSpec(st, spec, unset).value.extras == st.extras)
      && (last.Some? ==> AttributesOf(last.value, unset) == Success(ReadSpec(st, spec, unset).value.extras))
    decreases |spec|
  {
    if |spec| > 0 {
      var next := SpecStep(st, spec[0].0, spec[0].1, unset).value;
      AttributesLastWins(next, spec[1..], unset);
      LastAttributesStart(None, spec[1..]);
      if spec[0].0 == "extra-attributes" && spec[0].1.Lists? {
        LastAttributesStart(Some(spec[0].1.lists), spec[1..]);
      }
    }
  }

  /** The starting value survives only when no key of the spec sets the attributes. */
  lemma {:induction false} LastAttributesStart(start: Option<seq<seq<string>>>, spec: seq<(string, SpecValue)>)
    ensures LastAttributes(start, spec) == if LastAttributes(None, spec).Some? then LastAttributes(None, spec) else start
    decreases |spec|
  {
    if |spec| > 0 {
      LastAttributesStart(start, spec[1..]);
      LastAttributesStart(None, spec[1..]);
      if spec[0].0 == "extra-attributes" && spec[0].1.Lists? {
        LastAttributesStart(Some(spec[0].1.lists), spec[1..]);
      }
    }
  }

  /** The spec "vec4" gives four unnormalised floats, 16 bytes wide; any other spec string leaves the layout unset. */
  lemma SpecStrings(name: string, spec: string, unset: Layout)
    ensures AttributeOf([name, spec], unset) == Success(AttributeSpec(name, if spec == "vec4" then VEC4 else unset))
    ensures VEC4.nComps == 4 && VEC4.width == 16 && !VEC4.normalized && VEC4.attribType == FloatType
  {
  }

  /** A key the shader does not know changes nothing. */
  lemma UnknownKeyIgnored(st: SpecState, key: string, value: SpecValue, spec: seq<(string, SpecValue)>, unset: Layout)
    requires key !in {"vertex-shader", "fragment-shader", "extra-attributes", "queue-index"}
    ensures ReadSpec(st, [(key, value)] + spec, unset) == ReadSpec(st, spec, unset)
  {
    assert ([(key, value)] + spec)[1..] == spec;
  }

  /** The attribute locations `reload_shader` binds: the built-ins at 0..2, extra attribute i at 3 + i. */
  function Locations(program: GLuint, extras: seq<AttributeSpec>): (r: seq<GlCall>)
    ensures |r| == NUM_ATTRIBUTES + |extras|
    ensures forall i | 0 <= i < |r| :: r[i].BindAttribLocation? && r[i].program == program && r[i].index == i
    ensures forall i | 0 <= i < NUM_ATTRIBUTES :: r[i].name == ATTRIBUTE_NAMES[i]
    ensures forall i | 0 <= i < |extras| :: r[NUM_ATTRIBUTES + i].name == extras[i].name
  {
    seq(NUM_ATTRIBUTES + |extras|, i requires 0 <= i < NUM_ATTRIBUTES + |extras| =>
      BindAttribLocation(program, i, if i < NUM_ATTRIBUTES then ATTRIBUTE_NAMES[i] else extras[i - NUM_ATTRIBUTES].name))
  }

  /** The cache after the old program, if there is one, is deleted through `gl_state::delete_program` as written. */
  function Destroyed(s: GlSnapshot, program: GLuint, order: seq<GLint>): GlSnapshot
  {
    if program != UINT_MAX then DeleteProgramAsWritten(s, program, order) else s
  }

  /** The calls `reload_shader` makes on the new program: create it, then bind the locations if both shaders compile. */
  function Created(s: GlSnapshot, created: GLuint, compiled: bool, extras: seq<AttributeSpec>): (r: GlSnapshot)
    ensures |r.trace| > |s.trace| && r.trace[..|s.trace| + 1] == s.trace + [CreateProgram(created)]
    ensures compiled ==> r.trace[|s.trace| + 1..] == Locations(created, extras)
    ensures !compiled ==> |r.trace| == |s.trace| + 1
    ensures r.(trace := s.trace) == s
  {
    s.(trace := s.trace + [CreateProgram(created)] + if compiled then Locations(created, extras) else [])
  }

  /**
   * `reload_shader` of the current program, when GL hands back the same name
   * for the new program: the old program's uniform values are still saved
   * under that name, so switching to the new program restores them and
   * setting one of them again never reaches GL.
   */
  lemma ReloadKeepsStaleValues(s: GlSnapshot, program: GLuint, order: seq<GLint>, compiled: bool,
                               extras: seq<AttributeSpec>, uniform: GLint)
    requires s.currentProgram == program && program != 0 && program != UINT_MAX
    requires uniform in s.currentUniforms && SameUniform(s.currentUniforms[uniform], s.currentUniforms[uniform])
    ensures var reloaded := Created(Destroyed(s, program, order), program, compiled, extras);
      var used := UseProgramStep(reloaded, program, []);
      && Lookup(reloaded.savedStates, program) == s.currentUniforms
      && used.currentUniforms == s.currentUniforms
      && UniformStep(used, uniform, s.currentUniforms[uniform]).trace == used.trace
  {
    DeleteKeepsValuesAsWritten(s, program, order);
    var reloaded := Created(Destroyed(s, program, order), program, compiled, extras);
    UseProgramFrame(reloaded, program, []);
  }

  // ---------------------------------------------------------------------
  // The shader object

  class Shader {
    var program: GLuint
    var extraAttributes: seq<AttributeSpec>
    var queueIndex: int
    /** The uniform locations GL reported for the linked program. */
    var uniformLocations: map<string, GLint>

    /** The shader before its first `reload_shader`. */
    constructor()
      ensures program == UINT_MAX && extraAttributes == [] && queueIndex == DEFAULT_QUEUE_INDEX && uniformLocations == map[]
    {
      program := UINT_MAX;
      extraAttributes := [];
      queueIndex := DEFAULT_QUEUE_INDEX;
      uniformLocations := map[];
    }

    /**
     * The `set_*_uniform` forwarders: the value goes to this program under
     * the location of `name`; a name without a location throws
     * (`found` is false) and nothing is set.
     */
    method SetNamedUniform(gl: StateCache, name: string, value: UniformData) returns (found: bool)
      modifies gl
      ensures found <==> name in uniformLocations
      ensures found ==> gl.Snapshot() == ProgramUniformStep(old(gl.Snapshot()), program, uniformLocations[name], value)
      ensures !found ==> gl.Snapshot() == old(gl.Snapshot())
    {
      if name !in uniformLocations {
        return false;
      }
      gl.SetProgramUniform(program, uniformLocations[name], value);
      return true;
    }

    /** The uniform-location loop of `reload_shader`; `locate` is GL's answer for each name. */
    method LocateUniforms(locate: string -> GLint)
      modifies this
      ensures forall n | n in UNIFORM_NAMES :: n in uniformLocations && uniformLocations[n] == locate(n)
      ensures forall n | n !in UNIFORM_NAMES :: (n in uniformLocations <==> n in old(uniformLocations))
      ensures forall n | n !in UNIFORM_NAMES && n in uniformLocations :: uniformLocations[n] == old(uniformLocations)[n]
      ensures program == old(program) && extraAttributes == old(extraAttributes) && queueIndex == old(queueIndex)
    {
      for index := 0 to |UNIFORM_NAMES|
        invariant program == old(program) && extraAttributes == old(extraAttributes) && queueIndex == old(queueIndex)
        invariant forall n | n in UNIFORM_NAMES[..index] :: n in uniformLocations && uniformLocations[n] == locate(n)
        invariant forall n | n !in UNIFORM_NAMES[..index] :: (n in uniformLocations <==> n in old(uniformLocations))
        invariant forall n | n !in UNIFORM_NAMES[..index] && n in uniformLocations :: uniformLocations[n] == old(uniformLocations)[n]
      {
        var name := UNIFORM_NAMES[index];
        uniformLocations := uniformLocations[name := locate(name)];
        assert UNIFORM_NAMES[..index + 1] == UNIFORM_NAMES[..index] + [name];
      }
      assert UNIFORM_NAMES[..|UNIFORM_NAMES|] == UNIFORM_NAMES;
    }

    /** `attribute_stride`. */
    function AttributeStride(): (r: int)
      reads this
      ensures r == Stride(extraAttributes)
    {
      Accumulate(BUILTIN_WIDTH, extraAttributes)
    }

    /** The pointers of `initialize_attribute_arrays`, one per location, with the running offset. */
    method PointerLayout() returns (pointers: seq<VertexAttribPointer>)
      ensures AttributePointers(extraAttributes, pointers)
    {
      var stride := AttributeStride();
      var offset := 0;
      pointers := [VertexAttribPointer(3, FloatType, false, stride, offset)];
      offset := offset + 3 * FLOAT_SIZE;
      pointers := pointers + [VertexAttribPointer(3, FloatType, true, stride, offset)];
      offset := offset + 3 * FLOAT_SIZE;
      pointers := pointers + [VertexAttribPointer(2, FloatType, false, stride, offset)];
      offset := offset + 2 * FLOAT_SIZE;
      for i := 0 to |extraAttributes|
        invariant |pointers| == NUM_ATTRIBUTES + i
        invariant offset == ExtraOffset(extraAttributes, i)
        invariant pointers[0] == VertexAttribPointer(3, FloatType, false, stride, 0)
        invariant pointers[1] == VertexAttribPointer(3, FloatType, true, stride, 3 * FLOAT_SIZE)
        invariant pointers[2] == VertexAttribPointer(2, FloatType, false, stride, 6 * FLOAT_SIZE)
        invariant forall j | 0 <= j < i ::
          pointers[NUM_ATTRIBUTES + j] == VertexAttribPointer(extraAttributes[j].layout.nComps, extraAttributes[j].layout.attribType,
                                                              extraAttributes[j].layout.normalized, stride, ExtraOffset(extraAttributes, j))
      {
        var spec := extraAttributes[i];
        pointers := pointers + [VertexAttribPointer(spec.layout.nComps, spec.layout.attribType, spec.layout.normalized, stride, offset)];
        PackedLayout(extraAttributes, i);
        offset := offset + spec.layout.width;
      }
    }

    /** `initialize_attribute_arrays`: every location enabled and given its pointer. */
    method InitializeAttributeArrays(gl: StateCache) returns (pointers: seq<VertexAttribPointer>)
      requires |extraAttributes| < 0x1_0000_0000 - NUM_ATTRIBUTES
      modifies gl
      ensures AttributePointers(extraAttributes, pointers)
      ensures gl.Snapshot() == ApplyPointers(old(gl.Snapshot()), pointers)
    {
      pointers := PointerLayout();
      for n := 0 to |pointers|
        invariant gl.Snapshot() == ApplyPointers(old(gl.Snapshot()), pointers[..n])
      {
        gl.EnableVertexAttribArray(n);
        gl.SetVertexAttribPointer(n, pointers[n]);
        assert pointers[..n + 1][..n] == pointers[..n];
      }
      assert pointers[..|pointers|] == pointers;
    }

    /** The loop over the spec map of `reload_shader`; on an error the fields stay as the entries before it left them. */
    method ApplySpec(spec: seq<(string, SpecValue)>, unset: Layout) returns (r: Result<SpecState, ShaderError>)
      modifies this
      ensures r == ReadSpec(SpecState("", "", old(extraAttributes), old(queueIndex)), spec, unset)
      ensures r.Success? ==> extraAttributes == r.value.extras && queueIndex == r.value.queueIndex
      ensures program == old(program) && uniformLocations == old(uniformLocations)
    {
      var vertexSource := "";
      var fragmentSource := "";
      ghost var start := SpecState("", "", extraAttributes, queueIndex);
      for i := 0 to |spec|
        invariant program == old(program) && uniformLocations == old(uniformLocations)
        invariant ReadSpec(start, spec, unset) == ReadSpec(SpecState(vertexSource, fragmentSource, extraAttributes, queueIndex), spec[i..], unset)
      {
        assert spec[i..][0] == spec[i] && spec[i..][1..] == spec[i + 1..];
        var (key, value) := spec[i];
        if key == "vertex-shader" {
          if !value.Text? {
            return Failure(BadValue(key));
          }
          vertexSource := value.text;
        } else if key == "fragment-shader" {
          if !value.Text? {
            return Failure(BadValue(key));
          }
          fragmentSource := value.text;
        } else if key == "extra-attributes" {
          if !value.Lists? {
            return Failure(BadValue(key));
          }
          var extras := AttributesOf(value.lists, unset);
          if extras.Failure? {
            return Failure(extras.error);
          }
          extraAttributes := extras.value;
        } else if key == "queue-index" {
          if !value.Number? {
            return Failure(BadValue(key));
          }
          queueIndex := value.number;
        }
      }
      return Success(SpecState(vertexSource, fragmentSource, extraAttributes, queueIndex));
    }

    /** The first `glBindAttribLocation` loop of `reload_shader`: the built-in names. */
    method BindBuiltinLocations(gl: StateCache)
      modifies gl
      ensures gl.Snapshot() == old(gl.Snapshot()).(trace := old(gl.trace) + Locations(program, extraAttributes)[..NUM_ATTRIBUTES])
    {
      ghost var calls := Locations(program, extraAttributes)[..NUM_ATTRIBUTES];
      ghost var start := gl.Snapshot();
      for index := 0 to NUM_ATTRIBUTES
        invariant gl.Snapshot() == start.(trace := gl.trace)
        invariant gl.trace == start.trace + calls[..index]
      {
        gl.Issue(BindAttribLocation(program, index, ATTRIBUTE_NAMES[index]));
        assert calls[..index + 1] == calls[..index] + [calls[index]];
      }
      assert calls[..NUM_ATTRIBUTES] == calls;
    }

    /** The second `glBindAttribLocation` loop of `reload_shader`: the extra attributes, after the built-ins. */
    method BindExtraLocations(gl: StateCache)
      modifies gl
      ensures gl.Snapshot() == old(gl.Snapshot()).(trace := old(gl.trace) + Locations(program, extraAttributes)[NUM_ATTRIBUTES..])
    {
      ghost var calls := Locations(program, extraAttributes)[NUM_ATTRIBUTES..];
      ghost var start := gl.Snapshot();
      for index := 0 to |extraAttributes|
        invariant gl.Snapshot() == start.(trace := gl.trace)
        invariant gl.trace == start.trace + calls[..index]
      {
        gl.Issue(BindAttribLocation(program, NUM_ATTRIBUTES + index, extraAttributes[index].name));
        assert calls[..index + 1] == calls[..index] + [calls[index]];
      }
      assert calls[..|extraAttributes|] == calls;
    }

    /** The two `glBindAttribLocation` loops of `reload_shader`. */
    method BindLocations(gl: StateCache)
      modifies gl
      ensures gl.Snapshot() == old(gl.Snapshot()).(trace := old(gl.trace) + Locations(program, extraAttributes))
    {
      ghost var calls := Locations(program, extraAttributes);
      BindBuiltinLocations(gl);
      BindExtraLocations(gl);
      assert calls == calls[..NUM_ATTRIBUTES] + calls[NUM_ATTRIBUTES..];
    }

    /** `destroy_shader`. */
    method DestroyShader(gl: StateCache) returns (ghost order: seq<GLint>)
      modifies this, gl
      ensures gl.Snapshot() == DeleteProgramAsWritten(old(gl.Snapshot()), old(program), order)
      ensures program == UINT_MAX && extraAttributes == old(extraAttributes) && queueIndex == old(queueIndex)
      ensures uniformLocations == old(uniformLocations)
    {
      order := gl.DeleteProgramClearingFirst(program);
      program := UINT_MAX;
    }

    /** `use`. */
    method Use(gl: StateCache) returns (ghost order: seq<GLint>)
      modifies gl
      ensures gl.Snapshot() == UseProgramStep(old(gl.Snapshot()), program, order)
    {
      order := gl.UseProgram(program);
    }

    /**
     * `reload_shader`: the old program is deleted, the spec read, a new
     * program created (`created` is the name GL hands out), and when both
     * shaders compile the attribute locations are bound and the uniforms
     * looked up. Whether linking succeeds changes none of this.
     */
    method Reload(gl: StateCache, spec: seq<(string, SpecValue)>, unset: Layout, created: GLuint, vertexCompiles: bool, fragmentCompiles: bool,
                  locate: string -> GLint)
      returns (r: Result<SpecState, ShaderError>, ghost order: seq<GLint>)
      modifies this, gl
      ensures r == ReadSpec(SpecState("", "", old(extraAttributes), old(queueIndex)), spec, unset)
      ensures r.Success? ==> extraAttributes == r.value.extras && queueIndex == r.value.queueIndex && program == created
      ensures r.Failure? ==> program == UINT_MAX && gl.Snapshot() == Destroyed(old(gl.Snapshot()), old(program), order)
      ensures r.Success? && vertexCompiles && fragmentCompiles ==> forall n | n in UNIFORM_NAMES :: n in uniformLocations && uniformLocations[n] == locate(n)
      ensures !(r.Success? && vertexCompiles && fragmentCompiles) ==> uniformLocations == old(uniformLocations)
      ensures r.Success? ==> gl.Snapshot() == Created(Destroyed(old(gl.Snapshot()), old(program), order), created, vertexCompiles && fragmentCompiles, extraAttributes)
    {
      order := [];
      if program != UINT_MAX {
        order := DestroyShader(gl);
      }
      r := ApplySpec(spec, unset);
      if r.Failure? {
        return;
      }
      program := created;
      gl.Issue(CreateProgram(created));
      if !vertexCompiles || !fragmentCompiles {
        return;
      }
      BindLocations(gl);
      LocateUniforms(locate);
    }
  }
}
