/**
 * The material: a growing CPU-side vertex buffer that the meshes drawn
 * with it are copied into, and the one VBO and VAO it is drawn from.
 * GL calls go through the state cache; the names GL generates and the
 * floats a mesh instantiates are parameters.
 */
module Materials {
  import opened Wrappers
  import opened Floats
  import opened GlState
  import opened Shaders

  const SIZE_T_RANGE := 0x1_0000_0000_0000_0000
  const INT_RANGE := 0x1_0000_0000

  /** `nverts * attribute_stride() / sizeof(float)` in `size_t` arithmetic (the stride converted from `int`). */
  function MeshBufferSize(nverts: nat, stride: int): (r: nat)
    ensures r < SIZE_T_RANGE / FLOAT_SIZE
    ensures 0 <= stride && nverts * stride < SIZE_T_RANGE ==> r == nverts * stride / FLOAT_SIZE
  {
    var wide := (nverts % SIZE_T_RANGE) * (stride % SIZE_T_RANGE);
    assert 0 <= stride && nverts * stride < SIZE_T_RANGE ==> wide == nverts * stride by {
      if 0 <= stride && nverts * stride < SIZE_T_RANGE {
        NarrowProduct(nverts, stride);
      }
    }
      (wide % SIZE_T_RANGE) / FLOAT_SIZE
  }

  /** A product that fits in `size_t` is not changed by the conversions to `size_t`. */
  lemma NarrowProduct(nverts: nat, stride: int)
    requires 0 <= stride && nverts * stride < SIZE_T_RANGE
    ensures (nverts % SIZE_T_RANGE) * (stride % SIZE_T_RANGE) == nverts * stride
  {
    if stride != 0 && nverts != 0 {
      ProductCoversFactor(nverts, stride);
      ProductCoversFactor(stride, nverts);
      assert nverts % SIZE_T_RANGE == nverts && stride % SIZE_T_RANGE == stride;
    }
  }

  lemma ProductCoversFactor(a: nat, b: nat)
    requires a >= 1
    ensures a * b >= b
  {
    var c: nat := a - 1;
    assert a * b == c * b + b;
  }

  /** A mesh with vertices and a stride of at least the built-ins fills at least eight floats per vertex. */
  lemma MeshFillsBuffer(nverts: nat, stride: int)
    requires nverts > 0 && stride >= BUILTIN_WIDTH && nverts * stride < SIZE_T_RANGE
    ensures MeshBufferSize(nverts, stride) >= 8 * nverts > 0
  {
    assert nverts * stride >= nverts * BUILTIN_WIDTH;
  }

  /** `(int)` of a wider integer: the value modulo 2^32, read as two's complement. */
  function Int32Cast(n: int): (r: int)
    ensures -INT_RANGE / 2 <= r < INT_RANGE / 2
    ensures (r - n) % INT_RANGE == 0
    ensures -INT_RANGE / 2 <= n < INT_RANGE / 2 ==> r == n
  {
    var low := n % INT_RANGE;
    if low < INT_RANGE / 2 then low else low - INT_RANGE
  }

  /**
   * The buffer after a mesh is instantiated at `index`: grown to fit
   * (the zeros `resize` appends are all overwritten by the mesh), the
   * floats before `index` and after the mesh kept.
   */
  function Placed(buffer: seq<F32>, index: nat, data: seq<F32>): (r: seq<F32>)
    requires index <= |buffer|
    ensures |r| == if index + |data| > |buffer| then index + |data| else |buffer|
    ensures r[..index] == buffer[..index]
    ensures r[index..index + |data|] == data
    ensures index + |data| <= |buffer| ==> r[index + |data|..] == buffer[index + |data|..]
  {
    if index + |data| >= |buffer| then buffer[..index] + data
    else
      var r := buffer[..index] + data + buffer[index + |data|..];
      assert r[index..index + |data|] == data;
      r
  }

  // ---------------------------------------------------------------------
  // The GL effect of `submit_draw_calls`, one stage at a time

  /** `init_vbo`, only while the material has no buffer. */
  function VboGenerated(s: GlSnapshot, vbo: GLuint, newVbo: GLuint): GlSnapshot
  {
    if vbo == UINT_MAX then s.(trace := s.trace + [GenBuffer(newVbo)]) else s
  }

  /** `init_vao`, only while the material has no VAO: generate, bind with the buffer, set up the attributes. */
  function VaoGenerated(s: GlSnapshot, vao: GLuint, newVao: GLuint, vbo: GLuint, pointers: seq<VertexAttribPointer>): GlSnapshot
  {
    if vao == UINT_MAX then
      ApplyPointers(BindBufferStep(BindVaoStep(s.(trace := s.trace + [GenVertexArray(newVao)]), newVao), vbo), pointers)
    else s
  }

  /** `bind_texture`: unit 0 and the texture, then the sampler uniform if the shader has one; texture 0 without a texture. */
  function Textured(s: GlSnapshot, texture: Option<GLuint>, program: GLuint, sampler: Option<GLint>): GlSnapshot
  {
    match texture
    case None => BindTextureStep(s, 0)
    case Some(t) =>
      var bound := BindTextureStep(ActivateUnitStep(s, 0), t);
      if sampler.Some? then ProgramUniformStep(bound, program, sampler.value, Int1(0)) else bound
  }

  /** `upload_vbo_data`: the whole buffer when it outgrew the last upload, else into the existing one. */
  function Uploaded(s: GlSnapshot, data: seq<F32>, lastSize: nat): (r: GlSnapshot)
    ensures r.(trace := s.trace) == s && |r.trace| == |s.trace| + 1
    ensures r.trace[|s.trace|] == if |data| * FLOAT_SIZE > lastSize then BufferData(data) else BufferSubData(data)
  {
    s.(trace := s.trace + [if |data| * FLOAT_SIZE > lastSize then BufferData(data) else BufferSubData(data)])
  }

  /** `draw_triangles`: the draw call unless single-draw debugging picks another call. */
  function Drawn(s: GlSnapshot, count: nat, singleDraw: bool, drawCalls: nat, singleDrawIndex: int): GlSnapshot
  {
    if !singleDraw || drawCalls == singleDrawIndex then s.(trace := s.trace + [DrawArrays(Int32Cast(count))]) else s
  }

  /** With single-draw debugging, only the chosen call of a frame reaches GL. */
  lemma SingleDrawOnly(s: GlSnapshot, count: nat, drawCalls: nat, singleDrawIndex: int)
    ensures drawCalls != singleDrawIndex ==> Drawn(s, count, true, drawCalls, singleDrawIndex) == s
    ensures Drawn(s, count, false, drawCalls, singleDrawIndex).trace == s.trace + [DrawArrays(Int32Cast(count))]
    ensures count < INT_RANGE / 2 && singleDrawIndex >= 0 ==> Drawn(s, count, true, singleDrawIndex, singleDrawIndex).trace == s.trace + [DrawArrays(count)]
  {
  }

  /** The engine-wide draw counters and the single-draw debugging switch. */
  class Stats {
    var drawCalls: nat
    var triangleCount: nat
    var singleDrawEnabled: bool
    var singleDrawIndex: int
    var renderQueueSize: nat

    constructor(singleDrawEnabled: bool, singleDrawIndex: int)
      ensures this.drawCalls == 0 && this.triangleCount == 0 && this.renderQueueSize == 0
      ensures this.singleDrawEnabled == singleDrawEnabled && this.singleDrawIndex == singleDrawIndex
    {
      this.drawCalls := 0;
      this.triangleCount := 0;
      this.renderQueueSize := 0;
      this.singleDrawEnabled := singleDrawEnabled;
      this.singleDrawIndex := singleDrawIndex;
    }
  }

  class Material {
    var shader: Shader
    /** The GL name of the material's texture, if it has one. */
    var texture: Option<GLuint>
    var buffer: seq<F32>
    var vbo: GLuint
    var vao: GLuint
    var lastSize: nat
    var bufferIndex: nat
    var vertexCount: nat

    /** The meshes enqueued so far fit in the buffer. */
    predicate Valid()
      reads this
    {
      bufferIndex <= |buffer|
    }

    constructor(shader: Shader, texture: Option<GLuint>)
      ensures Valid() && !HasEnqueuedMeshes()
      ensures this.shader == shader && this.texture == texture && buffer == []
      ensures vbo == UINT_MAX && vao == UINT_MAX && lastSize == 0 && bufferIndex == 0 && vertexCount == 0
    {
      this.shader := shader;
      this.texture := texture;
      buffer := [];
      vbo, vao := UINT_MAX, UINT_MAX;
      lastSize, bufferIndex, vertexCount := 0, 0, 0;
    }

    /** `has_enqueued_meshes`. */
    predicate HasEnqueuedMeshes()
      reads this
    {
      bufferIndex != 0
    }

    /** `clear_vertex_buffer`: the buffer is reused from the start; its contents and the GL objects stay. */
    method ClearVertexBuffer()
      modifies this
      ensures Valid() && !HasEnqueuedMeshes() && vertexCount == 0
      ensures buffer == old(buffer) && lastSize == old(lastSize) && vbo == old(vbo) && vao == old(vao)
      ensures shader == old(shader) && texture == old(texture)
    {
      bufferIndex := 0;
      vertexCount := 0;
    }

    /**
     * `enqueue_mesh`: the floats the mesh instantiates for this shader's
     * layout go after those already enqueued. `instance` stands for
     * what `Mesh::instantiate` writes.
     */
    method EnqueueMesh(nverts: nat, instance: seq<F32>)
      requires Valid() && nverts > 0
      requires |instance| == MeshBufferSize(nverts, shader.AttributeStride())
      modifies this
      ensures Valid()
      ensures buffer == Placed(old(buffer), old(bufferIndex), instance)
      ensures bufferIndex == old(bufferIndex) + |instance| && vertexCount == old(vertexCount) + nverts
      ensures |buffer| >= |old(buffer)| && buffer[old(bufferIndex)..bufferIndex] == instance
      ensures HasEnqueuedMeshes() <==> old(HasEnqueuedMeshes()) || |instance| > 0
      ensures lastSize == old(lastSize) && vbo == old(vbo) && vao == old(vao) && shader == old(shader) && texture == old(texture)
    {
      var size := |instance|;
      var grown := buffer;
      if bufferIndex + size > |buffer| {
        grown := buffer + seq(bufferIndex + size - |buffer|, _ => ZERO);
      }
      assert grown[..bufferIndex] == buffer[..bufferIndex];
      assert bufferIndex + size >= |buffer| ==> grown[bufferIndex + size..] == [];
      buffer := grown[..bufferIndex] + instance + grown[bufferIndex + size..];
      assert buffer[bufferIndex..bufferIndex + size] == instance;
      bufferIndex := bufferIndex + size;
      vertexCount := vertexCount + nverts;
    }

    /** `upload_vbo_data`: the enqueued floats go to the bound buffer; `lastSize` is the largest upload so far. */
    method UploadVboData(gl: StateCache)
      requires Valid()
      modifies this, gl
      ensures Valid()
      ensures gl.Snapshot() == Uploaded(old(gl.Snapshot()), buffer[..bufferIndex], old(lastSize))
      ensures lastSize == if bufferIndex * FLOAT_SIZE > old(lastSize) then bufferIndex * FLOAT_SIZE else old(lastSize)
      ensures old(lastSize) <= lastSize
      ensures buffer == old(buffer) && bufferIndex == old(bufferIndex) && vertexCount == old(vertexCount)
      ensures vbo == old(vbo) && vao == old(vao) && shader == old(shader) && texture == old(texture)
    {
      var newSize := bufferIndex * FLOAT_SIZE;
      if newSize > lastSize {
        gl.Issue(BufferData(buffer[..bufferIndex]));
        lastSize := newSize;
      } else {
        gl.Issue(BufferSubData(buffer[..bufferIndex]));
      }
    }

    /** `draw_triangles`: every call is counted, with a third of its vertices as triangles. */
    method DrawTriangles(gl: StateCache, stats: Stats)
      modifies gl, stats
      ensures gl.Snapshot() == Drawn(old(gl.Snapshot()), vertexCount, stats.singleDrawEnabled, old(stats.drawCalls), stats.singleDrawIndex)
      ensures stats.drawCalls == old(stats.drawCalls) + 1 && stats.triangleCount == old(stats.triangleCount) + vertexCount / 3
      ensures stats.singleDrawEnabled == old(stats.singleDrawEnabled) && stats.singleDrawIndex == old(stats.singleDrawIndex)
      ensures stats.renderQueueSize == old(stats.renderQueueSize)
    {
      if !stats.singleDrawEnabled || stats.drawCalls == stats.singleDrawIndex {
        gl.Issue(DrawArrays(Int32Cast(vertexCount)));
      }
      stats.drawCalls := stats.drawCalls + 1;
      stats.triangleCount := stats.triangleCount + vertexCount / 3;
    }

    /** `bind_texture`; `found` is false when the sampler lookup throws. */
    method BindTexture(gl: StateCache) returns (found: bool)
      modifies gl
      ensures found <==> texture.None? || TEXTURE_SAMPLER in shader.uniformLocations
      ensures gl.Snapshot() == Textured(old(gl.Snapshot()), texture, shader.program,
                                        if TEXTURE_SAMPLER in shader.uniformLocations then Some(shader.uniformLocations[TEXTURE_SAMPLER]) else None)
    {
      if texture.Some? {
        gl.ActivateTextureUnit(0);
        gl.BindTexture(texture.value);
        found := shader.SetNamedUniform(gl, TEXTURE_SAMPLER, Int1(0));
      } else {
        gl.BindTexture(0);
        found := true;
      }
    }

    /** `init_vbo` and `init_vao` as far as they run: each only while its name is still UINT_MAX. */
    method Prepare(gl: StateCache, newVbo: GLuint, newVao: GLuint) returns (ghost pointers: seq<VertexAttribPointer>)
      requires |shader.extraAttributes| < 0x1_0000_0000 - NUM_ATTRIBUTES
      modifies this, gl
      ensures vbo == if old(vbo) == UINT_MAX then newVbo else old(vbo)
      ensures vao == if old(vao) == UINT_MAX then newVao else old(vao)
      ensures old(vao) == UINT_MAX ==> AttributePointers(shader.extraAttributes, pointers)
      ensures gl.Snapshot() == VaoGenerated(VboGenerated(old(gl.Snapshot()), old(vbo), newVbo), old(vao), newVao, vbo, pointers)
      ensures buffer == old(buffer) && bufferIndex == old(bufferIndex) && vertexCount == old(vertexCount) && lastSize == old(lastSize)
      ensures shader == old(shader) && texture == old(texture)
    {
      if vbo == UINT_MAX {
        gl.Issue(GenBuffer(newVbo));
        vbo := newVbo;
      }
      pointers := [];
      if vao == UINT_MAX {
        gl.Issue(GenVertexArray(newVao));
        vao := newVao;
        gl.BindVertexArrayObject(vao);
        gl.BindArrayBuffer(vbo);
        pointers := shader.InitializeAttributeArrays(gl);
      }
    }

    /**
     * `submit_draw_calls`: nothing when no mesh is enqueued; otherwise
     * the VBO and VAO are created if they do not exist yet, bound, the
     * texture bound, the buffer uploaded and drawn. `completed` is false
     * when the sampler lookup throws, which ends the call after the
     * texture is bound.
     */
    method SubmitDrawCalls(gl: StateCache, stats: Stats, newVbo: GLuint, newVao: GLuint)
      returns (completed: bool, ghost pointers: seq<VertexAttribPointer>)
      requires Valid()
      requires |shader.extraAttributes| < 0x1_0000_0000 - NUM_ATTRIBUTES
      modifies this, gl, stats
      ensures Valid()
      ensures !old(HasEnqueuedMeshes()) ==>
        completed && gl.Snapshot() == old(gl.Snapshot()) && vbo == old(vbo) && vao == old(vao) && lastSize == old(lastSize)
        && stats.drawCalls == old(stats.drawCalls) && stats.triangleCount == old(stats.triangleCount)
      ensures old(HasEnqueuedMeshes()) ==>
        && vbo == (if old(vbo) == UINT_MAX then newVbo else old(vbo))
        && vao == (if old(vao) == UINT_MAX then newVao else old(vao))
        && (old(vao) == UINT_MAX ==> AttributePointers(shader.extraAttributes, pointers))
        && (completed <==> texture.None? || TEXTURE_SAMPLER in shader.uniformLocations)
      ensures old(HasEnqueuedMeshes()) ==>
        var prepared := VaoGenerated(VboGenerated(old(gl.Snapshot()), old(vbo), newVbo), old(vao), newVao, vbo, pointers);
        var textured := Textured(BindBufferStep(BindVaoStep(prepared, vao), vbo), texture, shader.program,
                                 if TEXTURE_SAMPLER in shader.uniformLocations then Some(shader.uniformLocations[TEXTURE_SAMPLER]) else None);
        if completed then
          && gl.Snapshot() == Drawn(Uploaded(textured, buffer[..bufferIndex], old(lastSize)), vertexCount,
                                    stats.singleDrawEnabled, old(stats.drawCalls), stats.singleDrawIndex)
          && lastSize == (if bufferIndex * FLOAT_SIZE > old(lastSize) then bufferIndex * FLOAT_SIZE else old(lastSize))
          && stats.drawCalls == old(stats.drawCalls) + 1 && stats.triangleCount == old(stats.triangleCount) + vertexCount / 3
        else
          gl.Snapshot() == textured && lastSize == old(lastSize)
          && stats.drawCalls == old(stats.drawCalls) && stats.triangleCount == old(stats.triangleCount)
      ensures stats.singleDrawEnabled == old(stats.singleDrawEnabled) && stats.singleDrawIndex == old(stats.singleDrawIndex)
      ensures stats.renderQueueSize == old(stats.renderQueueSize)
      ensures buffer == old(buffer) && bufferIndex == old(bufferIndex) && vertexCount == old(vertexCount)
      ensures shader == old(shader) && texture == old(texture)
    {
      pointers := [];
      if bufferIndex == 0 {
        return true, pointers;
      }
      pointers := Prepare(gl, newVbo, newVao);
      gl.BindVertexArrayObject(vao);
      gl.BindArrayBuffer(vbo);
      completed := BindTexture(gl);
      if !completed {
        return;
      }
      UploadVboData(gl);
      DrawTriangles(gl, stats);
    }
  }

  /** After one submission the material owns its GL objects, so a second one generates none. */
  lemma GeneratedOnce(s: GlSnapshot, vbo: GLuint, vao: GLuint, newVbo: GLuint, newVao: GLuint, pointers: seq<VertexAttribPointer>)
    requires vbo != UINT_MAX && vao != UINT_MAX
    ensures VaoGenerated(VboGenerated(s, vbo, newVbo), vao, newVao, vbo, pointers) == s
  {
  }

  /** The buffer is reused: clearing and enqueueing the same mesh again leaves it as it was. */
  lemma RefillKeepsBuffer(buffer: seq<F32>, data: seq<F32>)
    requires |data| <= |buffer| && buffer[..|data|] == data
    ensures Placed(buffer, 0, data) == buffer
  {
    assert buffer == buffer[..|data|] + buffer[|data|..];
  }

  /** Meshes enqueued one after another sit next to each other in the buffer. */
  lemma PlacedInOrder(buffer: seq<F32>, index: nat, first: seq<F32>, second: seq<F32>)
    requires index <= |buffer|
    ensures var once := Placed(buffer, index, first);
      index + |first| <= |once| &&
      Placed(once, index + |first|, second)[index..index + |first| + |second|] == first + second
  {
    var once := Placed(buffer, index, first);
    var twice := Placed(once, index + |first|, second);
    assert twice[..index + |first|] == once[..index + |first|];
    assert twice[index..index + |first|] == once[index..index + |first|] == first;
    assert twice[index..index + |first| + |second|] == twice[index..index + |first|] + twice[index + |first|..index + |first| + |second|];
  }
}
