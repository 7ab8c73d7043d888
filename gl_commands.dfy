/**
 * The OpenGL calls that the mesh-shader renderer issues while it walks its
 * draw list, as values, and the slice of GL context state that those calls
 * change: the current program, the uniform values of each program, the
 * ranges bound to the indexed uniform/storage buffer slots, and the
 * unified-memory address ranges of the uniform slots.
 */
module GlCommands {

  const TWO_32: int := 0x1_0000_0000

  /** A C `uint32_t` / `GLuint`. */
  type uint32 = x: int | 0 <= x < 0x1_0000_0000

  /** Unsigned 32-bit wrap-around: what a C expression of type `uint32_t` (or a cast to it) yields. */
  function Wrap32(x: int): (r: uint32)
    ensures 0 <= x < TWO_32 ==> r == x
    ensures (x - r) % TWO_32 == 0
  {
    x % TWO_32
  }

  datatype Option<T> = None | Some(value: T)

  /** The four components of a `glUniform4ui` call. */
  datatype Vec4 = Vec4(x: uint32, y: uint32, z: uint32, w: uint32)

  /** `draw_object_mesh` and `draw_object_mesh_task`. */
  datatype Program = MeshProgram | MeshTaskProgram

  /** Indexed binding points: SSBO_SCENE_STATS, UBO_SCENE_VIEW, UBO_OBJECT, UBO_GEOMETRY. */
  datatype Slot = SsboSceneStats | UboSceneView | UboObject | UboGeometry

  /** The buffers the traversal binds sub-ranges of: `geometryBindings` and `matrices`. */
  datatype Buffer = GeometryBindings | Matrices

  /** A byte range of a buffer; in the unified-memory mode the address is the buffer's device address plus `offset`. */
  datatype Range = Range(buffer: Buffer, offset: nat, size: nat)

  datatype Command =
    | UseProgram(program: Program)                                      // glUseProgram
    | BindBufferRange(slot: Slot, buffer: Buffer, offset: nat, size: nat)  // glBindBufferRange(GL_UNIFORM_BUFFER, ...)
    | BufferAddressRange(slot: Slot, buffer: Buffer, offset: nat, size: nat) // glBufferAddressRangeNV(GL_UNIFORM_BUFFER_ADDRESS_NV, ...)
    | Uniform4ui(location: nat, value: Vec4)                            // glUniform4ui
    | DrawMeshTasks(first: uint32, count: uint32)                       // glDrawMeshTasksNV
    | UnbindBufferBase(slot: Slot)                                      // glBindBufferBase(..., slot, 0)

  /**
   * The GL state the traversal touches. Uniform values belong to a program
   * object: `glUniform4ui` writes into the program that is current. `bound`
   * holds the buffer bindings of the indexed slots (`glBindBufferRange`,
   * `glBindBufferBase`); `addressed` holds the unified-memory address ranges
   * of the uniform slots (`glBufferAddressRangeNV`), a table of its own that
   * `glBindBufferBase` does not touch.
   */
  datatype GlState = GlState(program: Option<Program>, uniforms: map<(Program, nat), Vec4>,
                             bound: map<Slot, Range>, addressed: map<Slot, Range>)

  /**
   * The table the shaders read the uniform slots from: the address ranges
   * while unified uniform-buffer access is enabled, the bindings otherwise.
   */
  function Slots(s: GlState, unified: bool): map<Slot, Range>
  {
    if unified then s.addressed else s.bound
  }

  /** `s` with `slot` set to `r` in the table that `unified` selects, and nothing else changed. */
  function SetSlot(s: GlState, unified: bool, slot: Slot, r: Range): (t: GlState)
    ensures Slots(t, unified) == Slots(s, unified)[slot := r]
    ensures Slots(t, !unified) == Slots(s, !unified)
    ensures t.program == s.program && t.uniforms == s.uniforms
  {
    if unified then s.(addressed := s.addressed[slot := r]) else s.(bound := s.bound[slot := r])
  }

  /** `s` with its bindings and its address ranges exchanged. */
  function Mirror(s: GlState): GlState
  {
    s.(bound := s.addressed, addressed := s.bound)
  }

  function Apply(s: GlState, c: Command): GlState
  {
    match c
    case UseProgram(p) => s.(program := Some(p))
    case BindBufferRange(slot, b, off, size) => s.(bound := s.bound[slot := Range(b, off, size)])
    case BufferAddressRange(slot, b, off, size) => s.(addressed := s.addressed[slot := Range(b, off, size)])
    case Uniform4ui(loc, v) =>
      if s.program.Some? then s.(uniforms := s.uniforms[(s.program.value, loc) := v]) else s
    case DrawMeshTasks(_, _) => s
    case UnbindBufferBase(slot) => s.(bound := s.bound - {slot})
  }

  /** The state after executing `cmds` in order from `s`. */
  function Run(s: GlState, cmds: seq<Command>): GlState
    decreases |cmds|
  {
    if |cmds| == 0 then s else Apply(Run(s, cmds[..|cmds| - 1]), cmds[|cmds| - 1])
  }

  /** Executing a concatenation is executing its parts one after the other. */
  lemma {:induction false} RunAppend(s: GlState, a: seq<Command>, b: seq<Command>)
    ensures Run(s, a + b) == Run(Run(s, a), b)
    decreases |b|
  {
    if |b| == 0 {
      assert a + b == a;
    } else {
      assert (a + b)[..|a + b| - 1] == a + b[..|b| - 1];
      RunAppend(s, a, b[..|b| - 1]);
    }
  }

  /** The command sequences of `parts`, one after the other. */
  function Concat(parts: seq<seq<Command>>): seq<Command>
    decreases |parts|
  {
    if |parts| == 0 then [] else Concat(parts[..|parts| - 1]) + parts[|parts| - 1]
  }

  /**
   * The unified-memory spelling of a bind: the same slot, buffer, offset and
   * size, set in the address table. Applied to the mirrored state it does what
   * the bind does, so it leaves in the address ranges what the bind leaves in
   * the bindings; every other command except an unbind is left as it is.
   */
  function ToAddressRange(c: Command): (r: Command)
    ensures KindOf(r) == KindOf(c)
    ensures !c.BufferAddressRange? && !c.UnbindBufferBase? ==> forall s :: Apply(Mirror(s), r) == Mirror(Apply(s, c))
  {
    if c.BindBufferRange? then BufferAddressRange(c.slot, c.buffer, c.offset, c.size) else c
  }

  function MapToAddressRange(cmds: seq<Command>): (r: seq<Command>)
    ensures |r| == |cmds|
    decreases |cmds|
  {
    if |cmds| == 0 then [] else MapToAddressRange(cmds[..|cmds| - 1]) + [ToAddressRange(cmds[|cmds| - 1])]
  }

  lemma {:induction false} MapToAddressRangeAppend(a: seq<Command>, b: seq<Command>)
    ensures MapToAddressRange(a + b) == MapToAddressRange(a) + MapToAddressRange(b)
    decreases |b|
  {
    if |b| == 0 {
      assert a + b == a;
    } else {
      assert (a + b)[..|a + b| - 1] == a + b[..|b| - 1];
      MapToAddressRangeAppend(a, b[..|b| - 1]);
    }
  }

  /** What a command is, for counting. */
  datatype Kind = SelectProgram | BindGeometrySlot | PushGeometry | BindObjectSlot | PushTask | Draw | Unbind | OtherKind

  function KindOf(c: Command): Kind
  {
    match c
    case UseProgram(_) => SelectProgram
    case BindBufferRange(slot, _, _, _) =>
      if slot == UboGeometry then BindGeometrySlot else if slot == UboObject then BindObjectSlot else OtherKind
    case BufferAddressRange(slot, _, _, _) =>
      if slot == UboGeometry then BindGeometrySlot else if slot == UboObject then BindObjectSlot else OtherKind
    case Uniform4ui(loc, _) => if loc == 0 then PushGeometry else if loc == 1 then PushTask else OtherKind
    case DrawMeshTasks(_, _) => Draw
    case UnbindBufferBase(_) => Unbind
  }

  /** Number of commands of kind `k` in `cmds`. */
  function Count(cmds: seq<Command>, k: Kind): (n: nat)
    ensures n <= |cmds|
    decreases |cmds|
  {
    if |cmds| == 0 then 0 else Count(cmds[..|cmds| - 1], k) + (if KindOf(cmds[|cmds| - 1]) == k then 1 else 0)
  }

  lemma {:induction false} CountAppend(a: seq<Command>, b: seq<Command>, k: Kind)
    ensures Count(a + b, k) == Count(a, k) + Count(b, k)
    decreases |b|
  {
    if |b| == 0 {
      assert a + b == a;
    } else {
      assert (a + b)[..|a + b| - 1] == a + b[..|b| - 1];
      CountAppend(a, b[..|b| - 1], k);
    }
  }

  /** The draw calls of `cmds`, in order. */
  function Draws(cmds: seq<Command>): (r: seq<Command>)
    ensures |r| == Count(cmds, Draw)
    ensures forall j :: 0 <= j < |r| ==> r[j].DrawMeshTasks?
    decreases |cmds|
  {
    if |cmds| == 0 then []
    else Draws(cmds[..|cmds| - 1]) + (if cmds[|cmds| - 1].DrawMeshTasks? then [cmds[|cmds| - 1]] else [])
  }

  lemma {:induction false} DrawsAppend(a: seq<Command>, b: seq<Command>)
    ensures Draws(a + b) == Draws(a) + Draws(b)
    decreases |b|
  {
    if |b| == 0 {
      assert a + b == a;
    } else {
      assert (a + b)[..|a + b| - 1] == a + b[..|b| - 1];
      DrawsAppend(a, b[..|b| - 1]);
    }
  }
}
