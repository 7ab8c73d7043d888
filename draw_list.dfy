/**
 * The render list the mesh-shader renderer walks once per frame, the
 * geometry records it looks items up in, the values it computes for each
 * item, and a reference statement of the command trace: item by item, what
 * is emitted when the item is compared with the one before it.
 */
module DrawList {
  import opened GlCommands

  /** One entry of `RenderList::m_drawItems`. */
  datatype DrawItem = DrawItem(
    geometryIndex: nat,
    matrixIndex: nat,
    task: bool,           // draw through the task-shader program
    shorts: bool,         // 16-bit (rather than 32-bit) vertex indices
    meshletOffset: uint32,
    meshletCount: uint32)

  /** The parts of `CadSceneGL::Geometry` the traversal reads: the chunk and the byte offsets of its buffers. */
  datatype Geometry = Geometry(
    chunkIndex: nat,
    vboOffset: nat,
    aboOffset: nat,
    topoMeshletOffset: nat,
    topoPrimOffset: nat,
    topoVertOffset: nat)

  /**
   * Sizes fixed for the frame: the scene's vertex and attribute strides,
   * `sizeof(NVMeshlet::MeshletDesc)`, `sizeof(CadSceneGL::GeometryUbo)`,
   * `sizeof(CadScene::MatrixNode)` and the aligned matrix stride.
   */
  datatype Sizes = Sizes(
    vertexSize: nat,
    vertexAttributeSize: nat,
    meshletDescSize: nat,
    geometryUboSize: nat,
    matrixNodeSize: nat,
    alignedMatrixSize: nat)

  /** The sizes the traversal divides by are non-zero. */
  predicate ValidSizes(sizes: Sizes)
  {
    sizes.vertexSize > 0 && sizes.vertexAttributeSize > 0 && sizes.meshletDescSize > 0
  }

  /** Every item's geometry index lies inside the geometry table (the lookup is not checked). */
  predicate WellIndexed(items: seq<DrawItem>, geometry: seq<Geometry>)
  {
    forall k :: 0 <= k < |items| ==> items[k].geometryIndex < |geometry|
  }

  /** The allocator's promise that the vertex and the attribute buffer of a geometry start at the same vertex. */
  predicate ConsistentVertexOffsets(g: Geometry, sizes: Sizes)
    requires ValidSizes(sizes)
  {
    Wrap32(g.vboOffset / sizes.vertexSize) == Wrap32(g.aboOffset / sizes.vertexAttributeSize)
  }

  function ProgramFor(task: bool): Program
  {
    if task then MeshTaskProgram else MeshProgram
  }

  /**
   * The values pushed to uniform location 0 for a geometry: first meshlet
   * descriptor, primitive offset, first index (in units of the index width)
   * and first vertex, each cast to 32 bits.
   */
  function GeometryUniform(g: Geometry, shorts: bool, sizes: Sizes): (r: Vec4)
    requires ValidSizes(sizes)
    ensures ConsistentVertexOffsets(g, sizes) ==> r.w == Wrap32(g.aboOffset / sizes.vertexAttributeSize)
    ensures g.topoVertOffset < TWO_32 ==> r.z * (if shorts then 2 else 4) <= g.topoVertOffset
  {
    Vec4(Wrap32(g.topoMeshletOffset / sizes.meshletDescSize),
         Wrap32(g.topoPrimOffset),
         Wrap32(g.topoVertOffset / (if shorts then 2 else 4)),
         Wrap32(g.vboOffset / sizes.vertexSize))
  }

  /** The (chunk, index width) pair a geometry slot is selected by; chunk -1 is the "nothing bound yet" marker. */
  datatype Binding = Binding(chunk: int, shorts: bool)

  const Unbound := Binding(-1, false)

  /**
   * The geometry slot of pair (chunk, width): element `chunk * 2 + (shorts ? 1 : 0)`
   * of the geometry-bindings buffer, one `GeometryUbo` wide, so that each
   * chunk has one slot per index width.
   */
  function GeometrySlotRange(b: Binding, sizes: Sizes): (r: Range)
    requires b.chunk >= 0
    ensures r.buffer == GeometryBindings && r.size == sizes.geometryUboSize
    ensures r.offset == sizes.geometryUboSize * (b.chunk * 2 + if b.shorts then 1 else 0)
  {
    ByteOffsetIsProduct(sizes.geometryUboSize, b.chunk * 2 + if b.shorts then 1 else 0);
    Range(GeometryBindings, ByteOffset(sizes.geometryUboSize, b.chunk * 2 + (if b.shorts then 1 else 0)), sizes.geometryUboSize)
  }

  /**
   * Byte offset of element `index` in an array of `stride`-byte elements,
   * written as repeated addition so that proofs about the traversal stay in
   * linear arithmetic; ByteOffsetIsProduct shows it is `stride * index`.
   */
  function ByteOffset(stride: nat, index: nat): nat
  {
    if index == 0 then 0 else ByteOffset(stride, index - 1) + stride
  }

  lemma {:induction false} ByteOffsetIsProduct(stride: nat, index: nat)
    ensures ByteOffset(stride, index) == stride * index
  {
    if index > 0 {
      ByteOffsetIsProduct(stride, index - 1);
      assert stride * index == stride * (index - 1) + stride;
    }
  }

  lemma {:induction false} ByteOffsetStrictlyMonotone(stride: nat, a: nat, b: nat)
    requires stride > 0 && a < b
    ensures ByteOffset(stride, a) < ByteOffset(stride, b)
    decreases b - a
  {
    if a + 1 < b {
      ByteOffsetStrictlyMonotone(stride, a + 1, b);
    }
  }

  /** Distinct (chunk, width) pairs select distinct slots, so each pair owns its own uniform block. */
  lemma SlotRangesDistinct(b1: Binding, b2: Binding, sizes: Sizes)
    requires b1.chunk >= 0 && b2.chunk >= 0 && b1 != b2 && sizes.geometryUboSize > 0
    ensures GeometrySlotRange(b1, sizes) != GeometrySlotRange(b2, sizes)
  {
    var i1: nat := b1.chunk * 2 + (if b1.shorts then 1 else 0);
    var i2: nat := b2.chunk * 2 + (if b2.shorts then 1 else 0);
    if i1 < i2 {
      ByteOffsetStrictlyMonotone(sizes.geometryUboSize, i1, i2);
    } else if i2 < i1 {
      ByteOffsetStrictlyMonotone(sizes.geometryUboSize, i2, i1);
    }
  }

  /** The object bind of matrix `m`: one `MatrixNode` at byte offset `alignedMatrixSize * m` of the matrices buffer. */
  function MatrixRange(matrixIndex: nat, sizes: Sizes): (r: Range)
    ensures r.buffer == Matrices && r.size == sizes.matrixNodeSize
    ensures r.offset == sizes.alignedMatrixSize * matrixIndex
  {
    ByteOffsetIsProduct(sizes.alignedMatrixSize, matrixIndex);
    Range(Matrices, ByteOffset(sizes.alignedMatrixSize, matrixIndex), sizes.matrixNodeSize)
  }

  /** A bind of `slot` to a buffer range, spelled as the selected binding mode spells it. */
  function BindCall(bindless: bool, slot: Slot, r: Range): (c: Command)
    ensures forall s :: Apply(s, c) == SetSlot(s, bindless, slot, r)
    ensures bindless ==> c.BufferAddressRange?
    ensures !bindless ==> c.BindBufferRange?
  {
    if bindless then BufferAddressRange(slot, r.buffer, r.offset, r.size)
    else BindBufferRange(slot, r.buffer, r.offset, r.size)
  }

  /**
   * Number of 32-meshlet task work groups: `(count + 31) / 32` in 32-bit
   * unsigned arithmetic, which is the rounded-up quotient unless `count + 31`
   * wraps.
   */
  function TaskGroupCount(count: uint32): (r: uint32)
    ensures count + 31 < TWO_32 ==> r * 32 >= count && (r - 1) * 32 < count
    ensures count + 31 >= TWO_32 ==> r == (count + 31 - TWO_32) / 32
  {
    Wrap32(count + 31) / 32
  }

  /** The task payload: first meshlet and last meshlet (inclusive), in 32-bit unsigned arithmetic. */
  function TaskPayload(item: DrawItem): (r: Vec4)
    ensures r.x == item.meshletOffset && r.z == 0 && r.w == 0
    ensures item.meshletCount >= 1 && item.meshletOffset + item.meshletCount <= TWO_32 ==>
      r.y - r.x + 1 == item.meshletCount
  {
    Vec4(item.meshletOffset, Wrap32(item.meshletOffset + item.meshletCount - 1), 0, 0)
  }

  /**
   * The draw: a task item launches its 32-meshlet task groups from 0 (the
   * payload carries the meshlet range), enough of them to cover its meshlets
   * when `count + 31` does not wrap; any other item draws its meshlet range
   * directly.
   */
  function DrawCall(item: DrawItem): (c: Command)
    ensures c.DrawMeshTasks?
    ensures !item.task ==> c.first == item.meshletOffset && c.count == item.meshletCount
    ensures item.task ==> c.first == 0
    ensures item.task && item.meshletCount + 31 < TWO_32 ==> (c.count - 1) * 32 < item.meshletCount <= c.count * 32
  {
    if item.task then DrawMeshTasks(0, TaskGroupCount(item.meshletCount))
    else DrawMeshTasks(item.meshletOffset, item.meshletCount)
  }

  /** The state categories whose identity is compared with the previous item's. */
  datatype Category = ProgramCategory | GeometryCategory | MatrixCategory

  function Identity(item: DrawItem, cat: Category): int
  {
    match cat
    case ProgramCategory => if item.task then 1 else 0
    case GeometryCategory => item.geometryIndex
    case MatrixCategory => item.matrixIndex
  }

  /** Item `i` changes category `cat`: it is the first item, or its identity differs from item `i - 1`'s. */
  predicate Changes(items: seq<DrawItem>, i: nat, cat: Category)
    requires i < |items|
  {
    i == 0 || Identity(items[i], cat) != Identity(items[i - 1], cat)
  }

  /** The number of items among the first `n` that change `cat`. */
  function ChangeCount(items: seq<DrawItem>, n: nat, cat: Category): (c: nat)
    requires n <= |items|
    ensures c <= n
    ensures n > 0 ==> c >= 1
  {
    if n == 0 then 0 else ChangeCount(items, n - 1, cat) + (if Changes(items, n - 1, cat) then 1 else 0)
  }

  /** A run of items that all share the first item's identity in `cat` changes `cat` once, at its first item. */
  lemma {:induction false} ChangeCountRepeated(items: seq<DrawItem>, n: nat, cat: Category)
    requires 0 < n <= |items|
    requires forall k :: 0 <= k < |items| ==> Identity(items[k], cat) == Identity(items[0], cat)
    ensures ChangeCount(items, n, cat) == 1
  {
    if n > 1 {
      ChangeCountRepeated(items, n - 1, cat);
      assert Identity(items[n - 1], cat) == Identity(items[n - 2], cat);
    }
  }

  function PairOf(items: seq<DrawItem>, geometry: seq<Geometry>, i: nat): (b: Binding)
    requires WellIndexed(items, geometry) && i < |items|
    ensures b.chunk >= 0
  {
    Binding(geometry[items[i].geometryIndex].chunkIndex, items[i].shorts)
  }

  /**
   * The (chunk, width) pair bound to the geometry slot before item `i`: the
   * pair of the latest earlier item that changed geometry, or the marker
   * when no item came before.
   */
  function LastBoundPair(items: seq<DrawItem>, geometry: seq<Geometry>, i: nat): (b: Binding)
    requires WellIndexed(items, geometry) && i <= |items|
    ensures i == 0 <==> b == Unbound
    ensures i > 0 ==> b.chunk >= 0
  {
    if i == 0 then Unbound
    else if Changes(items, i - 1, GeometryCategory) then PairOf(items, geometry, i - 1)
    else LastBoundPair(items, geometry, i - 1)
  }

  /** The program selection issued for item `i`: only when the task flag changes (or for the first item). */
  function ProgramPart(items: seq<DrawItem>, i: nat): (r: seq<Command>)
    requires i < |items|
    ensures |r| <= 1
    ensures |r| == 1 <==> Changes(items, i, ProgramCategory)
    ensures |r| == 1 ==> r[0].UseProgram? && (r[0].program == MeshTaskProgram <==> items[i].task)
  {
    if Changes(items, i, ProgramCategory) then [UseProgram(ProgramFor(items[i].task))] else []
  }

  /**
   * The geometry commands issued for item `i`: only when the geometry index
   * changes, a slot bind when the (chunk, width) pair differs from the one
   * bound, then the geometry uniform.
   */
  function GeometryPart(items: seq<DrawItem>, geometry: seq<Geometry>, sizes: Sizes, bindless: bool, i: nat): (r: seq<Command>)
    requires ValidSizes(sizes) && WellIndexed(items, geometry) && i < |items|
    ensures !Changes(items, i, GeometryCategory) ==> r == []
    ensures Changes(items, i, GeometryCategory) ==>
      |r| == (if PairOf(items, geometry, i) != LastBoundPair(items, geometry, i) then 2 else 1)
      && r[|r| - 1] == Uniform4ui(0, GeometryUniform(geometry[items[i].geometryIndex], items[i].shorts, sizes))
    ensures |r| == 2 ==> forall s :: Apply(s, r[0]) == SetSlot(s, bindless, UboGeometry, GeometrySlotRange(PairOf(items, geometry, i), sizes))
  {
    if Changes(items, i, GeometryCategory) then
      var pair := PairOf(items, geometry, i);
      (if pair != LastBoundPair(items, geometry, i) then [BindCall(bindless, UboGeometry, GeometrySlotRange(pair, sizes))] else [])
      + [Uniform4ui(0, GeometryUniform(geometry[items[i].geometryIndex], items[i].shorts, sizes))]
    else []
  }

  /** The object (matrix) bind issued for item `i`: only when the matrix index changes. */
  function MatrixPart(items: seq<DrawItem>, sizes: Sizes, bindless: bool, i: nat): (r: seq<Command>)
    requires i < |items|
    ensures |r| <= 1
    ensures |r| == 1 <==> Changes(items, i, MatrixCategory)
    ensures |r| == 1 ==> forall s :: Apply(s, r[0]) == SetSlot(s, bindless, UboObject, MatrixRange(items[i].matrixIndex, sizes))
  {
    if Changes(items, i, MatrixCategory) then [BindCall(bindless, UboObject, MatrixRange(items[i].matrixIndex, sizes))] else []
  }

  /** The task payload issued for item `i`: for every task item. */
  function TaskPart(item: DrawItem): (r: seq<Command>)
    ensures |r| == (if item.task then 1 else 0)
    ensures |r| == 1 ==> r[0].Uniform4ui? && r[0].location == 1 && r[0].value == TaskPayload(item)
  {
    if item.task then [Uniform4ui(1, TaskPayload(item))] else []
  }

  /** The commands issued for item `i` before its draw. */
  function Prepare(items: seq<DrawItem>, geometry: seq<Geometry>, sizes: Sizes, bindless: bool, i: nat): seq<Command>
    requires ValidSizes(sizes) && WellIndexed(items, geometry) && i < |items|
  {
    ProgramPart(items, i) + GeometryPart(items, geometry, sizes, bindless, i)
    + MatrixPart(items, sizes, bindless, i) + TaskPart(items[i])
  }

  /** All commands issued for item `i`: its preparation, then its one draw. */
  function Segment(items: seq<DrawItem>, geometry: seq<Geometry>, sizes: Sizes, bindless: bool, i: nat): seq<Command>
    requires ValidSizes(sizes) && WellIndexed(items, geometry) && i < |items|
  {
    Prepare(items, geometry, sizes, bindless, i) + [DrawCall(items[i])]
  }

  /** The segments of the first `n` items, in item order. */
  function Segments(items: seq<DrawItem>, geometry: seq<Geometry>, sizes: Sizes, bindless: bool, n: nat): (r: seq<seq<Command>>)
    requires ValidSizes(sizes) && WellIndexed(items, geometry) && n <= |items|
    ensures |r| == n
    ensures forall i :: 0 <= i < n ==> r[i] == Segment(items, geometry, sizes, bindless, i)
  {
    seq(n, i requires 0 <= i < n => Segment(items, geometry, sizes, bindless, i))
  }

  /** The commands issued for the first `n` items: the trace of the items before the last one, then its segment. */
  function TraceUpTo(items: seq<DrawItem>, geometry: seq<Geometry>, sizes: Sizes, bindless: bool, n: nat): (r: seq<Command>)
    requires ValidSizes(sizes) && WellIndexed(items, geometry) && n <= |items|
    ensures |r| >= n
    ensures n > 0 ==> r[|r| - 1] == DrawCall(items[n - 1])
    decreases n
  {
    if n == 0 then [] else TraceUpTo(items, geometry, sizes, bindless, n - 1) + Segment(items, geometry, sizes, bindless, n - 1)
  }

  /** The trace of the first `n` items is their segments, one after the other. */
  lemma {:induction false} TraceIsConcat(items: seq<DrawItem>, geometry: seq<Geometry>, sizes: Sizes, bindless: bool, n: nat)
    requires ValidSizes(sizes) && WellIndexed(items, geometry) && n <= |items|
    ensures TraceUpTo(items, geometry, sizes, bindless, n) == Concat(Segments(items, geometry, sizes, bindless, n))
    decreases n
  {
    if n > 0 {
      TraceIsConcat(items, geometry, sizes, bindless, n - 1);
      var ss := Segments(items, geometry, sizes, bindless, n);
      assert ss[..n - 1] == Segments(items, geometry, sizes, bindless, n - 1);
    }
  }

  /** After the loop, the stats storage slot and the three uniform slots are reset to buffer 0. */
  function EndOfPass(): (r: seq<Command>)
    ensures |r| == 4
    ensures Count(r, Unbind) == |r|
  {
    var r := [UnbindBufferBase(SsboSceneStats), UnbindBufferBase(UboSceneView), UnbindBufferBase(UboObject), UnbindBufferBase(UboGeometry)];
    assert r[..3][..2] == r[..2] && r[..2][..1] == r[..1] && r[..1][..0] == [];
    assert Count(r[..1], Unbind) == 1;
    assert Count(r[..2], Unbind) == 2;
    assert Count(r[..3], Unbind) == 3;
    r
  }

  /** The per-frame counters `statsGeometry`, `statsMatrix` and `statsDraw`. */
  datatype Stats = Stats(geometry: nat, matrix: nat, draw: nat)
}
