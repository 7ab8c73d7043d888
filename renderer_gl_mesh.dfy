/**
 * The draw-list traversal of the GL mesh-shader renderer: one pass over the
 * render list that keeps "last bound" markers, issues a bind only when the
 * marker it guards changes, and issues one draw per item.
 *
 * `Draw` is the loop and `DrawItemAt` one iteration of it; each of the three
 * marker-guarded blocks of the body (program, geometry, matrix) is a method of
 * its own that returns the commands the block issues and the updated markers,
 * and `IssueDraw` is the task payload and the draw that end every iteration.
 */
module RendererMeshGL {
  import opened GlCommands
  import opened DrawList

  /** The traversal's locals between two iterations: the "last bound" markers and the counters. */
  datatype Markers = Markers(first: bool, lastTask: bool, lastGeometry: int, lastChunk: int, lastShorts: bool,
                             lastMatrix: int, statsGeometry: nat, statsMatrix: nat, statsDraw: nat)

  /** The markers and counters after the first `i` items. */
  predicate MarkersAfter(items: seq<DrawItem>, geometry: seq<Geometry>, i: nat, m: Markers)
    requires WellIndexed(items, geometry) && i <= |items|
  {
    && (m.first <==> i == 0)
    && (i > 0 ==> m.lastTask == items[i - 1].task)
    && m.lastGeometry == (if i == 0 then -1 else items[i - 1].geometryIndex)
    && m.lastMatrix == (if i == 0 then -1 else items[i - 1].matrixIndex)
    && Binding(m.lastChunk, m.lastShorts) == LastBoundPair(items, geometry, i)
    && m.statsGeometry == ChangeCount(items, i, GeometryCategory)
    && m.statsMatrix == ChangeCount(items, i, MatrixCategory)
    && m.statsDraw == i
  }

  /**
   * Walks `items` in order and returns the GL commands issued, ending with the
   * end-of-pass unbinds, and the counters `statsGeometry`, `statsMatrix` and
   * `statsDraw`. `bindless` selects the unified-memory binding calls.
   */
  method Draw(items: seq<DrawItem>, geometry: seq<Geometry>, sizes: Sizes, bindless: bool)
    returns (trace: seq<Command>, stats: Stats)
    requires ValidSizes(sizes)
    requires WellIndexed(items, geometry)
    requires forall k :: 0 <= k < |items| ==> ConsistentVertexOffsets(geometry[items[k].geometryIndex], sizes)
    ensures trace == TraceUpTo(items, geometry, sizes, bindless, |items|) + EndOfPass()
    ensures stats == Stats(ChangeCount(items, |items|, GeometryCategory), ChangeCount(items, |items|, MatrixCategory), |items|)
  {
    var m := Markers(true, false, -1, -1, false, -1, 0, 0, 0);
    trace := [];
    ghost var segments: seq<seq<Command>> := [];

    for i := 0 to |items|
      invariant MarkersAfter(items, geometry, i, m)
      invariant segments == Segments(items, geometry, sizes, bindless, i)
      invariant trace == Concat(segments)
    {
      var segment;
      segment, m := DrawItemAt(items, geometry, sizes, bindless, i, m);
      SegmentsStep(items, geometry, sizes, bindless, i, segments, segment);
      segments := segments + [segment];
      trace := trace + segment;
    }
    TraceIsConcat(items, geometry, sizes, bindless, |items|);

    trace := trace + [UnbindBufferBase(SsboSceneStats), UnbindBufferBase(UboSceneView),
                      UnbindBufferBase(UboObject), UnbindBufferBase(UboGeometry)];
    stats := Stats(m.statsGeometry, m.statsMatrix, m.statsDraw);
  }

  /** Appending item `i`'s segment to the segments of the first `i` items. */
  lemma SegmentsStep(items: seq<DrawItem>, geometry: seq<Geometry>, sizes: Sizes, bindless: bool, i: nat,
                     segments: seq<seq<Command>>, segment: seq<Command>)
    requires ValidSizes(sizes) && WellIndexed(items, geometry) && i < |items|
    requires segments == Segments(items, geometry, sizes, bindless, i)
    requires segment == Segment(items, geometry, sizes, bindless, i)
    ensures segments + [segment] == Segments(items, geometry, sizes, bindless, i + 1)
    ensures Concat(segments + [segment]) == Concat(segments) + segment
  {
    assert (segments + [segment])[..i] == segments;
  }

  /** One iteration of the loop: the commands issued for item `i` and the updated markers and counters. */
  method DrawItemAt(items: seq<DrawItem>, geometry: seq<Geometry>, sizes: Sizes, bindless: bool, i: nat, m: Markers)
    returns (segment: seq<Command>, m': Markers)
    requires ValidSizes(sizes) && WellIndexed(items, geometry) && i < |items|
    requires ConsistentVertexOffsets(geometry[items[i].geometryIndex], sizes)
    requires MarkersAfter(items, geometry, i, m)
    ensures segment == Segment(items, geometry, sizes, bindless, i)
    ensures MarkersAfter(items, geometry, i + 1, m')
  {
    var programCmds, geometryCmds, matrixCmds: seq<Command>;
    var first, lastTask, lastGeometry, lastChunk, lastShorts, lastMatrix, statsGeometry, statsMatrix;
    programCmds, first, lastTask := SelectProgram(items, i, m.first, m.lastTask);
    geometryCmds, lastGeometry, lastChunk, lastShorts, statsGeometry :=
      UpdateGeometry(items, geometry, sizes, bindless, i, m.lastGeometry, m.lastChunk, m.lastShorts, m.statsGeometry);
    matrixCmds, lastMatrix, statsMatrix := UpdateMatrix(items, sizes, bindless, i, m.lastMatrix, m.statsMatrix);
    var taskCmds, drawCmd := IssueDraw(items[i]);
    segment := programCmds + geometryCmds + matrixCmds + taskCmds + [drawCmd];
    m' := Markers(first, lastTask, lastGeometry, lastChunk, lastShorts, lastMatrix, statsGeometry, statsMatrix, m.statsDraw + 1);
  }

  /** Re-selects the program when this is the first item or the task flag differs from the last one. */
  method SelectProgram(items: seq<DrawItem>, i: nat, first: bool, lastTask: bool)
    returns (cmds: seq<Command>, first': bool, lastTask': bool)
    requires i < |items|
    requires first <==> i == 0
    requires i > 0 ==> lastTask == items[i - 1].task
    ensures cmds == ProgramPart(items, i)
    ensures !first' && lastTask' == items[i].task
  {
    var useTask := items[i].task;
    cmds, first', lastTask' := [], first, lastTask;
    if first || useTask != lastTask {
      cmds := [UseProgram(if useTask then MeshTaskProgram else MeshProgram)];
      lastTask' := useTask;
      first' := false;
    }
  }

  /**
   * When the geometry index differs from the last one: rebinds the geometry
   * slot if the (chunk, index width) pair differs from the bound one, then
   * pushes the geometry uniform and counts the change.
   */
  method UpdateGeometry(items: seq<DrawItem>, geometry: seq<Geometry>, sizes: Sizes, bindless: bool, i: nat,
                        lastGeometry: int, lastChunk: int, lastShorts: bool, statsGeometry: nat)
    returns (cmds: seq<Command>, lastGeometry': int, lastChunk': int, lastShorts': bool, statsGeometry': nat)
    requires ValidSizes(sizes) && WellIndexed(items, geometry) && i < |items|
    requires ConsistentVertexOffsets(geometry[items[i].geometryIndex], sizes)
    requires lastGeometry == if i == 0 then -1 else items[i - 1].geometryIndex
    requires Binding(lastChunk, lastShorts) == LastBoundPair(items, geometry, i)
    ensures cmds == GeometryPart(items, geometry, sizes, bindless, i)
    ensures lastGeometry' == items[i].geometryIndex
    ensures Binding(lastChunk', lastShorts') == LastBoundPair(items, geometry, i + 1)
    ensures statsGeometry' == statsGeometry + if Changes(items, i, GeometryCategory) then 1 else 0
  {
    var di := items[i];
    cmds, lastGeometry', lastChunk', lastShorts', statsGeometry' := [], lastGeometry, lastChunk, lastShorts, statsGeometry;
    if lastGeometry != di.geometryIndex {
      var geo := geometry[di.geometryIndex];
      var chunk := geo.chunkIndex;
      if lastChunk != chunk || lastShorts != di.shorts {
        var idx := chunk * 2 + (if di.shorts then 1 else 0);
        var offset := ByteOffset(sizes.geometryUboSize, idx);
        if bindless {
          cmds := [BufferAddressRange(UboGeometry, GeometryBindings, offset, sizes.geometryUboSize)];
        } else {
          cmds := [BindBufferRange(UboGeometry, GeometryBindings, offset, sizes.geometryUboSize)];
        }
        lastChunk' := chunk;
        lastShorts' := di.shorts;
      }
      // the vertex and the attribute buffer share one base vertex
      assert Wrap32(geo.vboOffset / sizes.vertexSize) == Wrap32(geo.aboOffset / sizes.vertexAttributeSize);
      cmds := cmds + [Uniform4ui(0, GeometryUniform(geo, di.shorts, sizes))];
      lastGeometry' := di.geometryIndex;
      statsGeometry' := statsGeometry + 1;
    }
  }

  /** When the matrix index differs from the last one: binds that object's `MatrixNode` and counts the change. */
  method UpdateMatrix(items: seq<DrawItem>, sizes: Sizes, bindless: bool, i: nat, lastMatrix: int, statsMatrix: nat)
    returns (cmds: seq<Command>, lastMatrix': int, statsMatrix': nat)
    requires i < |items|
    requires lastMatrix == if i == 0 then -1 else items[i - 1].matrixIndex
    ensures cmds == MatrixPart(items, sizes, bindless, i)
    ensures lastMatrix' == items[i].matrixIndex
    ensures statsMatrix' == statsMatrix + if Changes(items, i, MatrixCategory) then 1 else 0
  {
    var di := items[i];
    cmds, lastMatrix', statsMatrix' := [], lastMatrix, statsMatrix;
    if lastMatrix != di.matrixIndex {
      var offset := ByteOffset(sizes.alignedMatrixSize, di.matrixIndex);
      if bindless {
        cmds := [BufferAddressRange(UboObject, Matrices, offset, sizes.matrixNodeSize)];
      } else {
        cmds := [BindBufferRange(UboObject, Matrices, offset, sizes.matrixNodeSize)];
      }
      lastMatrix' := di.matrixIndex;
      statsMatrix' := statsMatrix + 1;
    }
  }

  /** For a task item, pushes the task payload; then issues the item's one draw. */
  method IssueDraw(di: DrawItem) returns (taskCmds: seq<Command>, drawCmd: Command)
    ensures taskCmds == TaskPart(di)
    ensures drawCmd == DrawCall(di)
  {
    var useTask := di.task;
    taskCmds := [];
    if useTask {
      taskCmds := [Uniform4ui(1, TaskPayload(di))];
    }
    var offset: uint32 := if useTask then 0 else di.meshletOffset;
    var count: uint32 := if useTask then TaskGroupCount(di.meshletCount) else di.meshletCount;
    drawCmd := DrawMeshTasks(offset, count);
  }
}
