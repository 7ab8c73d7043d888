/**
 * What the traversal promises about the commands it issues: one draw per
 * item in order, a bind or push exactly when the guarding marker changes,
 * the counters equal to the number of those commands, the two binding modes
 * making the same decisions, and the GL state every draw sees.
 */
module DrawProperties {
  import opened GlCommands
  import opened DrawList

  /** A one-command sequence counts for its own kind only. */
  lemma CountSingleton(c: Command, k: Kind)
    ensures Count([c], k) == if KindOf(c) == k then 1 else 0
  {
    assert [c][1..] == [];
  }

  lemma GeometryPartCount(items: seq<DrawItem>, geometry: seq<Geometry>, sizes: Sizes, bindless: bool, i: nat, k: Kind)
    requires ValidSizes(sizes) && WellIndexed(items, geometry) && i < |items|
    ensures Count(GeometryPart(items, geometry, sizes, bindless, i), k) ==
      (if k == PushGeometry && Changes(items, i, GeometryCategory) then 1 else 0)
      + (if k == BindGeometrySlot && Changes(items, i, GeometryCategory)
            && PairOf(items, geometry, i) != LastBoundPair(items, geometry, i) then 1 else 0)
  {
    if Changes(items, i, GeometryCategory) {
      var pair := PairOf(items, geometry, i);
      var bind: seq<Command> := if pair != LastBoundPair(items, geometry, i) then [BindCall(bindless, UboGeometry, GeometrySlotRange(pair, sizes))] else [];
      var push := Uniform4ui(0, GeometryUniform(geometry[items[i].geometryIndex], items[i].shorts, sizes));
      assert GeometryPart(items, geometry, sizes, bindless, i) == bind + [push];
      CountBindPush(bind, push, k);
    }
  }

  /** An optional geometry-slot bind followed by a geometry push, counted kind by kind. */
  lemma CountBindPush(bind: seq<Command>, push: Command, k: Kind)
    requires bind == [] || (|bind| == 1 && KindOf(bind[0]) == BindGeometrySlot)
    requires KindOf(push) == PushGeometry
    ensures Count(bind + [push], k) == (if k == PushGeometry then 1 else 0) + (if k == BindGeometrySlot && bind != [] then 1 else 0)
  {
    CountAppend(bind, [push], k);
    CountSingleton(push, k);
    if bind != [] {
      assert bind == [bind[0]];
      CountSingleton(bind[0], k);
    }
  }

  lemma ProgramPartCount(items: seq<DrawItem>, i: nat, k: Kind)
    requires i < |items|
    ensures Count(ProgramPart(items, i), k) == if k == SelectProgram && Changes(items, i, ProgramCategory) then 1 else 0
  {
    if Changes(items, i, ProgramCategory) {
      CountSingleton(UseProgram(ProgramFor(items[i].task)), k);
    }
  }

  lemma MatrixPartCount(items: seq<DrawItem>, sizes: Sizes, bindless: bool, i: nat, k: Kind)
    requires i < |items|
    ensures Count(MatrixPart(items, sizes, bindless, i), k) == if k == BindObjectSlot && Changes(items, i, MatrixCategory) then 1 else 0
  {
    if Changes(items, i, MatrixCategory) {
      CountSingleton(BindCall(bindless, UboObject, MatrixRange(items[i].matrixIndex, sizes)), k);
    }
  }

  lemma TaskPartCount(item: DrawItem, k: Kind)
    ensures Count(TaskPart(item), k) == if k == PushTask && item.task then 1 else 0
  {
    if item.task {
      CountSingleton(Uniform4ui(1, TaskPayload(item)), k);
    }
  }

  /** The commands issued for item `i` before its draw, counted kind by kind. */
  lemma PrepareCounts(items: seq<DrawItem>, geometry: seq<Geometry>, sizes: Sizes, bindless: bool, i: nat, k: Kind)
    requires ValidSizes(sizes) && WellIndexed(items, geometry) && i < |items|
    ensures Count(Prepare(items, geometry, sizes, bindless, i), k) ==
      (if k == SelectProgram && Changes(items, i, ProgramCategory) then 1 else 0)
      + (if k == PushGeometry && Changes(items, i, GeometryCategory) then 1 else 0)
      + (if k == BindGeometrySlot && Changes(items, i, GeometryCategory)
            && PairOf(items, geometry, i) != LastBoundPair(items, geometry, i) then 1 else 0)
      + (if k == BindObjectSlot && Changes(items, i, MatrixCategory) then 1 else 0)
      + (if k == PushTask && items[i].task then 1 else 0)
  {
    var p := ProgramPart(items, i);
    var g := GeometryPart(items, geometry, sizes, bindless, i);
    var m := MatrixPart(items, sizes, bindless, i);
    var t := TaskPart(items[i]);
    CountAppend(p + g + m, t, k);
    CountAppend(p + g, m, k);
    CountAppend(p, g, k);
    ProgramPartCount(items, i, k);
    GeometryPartCount(items, geometry, sizes, bindless, i, k);
    MatrixPartCount(items, sizes, bindless, i, k);
    TaskPartCount(items[i], k);
  }

  /** The commands issued for item `i`, counted kind by kind: its preparation and one draw. */
  lemma SegmentCounts(items: seq<DrawItem>, geometry: seq<Geometry>, sizes: Sizes, bindless: bool, i: nat, k: Kind)
    requires ValidSizes(sizes) && WellIndexed(items, geometry) && i < |items|
    ensures Count(Segment(items, geometry, sizes, bindless, i), k) ==
      (if k == SelectProgram && Changes(items, i, ProgramCategory) then 1 else 0)
      + (if k == PushGeometry && Changes(items, i, GeometryCategory) then 1 else 0)
      + (if k == BindGeometrySlot && Changes(items, i, GeometryCategory)
            && PairOf(items, geometry, i) != LastBoundPair(items, geometry, i) then 1 else 0)
      + (if k == BindObjectSlot && Changes(items, i, MatrixCategory) then 1 else 0)
      + (if k == PushTask && items[i].task then 1 else 0)
      + (if k == Draw then 1 else 0)
  {
    var prep := Prepare(items, geometry, sizes, bindless, i);
    var call := DrawCall(items[i]);
    CountAppend(prep, [call], k);
    CountSingleton(call, k);
    assert KindOf(call) == Draw;
    assert Count(Segment(items, geometry, sizes, bindless, i), k) == Count(prep, k) + (if k == Draw then 1 else 0);
    PrepareCounts(items, geometry, sizes, bindless, i, k);
  }

  /** The command kind issued when a category changes: a program selection, a geometry push, an object bind. */
  function SwitchKind(cat: Category): Kind
  {
    match cat
    case ProgramCategory => SelectProgram
    case GeometryCategory => PushGeometry
    case MatrixCategory => BindObjectSlot
  }

  /** Item `i` issues one command of the category's kind when it changes that category, and none otherwise. */
  lemma SegmentSwitchCount(items: seq<DrawItem>, geometry: seq<Geometry>, sizes: Sizes, bindless: bool, i: nat, cat: Category)
    requires ValidSizes(sizes) && WellIndexed(items, geometry) && i < |items|
    ensures Count(Segment(items, geometry, sizes, bindless, i), SwitchKind(cat)) == if Changes(items, i, cat) then 1 else 0
  {
    SegmentCounts(items, geometry, sizes, bindless, i, SwitchKind(cat));
  }

  /** Concatenated parts whose part `i` holds one command of kind `k` exactly when item `i` changes the category. */
  lemma {:induction false} ConcatSwitchCount(parts: seq<seq<Command>>, items: seq<DrawItem>, cat: Category, k: Kind, n: nat)
    requires n == |parts| && n <= |items|
    requires forall i :: 0 <= i < n ==> Count(parts[i], k) == if Changes(items, i, cat) then 1 else 0
    ensures Count(Concat(parts), k) == ChangeCount(items, n, cat)
    decreases n
  {
    if n > 0 {
      ConcatSwitchCount(parts[..n - 1], items, cat, k, n - 1);
      CountAppend(Concat(parts[..n - 1]), parts[n - 1], k);
    }
  }

  /** Concatenated parts with no command of kind `k` have none. */
  lemma {:induction false} ConcatCountZero(parts: seq<seq<Command>>, k: Kind)
    requires forall i :: 0 <= i < |parts| ==> Count(parts[i], k) == 0
    ensures Count(Concat(parts), k) == 0
    decreases |parts|
  {
    if |parts| > 0 {
      ConcatCountZero(parts[..|parts| - 1], k);
      CountAppend(Concat(parts[..|parts| - 1]), parts[|parts| - 1], k);
    }
  }

  /** Concatenated parts whose part `i` draws item `i` once draw the items in order. */
  lemma {:induction false} ConcatDraws(parts: seq<seq<Command>>, items: seq<DrawItem>, n: nat)
    requires n == |parts| && n <= |items|
    requires forall i :: 0 <= i < n ==> Draws(parts[i]) == [DrawCall(items[i])]
    ensures |Draws(Concat(parts))| == n
    ensures forall k :: 0 <= k < n ==> Draws(Concat(parts))[k] == DrawCall(items[k])
    decreases n
  {
    if n > 0 {
      ConcatDraws(parts[..n - 1], items, n - 1);
      DrawsAppend(Concat(parts[..n - 1]), parts[n - 1]);
    }
  }

  /** The first `n` items issue one command of the category's kind per change of that category. */
  lemma TraceSwitchCount(items: seq<DrawItem>, geometry: seq<Geometry>, sizes: Sizes, bindless: bool, n: nat, cat: Category)
    requires ValidSizes(sizes) && WellIndexed(items, geometry) && n <= |items|
    ensures Count(TraceUpTo(items, geometry, sizes, bindless, n), SwitchKind(cat)) == ChangeCount(items, n, cat)
  {
    TraceIsConcat(items, geometry, sizes, bindless, n);
    var parts := Segments(items, geometry, sizes, bindless, n);
    forall i | 0 <= i < n
      ensures Count(parts[i], SwitchKind(cat)) == if Changes(items, i, cat) then 1 else 0
    {
      SegmentSwitchCount(items, geometry, sizes, bindless, i, cat);
    }
    ConcatSwitchCount(parts, items, cat, SwitchKind(cat), n);
  }

  /** No item issues an unbind. */
  lemma UnbindOnlyAtEnd(items: seq<DrawItem>, geometry: seq<Geometry>, sizes: Sizes, bindless: bool, n: nat)
    requires ValidSizes(sizes) && WellIndexed(items, geometry) && n <= |items|
    ensures Count(TraceUpTo(items, geometry, sizes, bindless, n), Unbind) == 0
  {
    TraceIsConcat(items, geometry, sizes, bindless, n);
    var parts := Segments(items, geometry, sizes, bindless, n);
    forall i | 0 <= i < n
      ensures Count(parts[i], Unbind) == 0
    {
      SegmentCounts(items, geometry, sizes, bindless, i, Unbind);
    }
    ConcatCountZero(parts, Unbind);
  }

  /** Item `i` issues exactly one draw, with its own arguments, as its last command. */
  lemma SegmentDraws(items: seq<DrawItem>, geometry: seq<Geometry>, sizes: Sizes, bindless: bool, i: nat)
    requires ValidSizes(sizes) && WellIndexed(items, geometry) && i < |items|
    ensures Draws(Segment(items, geometry, sizes, bindless, i)) == [DrawCall(items[i])]
  {
    var prep := Prepare(items, geometry, sizes, bindless, i);
    var call := DrawCall(items[i]);
    DrawsAppend(prep, [call]);
    SegmentCounts(items, geometry, sizes, bindless, i, Draw);
    CountAppend(prep, [call], Draw);
    CountSingleton(call, Draw);
    assert [call][1..] == [];
  }

  /** The draws of the first `n` items' commands: exactly one per item, in item order, with that item's arguments. */
  lemma DrawsFollowItems(items: seq<DrawItem>, geometry: seq<Geometry>, sizes: Sizes, bindless: bool, n: nat)
    requires ValidSizes(sizes) && WellIndexed(items, geometry) && n <= |items|
    ensures var d := Draws(TraceUpTo(items, geometry, sizes, bindless, n));
      |d| == n && forall k :: 0 <= k < n ==> d[k] == DrawCall(items[k])
  {
    TraceIsConcat(items, geometry, sizes, bindless, n);
    var parts := Segments(items, geometry, sizes, bindless, n);
    forall i | 0 <= i < n
      ensures Draws(parts[i]) == [DrawCall(items[i])]
    {
      SegmentDraws(items, geometry, sizes, bindless, i);
    }
    ConcatDraws(parts, items, n);
  }

  /** The end of the pass issues four unbinds and nothing else. */
  lemma EndOfPassCount(k: Kind)
    ensures Count(EndOfPass(), k) == if k == Unbind then 4 else 0
  {
    var e := EndOfPass();
    assert e == [e[0]] + [e[1]] + [e[2]] + [e[3]];
    CountAppend([e[0]] + [e[1]] + [e[2]], [e[3]], k);
    CountAppend([e[0]] + [e[1]], [e[2]], k);
    CountAppend([e[0]], [e[1]], k);
    CountSingleton(e[0], k);
    CountSingleton(e[1], k);
    CountSingleton(e[2], k);
    CountSingleton(e[3], k);
  }

  /**
   * The whole pass: its draws are exactly the items' draws in item order, it
   * selects a program once per task-flag change, pushes geometry once per
   * geometry change, binds an object once per matrix change (the counters
   * the traversal returns) and ends with four unbinds.
   */
  lemma PassCommands(items: seq<DrawItem>, geometry: seq<Geometry>, sizes: Sizes, bindless: bool)
    requires ValidSizes(sizes) && WellIndexed(items, geometry)
    ensures var pass := TraceUpTo(items, geometry, sizes, bindless, |items|) + EndOfPass();
      && |Draws(pass)| == |items|
      && (forall k :: 0 <= k < |items| ==> Draws(pass)[k] == DrawCall(items[k]))
      && Count(pass, SelectProgram) == ChangeCount(items, |items|, ProgramCategory)
      && Count(pass, PushGeometry) == ChangeCount(items, |items|, GeometryCategory)
      && Count(pass, BindObjectSlot) == ChangeCount(items, |items|, MatrixCategory)
      && Count(pass, Unbind) == 4
  {
    var t := TraceUpTo(items, geometry, sizes, bindless, |items|);
    DrawsFollowItems(items, geometry, sizes, bindless, |items|);
    TraceSwitchCount(items, geometry, sizes, bindless, |items|, ProgramCategory);
    TraceSwitchCount(items, geometry, sizes, bindless, |items|, GeometryCategory);
    TraceSwitchCount(items, geometry, sizes, bindless, |items|, MatrixCategory);
    UnbindOnlyAtEnd(items, geometry, sizes, bindless, |items|);
    AppendEndOfPass(t);
  }

  /** Every item has the first item's geometry, index width, matrix and task flag; the meshlet ranges may differ. */
  predicate SharesFirstState(items: seq<DrawItem>)
    requires |items| > 0
  {
    forall k :: 0 <= k < |items| ==>
      && items[k].geometryIndex == items[0].geometryIndex && items[k].shorts == items[0].shorts
      && items[k].matrixIndex == items[0].matrixIndex && items[k].task == items[0].task
  }

  /** Over items that share the first item's state, the geometry slot is bound once, by the first item. */
  lemma SharedStateBindsSlotOnce(items: seq<DrawItem>, geometry: seq<Geometry>, sizes: Sizes, bindless: bool)
    requires ValidSizes(sizes) && WellIndexed(items, geometry) && |items| > 0 && SharesFirstState(items)
    ensures Count(TraceUpTo(items, geometry, sizes, bindless, |items|), BindGeometrySlot) == 1
  {
    var n := |items|;
    TraceIsConcat(items, geometry, sizes, bindless, n);
    var parts := Segments(items, geometry, sizes, bindless, n);
    forall i | 0 <= i < n
      ensures Count(parts[i], BindGeometrySlot) == if Changes(items, i, GeometryCategory) then 1 else 0
    {
      SegmentSlotBinds(items, geometry, sizes, bindless, i);
    }
    ConcatSwitchCount(parts, items, GeometryCategory, BindGeometrySlot, n);
    SharedStateChangesOnce(items);
  }

  /** An item that changes geometry after an item of the same width and chunk, or comes first, binds the slot iff it changes geometry. */
  lemma SegmentSlotBinds(items: seq<DrawItem>, geometry: seq<Geometry>, sizes: Sizes, bindless: bool, i: nat)
    requires ValidSizes(sizes) && WellIndexed(items, geometry) && i < |items| && SharesFirstState(items)
    ensures Count(Segment(items, geometry, sizes, bindless, i), BindGeometrySlot) == if Changes(items, i, GeometryCategory) then 1 else 0
  {
    SegmentCounts(items, geometry, sizes, bindless, i, BindGeometrySlot);
    if i == 0 {
      assert PairOf(items, geometry, i) != LastBoundPair(items, geometry, i);
    } else {
      assert items[i].geometryIndex == items[0].geometryIndex == items[i - 1].geometryIndex;
    }
  }

  /**
   * A pass over items that share the first item's geometry, index width,
   * matrix and task flag selects the program, binds the geometry slot,
   * pushes the geometry values and binds the object once each, and draws
   * once per item.
   */
  lemma RepeatedItemPass(items: seq<DrawItem>, geometry: seq<Geometry>, sizes: Sizes, bindless: bool)
    requires ValidSizes(sizes) && WellIndexed(items, geometry) && |items| > 0 && SharesFirstState(items)
    ensures var pass := TraceUpTo(items, geometry, sizes, bindless, |items|) + EndOfPass();
      && |Draws(pass)| == |items|
      && Count(pass, SelectProgram) == 1
      && Count(pass, BindGeometrySlot) == 1
      && Count(pass, PushGeometry) == 1
      && Count(pass, BindObjectSlot) == 1
  {
    PassCommands(items, geometry, sizes, bindless);
    SharedStateChangesOnce(items);
    SharedStateBindsSlotOnce(items, geometry, sizes, bindless);
    AppendEndOfPass(TraceUpTo(items, geometry, sizes, bindless, |items|));
  }

  /** Items that share the first item's state change each category once. */
  lemma SharedStateChangesOnce(items: seq<DrawItem>)
    requires |items| > 0 && SharesFirstState(items)
    ensures ChangeCount(items, |items|, ProgramCategory) == 1
    ensures ChangeCount(items, |items|, GeometryCategory) == 1
    ensures ChangeCount(items, |items|, MatrixCategory) == 1
  {
    ChangeCountRepeated(items, |items|, ProgramCategory);
    ChangeCountRepeated(items, |items|, GeometryCategory);
    ChangeCountRepeated(items, |items|, MatrixCategory);
  }

  /** The first item selects its program, binds its geometry slot, pushes its geometry values and binds its object, whatever it holds. */
  lemma FirstItemBindsEverything(items: seq<DrawItem>, geometry: seq<Geometry>, sizes: Sizes, bindless: bool)
    requires ValidSizes(sizes) && WellIndexed(items, geometry) && |items| > 0
    ensures var prep := Prepare(items, geometry, sizes, bindless, 0);
      && Count(prep, SelectProgram) == 1
      && Count(prep, BindGeometrySlot) == 1
      && Count(prep, PushGeometry) == 1
      && Count(prep, BindObjectSlot) == 1
  {
    assert PairOf(items, geometry, 0) != LastBoundPair(items, geometry, 0);
    PrepareCounts(items, geometry, sizes, bindless, 0, SelectProgram);
    PrepareCounts(items, geometry, sizes, bindless, 0, BindGeometrySlot);
    PrepareCounts(items, geometry, sizes, bindless, 0, PushGeometry);
    PrepareCounts(items, geometry, sizes, bindless, 0, BindObjectSlot);
  }

  /**
   * Two items of geometry 0 then one of geometry 1, all with matrix 0 and
   * no task stage: two geometry changes, one matrix change, one program
   * selection and three draws.
   */
  lemma ThreeItemExample(geometry: seq<Geometry>, sizes: Sizes, bindless: bool)
    requires ValidSizes(sizes) && |geometry| >= 2
    ensures var items := [DrawItem(0, 0, false, false, 0, 4), DrawItem(0, 0, false, false, 4, 4), DrawItem(1, 0, false, false, 0, 2)];
      var pass := TraceUpTo(items, geometry, sizes, bindless, 3) + EndOfPass();
      && ChangeCount(items, 3, GeometryCategory) == 2
      && ChangeCount(items, 3, MatrixCategory) == 1
      && Count(pass, SelectProgram) == 1
      && Count(pass, PushGeometry) == 2
      && Count(pass, BindObjectSlot) == 1
      && |Draws(pass)| == 3
  {
    var items := [DrawItem(0, 0, false, false, 0, 4), DrawItem(0, 0, false, false, 4, 4), DrawItem(1, 0, false, false, 0, 2)];
    assert !Changes(items, 1, GeometryCategory) && Changes(items, 2, GeometryCategory);
    assert !Changes(items, 1, MatrixCategory) && !Changes(items, 2, MatrixCategory);
    assert !Changes(items, 1, ProgramCategory) && !Changes(items, 2, ProgramCategory);
    assert ChangeCount(items, 3, ProgramCategory) == 1;
    PassCommands(items, geometry, sizes, bindless);
  }

  /** Appending the end of the pass adds four unbinds and no other command. */
  lemma AppendEndOfPass(t: seq<Command>)
    ensures Draws(t + EndOfPass()) == Draws(t)
    ensures forall k :: Count(t + EndOfPass(), k) == Count(t, k) + if k == Unbind then 4 else 0
  {
    DrawsAppend(t, EndOfPass());
    EndOfPassCount(Draw);
    assert Draws(EndOfPass()) == [];
    forall k: Kind
      ensures Count(t + EndOfPass(), k) == Count(t, k) + if k == Unbind then 4 else 0
    {
      CountAppend(t, EndOfPass(), k);
      EndOfPassCount(k);
    }
  }

  // ---------------------------------------------------------------------
  // The two binding modes

  /** The unified-memory spelling of a bind is the bindless bind. */
  lemma BindCallModes(slot: Slot, r: Range)
    ensures MapToAddressRange([BindCall(false, slot, r)]) == [BindCall(true, slot, r)]
  {
    assert [BindCall(false, slot, r)][1..] == [];
  }

  lemma MapSingleton(c: Command)
    ensures MapToAddressRange([c]) == [ToAddressRange(c)]
  {
    assert [c][1..] == [];
  }

  /** Item `i`'s segment in the bindless mode is its segment in the bind-range mode with every bind re-spelt. */
  lemma SegmentModes(items: seq<DrawItem>, geometry: seq<Geometry>, sizes: Sizes, i: nat)
    requires ValidSizes(sizes) && WellIndexed(items, geometry) && i < |items|
    ensures Segment(items, geometry, sizes, true, i) == MapToAddressRange(Segment(items, geometry, sizes, false, i))
  {
    var p := ProgramPart(items, i);
    var g := GeometryPart(items, geometry, sizes, false, i);
    var m := MatrixPart(items, sizes, false, i);
    var t := TaskPart(items[i]);
    var d := [DrawCall(items[i])];
    MapToAddressRangeAppend(p + g + m + t, d);
    MapToAddressRangeAppend(p + g + m, t);
    MapToAddressRangeAppend(p + g, m);
    MapToAddressRangeAppend(p, g);
    ProgramPartModes(items, i);
    GeometryPartModes(items, geometry, sizes, i);
    MatrixPartModes(items, sizes, i);
    TaskPartModes(items[i]);
    MapSingleton(DrawCall(items[i]));
  }

  lemma ProgramPartModes(items: seq<DrawItem>, i: nat)
    requires i < |items|
    ensures MapToAddressRange(ProgramPart(items, i)) == ProgramPart(items, i)
  {
    if Changes(items, i, ProgramCategory) {
      MapSingleton(UseProgram(ProgramFor(items[i].task)));
    }
  }

  lemma MatrixPartModes(items: seq<DrawItem>, sizes: Sizes, i: nat)
    requires i < |items|
    ensures MatrixPart(items, sizes, true, i) == MapToAddressRange(MatrixPart(items, sizes, false, i))
  {
    if Changes(items, i, MatrixCategory) {
      BindCallModes(UboObject, MatrixRange(items[i].matrixIndex, sizes));
    }
  }

  lemma TaskPartModes(item: DrawItem)
    ensures MapToAddressRange(TaskPart(item)) == TaskPart(item)
  {
    if item.task {
      MapSingleton(Uniform4ui(1, TaskPayload(item)));
    }
  }

  lemma GeometryPartModes(items: seq<DrawItem>, geometry: seq<Geometry>, sizes: Sizes, i: nat)
    requires ValidSizes(sizes) && WellIndexed(items, geometry) && i < |items|
    ensures GeometryPart(items, geometry, sizes, true, i) == MapToAddressRange(GeometryPart(items, geometry, sizes, false, i))
  {
    if Changes(items, i, GeometryCategory) {
      var pair := PairOf(items, geometry, i);
      var push := Uniform4ui(0, GeometryUniform(geometry[items[i].geometryIndex], items[i].shorts, sizes));
      MapSingleton(push);
      if pair != LastBoundPair(items, geometry, i) {
        var r := GeometrySlotRange(pair, sizes);
        MapToAddressRangeAppend([BindCall(false, UboGeometry, r)], [push]);
        BindCallModes(UboGeometry, r);
      } else {
        assert GeometryPart(items, geometry, sizes, false, i) == [push];
      }
    }
  }

  lemma {:induction false} ConcatModes(plain: seq<seq<Command>>, addressed: seq<seq<Command>>)
    requires |plain| == |addressed|
    requires forall i :: 0 <= i < |plain| ==> addressed[i] == MapToAddressRange(plain[i])
    ensures Concat(addressed) == MapToAddressRange(Concat(plain))
    decreases |plain|
  {
    var n := |plain|;
    if n > 0 {
      ConcatModes(plain[..n - 1], addressed[..n - 1]);
      MapToAddressRangeAppend(Concat(plain[..n - 1]), plain[n - 1]);
    }
  }

  /**
   * The two binding modes make the same decisions: the bindless trace is the
   * bind-range trace with each `glBindBufferRange` replaced by a
   * `glBufferAddressRangeNV` of the same slot, buffer, offset and size.
   */
  lemma BindlessSameDecisions(items: seq<DrawItem>, geometry: seq<Geometry>, sizes: Sizes, n: nat)
    requires ValidSizes(sizes) && WellIndexed(items, geometry) && n <= |items|
    ensures TraceUpTo(items, geometry, sizes, true, n) == MapToAddressRange(TraceUpTo(items, geometry, sizes, false, n))
  {
    TraceIsConcat(items, geometry, sizes, false, n);
    TraceIsConcat(items, geometry, sizes, true, n);
    var plain := Segments(items, geometry, sizes, false, n);
    var addressed := Segments(items, geometry, sizes, true, n);
    forall i | 0 <= i < n
      ensures addressed[i] == MapToAddressRange(plain[i])
    {
      SegmentModes(items, geometry, sizes, i);
    }
    ConcatModes(plain, addressed);
  }

  /** Re-spelling the binds changes the number of commands of no kind. */
  lemma {:induction false} AddressRangeSameCounts(cmds: seq<Command>, k: Kind)
    ensures Count(MapToAddressRange(cmds), k) == Count(cmds, k)
    decreases |cmds|
  {
    var n := |cmds|;
    if n > 0 {
      var m := MapToAddressRange(cmds);
      assert m[..n - 1] == MapToAddressRange(cmds[..n - 1]) && m[n - 1] == ToAddressRange(cmds[n - 1]);
      AddressRangeSameCounts(cmds[..n - 1], k);
    }
  }

  /** A command that neither sets an address range nor unbinds a slot. */
  predicate IsPlain(c: Command)
  {
    !c.BufferAddressRange? && !c.UnbindBufferBase?
  }

  /** Every command of `cmds` is plain. */
  predicate Plain(cmds: seq<Command>)
    decreases |cmds|
  {
    |cmds| == 0 || (Plain(cmds[..|cmds| - 1]) && IsPlain(cmds[|cmds| - 1]))
  }

  lemma {:induction false} PlainAppend(a: seq<Command>, b: seq<Command>)
    requires Plain(a) && Plain(b)
    ensures Plain(a + b)
    decreases |b|
  {
    if |b| == 0 {
      assert a + b == a;
    } else {
      assert (a + b)[..|a + b| - 1] == a + b[..|b| - 1];
      PlainAppend(a, b[..|b| - 1]);
    }
  }

  /** Concatenated plain parts are plain. */
  lemma {:induction false} ConcatPlain(parts: seq<seq<Command>>)
    requires forall i :: 0 <= i < |parts| ==> Plain(parts[i])
    ensures Plain(Concat(parts))
    decreases |parts|
  {
    if |parts| > 0 {
      ConcatPlain(parts[..|parts| - 1]);
      PlainAppend(Concat(parts[..|parts| - 1]), parts[|parts| - 1]);
    }
  }

  lemma PlainSingleton(c: Command)
    requires IsPlain(c)
    ensures Plain([c])
  {
    assert [c][..0] == [];
  }

  /**
   * Running the respelled commands from the mirrored state reaches the
   * mirror of what the commands reach, as long as they set no address range
   * and unbind nothing.
   */
  lemma {:induction false} MirrorRun(s: GlState, cmds: seq<Command>)
    requires Plain(cmds)
    ensures Run(Mirror(s), MapToAddressRange(cmds)) == Mirror(Run(s, cmds))
    decreases |cmds|
  {
    var n := |cmds|;
    if n > 0 {
      var m := MapToAddressRange(cmds);
      assert m[..n - 1] == MapToAddressRange(cmds[..n - 1]) && m[n - 1] == ToAddressRange(cmds[n - 1]);
      MirrorRun(s, cmds[..n - 1]);
    }
  }

  /** Item `i`'s commands in the bind-range mode set no address range and unbind nothing. */
  lemma PlainSegment(items: seq<DrawItem>, geometry: seq<Geometry>, sizes: Sizes, i: nat)
    requires ValidSizes(sizes) && WellIndexed(items, geometry) && i < |items|
    ensures Plain(Segment(items, geometry, sizes, false, i))
  {
    var p := ProgramPart(items, i);
    var g := GeometryPart(items, geometry, sizes, false, i);
    var m := MatrixPart(items, sizes, false, i);
    var t := TaskPart(items[i]);
    if p != [] { PlainSingleton(p[0]); }
    if m != [] { PlainSingleton(m[0]); }
    if t != [] { PlainSingleton(t[0]); }
    PlainSingleton(DrawCall(items[i]));
    if Changes(items, i, GeometryCategory) {
      var push := Uniform4ui(0, GeometryUniform(geometry[items[i].geometryIndex], items[i].shorts, sizes));
      PlainSingleton(push);
      if PairOf(items, geometry, i) != LastBoundPair(items, geometry, i) {
        var bind := BindCall(false, UboGeometry, GeometrySlotRange(PairOf(items, geometry, i), sizes));
        PlainSingleton(bind);
        PlainAppend([bind], [push]);
      }
    }
    PlainAppend(p, g);
    PlainAppend(p + g, m);
    PlainAppend(p + g + m, t);
    PlainAppend(p + g + m + t, [DrawCall(items[i])]);
  }

  /** The first `n` items' commands in the bind-range mode set no address range and unbind nothing. */
  lemma PlainTrace(items: seq<DrawItem>, geometry: seq<Geometry>, sizes: Sizes, n: nat)
    requires ValidSizes(sizes) && WellIndexed(items, geometry) && n <= |items|
    ensures Plain(TraceUpTo(items, geometry, sizes, false, n))
  {
    TraceIsConcat(items, geometry, sizes, false, n);
    var parts := Segments(items, geometry, sizes, false, n);
    forall i | 0 <= i < n
      ensures Plain(parts[i])
    {
      PlainSegment(items, geometry, sizes, i);
    }
    ConcatPlain(parts);
  }

  // ---------------------------------------------------------------------
  // The GL state each draw sees

  /**
   * Consecutive items that share a geometry also share its index width and
   * its task flag. The traversal compares only the geometry index, so it
   * relies on this to skip the geometry commands.
   */
  predicate SharedGeometryAgrees(items: seq<DrawItem>)
  {
    forall k :: 0 < k < |items| ==> AgreesWithPrevious(items, k)
  }

  /** Item `k` agrees with item `k - 1` on width and task flag when the two share a geometry. */
  predicate AgreesWithPrevious(items: seq<DrawItem>, k: nat)
    requires 0 < k < |items|
  {
    items[k].geometryIndex == items[k - 1].geometryIndex ==>
      items[k].shorts == items[k - 1].shorts && items[k].task == items[k - 1].task
  }

  /**
   * What the draw of item `i` needs: its program current, its geometry
   * values at uniform 0 of that program, its (chunk, width) slot and its
   * matrix in the slot table the shaders read (the address ranges in the
   * unified-memory mode), and for a task item its payload at uniform 1.
   */
  predicate Ready(s: GlState, items: seq<DrawItem>, geometry: seq<Geometry>, sizes: Sizes, bindless: bool, i: nat)
    requires ValidSizes(sizes) && WellIndexed(items, geometry) && i < |items|
  {
    var item := items[i];
    var p := ProgramFor(item.task);
    && s.program == Some(p)
    && (p, 0) in s.uniforms && s.uniforms[(p, 0)] == GeometryUniform(geometry[item.geometryIndex], item.shorts, sizes)
    && UboGeometry in Slots(s, bindless) && Slots(s, bindless)[UboGeometry] == GeometrySlotRange(PairOf(items, geometry, i), sizes)
    && UboObject in Slots(s, bindless) && Slots(s, bindless)[UboObject] == MatrixRange(item.matrixIndex, sizes)
    && (item.task ==> (p, 1) in s.uniforms && s.uniforms[(p, 1)] == TaskPayload(item))
  }

  lemma RunSingleton(s: GlState, c: Command)
    ensures Run(s, [c]) == Apply(s, c)
  {
    assert [c][1..] == [];
  }

  /** When consecutive items sharing a geometry agree, the pair bound before item `i` is item `i - 1`'s. */
  lemma {:induction false} BoundPairIsPrevious(items: seq<DrawItem>, geometry: seq<Geometry>, i: nat)
    requires WellIndexed(items, geometry) && SharedGeometryAgrees(items) && 0 < i <= |items|
    ensures LastBoundPair(items, geometry, i) == PairOf(items, geometry, i - 1)
    decreases i
  {
    if !Changes(items, i - 1, GeometryCategory) {
      assert AgreesWithPrevious(items, i - 1);
      BoundPairIsPrevious(items, geometry, i - 1);
    }
  }

  /** Selecting the program: on a task-flag change (or for the first item) the program becomes the one for the item's flag. */
  function ProgramEffect(s: GlState, items: seq<DrawItem>, i: nat): GlState
    requires i < |items|
  {
    if Changes(items, i, ProgramCategory) then s.(program := Some(ProgramFor(items[i].task))) else s
  }

  /**
   * Updating the geometry: on a geometry change, the geometry slot is rebound
   * when the (chunk, index width) pair differs from the bound one, and
   * uniform 0 of the current program is set to the item's geometry values.
   */
  function GeometryEffect(s: GlState, items: seq<DrawItem>, geometry: seq<Geometry>, sizes: Sizes, bindless: bool, i: nat): GlState
    requires ValidSizes(sizes) && WellIndexed(items, geometry) && i < |items|
  {
    var pair := PairOf(items, geometry, i);
    if !Changes(items, i, GeometryCategory) then s
    else
      var s' := if pair != LastBoundPair(items, geometry, i) then SetSlot(s, bindless, UboGeometry, GeometrySlotRange(pair, sizes)) else s;
      if s'.program.Some?
      then s'.(uniforms := s'.uniforms[(s'.program.value, 0) := GeometryUniform(geometry[items[i].geometryIndex], items[i].shorts, sizes)])
      else s'
  }

  /** Updating the matrix: on a matrix change the object slot is bound to the item's `MatrixNode`. */
  function MatrixEffect(s: GlState, items: seq<DrawItem>, sizes: Sizes, bindless: bool, i: nat): GlState
    requires i < |items|
  {
    if Changes(items, i, MatrixCategory) then SetSlot(s, bindless, UboObject, MatrixRange(items[i].matrixIndex, sizes)) else s
  }

  /** The task payload: for a task item, uniform 1 of the current program is set to the payload. */
  function TaskEffect(s: GlState, item: DrawItem): GlState
  {
    if item.task && s.program.Some? then s.(uniforms := s.uniforms[(s.program.value, 1) := TaskPayload(item)]) else s
  }

  lemma RunProgramPart(s: GlState, items: seq<DrawItem>, i: nat)
    requires i < |items|
    ensures Run(s, ProgramPart(items, i)) == ProgramEffect(s, items, i)
  {
    if Changes(items, i, ProgramCategory) {
      RunSingleton(s, UseProgram(ProgramFor(items[i].task)));
    }
  }

  lemma RunGeometryPart(s: GlState, items: seq<DrawItem>, geometry: seq<Geometry>, sizes: Sizes, bindless: bool, i: nat)
    requires ValidSizes(sizes) && WellIndexed(items, geometry) && i < |items|
    ensures Run(s, GeometryPart(items, geometry, sizes, bindless, i)) == GeometryEffect(s, items, geometry, sizes, bindless, i)
  {
    if Changes(items, i, GeometryCategory) {
      var pair := PairOf(items, geometry, i);
      var push := Uniform4ui(0, GeometryUniform(geometry[items[i].geometryIndex], items[i].shorts, sizes));
      if pair != LastBoundPair(items, geometry, i) {
        var bind := BindCall(bindless, UboGeometry, GeometrySlotRange(pair, sizes));
        RunAppend(s, [bind], [push]);
        RunSingleton(s, bind);
        RunSingleton(Apply(s, bind), push);
      } else {
        RunSingleton(s, push);
      }
    }
  }

  lemma RunMatrixPart(s: GlState, items: seq<DrawItem>, sizes: Sizes, bindless: bool, i: nat)
    requires i < |items|
    ensures Run(s, MatrixPart(items, sizes, bindless, i)) == MatrixEffect(s, items, sizes, bindless, i)
  {
    if Changes(items, i, MatrixCategory) {
      RunSingleton(s, BindCall(bindless, UboObject, MatrixRange(items[i].matrixIndex, sizes)));
    }
  }

  lemma RunTaskPart(s: GlState, item: DrawItem)
    ensures Run(s, TaskPart(item)) == TaskEffect(s, item)
  {
    if item.task {
      RunSingleton(s, Uniform4ui(1, TaskPayload(item)));
    }
  }

  /** The effect of item `i`'s preparation on the GL state: the four effects above, in the order the loop body issues them. */
  function PrepareState(s: GlState, items: seq<DrawItem>, geometry: seq<Geometry>, sizes: Sizes, bindless: bool, i: nat): GlState
    requires ValidSizes(sizes) && WellIndexed(items, geometry) && i < |items|
  {
    TaskEffect(MatrixEffect(GeometryEffect(ProgramEffect(s, items, i), items, geometry, sizes, bindless, i), items, sizes, bindless, i), items[i])
  }

  /** Executing item `i`'s preparation has the effect PrepareState states, in either binding mode. */
  lemma PrepareEffect(s: GlState, items: seq<DrawItem>, geometry: seq<Geometry>, sizes: Sizes, bindless: bool, i: nat)
    requires ValidSizes(sizes) && WellIndexed(items, geometry) && i < |items|
    ensures Run(s, Prepare(items, geometry, sizes, bindless, i)) == PrepareState(s, items, geometry, sizes, bindless, i)
  {
    var p := ProgramPart(items, i);
    var g := GeometryPart(items, geometry, sizes, bindless, i);
    var m := MatrixPart(items, sizes, bindless, i);
    var t := TaskPart(items[i]);
    RunAppend(s, p + g + m, t);
    RunAppend(s, p + g, m);
    RunAppend(s, p, g);
    var s1 := Run(s, p);
    var s2 := Run(s1, g);
    var s3 := Run(s2, m);
    RunProgramPart(s, items, i);
    RunGeometryPart(s1, items, geometry, sizes, bindless, i);
    RunMatrixPart(s2, items, sizes, bindless, i);
    RunTaskPart(s3, items[i]);
  }

  /** Item `i`'s whole segment has the same effect: its draw changes nothing. */
  lemma SegmentEffect(s: GlState, items: seq<DrawItem>, geometry: seq<Geometry>, sizes: Sizes, bindless: bool, i: nat)
    requires ValidSizes(sizes) && WellIndexed(items, geometry) && i < |items|
    ensures Run(s, Segment(items, geometry, sizes, bindless, i)) == PrepareState(s, items, geometry, sizes, bindless, i)
  {
    DrawKeepsState(s, Prepare(items, geometry, sizes, bindless, i), DrawCall(items[i]));
    PrepareEffect(s, items, geometry, sizes, bindless, i);
  }

  /** The state after the first `n` items is item `n - 1`'s preparation effect on the state after the first `n - 1`. */
  lemma TraceEffect(s0: GlState, items: seq<DrawItem>, geometry: seq<Geometry>, sizes: Sizes, bindless: bool, n: nat)
    requires ValidSizes(sizes) && WellIndexed(items, geometry) && 0 < n <= |items|
    ensures Run(s0, TraceUpTo(items, geometry, sizes, bindless, n))
         == PrepareState(Run(s0, TraceUpTo(items, geometry, sizes, bindless, n - 1)), items, geometry, sizes, bindless, n - 1)
  {
    var before := TraceUpTo(items, geometry, sizes, bindless, n - 1);
    RunAppend(s0, before, Segment(items, geometry, sizes, bindless, n - 1));
    SegmentEffect(Run(s0, before), items, geometry, sizes, bindless, n - 1);
  }

  /** A draw changes no GL state. */
  lemma DrawKeepsState(s: GlState, prep: seq<Command>, call: Command)
    requires call.DrawMeshTasks?
    ensures Run(s, prep + [call]) == Run(s, prep)
  {
    RunAppend(s, prep, [call]);
    RunSingleton(Run(s, prep), call);
  }

  /**
   * Item `i`'s preparation leaves the GL state ready for it, from any state
   * for the first item and from a state ready for item `i - 1` otherwise.
   */
  lemma PrepareReady(s: GlState, items: seq<DrawItem>, geometry: seq<Geometry>, sizes: Sizes, bindless: bool, i: nat)
    requires ValidSizes(sizes) && WellIndexed(items, geometry) && SharedGeometryAgrees(items) && i < |items|
    requires i > 0 ==> Ready(s, items, geometry, sizes, bindless, i - 1)
    ensures Ready(PrepareState(s, items, geometry, sizes, bindless, i), items, geometry, sizes, bindless, i)
  {
    var item := items[i];
    if i > 0 {
      BoundPairIsPrevious(items, geometry, i);
      if !Changes(items, i, GeometryCategory) {
        assert AgreesWithPrevious(items, i);
        assert item.shorts == items[i - 1].shorts && item.task == items[i - 1].task;
        assert PairOf(items, geometry, i) == PairOf(items, geometry, i - 1);
      }
    } else {
      assert PairOf(items, geometry, i) != LastBoundPair(items, geometry, i);
    }
    var p := ProgramFor(item.task);
    var g := GeometryEffect(ProgramEffect(s, items, i), items, geometry, sizes, bindless, i);
    assert g.program == Some(p);
    assert (p, 0) in g.uniforms && g.uniforms[(p, 0)] == GeometryUniform(geometry[item.geometryIndex], item.shorts, sizes);
    assert UboGeometry in Slots(g, bindless) && Slots(g, bindless)[UboGeometry] == GeometrySlotRange(PairOf(items, geometry, i), sizes);
    assert !Changes(items, i, MatrixCategory) ==>
      UboObject in Slots(g, bindless) && Slots(g, bindless)[UboObject] == MatrixRange(item.matrixIndex, sizes);
    MatrixAndTaskReady(g, items, geometry, sizes, bindless, i);
  }

  /** Once the program, geometry values and geometry slot are in place, the matrix update and the task payload complete the readiness of item `i`. */
  lemma MatrixAndTaskReady(g: GlState, items: seq<DrawItem>, geometry: seq<Geometry>, sizes: Sizes, bindless: bool, i: nat)
    requires ValidSizes(sizes) && WellIndexed(items, geometry) && i < |items|
    requires g.program == Some(ProgramFor(items[i].task))
    requires (ProgramFor(items[i].task), 0) in g.uniforms
      && g.uniforms[(ProgramFor(items[i].task), 0)] == GeometryUniform(geometry[items[i].geometryIndex], items[i].shorts, sizes)
    requires UboGeometry in Slots(g, bindless) && Slots(g, bindless)[UboGeometry] == GeometrySlotRange(PairOf(items, geometry, i), sizes)
    requires !Changes(items, i, MatrixCategory) ==>
      UboObject in Slots(g, bindless) && Slots(g, bindless)[UboObject] == MatrixRange(items[i].matrixIndex, sizes)
    ensures Ready(TaskEffect(MatrixEffect(g, items, sizes, bindless, i), items[i]), items, geometry, sizes, bindless, i)
  {
  }

  /** After the first `n` items, the GL state is ready for item `n - 1`. */
  lemma {:induction false} ReadyAfterTrace(s0: GlState, items: seq<DrawItem>, geometry: seq<Geometry>, sizes: Sizes, bindless: bool, n: nat)
    requires ValidSizes(sizes) && WellIndexed(items, geometry) && SharedGeometryAgrees(items) && 0 < n <= |items|
    ensures Ready(Run(s0, TraceUpTo(items, geometry, sizes, bindless, n)), items, geometry, sizes, bindless, n - 1)
    decreases n
  {
    var s := Run(s0, TraceUpTo(items, geometry, sizes, bindless, n - 1));
    if n > 1 {
      ReadyAfterTrace(s0, items, geometry, sizes, bindless, n - 1);
    }
    TraceEffect(s0, items, geometry, sizes, bindless, n);
    PrepareReady(s, items, geometry, sizes, bindless, n - 1);
  }

  /**
   * Whatever the GL state before the pass, when consecutive items sharing a
   * geometry agree on index width and task flag, every draw is issued with
   * its item's program, geometry values, geometry slot, matrix and payload.
   */
  lemma EveryDrawReady(s0: GlState, items: seq<DrawItem>, geometry: seq<Geometry>, sizes: Sizes, bindless: bool, i: nat)
    requires ValidSizes(sizes) && WellIndexed(items, geometry) && SharedGeometryAgrees(items) && i < |items|
    ensures Ready(Run(s0, TraceUpTo(items, geometry, sizes, bindless, i) + Prepare(items, geometry, sizes, bindless, i)),
                  items, geometry, sizes, bindless, i)
  {
    RunAppend(s0, TraceUpTo(items, geometry, sizes, bindless, i), Prepare(items, geometry, sizes, bindless, i));
    if i > 0 {
      ReadyAfterTrace(s0, items, geometry, sizes, bindless, i);
    }
    PrepareEffect(Run(s0, TraceUpTo(items, geometry, sizes, bindless, i)), items, geometry, sizes, bindless, i);
    PrepareReady(Run(s0, TraceUpTo(items, geometry, sizes, bindless, i)), items, geometry, sizes, bindless, i);
  }

  /**
   * The end of the pass unbinds the stats storage slot and the three uniform
   * slots and changes nothing else; in particular it leaves the unified-memory
   * address ranges as they are.
   */
  lemma EndOfPassUnbinds(s: GlState)
    ensures var r := Run(s, EndOfPass());
      r.program == s.program && r.uniforms == s.uniforms
      && r.bound == s.bound - {SsboSceneStats, UboSceneView, UboObject, UboGeometry}
      && r.addressed == s.addressed
  {
    var e := EndOfPass();
    assert e == [e[0]] + [e[1]] + [e[2]] + [e[3]];
    RunAppend(s, [e[0]] + [e[1]] + [e[2]], [e[3]]);
    RunAppend(s, [e[0]] + [e[1]], [e[2]]);
    RunAppend(s, [e[0]], [e[1]]);
    var s1 := Run(s, [e[0]]);
    var s2 := Run(s1, [e[1]]);
    var s3 := Run(s2, [e[2]]);
    RunSingleton(s, e[0]);
    RunSingleton(s1, e[1]);
    RunSingleton(s2, e[2]);
    RunSingleton(s3, e[3]);
  }

  /**
   * Whatever the state before it, no buffer stays bound to those four slots
   * after the pass. In the unified-memory mode the unbinds leave the address
   * ranges the loop set: after a non-empty list the geometry slot's address
   * range is still the last bound pair's.
   */
  lemma PassLeavesSlotsUnbound(s0: GlState, items: seq<DrawItem>, geometry: seq<Geometry>, sizes: Sizes, bindless: bool)
    requires ValidSizes(sizes) && WellIndexed(items, geometry)
    ensures var r := Run(s0, TraceUpTo(items, geometry, sizes, bindless, |items|) + EndOfPass());
      SsboSceneStats !in r.bound && UboSceneView !in r.bound && UboObject !in r.bound && UboGeometry !in r.bound
    ensures var r := Run(s0, TraceUpTo(items, geometry, sizes, bindless, |items|) + EndOfPass());
      bindless && |items| > 0 ==>
        UboGeometry in r.addressed && r.addressed[UboGeometry] == GeometrySlotRange(LastBoundPair(items, geometry, |items|), sizes)
  {
    var t := TraceUpTo(items, geometry, sizes, bindless, |items|);
    RunAppend(s0, t, EndOfPass());
    EndOfPassUnbinds(Run(s0, t));
    if |items| > 0 {
      GeometrySlotAfterTrace(s0, items, geometry, sizes, bindless, |items|);
    }
  }

  /**
   * The first `n` items in the unified-memory mode, from the mirrored state,
   * reach the mirror of the state they reach in the bind-range mode: the
   * address ranges the shaders read in the one are the bindings they read in
   * the other.
   */
  lemma TraceModesMirror(s0: GlState, items: seq<DrawItem>, geometry: seq<Geometry>, sizes: Sizes, n: nat)
    requires ValidSizes(sizes) && WellIndexed(items, geometry) && n <= |items|
    ensures Run(Mirror(s0), TraceUpTo(items, geometry, sizes, true, n)) == Mirror(Run(s0, TraceUpTo(items, geometry, sizes, false, n)))
  {
    BindlessSameDecisions(items, geometry, sizes, n);
    PlainTrace(items, geometry, sizes, n);
    MirrorRun(s0, TraceUpTo(items, geometry, sizes, false, n));
  }

  // ---------------------------------------------------------------------
  // What the change detection misses when consecutive items share a geometry but not its width or task flag

  /** Item `i`'s preparation moves the geometry slot from the pair bound before it to the pair bound after it. */
  lemma PrepareGeometrySlot(s: GlState, items: seq<DrawItem>, geometry: seq<Geometry>, sizes: Sizes, bindless: bool, i: nat)
    requires ValidSizes(sizes) && WellIndexed(items, geometry) && i < |items|
    requires i > 0 ==> UboGeometry in Slots(s, bindless) && Slots(s, bindless)[UboGeometry] == GeometrySlotRange(LastBoundPair(items, geometry, i), sizes)
    ensures var r := PrepareState(s, items, geometry, sizes, bindless, i);
      UboGeometry in Slots(r, bindless) && Slots(r, bindless)[UboGeometry] == GeometrySlotRange(LastBoundPair(items, geometry, i + 1), sizes)
  {
    assert i == 0 ==> Changes(items, i, GeometryCategory);
    var g := GeometryEffect(ProgramEffect(s, items, i), items, geometry, sizes, bindless, i);
    assert UboGeometry in Slots(g, bindless) && Slots(g, bindless)[UboGeometry] == GeometrySlotRange(LastBoundPair(items, geometry, i + 1), sizes);
    MatrixAndTaskKeepGeometrySlot(g, items, sizes, bindless, i);
  }

  /** The matrix update and the task payload leave the geometry slot alone. */
  lemma MatrixAndTaskKeepGeometrySlot(g: GlState, items: seq<DrawItem>, sizes: Sizes, bindless: bool, i: nat)
    requires i < |items| && UboGeometry in Slots(g, bindless)
    ensures var r := TaskEffect(MatrixEffect(g, items, sizes, bindless, i), items[i]);
      UboGeometry in Slots(r, bindless) && Slots(r, bindless)[UboGeometry] == Slots(g, bindless)[UboGeometry]
  {
  }

  /** An item that does not change geometry leaves the geometry slot as it was. */
  lemma PrepareKeepsGeometrySlot(s: GlState, items: seq<DrawItem>, geometry: seq<Geometry>, sizes: Sizes, bindless: bool, i: nat)
    requires ValidSizes(sizes) && WellIndexed(items, geometry) && i < |items|
    requires !Changes(items, i, GeometryCategory) && UboGeometry in Slots(s, bindless)
    ensures var r := PrepareState(s, items, geometry, sizes, bindless, i);
      UboGeometry in Slots(r, bindless) && Slots(r, bindless)[UboGeometry] == Slots(s, bindless)[UboGeometry]
  {
  }

  /** After the first `n` items, the geometry slot holds the last bound pair's range, from any starting state and whether or not the items agree. */
  lemma {:induction false} GeometrySlotAfterTrace(s0: GlState, items: seq<DrawItem>, geometry: seq<Geometry>, sizes: Sizes, bindless: bool, n: nat)
    requires ValidSizes(sizes) && WellIndexed(items, geometry) && 0 < n <= |items|
    ensures var r := Run(s0, TraceUpTo(items, geometry, sizes, bindless, n));
      UboGeometry in Slots(r, bindless) && Slots(r, bindless)[UboGeometry] == GeometrySlotRange(LastBoundPair(items, geometry, n), sizes)
    decreases n
  {
    var s := Run(s0, TraceUpTo(items, geometry, sizes, bindless, n - 1));
    if n > 1 {
      GeometrySlotAfterTrace(s0, items, geometry, sizes, bindless, n - 1);
    }
    TraceEffect(s0, items, geometry, sizes, bindless, n);
    PrepareGeometrySlot(s, items, geometry, sizes, bindless, n - 1);
  }

  /** Item `i` issues no geometry command, so after its preparation the slot still holds item `i - 1`'s pair, which is not item `i`'s. */
  lemma StaleSlotState(s: GlState, items: seq<DrawItem>, geometry: seq<Geometry>, sizes: Sizes, bindless: bool, i: nat)
    requires ValidSizes(sizes) && WellIndexed(items, geometry) && 0 < i < |items| && sizes.geometryUboSize > 0
    requires items[i].geometryIndex == items[i - 1].geometryIndex && items[i].shorts != items[i - 1].shorts
    requires UboGeometry in Slots(s, bindless) && Slots(s, bindless)[UboGeometry] == GeometrySlotRange(PairOf(items, geometry, i - 1), sizes)
    ensures var r := PrepareState(s, items, geometry, sizes, bindless, i);
      && UboGeometry in Slots(r, bindless)
      && Slots(r, bindless)[UboGeometry] == GeometrySlotRange(PairOf(items, geometry, i - 1), sizes)
      && Slots(r, bindless)[UboGeometry] != GeometrySlotRange(PairOf(items, geometry, i), sizes)
      && !Ready(r, items, geometry, sizes, bindless, i)
  {
    assert !Changes(items, i, GeometryCategory);
    PrepareKeepsGeometrySlot(s, items, geometry, sizes, bindless, i);
    SlotRangesDistinct(PairOf(items, geometry, i - 1), PairOf(items, geometry, i), sizes);
  }

  /**
   * An item that shares the previous item's geometry but not its index
   * width (right after a geometry change) issues no geometry command, so
   * its draw sees the previous item's (chunk, width) slot.
   */
  lemma WidthOnlyChangeKeepsStaleSlot(s0: GlState, items: seq<DrawItem>, geometry: seq<Geometry>, sizes: Sizes, bindless: bool, i: nat)
    requires ValidSizes(sizes) && WellIndexed(items, geometry) && 0 < i < |items| && sizes.geometryUboSize > 0
    requires Changes(items, i - 1, GeometryCategory)
    requires items[i].geometryIndex == items[i - 1].geometryIndex && items[i].shorts != items[i - 1].shorts
    ensures GeometryPart(items, geometry, sizes, bindless, i) == []
    ensures var r := Run(s0, TraceUpTo(items, geometry, sizes, bindless, i) + Prepare(items, geometry, sizes, bindless, i));
      && UboGeometry in Slots(r, bindless)
      && Slots(r, bindless)[UboGeometry] == GeometrySlotRange(PairOf(items, geometry, i - 1), sizes)
      && Slots(r, bindless)[UboGeometry] != GeometrySlotRange(PairOf(items, geometry, i), sizes)
      && !Ready(r, items, geometry, sizes, bindless, i)
  {
    assert !Changes(items, i, GeometryCategory);
    var t := TraceUpTo(items, geometry, sizes, bindless, i);
    var s := Run(s0, t);
    GeometrySlotAfterTrace(s0, items, geometry, sizes, bindless, i);
    RunAppend(s0, t, Prepare(items, geometry, sizes, bindless, i));
    PrepareEffect(s, items, geometry, sizes, bindless, i);
    StaleSlotState(s, items, geometry, sizes, bindless, i);
  }

  /**
   * From a state with no uniform values set, a non-task item then a task
   * item of the same geometry leave the task program current with its
   * uniform 0 unset.
   */
  lemma TaskFlipState(s0: GlState, items: seq<DrawItem>, geometry: seq<Geometry>, sizes: Sizes, bindless: bool)
    requires ValidSizes(sizes) && WellIndexed(items, geometry) && |items| >= 2 && s0.uniforms == map[]
    requires items[1].geometryIndex == items[0].geometryIndex && !items[0].task && items[1].task
    ensures var r := PrepareState(PrepareState(s0, items, geometry, sizes, bindless, 0), items, geometry, sizes, bindless, 1);
      r.program == Some(MeshTaskProgram) && (MeshTaskProgram, 0) !in r.uniforms
  {
    var s := PrepareState(s0, items, geometry, sizes, bindless, 0);
    assert s.program == Some(MeshProgram);
    assert (MeshTaskProgram, 0) !in s.uniforms;
    assert Changes(items, 1, ProgramCategory) && !Changes(items, 1, GeometryCategory);
  }

  /**
   * A non-task item followed by a task item of the same geometry: the
   * second selects the task program but pushes no geometry values into it,
   * so from a state with no uniform values set its draw finds uniform 0 of
   * the task program unset.
   */
  lemma TaskFlipLeavesUniformUnset(s0: GlState, items: seq<DrawItem>, geometry: seq<Geometry>, sizes: Sizes, bindless: bool)
    requires ValidSizes(sizes) && WellIndexed(items, geometry) && |items| >= 2 && s0.uniforms == map[]
    requires items[1].geometryIndex == items[0].geometryIndex && !items[0].task && items[1].task
    ensures ProgramPart(items, 1) == [UseProgram(MeshTaskProgram)]
    ensures GeometryPart(items, geometry, sizes, bindless, 1) == []
    ensures var r := Run(s0, TraceUpTo(items, geometry, sizes, bindless, 1) + Prepare(items, geometry, sizes, bindless, 1));
      r.program == Some(MeshTaskProgram) && (MeshTaskProgram, 0) !in r.uniforms && !Ready(r, items, geometry, sizes, bindless, 1)
  {
    assert Changes(items, 1, ProgramCategory) && !Changes(items, 1, GeometryCategory);
    var t := TraceUpTo(items, geometry, sizes, bindless, 1);
    assert Run(s0, TraceUpTo(items, geometry, sizes, bindless, 0)) == s0;
    TraceEffect(s0, items, geometry, sizes, bindless, 1);
    var s := Run(s0, t);
    RunAppend(s0, t, Prepare(items, geometry, sizes, bindless, 1));
    PrepareEffect(s, items, geometry, sizes, bindless, 1);
    TaskFlipState(s0, items, geometry, sizes, bindless);
  }
}
