# Draw-list traversal of the GL mesh-shader renderer

This project models the per-frame traversal loop of `RendererMeshGL::draw` in the
`gl_vk_meshlet_cadscene` sample. The loop walks the render list once, in order. It keeps
"last bound" markers: `first`, `lastTask`, `lastGeometry`, `lastChunk`, `lastShorts` and
`lastMatrix`. For each item it:

- re-selects the program when the task flag changes;
- pushes the geometry values when the geometry index changes, and inside that branch rebinds the geometry
  uniform slot when the (chunk, index width) pair changes;
- binds the object's matrix when the matrix index changes;
- pushes the task payload for task items;
- issues exactly one mesh-task draw.

After the loop it resets the stats storage slot and the three uniform slots.

The model has four modules:

- `GlCommands` (`gl_commands.dfy`): the GL calls as a `Command` datatype and the slice of GL state they change. That state is:
  - the current program;
  - the uniform values of each program object;
  - the buffer bindings of the indexed slots (`bound`, written by `glBindBufferRange` and cleared by `glBindBufferBase(..., 0)`);
  - the unified-memory address ranges of the uniform slots (`addressed`, written by `glBufferAddressRangeNV`). This is a separate table that `glBindBufferBase` does not touch.

  `Slots` picks the table the shaders read in each mode. `Mirror` swaps the two tables. `Run` executes a command sequence. uint32 wrap-around is explicit (`Wrap32`).
- `DrawList` (`draw_list.dfy`): draw items, geometry records, the values the loop computes per item, and a declarative reference trace. For each item the reference compares it with the item before it and lists the commands issued for it (`ProgramPart`, `GeometryPart`, `MatrixPart`, `TaskPart`, `DrawCall`).
- `RendererMeshGL` (`renderer_gl_mesh.dfy`): the loop itself, as a method `Draw` with a `for` loop over the markers and counters (a `Markers` value). Each iteration (`DrawItemAt`) appends the item's commands to a command trace. Loop invariants tie the markers, counters and trace to the reference.
- `DrawProperties` (`draw_properties.dfy`): what the traversal promises:
  - one draw per item, in order;
  - every bind, push and selection issued exactly when its guarding marker changes;
  - the counters equal to the number of those commands;
  - the two binding modes making the same decisions, each writing the table its shaders read;
  - the GL state every draw sees;
  - the slots unbound after the pass.

The bindless (unified-memory) mode is a `bindless` parameter of `Draw`. It replaces each `glBindBufferRange` with a `glBufferAddressRangeNV` on the same slot, offset and size. The replacement writes the address table instead of the bindings. `TraceModesMirror` shows that the unified-memory trace leaves in the address table exactly what the plain trace leaves in the bindings.

What a draw needs is stated by `Ready`:

- its program is current;
- its geometry values are in uniform 0 of that program;
- its (chunk, width) slot is in the geometry slot of the table the mode reads;
- its matrix is in the object slot of that table;
- for a task item, its payload is in uniform 1.

`EveryDrawReady` proves this for every item of every list in which consecutive items with the same geometry index also have the same index width and task flag (`SharedGeometryAgrees`). The loop compares only `geometryIndex` (line 188). It evaluates the (chunk, width) comparison only inside that branch (line 206). Uniform values belong to the program that is current when they are pushed. Two lemmas show what the traversal then misses when the condition fails:

- `WidthOnlyChangeKeepsStaleSlot`: an item with the same geometry as the one before it but a different index width issues no geometry command. Its draw therefore sees the previous item's slot.
- `TaskFlipLeavesUniformUnset`: a non-task item followed by a task item of the same geometry. The second item selects the task program but pushes no geometry values into it, so its uniform 0 stays unset.

Two consequences of the code as written:

- A change of index width with an unchanged `geometryIndex` issues no geometry command, because line 188 compares only `geometryIndex` (see `WidthOnlyChangeKeepsStaleSlot`).
- `geometryIndex` is not range-checked at line 190, so `Draw` requires `WellIndexed`: every `geometryIndex` lies inside the geometry table.

## Model

| member | source | states |
|---|---|---|
| RendererMeshGL.Draw | nvpro_sample/gl_vk_meshlet_cadscene/renderer_gl_mesh.cpp:160-280 | the issued commands are exactly the reference trace of all items followed by the four end-of-pass unbinds; `statsGeometry` and `statsMatrix` equal the number of items whose geometry or matrix index differs from the previous item's (or that come first); `statsDraw` equals the number of items |
| RendererMeshGL.DrawItemAt | nvpro_sample/gl_vk_meshlet_cadscene/renderer_gl_mesh.cpp:179-269 | one iteration issues exactly item `i`'s reference segment and moves the markers and counters from their values after `i` items to their values after `i + 1` |
| RendererMeshGL.SelectProgram | nvpro_sample/gl_vk_meshlet_cadscene/renderer_gl_mesh.cpp:174-186 | a program selection is issued iff the item is first or its task flag differs from the previous item's; it selects the task program iff the item is a task item; afterwards `first` is false and `lastTask` is the item's flag |
| RendererMeshGL.UpdateGeometry | nvpro_sample/gl_vk_meshlet_cadscene/renderer_gl_mesh.cpp:188-237 | only when the geometry index differs from the previous item's: a slot bind iff the (chunk, width) pair differs from the last bound pair, then the geometry uniform; the count goes up by one exactly then; afterwards `lastChunk`/`lastShorts` hold the last bound pair |
| RendererMeshGL.UpdateMatrix | nvpro_sample/gl_vk_meshlet_cadscene/renderer_gl_mesh.cpp:239-257 | an object bind and a count increment iff the matrix index differs from the previous item's; afterwards `lastMatrix` is the item's index |
| RendererMeshGL.IssueDraw | nvpro_sample/gl_vk_meshlet_cadscene/renderer_gl_mesh.cpp:259-269 | a task payload exactly for task items, then the item's one draw |
| GlCommands.Wrap32 | nvpro_sample/gl_vk_meshlet_cadscene/renderer_gl_mesh.cpp:228-230 | a `uint32_t` cast keeps values below 2^32 and otherwise differs from its argument by a multiple of 2^32 |
| GlCommands.ToAddressRange | nvpro_sample/gl_vk_meshlet_cadscene/renderer_gl_mesh.cpp:209-219 | the unified-memory spelling of a bind has the same kind; applied to the mirrored state, it leaves in the address table what the bind leaves in the bindings; every other command is kept |
| DrawList.GeometryUniform | nvpro_sample/gl_vk_meshlet_cadscene/renderer_gl_mesh.cpp:225-230 | the pushed first vertex is also the attribute buffer's first vertex when the allocator's shared-offset condition holds; the first index times the index width does not exceed the index byte offset |
| DrawList.GeometrySlotRange | nvpro_sample/gl_vk_meshlet_cadscene/renderer_gl_mesh.cpp:208-218 | the slot of pair (chunk, width) is one `GeometryUbo` of the geometry-bindings buffer, starting at byte `sizeof(GeometryUbo) * (chunk * 2 + (shorts ? 1 : 0))` |
| DrawList.SlotRangesDistinct | nvpro_sample/gl_vk_meshlet_cadscene/renderer_gl_mesh.cpp:206-218 | distinct (chunk, width) pairs select distinct slots |
| DrawList.BindCall | nvpro_sample/gl_vk_meshlet_cadscene/renderer_gl_mesh.cpp:209-219 | on every GL state, either spelling sets exactly that slot to that range, in the table its mode writes; the mode flag picks `glBufferAddressRangeNV` or `glBindBufferRange` |
| DrawList.TaskGroupCount | nvpro_sample/gl_vk_meshlet_cadscene/renderer_gl_mesh.cpp:265 | without wrap-around, the group count is the rounded-up quotient of the meshlet count by 32; with it, the quotient of the wrapped sum |
| DrawList.TaskPayload | nvpro_sample/gl_vk_meshlet_cadscene/renderer_gl_mesh.cpp:261 | the payload starts at the first meshlet and, for a non-empty range inside 32 bits, its inclusive end covers exactly `count` meshlets |
| DrawList.DrawCall | nvpro_sample/gl_vk_meshlet_cadscene/renderer_gl_mesh.cpp:264-267 | a non-task item draws its meshlet range directly; a task item draws from group 0 with just enough 32-meshlet groups to cover its meshlets, when the rounding sum fits in 32 bits |
| DrawList.ChangeCount | nvpro_sample/gl_vk_meshlet_cadscene/renderer_gl_mesh.cpp:162-163 | a non-empty list changes each category at least once (the first item) and at most once per item |
| DrawList.ChangeCountRepeated | nvpro_sample/gl_vk_meshlet_cadscene/renderer_gl_mesh.cpp:181-257 | items that all share the first item's identity in a category (task flag, geometry index or matrix index) change that category exactly once |
| DrawList.LastBoundPair | nvpro_sample/gl_vk_meshlet_cadscene/renderer_gl_mesh.cpp:164-166 | the pair bound before item `i` is the "nothing bound" marker exactly before the first item |
| DrawList.TraceIsConcat | nvpro_sample/gl_vk_meshlet_cadscene/renderer_gl_mesh.cpp:175-270 | the trace of the first `n` items is their segments concatenated in item order |
| DrawProperties.ProgramPartCount | nvpro_sample/gl_vk_meshlet_cadscene/renderer_gl_mesh.cpp:181-186 | one program selection for item `i` iff it changes the task flag, nothing else |
| DrawProperties.GeometryPartCount | nvpro_sample/gl_vk_meshlet_cadscene/renderer_gl_mesh.cpp:188-237 | one geometry push iff the geometry index changes; one slot bind iff it changes and the pair differs from the bound one; nothing else |
| DrawProperties.MatrixPartCount | nvpro_sample/gl_vk_meshlet_cadscene/renderer_gl_mesh.cpp:239-257 | one object bind iff the matrix index changes, nothing else |
| DrawProperties.TaskPartCount | nvpro_sample/gl_vk_meshlet_cadscene/renderer_gl_mesh.cpp:259-262 | one task push iff the item is a task item, nothing else |
| DrawProperties.PrepareCounts | nvpro_sample/gl_vk_meshlet_cadscene/renderer_gl_mesh.cpp:179-262 | the commands before item `i`'s draw, counted kind by kind |
| DrawProperties.SegmentCounts | nvpro_sample/gl_vk_meshlet_cadscene/renderer_gl_mesh.cpp:179-269 | all commands of item `i`, counted kind by kind, with exactly one draw |
| DrawProperties.SegmentSwitchCount | nvpro_sample/gl_vk_meshlet_cadscene/renderer_gl_mesh.cpp:181-257 | item `i` issues one switch command of a category iff it changes that category |
| DrawProperties.TraceSwitchCount | nvpro_sample/gl_vk_meshlet_cadscene/renderer_gl_mesh.cpp:175-270 | over the first `n` items, the switch commands of a category number the items that change it |
| DrawProperties.UnbindOnlyAtEnd | nvpro_sample/gl_vk_meshlet_cadscene/renderer_gl_mesh.cpp:175-270 | the loop issues no unbind |
| DrawProperties.SegmentDraws | nvpro_sample/gl_vk_meshlet_cadscene/renderer_gl_mesh.cpp:264-267 | item `i`'s commands contain exactly one draw, its own |
| DrawProperties.DrawsFollowItems | nvpro_sample/gl_vk_meshlet_cadscene/renderer_gl_mesh.cpp:175-269 | the draws of the first `n` items are their draws, one each, in item order |
| DrawProperties.EndOfPassCount | nvpro_sample/gl_vk_meshlet_cadscene/renderer_gl_mesh.cpp:277-280 | the end of the pass issues four unbinds and nothing else |
| DrawProperties.AppendEndOfPass | nvpro_sample/gl_vk_meshlet_cadscene/renderer_gl_mesh.cpp:277-280 | appending the end of the pass adds four unbinds and no draw |
| DrawProperties.PassCommands | nvpro_sample/gl_vk_meshlet_cadscene/renderer_gl_mesh.cpp:160-280 | the whole pass: one draw per item in order; program selections, geometry pushes and object binds equal the change counts; four unbinds |
| DrawProperties.RepeatedItemPass | nvpro_sample/gl_vk_meshlet_cadscene/renderer_gl_mesh.cpp:175-280 | items that share the first item's geometry, width, matrix and task flag: one program selection, one geometry slot bind, one geometry push, one object bind, and one draw per item |
| DrawProperties.FirstItemBindsEverything | nvpro_sample/gl_vk_meshlet_cadscene/renderer_gl_mesh.cpp:161-186 | the first item selects its program, binds its geometry slot, pushes its geometry values and binds its object |
| DrawProperties.ThreeItemExample | nvpro_sample/gl_vk_meshlet_cadscene/renderer_gl_mesh.cpp:175-270 | geometries 0, 0, 1 with one matrix: two geometry changes, one matrix change, one program selection, three draws |
| DrawProperties.BindCallModes | nvpro_sample/gl_vk_meshlet_cadscene/renderer_gl_mesh.cpp:209-219 | the unified-memory bind is the plain bind in its other spelling |
| DrawProperties.ProgramPartModes | nvpro_sample/gl_vk_meshlet_cadscene/renderer_gl_mesh.cpp:181-186 | a program selection is the same call in both modes |
| DrawProperties.MatrixPartModes | nvpro_sample/gl_vk_meshlet_cadscene/renderer_gl_mesh.cpp:244-252 | the object bind of both modes agrees up to the spelling of the bind |
| DrawProperties.TaskPartModes | nvpro_sample/gl_vk_meshlet_cadscene/renderer_gl_mesh.cpp:259-262 | the task payload push is the same call in both modes |
| DrawProperties.GeometryPartModes | nvpro_sample/gl_vk_meshlet_cadscene/renderer_gl_mesh.cpp:206-230 | the geometry commands of both modes agree up to the spelling of the bind |
| DrawProperties.SegmentModes | nvpro_sample/gl_vk_meshlet_cadscene/renderer_gl_mesh.cpp:179-269 | each item's commands in both modes agree up to the spelling of the binds |
| DrawProperties.BindlessSameDecisions | nvpro_sample/gl_vk_meshlet_cadscene/renderer_gl_mesh.cpp:194-252 | the unified-memory trace is the plain trace with every bind respelled: the same decisions at the same offsets and sizes |
| DrawProperties.AddressRangeSameCounts | nvpro_sample/gl_vk_meshlet_cadscene/renderer_gl_mesh.cpp:209-252 | respelling the binds changes no command count of any kind |
| DrawList.ProgramPart | nvpro_sample/gl_vk_meshlet_cadscene/renderer_gl_mesh.cpp:181-186 | at most one command: a selection of the program matching the item's task flag, issued iff the item is first or its task flag changes |
| DrawList.GeometryPart | nvpro_sample/gl_vk_meshlet_cadscene/renderer_gl_mesh.cpp:188-237 | nothing unless the geometry index changes; then a slot bind iff the (chunk, width) pair differs from the bound one, followed by the push of the item's geometry values to uniform 0 |
| DrawList.MatrixPart | nvpro_sample/gl_vk_meshlet_cadscene/renderer_gl_mesh.cpp:239-257 | at most one command, issued iff the matrix index changes; it sets the object slot to the item's matrix range in the mode's table |
| DrawList.TaskPart | nvpro_sample/gl_vk_meshlet_cadscene/renderer_gl_mesh.cpp:259-262 | one push of the payload to uniform 1 for a task item, none otherwise |
| DrawList.MatrixRange | nvpro_sample/gl_vk_meshlet_cadscene/renderer_gl_mesh.cpp:244-251 | the object slot of matrix `m` is one `MatrixNode` of the matrices buffer, starting at byte `alignedMatrixSize * m` |
| DrawList.TraceUpTo | nvpro_sample/gl_vk_meshlet_cadscene/renderer_gl_mesh.cpp:175-270 | the commands of the first `n` items hold at least one command per item and end with the last item's draw |
| DrawList.EndOfPass | nvpro_sample/gl_vk_meshlet_cadscene/renderer_gl_mesh.cpp:277-280 | four commands, all of them unbinds (which slots they clear is stated by `EndOfPassUnbinds`) |
| DrawProperties.SharedStateChangesOnce | nvpro_sample/gl_vk_meshlet_cadscene/renderer_gl_mesh.cpp:181-257 | items sharing the first item's task flag, geometry and matrix change each category once |
| DrawProperties.SharedStateBindsSlotOnce | nvpro_sample/gl_vk_meshlet_cadscene/renderer_gl_mesh.cpp:188-223 | over items sharing the first item's state, the geometry slot is bound exactly once |
| DrawProperties.SegmentSlotBinds | nvpro_sample/gl_vk_meshlet_cadscene/renderer_gl_mesh.cpp:188-223 | over items sharing the first item's state, item `i` binds the geometry slot iff it changes geometry |
| DrawProperties.MatrixAndTaskReady | nvpro_sample/gl_vk_meshlet_cadscene/renderer_gl_mesh.cpp:239-262 | once the program, the geometry values and the geometry slot are in place, the matrix update and the task payload finish making the state ready for the item |
| DrawProperties.MatrixAndTaskKeepGeometrySlot | nvpro_sample/gl_vk_meshlet_cadscene/renderer_gl_mesh.cpp:239-262 | the matrix update and the task payload leave the geometry slot alone |
| DrawProperties.PlainSegment | nvpro_sample/gl_vk_meshlet_cadscene/renderer_gl_mesh.cpp:179-269 | in the bind-range mode an item's commands set no address range and unbind nothing |
| DrawProperties.PlainTrace | nvpro_sample/gl_vk_meshlet_cadscene/renderer_gl_mesh.cpp:175-270 | in the bind-range mode the loop sets no address range and unbinds nothing |
| DrawProperties.MirrorRun | nvpro_sample/gl_vk_meshlet_cadscene/renderer_gl_mesh.cpp:209-252 | commands that set no address range and unbind nothing, respelled and run from the mirrored state, reach the mirror of the state they reach |
| DrawProperties.TraceModesMirror | nvpro_sample/gl_vk_meshlet_cadscene/renderer_gl_mesh.cpp:175-270 | from mirrored states, the unified-memory trace leaves in the address table exactly what the plain trace leaves in the bindings, with the same program and uniforms |
| DrawProperties.BoundPairIsPrevious | nvpro_sample/gl_vk_meshlet_cadscene/renderer_gl_mesh.cpp:188-223 | when items sharing a geometry agree on width, the pair bound before item `i` is item `i - 1`'s |
| DrawProperties.RunProgramPart | nvpro_sample/gl_vk_meshlet_cadscene/renderer_gl_mesh.cpp:181-186 | the program part makes the item's program current exactly on a change and changes nothing else |
| DrawProperties.RunGeometryPart | nvpro_sample/gl_vk_meshlet_cadscene/renderer_gl_mesh.cpp:188-237 | on a geometry change: the geometry slot gets the item's pair when it differs, and uniform 0 of the current program gets the item's geometry values; nothing else changes |
| DrawProperties.RunMatrixPart | nvpro_sample/gl_vk_meshlet_cadscene/renderer_gl_mesh.cpp:239-257 | on a matrix change the object slot gets the item's matrix; nothing else changes |
| DrawProperties.RunTaskPart | nvpro_sample/gl_vk_meshlet_cadscene/renderer_gl_mesh.cpp:259-262 | for a task item, uniform 1 of the current program gets the payload; nothing else changes |
| DrawProperties.PrepareEffect | nvpro_sample/gl_vk_meshlet_cadscene/renderer_gl_mesh.cpp:179-262 | the commands before item `i`'s draw have the four parts' state effects, composed in the order the loop issues them |
| DrawProperties.SegmentEffect | nvpro_sample/gl_vk_meshlet_cadscene/renderer_gl_mesh.cpp:179-269 | item `i`'s draw changes no state, so its segment has its preparation's effect |
| DrawProperties.TraceEffect | nvpro_sample/gl_vk_meshlet_cadscene/renderer_gl_mesh.cpp:175-270 | the state after `n` items is item `n - 1`'s effect on the state after `n - 1` items |
| DrawProperties.DrawKeepsState | nvpro_sample/gl_vk_meshlet_cadscene/renderer_gl_mesh.cpp:267 | a draw changes no GL state |
| DrawProperties.PrepareReady | nvpro_sample/gl_vk_meshlet_cadscene/renderer_gl_mesh.cpp:179-262 | when items sharing a geometry agree, item `i`'s preparation makes the state ready for it, from any state for the first item and from a state ready for item `i - 1` otherwise |
| DrawProperties.ReadyAfterTrace | nvpro_sample/gl_vk_meshlet_cadscene/renderer_gl_mesh.cpp:175-270 | after `n` items the state is still ready for item `n - 1` |
| DrawProperties.EveryDrawReady | nvpro_sample/gl_vk_meshlet_cadscene/renderer_gl_mesh.cpp:175-270 | from any initial state, every draw sees its program, its geometry values, its geometry slot and its matrix in the table its mode reads, and (for task items) its payload |
| DrawProperties.EndOfPassUnbinds | nvpro_sample/gl_vk_meshlet_cadscene/renderer_gl_mesh.cpp:277-280 | the end of the pass removes exactly the four slots' bindings; it keeps the program, the uniforms and the address ranges |
| DrawProperties.PassLeavesSlotsUnbound | nvpro_sample/gl_vk_meshlet_cadscene/renderer_gl_mesh.cpp:160-280 | after the whole pass none of the four slots holds a buffer binding; in the unified-memory mode, after a non-empty list, the geometry slot's address range is still the last bound pair's |
| DrawProperties.PrepareGeometrySlot | nvpro_sample/gl_vk_meshlet_cadscene/renderer_gl_mesh.cpp:188-223 | item `i` moves the geometry slot of the mode's table from the pair bound before it to the pair bound after it |
| DrawProperties.PrepareKeepsGeometrySlot | nvpro_sample/gl_vk_meshlet_cadscene/renderer_gl_mesh.cpp:188 | an item that does not change geometry leaves the geometry slot of the mode's table as it was |
| DrawProperties.GeometrySlotAfterTrace | nvpro_sample/gl_vk_meshlet_cadscene/renderer_gl_mesh.cpp:175-270 | for every list and initial state, after `n` items the geometry slot of the mode's table holds the last bound pair's slot |
| DrawProperties.StaleSlotState | nvpro_sample/gl_vk_meshlet_cadscene/renderer_gl_mesh.cpp:188-206 | an item with the previous geometry but another width keeps the previous slot, which is not its own, so it is not ready |
| DrawProperties.WidthOnlyChangeKeepsStaleSlot | nvpro_sample/gl_vk_meshlet_cadscene/renderer_gl_mesh.cpp:188-206 | after a geometry change, a width-only change issues no geometry command and its draw sees the previous item's slot |
| DrawProperties.TaskFlipState | nvpro_sample/gl_vk_meshlet_cadscene/renderer_gl_mesh.cpp:181-228 | from a state with no uniform values, a non-task item then a task item of the same geometry leave the task program current with uniform 0 unset |
| DrawProperties.TaskFlipLeavesUniformUnset | nvpro_sample/gl_vk_meshlet_cadscene/renderer_gl_mesh.cpp:181-228 | the second item selects the task program but issues no geometry command, so its draw is not ready |

## Left out

- Frame setup and teardown around the loop are not modelled: viewport, framebuffer, clears, enables, buffer uploads, client-state toggles, profiler sections, `copyStats` and bounding boxes. They are GL I/O with no decision logic.
- Renderer registration, extension checks, `init` and `deinit` are not modelled. They are factory plumbing over GL extension flags.
- The `USE_PER_GEOMETRY_VIEWS` compile-time variant (lines 193-204) is not modelled. It binds slot `geometryIndex` instead of the (chunk, width) slot. The default `#else` branch is the one modelled.
- The unused `lastMaterial` and `statsMaterial` locals are not modelled; they have no behaviour.
- Byte offsets of binds are unbounded naturals. The `size_t` products `sizeof(GeometryUbo) * idx` and `alignedMatrixSize * matrixIndex` are not wrapped at 64 bits.
- `Draw` does not model overflow of the `int(chunkIndex)` cast or of the `int` markers. Chunk indices, geometry indices and matrix indices are naturals.
- `Draw` requires every `geometryIndex` to lie inside the geometry table, because the code does not check it. No out-of-range error path exists in the code.
- `Draw` requires the vertex and attribute offsets of every drawn geometry to name the same vertex. The code checks this only with a debug `assert`.
- `DrawProperties.EveryDrawReady`: this is proved only for lists in which consecutive items sharing a geometry agree on index width and task flag. `WidthOnlyChangeKeepsStaleSlot` and `TaskFlipLeavesUniformUnset` show that it fails otherwise.
- The GL state holds only the current program, the uniform values per program, the indexed slot bindings and the unified-memory address ranges. Buffer contents, the device addresses behind the ranges, and GL errors are not modelled.
- The frame setup that zeroes the uniform address ranges (lines 146-148) and binds the scene view (lines 151-158) comes before the modelled span. The unified-memory client state, enabled at line 144 and disabled at line 294, is also outside it. A unified-memory pass therefore starts from whatever address table the caller supplies, and its address ranges stay set after the end-of-pass unbinds.
