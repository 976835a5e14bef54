# Voxel model editor document core, in Dafny

This project models the document layer of a voxel model editor: the editable model that a
window edits and draws. A model has three parts:

- a palette of colours, with runs of tags over the colour indices;
- an ordered list of parts, each a sparse set of coloured voxels with a mesh of visible faces,
  a bounding box and a few recorded fields (parent part, bond name, base point, translation);
- an undo history that every recorded edit appends to.

The model is split into modules that follow the source files:

- `Wrappers` (`wrappers.dfy`): `Option`, `Result` and the .NET exceptions the code throws.
- `VoxelStorage` (`storage.dfy`): `VoxelDataStorage<TValue>`.
  - Sparse storage in 8×8×8 blocks, each with a value array and a 65-word bitmap.
  - `Block`, `VoxelDataStorage` and its enumerator are classes over arrays.
  - A ghost `view` (one snapshot per block) ties the arrays to pure functions: cell lookup
    (`Lookup`), the enumeration order (`Enumerate`) and what an enumerator has left (`RestFrom`).
- `VertexBuffers` (`vertex_buffers.dfy`): `VertexBufferList<TVertex>`.
  - A list of fixed 1024-slot buffers, each a class over an array.
  - Its contents (`Items`) and free-slot count (`Free`) are pure functions of a ghost view.
- `Mesh` (`mesh.dfy`): the pure side of a part's mesh.
  - The faces `UpdateVoxel` emits for one voxel and the colour `AddFace` gives them.
  - The bounding box that grows voxel by voxel.
- `TagRuns` (`tag_runs.dfy`): the loop of `EditablePalette.SetMetadata` as a pure pass over
  the tag runs, with its outcome (runs, or the exception it throws).
- `VoxelBatches` (`voxel_batches.dfy`): replay of a batch of recorded voxel edits, forward (redo)
  or with the old values (undo), and what the replay leaves in each cell.
- `Document` (`document.dfy`): the classes `UndoManager`, `EditablePalette`,
  `EditableVoxelList` and `EditableModel`.
  - Their methods update fields, arrays and the storage in place.
  - Each undo delegate of the source is a `Command` value. Invoking one (`Invoke*`) mutates
    its target and returns the redo command, as the delegate assigns its `redo`.

Float positions (`Vector3`) are exact reals and are only assigned and compared. Face positions
sit half a unit off a voxel, so they are stored doubled, as integers.

## Model

| member | source | states |
|---|---|---|
| VoxelStorage.BlockCoord | Document/Models/VoxelDataStorage.cs:47-54 | the block of a voxel coordinate c is the b with 8·b ≤ c < 8·b + 8 (rounding down), negative coordinates included |
| VoxelStorage.Wrap32 | Document/Models/VoxelDataStorage.cs:51 | C#'s unchecked int arithmetic: the int32 value congruent to n modulo 2^32, and n itself when n fits in int32 |
| VoxelStorage.BlockCoordAsWrittenAgrees | Document/Models/VoxelDataStorage.cs:47-54 | for every int32 c ≥ int.MinValue + 7, the 32-bit expression as written equals the rounded-down block |
| VoxelStorage.BlockCoordAsWrittenOverflows | Document/Models/VoxelDataStorage.cs:51 | at c = int.MinValue, `c - 8 + 1` wraps and the block is 0x0fffffff instead of -2^28, a block that does not contain c |
| VoxelStorage.LocalIndex | Document/Models/VoxelDataStorage.cs:61-65 | a cell's index inside its block is in 0..511, and its bitmap word is inside the 65-word bitmap |
| VoxelStorage.CellAt | Document/Models/VoxelDataStorage.cs:150-160 | the cell `Current` rebuilds from a block and a bit index lies in that block and has that local index |
| VoxelStorage.CellAtLocalIndex | Document/Models/VoxelDataStorage.cs:150-160 | `Current`'s decoding inverts the encoding of `AddAndGetRef`: a cell's block and local index rebuild that cell |
| VoxelStorage.LocalIndexInjective | Document/Models/VoxelDataStorage.cs:58-65 | two cells with the same block and local index are the same cell |
| VoxelStorage.MaskOr | Document/Models/VoxelDataStorage.cs:66 | after OR-ing bit p into a bitmap word, bit q is set iff q = p or it was set before |
| VoxelStorage.MaskAndNot | Document/Models/VoxelDataStorage.cs:80 | after AND-ing with `255 ^ (1 << p)`, bit q is set iff q ≠ p and it was set before |
| VoxelStorage.SetBit | Document/Models/VoxelDataStorage.cs:66 | marking a cell keeps the bitmap at 65 words |
| VoxelStorage.ClearBit | Document/Models/VoxelDataStorage.cs:80 | clearing a cell keeps the bitmap at 65 words |
| VoxelStorage.SetBitSpec | Document/Models/VoxelDataStorage.cs:66 | after marking cell i, cell j is marked iff j = i or it was marked |
| VoxelStorage.ClearBitSpec | Document/Models/VoxelDataStorage.cs:80 | after clearing cell i, cell j is marked iff j ≠ i and it was marked |
| VoxelStorage.WellFormedReplace | Document/Models/VoxelDataStorage.cs:20-27 | replacing a block by one with the same coordinates and array sizes keeps the block list well formed (distinct coordinates, 512 values, 65 words) |
| VoxelStorage.FindBlock | Document/Models/VoxelDataStorage.cs:31-34 | the search yields -1 or the first block with the coordinates; no earlier block has them |
| VoxelStorage.FindBlockAt | Document/Models/VoxelDataStorage.cs:31-34 | in a well-formed list, searching for a block's coordinates finds that block |
| VoxelStorage.EnsureBlock | Document/Models/VoxelDataStorage.cs:29-45 | after `GetBlock` a block with the coordinates exists, the list is unchanged or has one empty block appended, stays well formed, and no cell's content changes |
| VoxelStorage.EnsureBlockAppends | Document/Models/VoxelDataStorage.cs:35-44 | when no block has the coordinates, exactly one empty block is appended, and it is found at the end |
| VoxelStorage.LookupAppendEmpty | Document/Models/VoxelDataStorage.cs:35-44 | appending an empty block changes no cell's content |
| VoxelStorage.SetCell | Document/Models/VoxelDataStorage.cs:56-68 | writing a cell keeps the block list well formed |
| VoxelStorage.ClearCell | Document/Models/VoxelDataStorage.cs:70-81 | clearing a cell keeps the block list well formed |
| VoxelStorage.LookupSetCell | Document/Models/VoxelDataStorage.cs:56-68 | after `AddAndGetRef(c) = v`, cell c holds v and every other cell keeps its content |
| VoxelStorage.LookupClearCell | Document/Models/VoxelDataStorage.cs:70-81 | after `RemoveAt(c)`, cell c is empty and every other cell keeps its content |
| VoxelStorage.SlotClearCell | Document/Models/VoxelDataStorage.cs:70-81 | `RemoveAt` only clears a bit: every cell's data slot is what `GetBlock` left there |
| VoxelStorage.SetCellEnsured | Document/Models/VoxelDataStorage.cs:56-68 | the block `GetBlock` may append first makes no difference to any cell's content after the write |
| VoxelStorage.ClearCellEnsured | Document/Models/VoxelDataStorage.cs:70-81 | the block `GetBlock` may append first makes no difference to any cell's content after the removal |
| VoxelStorage.ItemsFromAdvance | Document/Models/VoxelDataStorage.cs:182-194 | one step of the scan: what is left from a position is the pair at the next position (if its bit is set) followed by what is left after it, and nothing past the last block |
| VoxelStorage.ScanAdvance | Document/Models/VoxelDataStorage.cs:182-194 | one turn of the do-while loop: a scan that has passed only empty cells stops at the next marked cell, stops past the last block, or passes one more empty cell |
| VoxelStorage.LookupItemAt | Document/Models/VoxelDataStorage.cs:142-164 | the cell `Current` builds at a position holds that value iff the position's bit is set, and is empty otherwise |
| VoxelStorage.ItemAtInjective | Document/Models/VoxelDataStorage.cs:142-164 | two positions that yield the same cell are the same position |
| VoxelStorage.ItemPosition | Document/Models/VoxelDataStorage.cs:172-196 | every pair enumerated from a position is the pair at some marked position at or after it |
| VoxelStorage.ItemsFromContains | Document/Models/VoxelDataStorage.cs:172-196 | the pair at every marked position at or after a position is enumerated from it |
| VoxelStorage.ItemsFromDistinct | Document/Models/VoxelDataStorage.cs:172-196 | from any position, no cell is enumerated twice |
| VoxelStorage.EnumerateExact | Document/Models/VoxelDataStorage.cs:120-196 | enumerating the storage yields exactly the stored (cell, value) pairs, each cell once |
| VoxelStorage.ItemsFromNone | Document/Models/VoxelDataStorage.cs:182-194 | when no bit is set from a position on, the scan yields nothing more |
| VoxelStorage.ItemsFromExtend | Document/Models/VoxelDataStorage.cs:182-194 | blocks appended with no bit set add nothing to the enumeration |
| VoxelStorage.ItemsFromAppendEmpty | Document/Models/VoxelDataStorage.cs:35-44 | an empty block appended by `GetBlock` leaves the enumeration from any position unchanged |
| VoxelStorage.ItemsFromEnsureBlock | Document/Models/VoxelDataStorage.cs:29-45 | `GetBlock` leaves the enumeration from any position unchanged |
| VoxelStorage.MoveNextStep | Document/Models/VoxelDataStorage.cs:172-196 | where `MoveNext`'s loop stops: past the last block, with nothing left; or at a marked position whose pair comes first in what was left |
| VoxelStorage.ItemsFromCount | Document/Models/VoxelDataStorage.cs:182-194 | a scan yields at most one pair per remaining cell position |
| VoxelStorage.EnumerateCount | Document/Models/VoxelDataStorage.cs:120-123 | the enumeration has at most 512 pairs per block |
| VoxelStorage.EnsureBlockExtends | Document/Models/VoxelDataStorage.cs:29-45 | `GetBlock` only extends the storage: existing blocks stay as they are, and appended blocks are empty |
| VoxelStorage.ExtendsTrans | Document/Models/VoxelDataStorage.cs:29-45 | two extensions in a row are one extension |
| VoxelStorage.ExtendsLookup | Document/Models/VoxelDataStorage.cs:83-113 | an extension (the lookups of `HasDataAt` and `TryGet`) keeps every cell's content |
| VoxelStorage.ExtendsRest | Document/Models/VoxelDataStorage.cs:172-196 | an extension leaves the enumeration, and what any enumerator position has left, unchanged |
| VoxelStorage.EnumeratorSurvives | Document/Models/VoxelDataStorage.cs:172-196 | an enumerator at a marked position keeps its position and what it has left when the storage is only extended, as by `HasDataAt` during `UpdateAll`'s foreach |
| VoxelStorage.Block.constructor | Document/Models/VoxelDataStorage.cs:35-42 | a new block has 512 value slots and 65 bitmap words, and no cell marked |
| VoxelStorage.Block.Put | Document/Models/VoxelDataStorage.cs:65-67 | sets the cell's bit and its value slot, nothing else |
| VoxelStorage.Block.Has | Document/Models/VoxelDataStorage.cs:92-93 | returns whether the cell's bit is set |
| VoxelStorage.Block.Remove | Document/Models/VoxelDataStorage.cs:79-80 | clears the cell's bit and keeps every value slot |
| VoxelStorage.VoxelDataStorage.constructor | Document/Models/VoxelDataStorage.cs:27 | a new storage has no blocks |
| VoxelStorage.VoxelDataStorage.GetBlock | Document/Models/VoxelDataStorage.cs:29-45 | returns the first block with the coordinates, appending an empty one when none has them |
| VoxelStorage.VoxelDataStorage.AppendBlock | Document/Models/VoxelDataStorage.cs:35-44 | appends one new empty block with the coordinates |
| VoxelStorage.VoxelDataStorage.AddAndSet | Document/Models/VoxelDataStorage.cs:56-68 | `AddAndGetRef(x, y, z) = v`: the storage becomes `SetCell` of the old one |
| VoxelStorage.VoxelDataStorage.RemoveAt | Document/Models/VoxelDataStorage.cs:70-81 | the storage becomes `ClearCell` of the old one |
| VoxelStorage.VoxelDataStorage.HasDataAt | Document/Models/VoxelDataStorage.cs:83-94 | true iff the cell holds a value; the storage gains at most the looked-up block |
| VoxelStorage.VoxelDataStorage.NextPresent | Document/Models/VoxelDataStorage.cs:182-194 | the do-while loop: returns the first marked position after the start, or a position past the last block when there is none |
| VoxelStorage.VoxelDataStorage.IsPresent | Document/Models/VoxelDataStorage.cs:198-203 | returns whether the position's bit is set |
| VoxelStorage.VoxelDataStorage.TryGet | Document/Models/VoxelDataStorage.cs:96-113 | found iff the cell holds a value; the result is that value, or the default value when not found |
| VoxelStorage.VoxelDataStorage.Clear | Document/Models/VoxelDataStorage.cs:115-118 | afterwards no cell holds a value and nothing is enumerated |
| VoxelStorage.VoxelDataStorage.GetEnumerator | Document/Models/VoxelDataStorage.cs:120-123 | a new enumerator before the first pair: everything is left to enumerate and `Current` throws |
| VoxelStorage.Enumerator.constructor | Document/Models/VoxelDataStorage.cs:136-140 | the enumerator starts before the first block |
| VoxelStorage.Enumerator.Current | Document/Models/VoxelDataStorage.cs:142-164 | throws `InvalidOperationException` before the start and after the end; otherwise the pair at the position, which the storage holds with that value |
| VoxelStorage.Enumerator.CheckCurrent | Document/Models/VoxelDataStorage.cs:198-203 | true iff the position's bit is set, that is, iff its cell holds a value |
| VoxelStorage.Enumerator.MoveNext | Document/Models/VoxelDataStorage.cs:172-196 | throws after the end; otherwise true iff pairs were left, and the pair now current was the first of them; false leaves the enumerator at the end |
| VoxelStorage.Enumerator.Reset | Document/Models/VoxelDataStorage.cs:205-208 | back before the first pair: everything is left to enumerate and `Current` throws |
| Mesh.PaletteColor | Document/Models/EditablePalette.cs:29-33 | an index past the end reads `Color.Transparent`; any other index reads the colour stored there |
| Mesh.Step | Document/Models/EditableVoxelList.cs:223-246 | each of the six face directions is a unit step along one axis |
| Mesh.FaceAt | Document/Models/EditableVoxelList.cs:249-258 | the face `AddFace` builds carries the direction and colour it is given |
| Mesh.FaceAtMidway | Document/Models/EditableVoxelList.cs:223-246 | in doubled coordinates a face's centre is the voxel plus the neighbour it faces, so it sits midway between the two, half a unit along the direction |
| Mesh.Around | Document/Models/EditableVoxelList.cs:223-246 | one occupancy flag per direction, six in all |
| Mesh.AroundAt | Document/Models/EditableVoxelList.cs:223-246 | flag d is the occupancy of the neighbour in direction d |
| Mesh.AroundSame | Document/Models/EditableVoxelList.cs:223-246 | two occupancies that agree on the six neighbours give the same flags |
| Mesh.CountFrom | Document/Models/EditableVoxelList.cs:223-246 | the number of occupied neighbours from direction d on is between 0 and the directions left |
| Mesh.FacesFromCount | Document/Models/EditableVoxelList.cs:223-246 | from direction d on, one face is emitted per empty neighbour |
| Mesh.FacesFromMembers | Document/Models/EditableVoxelList.cs:223-246 | from direction d on, the faces emitted are exactly those towards the empty neighbours |
| Mesh.FaceListSpec | Document/Models/EditableVoxelList.cs:223-246 | `UpdateVoxel` emits 6 minus the occupied neighbours faces, exactly one towards each empty neighbour |
| Mesh.ItemColor | Document/Models/EditableVoxelList.cs:255 | the colour a stored voxel's faces get: its palette entry, made opaque |
| Mesh.AllFacesSource | Document/Models/EditableVoxelList.cs:193-202 | every face a rebuild emits belongs to some enumerated voxel, points in one of the six directions towards an empty neighbour and carries that voxel's colour |
| Mesh.AllFacesVisible | Document/Models/EditableVoxelList.cs:193-202 | every enumerated voxel emits the face towards each empty neighbour, with its own colour |
| Mesh.AllFacesLast | Document/Models/EditableVoxelList.cs:195-201 | the faces of a rebuild are those of all voxels but the last, then the last voxel's faces |
| Mesh.FaceVisible | Document/Models/EditableVoxelList.cs:223-258 | `UpdateVoxel` emits the face towards any empty neighbour |
| Mesh.AllFacesMembers | Document/Models/EditableVoxelList.cs:193-258 | a face is emitted by a rebuild iff some voxel has an empty neighbour in its direction and the face has that voxel's position and colour |
| Mesh.CountAround | Document/Models/EditableVoxelList.cs:223-246 | the number of occupied flags equals the number of occupied neighbours |
| Mesh.AllFacesCount | Document/Models/EditableVoxelList.cs:193-258 | a rebuild emits, summed over the voxels, 6 minus the occupied neighbours faces, so at most six per voxel |
| Mesh.AllFacesSame | Document/Models/EditableVoxelList.cs:193-258 | the faces depend only on the occupancy of the voxels' neighbours: two occupancies that agree there give the same faces |
| Mesh.Widen | Document/Models/EditableVoxelList.cs:206-221 | the bounds after `UpdateVoxel` contain the voxel; uninitialised bounds become that single cell; initialised bounds only grow |
| Mesh.BoundsExact | Document/Models/EditableVoxelList.cs:193-221 | after `UpdateAll` over a non-empty storage the bounds contain every voxel, and each of the six extremes is reached by some voxel |
| Mesh.AttainedWiden | Document/Models/EditableVoxelList.cs:213-221 | widening by one more voxel keeps every extreme reached by a voxel |
| TagRuns.SumAppend | Document/Models/EditablePalette.cs:99 | the colours covered by two lists of runs add up |
| TagRuns.SumStep | Document/Models/EditablePalette.cs:99-101 | at run j the loop's `ci` is the colours covered before it, and `ci + Count` is where run j ends |
| TagRuns.TagPassKeepsPrefix | Document/Models/EditablePalette.cs:99-121 | the loop never changes a run before its current index |
| TagRuns.TagPassSkips | Document/Models/EditablePalette.cs:99-101 | runs that end before `start` are passed over unchanged |
| TagRuns.SetMetadataKeepsLeadingRuns | Document/Models/EditablePalette.cs:99-121 | every run ending before `start` is kept as it is; with no runs nothing changes and nothing throws |
| TagRuns.SumPrefixBelow | Document/Models/EditablePalette.cs:99 | with non-empty runs, every proper prefix covers fewer colours than all the runs |
| TagRuns.SetMetadataOnWholeRun | Document/Models/EditablePalette.cs:99-121 | tagging exactly one whole run inserts a new run of that length before it and keeps the old run whole, so the runs then cover that many colours more |
| TagRuns.InsertBeforeRun | Document/Models/EditablePalette.cs:103-110 | when the current run ends exactly at `end`, the new run is inserted before it and the loop stops |
| TagRuns.PassReachesRun | Document/Models/EditablePalette.cs:99-103 | with non-empty runs, the loop reaches the run that starts at `start` with `ci == start` |
| TagRuns.LastLeadingRun | Document/Models/EditablePalette.cs:99-101 | the run just before `start` is passed over |
| TagRuns.SetMetadataRemovingLastRunThrows | Document/Models/EditablePalette.cs:112-119 | removing a last run that lies inside the tagged range makes the loop increment read past the end and throw |
| TagRuns.SetMetadataRemovingSkipsEnd | Document/Models/EditablePalette.cs:99-121 | tagging [2, 8) over runs of 3, 3 and 4 colours truncates the first run, removes the second, steps over the third and stops: no colour carries the new tags and the runs cover 6 colours instead of 10 |
| TagRuns.SetMetadataInsideRun | Document/Models/EditablePalette.cs:99-121 | a range strictly inside one run replaces that run by the new run and the part after `end` only: the colours from the run's start to `start` are dropped, and the runs cover that many colours fewer |
| TagRuns.SumPieces | Document/Models/EditablePalette.cs:99 | the colours covered by three lists of runs add up |
| TagRuns.CutInside | Document/Models/EditablePalette.cs:104-111 | when the current run goes past `end`, the new run is inserted, the current run is cut to the part after `end` and the loop stops |
| TagRuns.InsideShape | Document/Models/EditablePalette.cs:104-111 | the runs after the cut are the leading runs, the new run, the cut run and the following runs |
| TagRuns.PassReachesInside | Document/Models/EditablePalette.cs:99-101 | the loop passes over every run that ends before `start` and reaches the one holding `start` with `ci` at its first colour |
| TagRuns.SetMetadataLosesHead | Document/Models/EditablePalette.cs:99-121 | tagging colours 2 to 4 of a single ten-colour run yields a run of 3 and a run of 5: eight colours, the first already carrying the new tags |
| TagRuns.Repeat | Document/Models/EditablePalette.cs:85-86 | n copies of one tag, none for n ≤ 0 |
| TagRuns.TagsOf | Document/Models/EditablePalette.cs:85-86 | the tags of each colour in order, one per colour a run covers |
| TagRuns.TagsOfAppend | Document/Models/EditablePalette.cs:85-86 | the colour tags of two lists of runs concatenate |
| TagRuns.TagsOfLength | Document/Models/EditablePalette.cs:85-86 | there is one colour tag per colour the runs cover |
| TagRuns.Part | Document/Models/EditablePalette.cs:104-111 | a piece of a run: nothing when empty, otherwise one run of that many colours |
| TagRuns.TagsOfPart | Document/Models/EditablePalette.cs:104-111 | a piece of a run carries its tags on exactly its colours |
| TagRuns.SplitRunRetags | Document/Models/EditablePalette.cs:99-121 | splitting the run that holds the range into head, new run and tail keeps every colour and gives exactly the colours in [start, end) the new tags |
| TagRuns.TagsOfAround | Document/Models/EditablePalette.cs:99-121 | the colour tags of runs around one run are those before, the run's own, and those after |
| TagRuns.TagsOfSplit | Document/Models/EditablePalette.cs:104-111 | the split run's colour tags are the head's old tags, the range's new tags and the tail's old tags |
| TagRuns.RetagPieces | Document/Models/EditablePalette.cs:99-121 | a colour list cut into before, head, range, tail and after, with only the range retagged, keeps every colour outside the range |
| VoxelBatches.ApplyEntry | Document/Models/EditableVoxelList.cs:180-188 | applying one recorded edit keeps the storage well formed |
| VoxelBatches.Replay | Document/Models/EditableVoxelList.cs:178-189 | replaying a batch keeps the storage well formed |
| VoxelBatches.ReplayStep | Document/Models/EditableVoxelList.cs:178-189 | the batch is replayed in list order: one more entry is applied after all earlier ones |
| VoxelBatches.ReplayLookup | Document/Models/EditableVoxelList.cs:178-189 | after a replay, each cell holds the value chosen by the last entry that names it, or its old content when none does |
| VoxelBatches.LastWriteUntouched | Document/Models/EditableVoxelList.cs:178-189 | a cell no entry names keeps its content |
| VoxelBatches.LastWriteTouched | Document/Models/EditableVoxelList.cs:178-189 | a cell some entry names ends with the same value whatever it held before |
| VoxelBatches.LastWriteDistinct | Document/Models/EditableVoxelList.cs:178-189 | when no two entries name the same cell, each entry's cell ends with that entry's value |
| VoxelBatches.RecordStep | Document/Models/EditableVoxelList.cs:138-165 | recording one more edit keeps each entry's old value equal to the cell's content just before it, and the storage equal to the forward replay of the batch |
| VoxelBatches.UndoRestores | Document/Models/EditableVoxelList.cs:173-191 | undoing a recorded batch whose cells are distinct puts every cell back as it was before the batch |
| VoxelBatches.RedoRestores | Document/Models/EditableVoxelList.cs:173-191 | redo after undo gives back the edited storage, for every batch |
| VoxelBatches.UndoRepeatedCell | Document/Models/EditableVoxelList.cs:173-191 | a recorded batch that writes one cell twice is not undone: the cell was empty, and undo leaves the first colour in it |
| VertexBuffers.EmptyChunk | Document/Models/VertexBufferList.cs:34-40 | a new buffer holds no vertices in its 1024 slots |
| VertexBuffers.ItemsAndFree | Document/Models/VertexBufferList.cs:41-56 | the vertices held plus the free slots make 1024 per buffer |
| VertexBuffers.FreeZero | Document/Models/VertexBufferList.cs:46 | there are no free slots iff every buffer is full |
| VertexBuffers.FirstOpen | Document/Models/VertexBufferList.cs:51-59 | the foreach stops at the first buffer with room: every earlier buffer is full |
| VertexBuffers.ItemsUpTo | Document/Models/VertexBufferList.cs:51-59 | when every later buffer is empty, the contents are the earlier buffers' contents followed by this buffer's |
| VertexBuffers.FreeUpdate | Document/Models/VertexBufferList.cs:55-56 | changing one buffer's length changes the free slots by the same amount the other way |
| VertexBuffers.PushKeepsPrefix | Document/Models/VertexBufferList.cs:51-59 | filling the first open buffer keeps every used buffer before every empty one |
| VertexBuffers.PushItems | Document/Models/VertexBufferList.cs:56 | writing at a buffer followed only by empty buffers appends the vertex to the contents |
| VertexBuffers.PushFirstOpen | Document/Models/VertexBufferList.cs:51-59 | writing at the first open buffer takes one free slot and keeps the list's invariant |
| VertexBuffers.AppendEmpty | Document/Models/VertexBufferList.cs:31-42 | `NewBuffer` keeps the contents and adds 1024 free slots |
| VertexBuffers.AddedSpec | Document/Models/VertexBufferList.cs:44-62 | `Add` appends exactly the vertex to the contents, adds a buffer only when no slot is free, and keeps the free-slot count exact |
| VertexBuffers.AddedStep | Document/Models/VertexBufferList.cs:44-62 | `NewBuffer` when full, then writing at the first open buffer, is `Add` |
| VertexBuffers.ClearedSpec | Document/Models/VertexBufferList.cs:64-72 | after `Clear` no vertices remain, every slot is free, and the buffers are kept |
| VertexBuffers.BufferInfo.constructor | Document/Models/VertexBufferList.cs:34-40 | a new buffer info with a 1024-slot array, length 0, not dirty |
| VertexBuffers.BufferInfo.Push | Document/Models/VertexBufferList.cs:56-57 | writes the vertex at `Length`, increments it and marks the buffer dirty |
| VertexBuffers.BufferInfo.Reset | Document/Models/VertexBufferList.cs:68-69 | sets the length to 0 and marks the buffer dirty, keeping the array |
| VertexBuffers.VertexBufferList.constructor | Document/Models/VertexBufferList.cs:26-29 | no buffers and no free slots |
| VertexBuffers.VertexBufferList.NewBuffer | Document/Models/VertexBufferList.cs:31-42 | appends an empty buffer and adds 1024 free slots |
| VertexBuffers.VertexBufferList.Add | Document/Models/VertexBufferList.cs:44-62 | the list becomes `Added` of the old one (contents plus the vertex, see `AddedSpec`) |
| VertexBuffers.VertexBufferList.FillFirstOpen | Document/Models/VertexBufferList.cs:51-59 | with a free slot, the vertex goes into the first buffer with room |
| VertexBuffers.VertexBufferList.FindOpen | Document/Models/VertexBufferList.cs:51-53 | the foreach's search returns the first buffer with room |
| VertexBuffers.VertexBufferList.PushAt | Document/Models/VertexBufferList.cs:55-57 | writes into buffer k only |
| VertexBuffers.VertexBufferList.Clear | Document/Models/VertexBufferList.cs:64-72 | the list becomes `Cleared` of the old one (empty, all slots free, see `ClearedSpec`) |
| VertexBuffers.VertexBufferList.ResetAt | Document/Models/VertexBufferList.cs:68-69 | empties buffer k only |
| Document.UndoManager.constructor | Document/Models/EditableModel.cs:31 | a new manager has an empty history |
| Document.UndoManager.AddModification | Document/Models/EditableModel.cs:42 | appends one entry, with its description and action, to the history |
| Document.Take | Document/Models/EditablePalette.cs:60 | `Take(n)` keeps the first n colours: none for n ≤ 0, all when n is at least the length |
| Document.GrowTo | Document/Models/EditablePalette.cs:55 | growing to n keeps the old colours first and fills the rest with `Color.Transparent` |
| Document.Skip | Document/Models/EditablePalette.cs:66-67 | `Skip(n)` keeps the colours after the first n: all for n ≤ 0, none when n is at least the length |
| Document.GrowUndoRedo | Document/Models/EditablePalette.cs:64-83 | undoing a grow gives the old colours back, but its redo appends `Skip` of the whole grown list, which is empty, so the grow is not restored |
| Document.ShrinkUndoLosesColors | Document/Models/EditablePalette.cs:64-73 | `Take(n)` and `Skip(n)` together give the colours back, but the backup a shrink keeps is `Skip(oldSize)`, which is empty, so its undo does not restore a shrunk palette |
| Document.RunsOf | Document/Models/EditablePalette.cs:135 | one tag run per colour list, with that list's length and tags |
| Document.RunsCoverColors | Document/Models/EditablePalette.cs:124-136 | the loaded runs cover exactly the loaded colours |
| Document.TotalLength | Document/Models/EditablePalette.cs:126 | the array size is the number of colours in all lists together |
| Document.FlattenPrefix | Document/Models/EditablePalette.cs:129-134 | each list's colours come right after those of the lists before it |
| Document.CopyInto | Document/Models/EditablePalette.cs:131-134 | the inner foreach copies a list to the array from `listPointer` on, keeping what is before |
| Document.EditablePalette.constructor | Document/Models/EditablePalette.cs:22-27 | no colours and no tag runs |
| Document.EditablePalette.GetColor | Document/Models/EditablePalette.cs:29-33 | an index past the end reads `Color.Transparent`; any other index reads the colour stored there |
| Document.EditablePalette.SetColor | Document/Models/EditablePalette.cs:35-47 | an index out of range throws `IndexOutOfRangeException` before anything is recorded or changed; otherwise the slot is written and an undo holding the old colour is recorded |
| Document.EditablePalette.InvokeSlot | Document/Models/EditablePalette.cs:39-43 | the undo writes the old colour back and returns a redo holding the colour it replaced |
| Document.EditablePalette.ShrinkAction | Document/Models/EditablePalette.cs:64-73 | the undo of a shrink always carries an empty backup |
| Document.EditablePalette.Resize | Document/Models/EditablePalette.cs:49-62 | the same size changes nothing; growing fills with transparent colours and records a grow undo of the old size; shrinking keeps a prefix and records a shrink undo |
| Document.EditablePalette.InvokeGrow | Document/Models/EditablePalette.cs:78-82 | undoing a grow truncates to the old size and returns the shrink undo |
| Document.EditablePalette.InvokeShrink | Document/Models/EditablePalette.cs:68-72 | undoing a shrink appends the backup and returns a grow undo of the current size |
| Document.EditablePalette.SetMetadata | Document/Models/EditablePalette.cs:86-122 | the runs become those of the pass over the old runs, it throws `ArgumentOutOfRangeException` exactly when the pass reads past the end, and nothing is recorded |
| Document.EditablePalette.LoadFromModel | Document/Models/EditablePalette.cs:124-137 | the colours become all lists' colours in order, and the runs one per list |
| Document.LoadedView | Document/Models/EditableVoxelList.cs:268-272 | loading keeps the storage well formed, with at most one block per voxel |
| Document.LoadedViewStep | Document/Models/EditableVoxelList.cs:269-272 | loading one more voxel writes its colour at its cell |
| Document.LoadedLookup | Document/Models/EditableVoxelList.cs:268-272 | after loading, each cell holds the colour of the last voxel listed there, and is empty when none is |
| Document.LastColorListed | Document/Models/EditableVoxelList.cs:268-272 | every colour a cell holds after loading is the colour of some listed voxel |
| Document.ListedCellsCount | Document/Models/EditableVoxelList.cs:268-272 | a list of n voxels names at most n cells, and every cell that gets a colour is one of them |
| Document.DistinctItemsBound | Document/Models/EditableVoxelList.cs:268-272 | voxels at distinct cells drawn from a set of cells are at most as many as the set |
| Document.LoadedCount | Document/Models/EditableVoxelList.cs:268-272 | a loaded part stores at most as many voxels as were listed |
| Document.LoadedColorsNonNegative | Document/Models/EditableVoxelList.cs:268-272 | when the listed colours are indices (≥ 0), so are all loaded colours |
| Document.EditableVoxelList.constructor | Document/Models/EditableVoxelList.cs:124-130 | a new part: no parent, bond name or offsets, no voxels, no faces, bounds not initialised |
| Document.EditableVoxelList.SetParent | Document/Models/EditableVoxelList.cs:29-44 | sets the parent; when it changes, records an undo holding the old parent |
| Document.EditableVoxelList.SetBondName | Document/Models/EditableVoxelList.cs:51-66 | sets the bond name; when it changes, records an undo holding the old name |
| Document.EditableVoxelList.SetBasePoint | Document/Models/EditableVoxelList.cs:73-88 | sets the base point; when it changes, records an undo holding the old point |
| Document.EditableVoxelList.SetTranslation | Document/Models/EditableVoxelList.cs:95-110 | sets the translation; when it changes, records an undo holding the old translation |
| Document.EditableVoxelList.InvokeField | Document/Models/EditableVoxelList.cs:31-37 | a field undo puts its value back into its own field only, and returns a redo holding the value it replaced |
| Document.EditableVoxelList.AddVoxel | Document/Models/EditableVoxelList.cs:132-136 | records the edit, writes the voxel, widens the bounds to it, and appends its faces towards the empty neighbours, in the new storage |
| Document.EditableVoxelList.CreateUndoData | Document/Models/EditableVoxelList.cs:150-165 | the entry holds the cell's content before the edit (null when empty) and the new value |
| Document.EditableVoxelList.LogEdit | Document/Models/EditableVoxelList.cs:140 | appends that entry to the undo buffer |
| Document.EditableVoxelList.AddVoxelWithoutUpdating | Document/Models/EditableVoxelList.cs:138-142 | records the old and new colour and writes the cell; every other cell keeps its content |
| Document.EditableVoxelList.RemoveVoxelWithoutUpdating | Document/Models/EditableVoxelList.cs:144-148 | records the old colour and null, and empties the cell; every other cell keeps its content |
| Document.EditableVoxelList.FlushUndoAction | Document/Models/EditableVoxelList.cs:167-171 | records the buffered edits as one undo batch and empties the buffer |
| Document.EditableVoxelList.InvokeBatch | Document/Models/EditableVoxelList.cs:173-191 | replays the batch in list order, with old values for undo and new values for redo, and returns the opposite batch |
| Document.EditableVoxelList.ApplyEntryAt | Document/Models/EditableVoxelList.cs:180-188 | writes the chosen value, or removes the voxel when it is null |
| Document.EditableVoxelList.UpdateAll | Document/Models/EditableVoxelList.cs:193-202 | the faces become those of every stored voxel in enumeration order, the bounds those of all voxels; with no voxels the old extents stay; `VisibleFaces` says which faces those are |
| Document.VisibleFaces | Document/Models/EditableVoxelList.cs:193-258 | the faces of a rebuild are exactly the faces of stored voxels towards cells that hold no voxel, each with its voxel's palette colour made opaque |
| Document.VisibleFaceSource | Document/Models/EditableVoxelList.cs:193-258 | each face of a rebuild comes from a stored voxel and points towards an empty cell |
| Document.VisibleFaceIn | Document/Models/EditableVoxelList.cs:193-258 | each stored voxel's face towards an empty cell is in the rebuild |
| Document.RebuildSame | Document/Models/EditableVoxelList.cs:193-202 | storages that hold the same voxels (one only appending empty blocks) enumerate the same pairs and rebuild the same faces |
| Document.EditableVoxelList.StartScan | Document/Models/EditableVoxelList.cs:195-198 | clears the faces, marks the bounds uninitialised, and starts an enumerator over all voxels |
| Document.EditableVoxelList.ScanStep | Document/Models/EditableVoxelList.cs:198-201 | one turn of the foreach: the next voxel is visited, or the scan has visited them all |
| Document.EditableVoxelList.Advance | Document/Models/EditableVoxelList.cs:198 | `MoveNext` during the foreach: true moves to the next voxel, false means all were visited |
| Document.EditableVoxelList.VisitVoxel | Document/Models/EditableVoxelList.cs:200 | `UpdateVoxel` on the current pair adds its faces and bounds without moving the enumerator |
| Document.EditableVoxelList.UpdateVoxel | Document/Models/EditableVoxelList.cs:204-247 | widens the bounds to the voxel and appends one face towards each empty neighbour |
| Document.EditableVoxelList.WidenBound | Document/Models/EditableVoxelList.cs:206-221 | the bounds become `Widen` of the old ones |
| Document.EditableVoxelList.AddVisibleFaces | Document/Models/EditableVoxelList.cs:223-246 | appends one face towards each empty neighbour, in direction order |
| Document.EditableVoxelList.CullFrom | Document/Models/EditableVoxelList.cs:223-246 | the `if`s from direction d on append the faces of `FacesFrom` |
| Document.EditableVoxelList.CullFace | Document/Models/EditableVoxelList.cs:223-226 | one `if`: a face when the neighbour is empty, none otherwise |
| Document.EditableVoxelList.AddFace | Document/Models/EditableVoxelList.cs:249-258 | appends exactly one face, with the palette colour made opaque |
| Document.EditableVoxelList.LoadVoxels | Document/Models/EditableVoxelList.cs:268-272 | the storage becomes what loading the list gives |
| Document.EditableVoxelList.ClearStore | Document/Models/EditableVoxelList.cs:268 | the storage becomes empty |
| Document.EditableVoxelList.StoreVoxel | Document/Models/EditableVoxelList.cs:271 | one more listed voxel is loaded |
| Document.EditableVoxelList.StoreVoxels | Document/Models/EditableVoxelList.cs:269-272 | the foreach loads every listed voxel, in order |
| Document.EditableVoxelList.LoadMesh | Document/Models/EditableVoxelList.cs:268-273 | each cell holds the last colour listed for it, and the faces and bounds are those of all loaded voxels |
| Document.EditableVoxelList.LoadFromModel | Document/Models/EditableVoxelList.cs:265-278 | voxels, faces and bounds as loaded, fields copied, parent null for -1, the indexed part when in range, and otherwise `ArgumentOutOfRangeException` |
| Document.EditableVoxelList.LoadFields | Document/Models/EditableVoxelList.cs:274-277 | copies the fields and resolves the parent index, throwing for an index out of range |
| Document.RemoveInserted | Document/Models/EditableModel.cs:90-107 | undoing an insert removes the inserted part and gives back the old list |
| Document.InsertRemoved | Document/Models/EditableModel.cs:99-107 | undoing a removal puts the removed part back at its index and gives back the old list |
| Document.UnlinksStep | Document/Models/EditableModel.cs:72-78 | visiting one more part records one parent change when its parent is the removed part, and only the first time that part is seen |
| Document.EditableModel.constructor | Document/Models/EditableModel.cs:28-32 | a new model: empty history, no palette, no parts |
| Document.EditableModel.SetMetadata | Document/Models/EditableModel.cs:35-46 | sets the metadata; when it changes, records an undo holding the old metadata |
| Document.EditableModel.InvokeMeta | Document/Models/EditableModel.cs:81-88 | the undo puts the old metadata back and returns a redo holding the replaced one |
| Document.EditableModel.InsertPart | Document/Models/EditableModel.cs:57-61 | always records the insert undo; in range it inserts a new empty part with this model's palette and history, otherwise it throws and keeps the list |
| Document.EditableModel.InvokeInsert | Document/Models/EditableModel.cs:90-97 | undoing an insert removes the part at the index and returns the undo of that removal |
| Document.EditableModel.InvokeRemove | Document/Models/EditableModel.cs:99-107 | undoing a removal reinserts the part at its index and returns the insert undo |
| Document.EditableModel.RemovePart | Document/Models/EditableModel.cs:63-68 | in range it unparents every child of the removed part, records each parent change and then the removal, and removes it, leaving no part pointing at it; out of range it throws with nothing changed |
| Document.EditableModel.BreakPartDependent | Document/Models/EditableModel.cs:70-79 | every part whose parent was the removed part gets a null parent, through the recording setter; every other field of every part is kept |
| Document.EditableModel.UnlinkAt | Document/Models/EditableModel.cs:74-77 | one turn of the foreach: part k is unparented when its parent is the removed part, and the history grows accordingly |
| Document.EditableModel.LoadFromModel | Document/Models/EditableModel.cs:109-131 | metadata, a new palette and one new part per model part; it succeeds iff every parent index resolves, and then every part holds its model part; otherwise it throws at the first bad index, with earlier parts loaded; nothing is recorded |
| Document.EditableModel.CreateParts | Document/Models/EditableModel.cs:122-126 | one new, distinct, empty part per model part, sharing the palette and history |
| Document.EditableModel.LoadParts | Document/Models/EditableModel.cs:127-130 | loads the parts in order, stopping at the first parent index out of range |
| Document.EditableModel.LoadAt | Document/Models/EditableModel.cs:129 | loading part i leaves the parts already loaded and those still to load as they were |
| Document.EditableModel.LoadOne | Document/Models/EditableModel.cs:129 | a part loads its model part, or throws when the parent index does not resolve |
| Document.EditableModel.CalculateBound | Document/Models/EditableModel.cs:133-151 | with no parts both corners are zero; otherwise min and max are the coordinatewise minimum and maximum of the parts' extents, each reached by some part |
| Document.BoundStart | Document/Models/EditableModel.cs:140-150 | the first part's corners bound the first part |
| Document.BoundStep | Document/Models/EditableModel.cs:142-150 | one turn of the foreach keeps min and max the exact bounds of the parts seen so far |
| Document.LowestStep | Document/Models/EditableModel.cs:144-146 | `Math.Min` with one more part's minimum corner gives the minimum over one more part |
| Document.HighestStep | Document/Models/EditableModel.cs:147-149 | `Math.Max` with one more part's maximum corner gives the maximum over one more part |

## Left out

- Drawing is not modelled: both `DrawAll` methods (`VertexBufferList.cs:74-84`, `EditableVoxelList.cs:260-263`) and the GPU buffers that `IVoxelVertexBufferFactory` creates.
- The vertex-buffer factory is not a parameter. A buffer info holds only its array, length and dirty flag.
- `UndoManager` is not part of this model. It is reduced to a history that `AddModification` appends to; undo and redo stacks are left out.
- Undo delegates are `Command` values. The mutation a delegate performs is a separate `Invoke*` method on its target, not a closure.
- Floating point is not modelled. `Vector3` components are reals that are only copied and compared.
- `Document.EditableModel.CalculateBound`: starts from the first part's corners rather than `float.MaxValue` and `float.MinValue`. With at least one part the result is the same. The int-to-float conversion of large coordinates (above 2^24) is not modelled.
- `Mesh.FaceAt`: the face colour is the palette colour's RGB channels. The `Vector4` that `WithAlpha(1)` builds from them (its channel scaling) is not modelled.
- `Document.EditablePalette.GetColor`: requires `index >= 0`. A negative index makes the array access throw (`EditablePalette.cs:32`), and callers that read a stored colour can pass one (see the negative-colour paragraph below).
- `Mesh.PaletteColor`: the same `index >= 0` requirement as `GetColor`, for the same reason; the throw on a negative index is not modelled.
- Integers are unbounded except in `GetBlockCoord` (see Findings).
  - `Document.EditableVoxelList.UpdateAll`: requires the block count plus six per voxel to stay below `int.MaxValue`. Each `UpdateVoxel` appends at most six blocks, and the enumerator's `int` block index must never reach `int.MaxValue`, its end marker.
- The loading members require seven times the voxel count of each part to stay below `int.MaxValue`, so they exclude a part of 306,783,379 voxels or more. After loading, a part has at most one block and one stored voxel per listed voxel (`LoadedView`, `LoadedCount`), so this bound gives `UpdateAll`'s. The source has no such check. It fails only when the rebuild's neighbour queries grow the block list beyond what a .NET list can index, which ends in an out-of-memory exception that is not modelled; where that happens depends on how the voxels fall into blocks. The bound is a sufficient condition, not the source's exact limit. Each of these members carries it:
  - `Document.EditableVoxelList.LoadMesh`: requires `7 * |voxels| < int.MaxValue`.
  - `Document.EditableVoxelList.LoadFromModel`: requires `7 * |part.voxels| < int.MaxValue`.
  - `Document.EditableModel.LoadFromModel`: requires the same bound for every part of the model.
  - `Document.EditableModel.LoadParts`: requires the same bound for every part of the model.
  - `Document.EditableModel.LoadAt`: requires the same bound for part i.
  - `Document.EditableModel.LoadOne`: requires the same bound for the part it loads.
- `Document.EditableVoxelList.AddVoxel`: requires a colour index `c >= 0`, which is what `GetColor` needs.
- A stored colour index can be negative: `AddVoxelWithoutUpdating` and a replayed batch store any `int`. Building a face for such a voxel makes `GetColor` throw `IndexOutOfRangeException` (`EditablePalette.cs:32`) from `AddFace`, part-way through a rebuild whose buffers are already cleared. That throw is not modelled, so each member below requires the colours it reads to be non-negative:
  - `Document.EditableVoxelList.UpdateAll`: every colour in the store.
  - `Document.EditableVoxelList.ScanStep`: every colour in the store.
  - `Document.EditableVoxelList.VisitVoxel`: the visited voxel's colour.
  - `Document.EditableVoxelList.UpdateVoxel`: its colour `c`.
  - `Document.EditableVoxelList.AddVisibleFaces`: its colour `c`.
  - `Document.EditableVoxelList.CullFrom`: its colour `c`.
  - `Document.EditableVoxelList.CullFace`: its colour `c`.
  - `Document.EditableVoxelList.AddFace`: its colour `c`.
  - `Document.EditableVoxelList.LoadMesh`: every loaded voxel's colour.
  - `Document.EditableVoxelList.LoadFromModel`: every colour of the loaded part.
  - `Document.EditableModel.LoadFromModel`: every colour of every loaded part.
  - `Document.EditableModel.LoadParts`: every colour of every loaded part.
  - `Document.EditableModel.LoadAt`: every colour of the part it loads.
  - `Document.EditableModel.LoadOne`: every colour of the part it loads.
- `Document.EditableVoxelList.AddVoxel`, `UpdateAll`, `UpdateVoxel` and `LoadFromModel`: require the part to have a palette. With a `null` palette the source's `AddFace` throws `NullReferenceException`, which is not modelled. Before `EditableModel.LoadFromModel` the model has no palette, and parts created by `InsertPart` hold `null`, as in the source.
- The accessors `PartCount`, `GetPart` and `Palette` (`EditableModel.cs:48-55`) are plain reads of `parts` and `palette`.
- `Document.EditableModel.RemovePart`: requires that all parts record into the model's own history. In the source every part is created with the model's `UndoManager`, so this always holds.
- `Document.EditableModel.LoadFromModel`: states the metadata, palette, fields, parents, voxels and bounds of every part, but not their faces. Each part's own `LoadFromModel` states its faces.
- `EditableModelMetadata.Equals` (`EditableModel.cs:16-19`) compares the three strings. It is datatype equality on `Metadata`.
- `Document.EditableVoxelList.UpdateVoxel`: the six `if`s are the recursion `CullFrom`, one direction per call, in the source's order.
- `AddAndGetRef` returns a reference that every caller assigns immediately. It is modelled as `AddAndSet`, which writes the value.
- `default(TValue)` is the `defaultValue` given to the storage's constructor (0 for the parts' colour storage).

The code is followed where it differs from what an undo system is evidently meant to do:

- The undo of a palette shrink keeps `Skip(oldSize)` of the colours (`Skip`), which is always empty. Undoing a shrink restores nothing, and redoing an undone grow does not grow again (`ShrinkUndoLosesColors`, `GrowUndoRedo`).
- `EditablePalette.SetMetadata` builds its undo action but never records it (`EditablePalette.cs:98`).
- Tagging exactly one whole run keeps the old run next to the new one (`SetMetadataOnWholeRun`).
- Removing a run inside the tagged range skips the next run, and throws when it was the last (`SetMetadataRemovingLastRunThrows`). When the skipped run is the one reaching `end`, the loop ends without inserting the new run: no colour gets the new tags, and the range's colours before that run are dropped (`SetMetadataRemovingSkipsEnd`).
- A range strictly inside one run loses the colours of that run before `start` (`SetMetadataInsideRun`, `SetMetadataLosesHead`); see Findings.
- A voxel batch is undone in the order it was recorded, not in reverse. A batch that edits one cell twice is therefore not undone (`UndoRepeatedCell`). `UndoRestores` holds for batches whose cells are distinct.
- `BreakPartDependent` unparents through the recording `Parent` setter, so removing a part records one history entry per child, before the removal.
- `InsertPart` records its undo before `Insert` can throw, so an out-of-range index leaves an entry in the history.
- `AddVoxel` adds the new voxel's faces but leaves its neighbours' faces against it in place.
- `UpdateAll` on an empty part leaves the old extents in `MinX` … `MaxZ`.

## Findings

| source | as written | input that shows it | evidently intended | confidence | as-written member | corrected member |
|---|---|---|---|---|---|---|
| Document/Models/VoxelDataStorage.cs:51 | `(voxelCoord - BlockSize + 1) / BlockSize` in 32-bit arithmetic overflows for voxelCoord < int.MinValue + 7 | voxelCoord = int.MinValue gives block 0x0fffffff, which does not contain the voxel | the block coordinate is voxelCoord divided by 8, rounded down | not executed | VoxelStorage.BlockCoordAsWrittenOverflows | VoxelStorage.BlockCoord |
| Document/Models/EditablePalette.cs:104-111 | when the run holding the range goes past `end`, the new run is inserted and the old run is cut to the part after `end`; its part before `start` is dropped | one run `ColorMetadata(10, A)` tagged over [2, 5) gives runs of 3 and 5 colours: 8 colours, where colours 0 and 1 lost tags A | the run becomes its head before `start`, the new run and its tail after `end`, so every colour keeps its place and only [start, end) is retagged | not executed | TagRuns.SetMetadataInsideRun | TagRuns.SplitRunRetags |

`EditablePalette.SetMetadata` keeps the code's behaviour, like the other differences listed above; `SplitRun` is the run split the code evidently means, and `SplitRunRetags` proves that it retags exactly the colours in [start, end).
