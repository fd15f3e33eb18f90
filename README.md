# Amulet-Level core, modelled in Dafny

This project models the core of Amulet-Level, the library that reads and
edits Minecraft Java worlds, and proves properties of that model. It covers:

- **Java chunk classes** (`JavaChunks`, `java_chunk.dfy`). These are the five chunk classes, `JavaChunkNA`,
  `JavaChunk0`, `JavaChunk1444`, `JavaChunk1466` and `JavaChunk2203`.
  - Each constructor checks the data version and initialises its components: the raw-data map, the data version and
    the block component with its palette.
  - A null chunk can be looked up by its `ChunkID` string, and `get_java_chunk_id` checks a chunk's id.
- **The raw chunk component** (`JavaRawChunk`, `java_raw_chunk_component.dfy`). It is either unloaded or holds a
  shared map from string keys to NBT tags. `get_raw_data` and `set_raw_data` fail with a runtime error unless it is
  loaded.
- **The long-array bindings** (`LongArray`, `long_array.dfy`).
  - Encoding: how `encode_long_array` chooses the bits per entry, and which buffers it accepts.
  - Decoding: the element-width switch in `decode_long_array`, and the buffers it accepts.
  - The bit-packing kernels stay uninterpreted.
- **The history manager** (`History`, `history.dfy`, as values; `Histories`, `history_manager.dfy`, as the manager
  and layer objects). It holds layers of resources, undo bins, a cursor, and a saved state per resource. Undo, redo,
  `has_changed`, `mark_saved`, `reset`, `set_value` and `set_values` behave as in each of the four init modes.
- **The chunk handle** (`ChunkHandles`, `chunk_handle.dfy`). A handle reads its chunk through a history layer over
  the stored chunks. It covers `exists`, `get_chunk` (which returns an independent copy), `set_chunk`, `delete_chunk`
  and restore points with undo/redo, including the baseline rule when history is enabled or disabled.
- **The id registry** (`Registries`, `registry.dfy`). It is a two-way table between numerical ids and namespaced
  ids, with both lookups, `__getitem__`, `get`, `len` and the key, value and item views.
- **Anvil regions and the raw dimension** (`Regions`, `region.dfy`; `RawDimensions`, `raw_dimension.dfy`). A region
  is a 32×32 grid map stored in sectors, with a file that appears on the first write and disappears when an empty
  region is compacted. The raw dimension routes a chunk coordinate to a region by floor division by 32. The model
  proves that compaction keeps every entry and never grows the storage, and that compacting after a delete strictly
  shrinks it.
- `Wrappers` and `Decimal` are shared support: `Option`, `Result`, the error kinds, and decimal rendering of
  integers, used for region file names and error messages.

Several parts of the library exist here only as text describing their behaviour: the history manager's internals
(`abc/history.hpp` is not part of this model), the chunk handle, the registry, the regions and the raw dimension.
Their behaviour is modelled from their tests, which fix it. The internal representation chosen for the history (one
stack of versions per resource, plus bins that record which resources each undo step touched) is a design of this
model, not the library's.

## Model

| member | source | states |
|---|---|---|
| JavaChunks.CheckDataVersion | src/amulet/level/java/chunk.cpp:51-119 | A versioned class accepts a data version iff it is ≥ 0 and lies in that class's interval: 0–1443, 1444–1465, 1466–2202, or ≥ 2203. Every rejection is an invalid_argument. |
| JavaChunks.DispatchTotalAndUnique | src/amulet/level/java/chunk.cpp:51-119 | The four versioned intervals cover every data version ≥ 0, and exactly one class accepts each such version. |
| JavaChunks.JavaChunk.constructor | src/amulet/level/java/chunk.cpp:32-64 | A constructed chunk has its class, a fresh loaded empty raw-data map, the data version given, and a block component with the "java" range [v, v], 16×16×16 sections and the default block as its only palette entry. |
| JavaChunks.JavaChunk.Null | src/amulet/level/java/chunk.cpp:133-154 | A null-constructed chunk has its class, an unloaded raw component and no other component. |
| JavaChunks.BlockComponentData.constructor | src/amulet/level/java/chunk.cpp:36-64 | The block component keeps the range and section shape, with a fresh palette holding only the default block. |
| JavaChunks.NewJavaChunkNA | src/amulet/level/java/chunk.cpp:27-43 | JavaChunkNA has no version check, and its data version is −1. |
| JavaChunks.NewVersionedChunk | src/amulet/level/java/chunk.cpp:45-131 | A versioned constructor fails iff the class's data-version check fails, with that error. Otherwise the chunk is fully initialised with that data version. |
| JavaChunks.GetJavaChunkId | src/amulet/level/java/chunk.cpp:156-162 | A chunk's id is its class's ChunkID, which is always in the constructor table, so the lookup never throws. |
| JavaChunks.GetJavaNullChunk | src/amulet/level/java/chunk.cpp:139-155 | Succeeds iff the id is in the constructor table. It then returns a fresh null chunk of that class whose id round-trips to the argument. Otherwise it fails with the runtime error "Unknown chunk_id " + id. |
| JavaChunks.ChunkIdTable | src/amulet/level/java/chunk.cpp:139-145 | Every class's ChunkID is registered and maps back to that class. |
| JavaChunks.KnownChunkIds | src/amulet/level/java/chunk.cpp:139-145 | An id is registered iff it is the ChunkID of some class, and the class it maps to has that id. |
| JavaRawChunk.RawChunkData.constructor | src/amulet/level/java/chunk_components/java_raw_chunk_component.hpp:25 | A fresh raw-data map is empty. |
| JavaRawChunk.RawChunkData.Put | tests/test_amulet_level/test_java/test_chunk.py:46-52 | Adding an entry through the shared map updates exactly that key. |
| JavaRawChunk.JavaRawChunkComponent.Null | src/amulet/level/java/chunk_components/java_raw_chunk_component.hpp:19-23 | A null-constructed component is unloaded. |
| JavaRawChunk.JavaRawChunkComponent.Init | src/amulet/level/java/chunk_components/java_raw_chunk_component.hpp:25 | init() loads a fresh empty map. |
| JavaRawChunk.JavaRawChunkComponent.InitWith | src/amulet/level/java/chunk_components/java_raw_chunk_component.hpp:26 | init(r) loads exactly r. |
| JavaRawChunk.JavaRawChunkComponent.GetRawData | src/amulet/level/java/chunk_components/java_raw_chunk_component.hpp:34-40 | An unloaded component gives a runtime error. A loaded one returns the stored map object itself. |
| JavaRawChunk.JavaRawChunkComponent.SetRawData | src/amulet/level/java/chunk_components/java_raw_chunk_component.hpp:41-47 | An unloaded component fails and stays unloaded. A loaded one now holds exactly the new map. |
| JavaRawChunk.SharedRawData | tests/test_amulet_level/test_java/test_chunk.py:46-61 | Entries added through the returned map are seen through the component. A later replacement leaves the old map's entries unchanged. |
| Core.BlockPalette.constructor | tests/test_amulet_level/test_java/test_chunk_handle.py:68-71 | A palette starts with exactly the default block stack. |
| Core.BlockPalette.Copy | tests/test_amulet_level/test_java/test_chunk_handle.py:53-78 | A copied palette holds the same stacks. |
| Core.BlockPalette.Len | tests/test_amulet_level/test_java/test_chunk_handle.py:68-71 | len is the number of stacks. |
| Core.BlockPalette.IndexToBlockStack | tests/test_amulet_level/test_java/test_chunk_handle.py:88-90 | Succeeds iff the index is in range, and then returns that stack. |
| Core.BlockPalette.BlockStackToIndex | tests/test_amulet_level/test_java/test_chunk_handle.py:68-71 | Returns the index of the stack. A known stack leaves the palette unchanged. A new stack is appended and gets the old length as its index. |
| LongArray.FitsIffBitWidth | src/amulet/level/java/long_array.py.cpp:56 | x < 2^w iff bit_width(x) ≤ w. |
| LongArray.SeqMax | src/amulet/level/java/long_array.py.cpp:56 | An upper bound of every element that, for a non-empty input, is one of them. |
| LongArray.MaxElement | src/amulet/level/java/long_array.py.cpp:56 | std::max_element: returns the end position iff the array is empty. Otherwise returns the first position of a largest element. |
| LongArray.RequiredBitsPerEntry | src/amulet/level/java/long_array.py.cpp:56 | bit_width of the largest element is the least width that holds every element. |
| LongArray.BitWidthMonotonic | src/amulet/level/java/long_array.py.cpp:56 | bit_width is monotone. |
| LongArray.ChooseBitsPerEntry | src/amulet/level/java/long_array.py.cpp:52-65 | An explicit width is used unchanged. With none, the width is the least that is ≥ min_bits_per_entry and holds every element. |
| LongArray.FittingWidth | src/amulet/level/java/long_array.py.cpp:56-59 | max(min_bits_per_entry, required width) is ≥ min_bits_per_entry, holds every element, and is the least such width. |
| LongArray.AllZeroEncodesAtWidthOne | src/amulet/level/java/long_array.py.cpp:56-59 | With the default min_bits_per_entry of 1, an all-zero input is encoded at width 1. |
| LongArray.DecodedElementType | src/amulet/level/java/long_array.py.cpp:109-179 | A width outside 1..64 is a runtime error with the source's message. Otherwise the element type is the narrowest of u8/u16/u32/u64 that is at least the width. |
| LongArray.DecodedValuesFit | src/amulet/level/java/long_array.py.cpp:109-177 | Every value of the given width fits the chosen element type. |
| LongArray.DecodeLongArray | src/amulet/level/java/long_array.py.cpp:86-180 | A buffer that is not (u)int64 is rejected first, then one that is not 1-D ("Only 1D arrays are supported."), then a strided one ("Slices are not supported."); a good buffer with a width outside 1..64 fails with the element-type runtime error. A decode succeeds iff the buffer is (u)int64, 1-D and not strided, and the width is in 1..64. The result has length `size` and the element type the width selects. |
| LongArray.EncodeLongArray | src/amulet/level/java/long_array.py.cpp:195-221 | Succeeds iff the buffer is 1-D, not strided and u8/u16/u32/u64, and any rejection is an invalid_argument. It encodes with the ChooseBitsPerEntry width and the input's length. |
| LongArray.EmptyInputMaxElementIsEnd | src/amulet/level/java/long_array.py.cpp:56 | On any empty array, max_element returns the end position (see Findings). |
| History.NewHistory | tests/test_amulet_level/test_abc/test_history_.py.cpp:33-56 | A new manager holds no values, and undo = redo = 0. |
| History.NewLayer | tests/test_amulet_level/test_abc/test_history_.py.cpp:36-37 | A new layer gets the next index and no resources, and nothing else changes. |
| History.GetValue | tests/test_amulet_level/test_abc/test_history_.py.cpp:49-53 | Succeeds iff the layer holds the key, and returns its current value; otherwise out_of_range. |
| History.HasChanged | tests/test_amulet_level/test_abc/test_history_.py.cpp:101-128 | Out_of_range for an unknown key. false means the key's current value is its saved value. |
| History.SetInitialValue | tests/test_amulet_level/test_abc/test_history_.py.cpp:43-71 | A new key gets the value at every position of the timeline, saved. A known key leaves the state unchanged. Other keys and the bins are untouched. |
| History.SetInitialValueTimeline | tests/test_amulet_level/test_abc/test_history_.py.cpp:228-250 | A key first given a value by set_initial_value holds it at every position, so undo never removes it. |
| History.DiscardRedo | tests/test_amulet_level/test_abc/test_history_.py.cpp:130-134 | Drops the redo bins (redo = 0) and keeps the current values and the undo count. |
| History.CreateUndoBin | tests/test_amulet_level/test_abc/test_history_.py.cpp:58-62 | undo + 1, redo = 0. The redo suffix is discarded and the current values are kept. |
| History.CreateUndoBinStart | tests/test_amulet_level/test_abc/test_history_.py.cpp:58-88 | The start of a newly opened bin is the current values. |
| History.CreateUndoBinKeepsPast | tests/test_amulet_level/test_abc/test_history_.py.cpp:130-140 | Opening a bin keeps every earlier position of the timeline. |
| History.DiscardRedoKeepsPast | tests/test_amulet_level/test_abc/test_history_.py.cpp:130-140 | Discarding redo bins keeps every position up to the cursor. |
| History.Undo | tests/test_amulet_level/test_abc/test_history_.py.cpp:81-88 | With undo > 0: undo − 1, redo + 1, and no stored version is lost. With nothing to undo, the state is unchanged. |
| History.UndoValue | tests/test_amulet_level/test_abc/test_history_.py.cpp:81-88 | After undo, each key holds its value at the previous position of the timeline. |
| History.UndoToStart | tests/test_amulet_level/test_abc/test_history_.py.cpp:81-88 | Undo restores exactly the values the last bin started from. |
| History.UndoKeepsTimeline | tests/test_amulet_level/test_abc/test_history_.py.cpp:81-99 | Undo moves only the cursor; every position of the timeline keeps its value. |
| History.Redo | tests/test_amulet_level/test_abc/test_history_.py.cpp:90-99 | With redo > 0: undo + 1, redo − 1. With nothing to redo, the state is unchanged. |
| History.RedoValue | tests/test_amulet_level/test_abc/test_history_.py.cpp:90-99 | After redo, each key holds its value at the next position of the timeline. |
| History.RedoAfterUndo | tests/test_amulet_level/test_abc/test_history_.py.cpp:81-99 | redo(undo(h)) == h. |
| History.UndoAfterRedo | tests/test_amulet_level/test_abc/test_history_.py.cpp:81-99 | undo(redo(h)) == h. |
| History.SetValue | tests/test_amulet_level/test_abc/test_history_.py.cpp:283-345 | Fails with a runtime error iff the key is unknown and the mode is Default or Error, and then changes nothing. Otherwise only that key's value changes, undo is kept and redo becomes 0. |
| History.SetValueMarksChanged | tests/test_amulet_level/test_abc/test_history_.py.cpp:101-107 | After an accepted set_value, has_changed of the written key is true. |
| History.SetValueKeepsOthersChanged | tests/test_amulet_level/test_abc/test_history_.py.cpp:101-107 | An accepted set_value leaves has_changed of every other key, on any layer, as it was. |
| History.SetValueKeepsPast | tests/test_amulet_level/test_abc/test_history_.py.cpp:253-281 | set_value rewrites only the open bin's position: every earlier position keeps its value. |
| History.SetValueNewKeyPast | tests/test_amulet_level/test_abc/test_history_.py.cpp:304-344 | A key first created by set_value holds its baseline at every earlier position. |
| History.SetValueKeepsStart | tests/test_amulet_level/test_abc/test_history_.py.cpp:64-88 | Inside an open bin, set_value changes the bin's start only for a key it creates. |
| History.SetValuePastAll | tests/test_amulet_level/test_abc/test_history_.py.cpp:253-281 | After set_value, the position before the open bin holds the old value for known keys and the baseline for a new key. |
| History.SetInitialValueKeepsStart | tests/test_amulet_level/test_abc/test_history_.py.cpp:68-88 | set_initial_value inside a bin adds the new key to the bin's start with that value. |
| History.NewKeyBaseline | tests/test_amulet_level/test_abc/test_history_.py.cpp:296-344 | For a key the layer does not hold, inside a bin: Default/Error mode fails. After undo, an Empty-mode key holds the empty value and a Value-mode key holds the value set. |
| History.UndoOverwrite | tests/test_amulet_level/test_abc/test_history_.py.cpp:253-281 | The five reads of test_undo_overwrite are v0, v1, v2, v3 and v0. A set_value after an undo discards the later bins, and a further undo returns to the current bin's original value. |
| History.BatchMap | tests/test_amulet_level/test_abc/test_history_.py.cpp:152-226 | The keys a batch writes are exactly its keys. |
| History.BatchMapDistinct | tests/test_amulet_level/test_abc/test_history_.py.cpp:152-226 | For a batch of distinct keys, each key gets its own value. |
| History.ApplyAll | tests/test_amulet_level/test_abc/test_history_.py.cpp:152-226 | Applying a batch that all passes the mode check leaves the current values as the old ones overridden by the batch. |
| History.ApplyAllKeepsStart | tests/test_amulet_level/test_abc/test_history_.py.cpp:152-226 | Inside a bin, a batch changes the bin's start only for keys it creates. |
| History.SetValues | tests/test_amulet_level/test_abc/test_history_.py.cpp:347-411 | All or nothing: it fails iff some key is rejected by the mode, and then nothing changes. Otherwise the values are the old ones overridden by the batch. |
| History.UndoSetValues | tests/test_amulet_level/test_abc/test_history_.py.cpp:152-226 | Undoing a bin holding one set_values restores the values before it (plus baselines for new keys). Redo restores the batch's result. |
| History.MarkSaved | tests/test_amulet_level/test_abc/test_history_.py.cpp:109-118 | Every known key becomes unchanged, and the values and timeline are kept. |
| History.UndoAfterSave | tests/test_amulet_level/test_abc/test_history_.py.cpp:120-128 | After a save, undo marks as changed exactly the keys the undone bin touched. |
| History.Reset | tests/test_amulet_level/test_abc/test_history_.py.cpp:142-145 | Every layer is emptied, and undo = redo = 0. |
| History.Values | tests/test_amulet_level/test_abc/test_history_.py.cpp:49-53 | Each known key's current value. |
| History.ValuesKeys | tests/test_amulet_level/test_abc/test_history_.py.cpp:142-145 | The keys with a value are exactly the known resources. |
| History.Truncate | tests/test_amulet_level/test_abc/test_history_.py.cpp:253-281 | Cutting a version stack keeps every version up to the current one. |
| History.StartOf | tests/test_amulet_level/test_abc/test_history_.py.cpp:304-344 | A key's version stack before a write: the existing one, or a fresh one whose every position holds the baseline. |
| History.RecordOverwrite | tests/test_amulet_level/test_abc/test_history_.py.cpp:253-281 | A second write to a key in the same bin replaces its newest version. Only that key's value changes. |
| History.RecordPush | tests/test_amulet_level/test_abc/test_history_.py.cpp:64-79 | A first write to a key in a bin pushes a version and records the key in the bin. Only that key's value changes. |
| History.PushedValid | tests/test_amulet_level/test_abc/test_history_.py.cpp:64-79 | Pushing a version keeps the history well formed and changes only that key's value. |
| History.OverwriteKeepsPast | tests/test_amulet_level/test_abc/test_history_.py.cpp:253-281 | An overwrite keeps every earlier position of the timeline. |
| History.PushKeepsPast | tests/test_amulet_level/test_abc/test_history_.py.cpp:64-88 | A push keeps every earlier position of the timeline. |
| Histories.HistoryManager.constructor | tests/test_amulet_level/test_abc/test_history_.py.cpp:33-56 | A new manager has no values and undo = redo = 0. |
| Histories.HistoryManager.NewLayer | tests/test_amulet_level/test_abc/test_history_.py.cpp:36-37 | Returns a fresh layer bound to this manager with the next index. |
| Histories.HistoryManager.GetUndoCount | tests/test_amulet_level/test_abc/test_history_.py.cpp:55-92 | The number of bins before the cursor. |
| Histories.HistoryManager.GetRedoCount | tests/test_amulet_level/test_abc/test_history_.py.cpp:56-93 | The number of bins after the cursor. |
| Histories.HistoryManager.CreateUndoBin | tests/test_amulet_level/test_abc/test_history_.py.cpp:59 | The state becomes CreateUndoBin of the old state. |
| Histories.HistoryManager.Undo | tests/test_amulet_level/test_abc/test_history_.py.cpp:82-121 | The state becomes Undo of the old state. |
| Histories.HistoryManager.Redo | tests/test_amulet_level/test_abc/test_history_.py.cpp:91 | The state becomes Redo of the old state. |
| Histories.HistoryManager.MarkSaved | tests/test_amulet_level/test_abc/test_history_.py.cpp:110 | The state becomes MarkSaved of the old state. |
| Histories.HistoryManager.Reset | tests/test_amulet_level/test_abc/test_history_.py.cpp:143 | The state becomes Reset of the old state. |
| Histories.HistoryManager.Assign | tests/test_amulet_level/test_abc/test_history_.py.cpp:33 | The manager's fields now hold exactly the given state. |
| Histories.HistoryLayer.constructor | tests/test_amulet_level/test_abc/test_history_.py.cpp:36-37 | A layer is bound to its manager and index. |
| Histories.HistoryLayer.SetInitialValue | tests/test_amulet_level/test_abc/test_history_.py.cpp:44-47 | The manager's state becomes SetInitialValue on this layer. |
| Histories.HistoryLayer.SetValue | tests/test_amulet_level/test_abc/test_history_.py.cpp:283-345 | Fails, changing nothing, exactly when the value-level SetValue fails. Otherwise the state becomes its result. |
| Histories.HistoryLayer.SetValues | tests/test_amulet_level/test_abc/test_history_.py.cpp:347-411 | All or nothing, as SetValues. |
| Histories.HistoryLayer.GetValue | tests/test_amulet_level/test_abc/test_history_.py.cpp:49-53 | Succeeds iff this layer holds the key, and then returns the key's current value; out_of_range otherwise. |
| Histories.HistoryLayer.HasChanged | tests/test_amulet_level/test_abc/test_history_.py.cpp:101-128 | Fails iff this layer does not hold the key; otherwise whether the key changed since the last save, as the value-level HasChanged. |
| Histories.HistoryLayer.GetResources | tests/test_amulet_level/test_abc/test_history_.py.cpp:144-145 | Exactly the keys this layer holds. |
| ChunkHandles.Stored | tests/test_amulet_level/test_java/test_chunk_handle.py:347-375 | The stored chunk for a key, or none. |
| ChunkHandles.ChunkIn | tests/test_amulet_level/test_java/test_chunk_handle.py:53-107 | A chunk seen through the layer: its history value if loaded, else what is stored. |
| ChunkHandles.Preload | tests/test_amulet_level/test_java/test_chunk_handle.py:53-78 | Loading a chunk into the layer does not change what any handle sees. |
| ChunkHandles.WriteChunk | tests/test_amulet_level/test_java/test_chunk_handle.py:80-107 | A write sets the handle's chunk and leaves every other chunk as seen. |
| ChunkHandles.SetChunkState | tests/test_amulet_level/test_java/test_chunk_handle.py:80-107 | After set/delete the handle sees the new value (none for delete) and every other chunk is unchanged. The undo count is kept and redo becomes 0. |
| ChunkHandles.StartAfterChunkSet | tests/test_amulet_level/test_java/test_chunk_handle.py:347-405 | With history enabled, the bin's start as seen through the layer is unchanged by a set. |
| ChunkHandles.ChunkSetPast | tests/test_amulet_level/test_java/test_chunk_handle.py:347-405 | set_chunk keeps earlier positions. A newly met chunk's baseline is the stored chunk with history enabled, and the set chunk with history disabled. |
| ChunkHandles.ChunkSetShape | tests/test_amulet_level/test_java/test_chunk_handle.py:234-275 | A set adds only its own key to the bin's start. |
| ChunkHandles.ChunkSetPastAll | tests/test_amulet_level/test_java/test_chunk_handle.py:234-275 | The position before the open bin after set_chunk, for every chunk. |
| ChunkHandles.ChunkSetKeepsStart | tests/test_amulet_level/test_java/test_chunk_handle.py:234-275 | Inside a restore point, set_chunk moves the start only for a chunk met for the first time. |
| ChunkHandles.Latest | tests/test_amulet_level/test_java/test_chunk_handle.py:234-275 | The edit of a chunk with no later edit of it decides its value; an unedited chunk keeps its value. |
| ChunkHandles.SetChunks | tests/test_amulet_level/test_java/test_chunk_handle.py:219-260 | After a run of set/delete calls, every chunk holds its last edit. |
| ChunkHandles.SetChunksKeepsStart | tests/test_amulet_level/test_java/test_chunk_handle.py:234-275 | A run of edits inside a restore point keeps the start, as seen through the layer. |
| ChunkHandles.UndoRestorePoint | tests/test_amulet_level/test_java/test_chunk_handle.py:170-275 | Undoing a restore point with any run of set/delete calls gives every chunk its earlier value (undo − 1, redo = 1). Redo returns exactly to the latest state. |
| ChunkHandles.HistoryBaseline | tests/test_amulet_level/test_java/test_chunk_handle.py:347-405 | Undoing a set on a never-loaded chunk gives back the stored chunk with history enabled, and the set chunk with history disabled. |
| ChunkHandles.NestedKeepsPast | tests/test_amulet_level/test_java/test_chunk_handle.py:277-324 | A later restore point keeps the timeline up to the earlier one. |
| ChunkHandles.UndoNestedRestorePoint | tests/test_amulet_level/test_java/test_chunk_handle.py:277-324 | Undoing the later restore point returns to inside the earlier one, with its start. |
| ChunkHandles.TwoRestorePoints | tests/test_amulet_level/test_java/test_chunk_handle.py:277-342 | undo/undo/redo/redo walks the three states in order with matching counts. A set after an undo gives redo = 0, and undo then redo reproduces it. |
| ChunkHandles.LoadedChunk.constructor | tests/test_amulet_level/test_java/test_chunk_handle.py:53-78 | A live chunk has a fresh palette whose snapshot is the given value. |
| ChunkHandles.Level.constructor | tests/test_amulet_level/test_java/test_chunk_handle.py:53-60 | A freshly opened level sees exactly the stored chunks, history enabled, and undo = redo = 0. |
| ChunkHandles.Level.CreateRestorePoint | tests/test_amulet_level/test_java/test_chunk_handle.py:179-184 | Opens a bin and leaves every chunk as seen. |
| ChunkHandles.Level.Undo | tests/test_amulet_level/test_java/test_chunk_handle.py:222-269 | Undo on the level's history. |
| ChunkHandles.Level.Redo | tests/test_amulet_level/test_java/test_chunk_handle.py:228-275 | Redo on the level's history. |
| ChunkHandles.Level.GetUndoCount | tests/test_amulet_level/test_java/test_chunk_handle.py:180-230 | The history's undo count. |
| ChunkHandles.Level.GetRedoCount | tests/test_amulet_level/test_java/test_chunk_handle.py:181-231 | The history's redo count. |
| ChunkHandles.Level.SetHistoryEnabled | tests/test_amulet_level/test_java/test_chunk_handle.py:347-405 | Sets the history_enabled flag. |
| ChunkHandles.JavaChunkHandle.constructor | tests/test_amulet_level/test_java/test_chunk_handle.py:53-60 | A handle names its level, dimension and chunk coordinates. |
| ChunkHandles.JavaChunkHandle.Load | tests/test_amulet_level/test_java/test_chunk_handle.py:53-78 | Loads the stored chunk into the layer without changing what is seen. |
| ChunkHandles.JavaChunkHandle.Exists | tests/test_amulet_level/test_java/test_chunk_handle.py:92-107 | True iff the handle sees a chunk. |
| ChunkHandles.JavaChunkHandle.GetChunk | tests/test_amulet_level/test_java/test_chunk_handle.py:53-107 | Succeeds iff a chunk is seen and returns a fresh copy equal to it. Otherwise it raises ChunkDoesNotExist. |
| ChunkHandles.JavaChunkHandle.SetChunk | tests/test_amulet_level/test_java/test_chunk_handle.py:80-90 | The handle's chunk becomes the given chunk's state. |
| ChunkHandles.JavaChunkHandle.DeleteChunk | tests/test_amulet_level/test_java/test_chunk_handle.py:92-97 | The handle's chunk becomes absent. |
| ChunkHandles.JavaChunkHandle.Write | tests/test_amulet_level/test_java/test_chunk_handle.py:80-97 | Writes through the layer, preloading the stored chunk first when history is enabled. |
| ChunkHandles.EditCopy | tests/test_amulet_level/test_java/test_chunk_handle.py:53-78 | Editing the copy's palette adds the stack at the old length, and a second get_chunk still returns the stored palette. |
| Registries.BijectiveSameSize | tests/test_amulet_level/test_abc/test_registry.py:10-13 | The two directions of a two-way table have the same size. |
| Registries.RegisterKeepsBijective | tests/test_amulet_level/test_abc/test_registry.py:8-16 | A non-colliding registration keeps the table two-way. |
| Registries.NamesAreImage | tests/test_amulet_level/test_abc/test_registry.py:64-68 | The registered names are exactly the images of the registered numbers. |
| Registries.IdRegistry.constructor | tests/test_amulet_level/test_abc/test_registry.py:8-9 | A new registry is empty. |
| Registries.IdRegistry.RegisterId | tests/test_amulet_level/test_abc/test_registry.py:8-16 | A registration that contradicts an existing pair fails and changes nothing. Otherwise both directions get the pair. |
| Registries.IdRegistry.NumericalIdToNamespaceId | tests/test_amulet_level/test_abc/test_registry.py:18-29 | Returns the registered name iff the number is registered, and KeyError otherwise. |
| Registries.IdRegistry.NamespaceIdToNumericalId | tests/test_amulet_level/test_abc/test_registry.py:31-45 | The inverse lookup, with KeyError on a miss. |
| Registries.IdRegistry.NamespaceIdToNumericalIdParts | tests/test_amulet_level/test_abc/test_registry.py:41-47 | The same lookup taking the namespace and base name separately. |
| Registries.IdRegistry.GetItem | tests/test_amulet_level/test_abc/test_registry.py:49-59 | Dispatches on the key kind and agrees with the two lookups, including KeyError. |
| Registries.IdRegistry.Get | tests/test_amulet_level/test_abc/test_registry.py:86-94 | Returns the registered value, or the default when the number is absent. |
| Registries.IdRegistry.Len | tests/test_amulet_level/test_abc/test_registry.py:10-13 | The number of registered pairs. |
| Registries.IdRegistry.Keys | tests/test_amulet_level/test_abc/test_registry.py:61-63 | Exactly the registered numbers. |
| Registries.IdRegistry.Values | tests/test_amulet_level/test_abc/test_registry.py:64-68 | Exactly the registered names. |
| Registries.IdRegistry.Items | tests/test_amulet_level/test_abc/test_registry.py:69-85 | Exactly the registered pairs, each consistent with the inverse map. |
| Regions.FirstFree | tests/test_amulet_level/test_java/test_anvil/test_region.py:40-45 | The first free sector, or none when every sector is owned. |
| Regions.Put | tests/test_amulet_level/test_java/test_anvil/test_region.py:40-45 | Writing creates the file if needed and updates exactly that coord. Overwriting keeps the size; a new entry reuses a free sector or grows the file by one. |
| Regions.PlacedWellFormed | tests/test_amulet_level/test_java/test_anvil/test_region.py:40-45 | Placing an entry in a free or new sector keeps the region well formed. |
| Regions.Delete | tests/test_amulet_level/test_java/test_anvil/test_region.py:54-56 | Removes exactly that coord and keeps the file size, leaving a free sector. Deleting an absent coord is a no-op. |
| Regions.Packed | tests/test_amulet_level/test_java/test_anvil/test_region.py:248-264 | Packing drops free sectors and never grows. |
| Regions.PackedPrefix | tests/test_amulet_level/test_java/test_anvil/test_region.py:248-264 | Packing a prefix gives a prefix of the packing. |
| Regions.PackedAt | tests/test_amulet_level/test_java/test_anvil/test_region.py:248-264 | An owned sector lands at the number of owned sectors before it. |
| Regions.PackedOrigin | tests/test_amulet_level/test_java/test_anvil/test_region.py:248-264 | Every packed sector comes from an owned sector. |
| Regions.PackedLength | tests/test_amulet_level/test_java/test_anvil/test_region.py:248-264 | Packing keeps the length iff no sector is free. |
| Regions.PackedAllOwned | tests/test_amulet_level/test_java/test_anvil/test_region.py:248-264 | Packing a fully owned run changes nothing. |
| Regions.PackedNoneOwned | tests/test_amulet_level/test_java/test_anvil/test_region.py:57-60 | Packing an all-free run leaves nothing. |
| Regions.RelocatedWellFormed | tests/test_amulet_level/test_java/test_anvil/test_region.py:248-264 | The packed sectors with relocated offsets form a well-formed region. |
| Regions.Compacted | tests/test_amulet_level/test_java/test_anvil/test_region.py:248-264 | Compaction keeps every (coord, value) pair. |
| Regions.CompactedSpec | tests/test_amulet_level/test_java/test_anvil/test_region.py:248-264 | Compaction never grows the file. It shrinks it iff there was a free sector, leaves none free, and removes the file iff the region is empty. |
| Regions.CompactedSizes | tests/test_amulet_level/test_java/test_anvil/test_region.py:248-264 | The size half of CompactedSpec. |
| Regions.CompactedEmpty | tests/test_amulet_level/test_java/test_anvil/test_region.py:57-60 | The file is absent after compaction iff the region is empty. |
| Regions.CompactedIdempotent | tests/test_amulet_level/test_java/test_anvil/test_region.py:248-264 | Compacting twice is compacting once. |
| Regions.CompactedFixed | tests/test_amulet_level/test_java/test_anvil/test_region.py:248-264 | A region without free sectors is unchanged by compaction. |
| Regions.RelocatedIdentity | tests/test_amulet_level/test_java/test_anvil/test_region.py:248-264 | Without free sectors, relocation keeps every offset. |
| Regions.RelocatedStep | tests/test_amulet_level/test_java/test_anvil/test_region.py:248-264 | Relocation moves each owned sector to its packed index. |
| Regions.PackSectors | tests/test_amulet_level/test_java/test_anvil/test_region.py:248-264 | The compaction loop computes exactly the packed sectors and the relocated offsets. |
| Regions.FileNameInjective | tests/test_amulet_level/test_java/test_anvil/test_region.py:35-39 | Distinct region coordinates get distinct r.<x>.<z>.mca file names. |
| Regions.FileNameParts | tests/test_amulet_level/test_java/test_anvil/test_region.py:35-39 | A file name splits back into its two coordinates. |
| Regions.DotSplit | tests/test_amulet_level/test_java/test_anvil/test_region.py:35-39 | A dot-free head followed by a dot splits uniquely. |
| Regions.FirstDotAt | tests/test_amulet_level/test_java/test_anvil/test_region.py:35-39 | The first dot is right after a dot-free head. |
| Regions.AnvilRegion.constructor | tests/test_amulet_level/test_java/test_anvil/test_region.py:35-53 | A region opened on a disk state sees exactly that state, so a reopened region keeps its contents. |
| Regions.AnvilRegion.GetCoords | tests/test_amulet_level/test_java/test_anvil/test_region.py:37-42 | Exactly the stored coords, all in bounds. |
| Regions.AnvilRegion.HasValue | tests/test_amulet_level/test_java/test_anvil/test_region.py:281-284 | ValueError iff out of bounds; otherwise whether the coord is stored. |
| Regions.AnvilRegion.GetValue | tests/test_amulet_level/test_java/test_anvil/test_region.py:278-286 | Succeeds iff stored, returning the value. Otherwise ChunkDoesNotExist in bounds and ValueError out of bounds. |
| Regions.AnvilRegion.SetValue | tests/test_amulet_level/test_java/test_anvil/test_region.py:289-294 | ValueError and no change out of bounds. Otherwise the disk becomes Put. |
| Regions.AnvilRegion.DeleteValue | tests/test_amulet_level/test_java/test_anvil/test_region.py:296-301 | ValueError and no change out of bounds. Otherwise the disk becomes Delete. |
| Regions.AnvilRegion.Compact | tests/test_amulet_level/test_java/test_anvil/test_region.py:57-60 | The disk becomes Compacted. |
| RawDimensions.Locate | tests/test_amulet_level/test_java/test_raw_dimension.py:73-76 | A chunk coordinate is region × 32 + an in-bounds local coordinate. |
| RawDimensions.LocateUnique | tests/test_amulet_level/test_java/test_raw_dimension.py:73-76 | That split is unique. |
| RawDimensions.SplitUnique | tests/test_amulet_level/test_java/test_raw_dimension.py:73-76 | Quotient and remainder by 32 are unique. |
| RawDimensions.OtherSlot | tests/test_amulet_level/test_java/test_raw_dimension.py:73-76 | Distinct chunks in the same region get distinct local coords. |
| RawDimensions.PutChunk | tests/test_amulet_level/test_java/test_raw_dimension.py:73-76 | Setting a chunk makes it read back and leaves every other chunk unchanged. |
| RawDimensions.StoreKeepsOthers | tests/test_amulet_level/test_java/test_raw_dimension.py:62-76 | Replacing one region with a disk that differs only at one slot leaves every other chunk unchanged. |
| RawDimensions.RemoveChunk | tests/test_amulet_level/test_java/test_raw_dimension.py:62-107 | Deleting makes the chunk absent, changes no other chunk and keeps every region's size. Deleting an absent chunk is a no-op. |
| RawDimensions.DeleteKeepsSizes | tests/test_amulet_level/test_java/test_raw_dimension.py:96-107 | Deleting inside one region keeps every region's size. |
| RawDimensions.CompactAll | tests/test_amulet_level/test_java/test_raw_dimension.py:96-112 | Compacting every region keeps every chunk. |
| RawDimensions.CompactedOverSpec | tests/test_amulet_level/test_java/test_raw_dimension.py:96-112 | Compacting a set of regions keeps the chunks in them. |
| RawDimensions.CompactedOverStep | tests/test_amulet_level/test_java/test_raw_dimension.py:96-112 | Compacting one more region updates only that region. |
| RawDimensions.CompactedOverNext | tests/test_amulet_level/test_java/test_raw_dimension.py:96-112 | The compaction loop's step, in terms of the regions still to do. |
| RawDimensions.CompactedOverAt | tests/test_amulet_level/test_java/test_raw_dimension.py:96-112 | After compaction a region exists iff it did and still has entries, and it then holds its compacted file. |
| RawDimensions.SumRemove | tests/test_amulet_level/test_java/test_raw_dimension.py:96-112 | The total storage splits off one region. |
| RawDimensions.SumLe | tests/test_amulet_level/test_java/test_raw_dimension.py:96-112 | Pointwise no larger on fewer regions means no larger in total. |
| RawDimensions.SumLess | tests/test_amulet_level/test_java/test_raw_dimension.py:109-112 | Strictly smaller somewhere means strictly smaller in total. |
| RawDimensions.CompactAllNoLarger | tests/test_amulet_level/test_java/test_raw_dimension.py:109-112 | Compaction never grows the total storage. |
| RawDimensions.CompactedSizes | tests/test_amulet_level/test_java/test_raw_dimension.py:109-112 | Each compacted region is no larger than before. |
| RawDimensions.DeleteThenCompactShrinks | tests/test_amulet_level/test_java/test_raw_dimension.py:96-112 | Deleting a present chunk keeps the total storage size, and compacting afterwards makes it strictly smaller. |
| RawDimensions.JavaRawDimension.constructor | tests/test_amulet_level/test_java/test_raw_dimension.py:52 | A dimension opened on region files sees exactly them. |
| RawDimensions.JavaRawDimension.HasChunk | tests/test_amulet_level/test_java/test_raw_dimension.py:52-64 | True iff the chunk is stored. |
| RawDimensions.JavaRawDimension.GetRawChunk | tests/test_amulet_level/test_java/test_raw_dimension.py:54-71 | Returns the stored map iff present, and ChunkDoesNotExist otherwise. |
| RawDimensions.JavaRawDimension.SetRawChunk | tests/test_amulet_level/test_java/test_raw_dimension.py:73-76 | The files become PutChunk. |
| RawDimensions.JavaRawDimension.DeleteChunk | tests/test_amulet_level/test_java/test_raw_dimension.py:62-67 | The files become RemoveChunk. |
| RawDimensions.JavaRawDimension.Compact | tests/test_amulet_level/test_java/test_raw_dimension.py:96-112 | The files become CompactAll. |
| Decimal.NatToString | tests/test_amulet_level/test_java/test_anvil/test_region.py:35-39 | A non-empty string of digits. |
| Decimal.IntToString | tests/test_amulet_level/test_java/test_anvil/test_region.py:35-39 | A non-empty string without a dot. |
| Decimal.ParseNatToString | tests/test_amulet_level/test_java/test_anvil/test_region.py:35-39 | Parsing the rendering of a natural gives it back. |
| Decimal.ParseIntToString | tests/test_amulet_level/test_java/test_anvil/test_region.py:35-39 | Parsing the rendering of an integer gives it back. |
| Decimal.IntToStringInjective | tests/test_amulet_level/test_java/test_anvil/test_region.py:35-39 | Distinct integers render differently. |

## Left out

- The bit-packing kernels (`encode_long_array`, `decode_long_array`, `encoded_long_array_size` in long_array.hpp) are not part of this model. Decode and encode stop at the buffer checks and width choice. They report the element type, the length, the width and the count, but not the packed words.
- Numpy buffers are reduced to their item type, dimension count, strides and item size. Values are unbounded naturals below 2^64.
- `chunk_encode.cpp`'s `encode_chunk` always throws "unsupported" and is not modelled.
- JavaChunk1444's error text says 1443 where the check rejects 1443. The model follows the check, which accepts 1444–1465.
- `default_biome` is accepted and ignored by every chunk constructor, and so by the model.
- Chunk sections, biomes and NBT contents are not modelled. A loaded chunk carries only its class, version range and palette; tags and blocks are opaque, equality-comparable values.
- The history header (abc/history.hpp) is not part of this model. Its behaviour is taken from the tests, and three choices are the model's own:
  - each resource keeps its own version stack;
  - set_initial_value on a key the layer already holds is a no-op;
  - a set_value before any undo bin overwrites the current version and cannot be undone.
- History-disabled chunk writes are modelled as Value-mode set_value, so a chunk set before it was loaded has the set chunk as its baseline.
- The region file's byte layout, compression (zlib/gzip/lz4), sidecar files and real byte counts are not modelled. Every payload takes one sector, so sizes are sector counts.
- Persistence across close, destroy and reopen is modelled by the disk value a region is opened on. File handles, closing and destruction are left out.
- A dimension holds region files as values, not AnvilRegion objects, so its methods update the file map directly.
- Locks, threads, weak references and garbage-collected lifetimes (the registry's views outliving the registry, handle caching) are left out. The registry's views are returned as values, which is why they stay valid after the registry is gone.
- Registries.IdRegistry.RegisterId: the tests never register a colliding pair, so the failure's error kind is the model's own (`IdCollision`).
- History.HasChanged: has_changed compares positions, not values: it is true when the current version is not the one current at the last save. Writing the saved value back as a new version still reports a change. The history header is not part of this model, and the tests never write a saved value back.
- Histories.HistoryLayer.HasChanged: it answers as History.HasChanged does, so the same position-based reading applies.
- History.SetValue: the runtime error's message text is the model's own. The tests fix only the error kind (std::runtime_error).
- Regions.AnvilRegion.GetValue: an out-of-bounds coordinate is modelled as ValueError, as for the other region calls.
- Level lifecycle, metadata, level.dat, thumbnails, signals, dimension bounds and `all_chunk_coords` are file I/O and observer plumbing, and are not modelled.

## Findings

| source | as written | input that shows it | evidently intended | confidence | as-written member | corrected member |
|---|---|---|---|---|---|---|
| src/amulet/level/java/long_array.py.cpp:56 | With bits_per_entry None, `_encode_long_array` dereferences `std::max_element` of the input without checking for an empty span. On an empty span max_element returns the end position, and reading it is undefined behaviour. | An empty uint8 array passed to encode_long_array with bits_per_entry None | An empty input needs 0 bits, so the width is min_bits_per_entry | not executed | LongArray.EmptyInputMaxElementIsEnd | LongArray.EncodeLongArray |

