/** The Java chunk handle: one chunk coordinate of a level, read through the
    level's chunk history and, for a chunk the history has not met yet, from
    the level's storage. A chunk is kept as a value; callers get and give
    live copies, so an edit to a copy reaches the level only through
    set_chunk. */
module ChunkHandles {
  import opened Wrappers
  import opened Core
  import opened Histories
  import H = History
  import JavaChunks

  /** Where a chunk lives: its dimension and its chunk coordinates. */
  datatype ChunkKey = ChunkKey(dimension: string, cx: int, cz: int)

  /** A block palette as a value: its stacks, none of them twice. */
  type PaletteStacks = s: seq<BlockStack> | Distinct(s) witness []

  /** A chunk as the level keeps it: its class and its block palette. */
  datatype ChunkValue = ChunkValue(chunkClass: JavaChunks.ChunkClass, range: VersionRange, palette: PaletteStacks)

  /** The chunks saved in the level's storage. */
  type Storage = map<ChunkKey, ChunkValue>

  /** The state of the level's history; None is "no chunk here". */
  type ChunkHistory = H.HistoryState<ChunkKey, Option<ChunkValue>>

  type ChunkValues = map<H.ResourceKey<ChunkKey>, Option<ChunkValue>>

  /** What storage holds for a key. */
  function Stored(storage: Storage, key: ChunkKey): (r: Option<ChunkValue>)
    ensures r.Some? <==> key in storage
    ensures r.Some? ==> r.value == storage[key]
  {
    if key in storage then Some(storage[key]) else None
  }

  /** The chunk at key given the history layer's values m: the layer's value
      once the key is loaded, the stored chunk before. */
  function ChunkIn(m: ChunkValues, layer: nat, storage: Storage, key: ChunkKey): (r: Option<ChunkValue>)
    ensures H.ResourceKey(layer, key) in m ==> r == m[H.ResourceKey(layer, key)]
    ensures H.ResourceKey(layer, key) !in m ==> r == Stored(storage, key)
  {
    var rk := H.ResourceKey(layer, key);
    if rk in m then m[rk] else Stored(storage, key)
  }

  /** The chunk at key in history state s. */
  function ChunkAt(s: ChunkHistory, layer: nat, storage: Storage, key: ChunkKey): Option<ChunkValue>
  {
    ChunkIn(H.Values(s), layer, storage, key)
  }

  /** _preload: a key the layer has not met yet starts from what storage
      holds. Loading changes no chunk. */
  function Preload(s: ChunkHistory, layer: nat, storage: Storage, key: ChunkKey): (r: ChunkHistory)
    requires H.Valid(s) && layer < s.layers
    ensures H.Valid(r) && r.resources.Keys == s.resources.Keys + {H.ResourceKey(layer, key)}
    ensures r.layers == s.layers && r.emptyValue == s.emptyValue && r.bins == s.bins && r.cursor == s.cursor
    ensures forall k :: ChunkAt(r, layer, storage, k) == ChunkAt(s, layer, storage, k)
  {
    H.ValuesKeys(s);
    var r := H.SetInitialValue(s, layer, key, Stored(storage, key));
    H.ValuesKeys(r);
    r
  }

  /** Writing v at key changes the chunk at key and no other. */
  lemma WriteChunk(p: ChunkHistory, r: ChunkHistory, layer: nat, storage: Storage, key: ChunkKey, v: Option<ChunkValue>)
    requires H.Values(r) == H.Values(p)[H.ResourceKey(layer, key) := v]
    ensures ChunkAt(r, layer, storage, key) == v
    ensures forall k :: k != key ==> ChunkAt(r, layer, storage, k) == ChunkAt(p, layer, storage, k)
  {
  }

  /** set_chunk (v a chunk) and delete_chunk (v None). With history enabled
      the stored chunk is loaded first, so it is what undo returns to; with
      history disabled a key the layer has not met starts from v itself. */
  function SetChunkState(s: ChunkHistory, layer: nat, storage: Storage, key: ChunkKey, v: Option<ChunkValue>, enabled: bool): (r: ChunkHistory)
    requires H.Valid(s) && layer < s.layers
    ensures H.Valid(r) && r.layers == s.layers && r.emptyValue == s.emptyValue && r.cursor == s.cursor
    ensures H.UndoCount(r) == H.UndoCount(s) && H.RedoCount(r) == 0
    ensures r.resources.Keys == s.resources.Keys + {H.ResourceKey(layer, key)}
    ensures ChunkAt(r, layer, storage, key) == v
    ensures forall k :: k != key ==> ChunkAt(r, layer, storage, k) == ChunkAt(s, layer, storage, k)
  {
    var p := if enabled then Preload(s, layer, storage, key) else s;
    var mode := if enabled then H.Default else H.Value;
    var r := H.SetValue(p, layer, key, v, mode).value;
    WriteChunk(p, r, layer, storage, key, v);
    r
  }

  /** The value a bin starts from for a key once set_chunk has met it: the
      stored chunk when history is enabled, the set chunk when it is not. */
  function StartAfterChunkSet(start: ChunkValues, layer: nat, storage: Storage, key: ChunkKey, v: Option<ChunkValue>, enabled: bool): (r: ChunkValues)
    ensures enabled ==> forall k :: ChunkIn(r, layer, storage, k) == ChunkIn(start, layer, storage, k)
  {
    var rk := H.ResourceKey(layer, key);
    if rk in start then start else start[rk := if enabled then Stored(storage, key) else v]
  }

  /** set_chunk rewrites only the open bin's position of the timeline: every
      earlier position keeps its value, and a key met for the first time
      holds its baseline there. */
  lemma ChunkSetPast(s: ChunkHistory, layer: nat, storage: Storage, key: ChunkKey, v: Option<ChunkValue>, enabled: bool, rk: H.ResourceKey<ChunkKey>, j: nat)
    requires H.Valid(s) && layer < s.layers && j < s.cursor
    requires rk in s.resources || rk == H.ResourceKey(layer, key)
    ensures var r := SetChunkState(s, layer, storage, key, v, enabled);
      rk in r.resources && H.ValueAt(r, rk, j) ==
        if rk in s.resources then H.ValueAt(s, rk, j)
        else if enabled then Stored(storage, key) else v
  {
    if enabled {
      var p := Preload(s, layer, storage, key);
      H.SetInitialValueTimeline(s, layer, key, Stored(storage, key), rk, j);
      H.SetValueKeepsPast(p, layer, key, v, H.Default, rk, j);
    } else if rk in s.resources {
      H.SetValueKeepsPast(s, layer, key, v, H.Value, rk, j);
    } else {
      H.SetValueNewKeyPast(s, layer, key, v, H.Value, j);
    }
  }

  /** The start a set_chunk leaves covers exactly the keys it has met, and
      keeps the old start for the keys met before. */
  lemma ChunkSetShape(start: ChunkValues, layer: nat, storage: Storage, key: ChunkKey, v: Option<ChunkValue>, enabled: bool)
    ensures var start' := StartAfterChunkSet(start, layer, storage, key, v, enabled);
      && start'.Keys == start.Keys + {H.ResourceKey(layer, key)}
      && (forall e :: e in start ==> start'[e] == start[e])
  {
  }

  /** The position before the open bin after set_chunk, for every key. */
  lemma ChunkSetPastAll(s: ChunkHistory, start: ChunkValues, layer: nat, storage: Storage, key: ChunkKey, v: Option<ChunkValue>, enabled: bool)
    requires H.Valid(s) && s.cursor > 0 && layer < s.layers && start.Keys == s.resources.Keys
    ensures var r := SetChunkState(s, layer, storage, key, v, enabled);
      forall e :: e in r.resources ==>
        H.ValueAt(r, e, r.cursor - 1) ==
          if e in s.resources then H.ValueAt(s, e, s.cursor - 1)
          else StartAfterChunkSet(start, layer, storage, key, v, enabled)[e]
  {
    var r := SetChunkState(s, layer, storage, key, v, enabled);
    forall e | e in r.resources
      ensures H.ValueAt(r, e, r.cursor - 1) ==
        if e in s.resources then H.ValueAt(s, e, s.cursor - 1)
        else StartAfterChunkSet(start, layer, storage, key, v, enabled)[e]
    {
      ChunkSetPast(s, layer, storage, key, v, enabled, e, s.cursor - 1);
    }
  }

  /** set_chunk inside an open bin moves the bin's start only for a key it
      meets for the first time. */
  lemma ChunkSetKeepsStart(s: ChunkHistory, start: ChunkValues, layer: nat, storage: Storage, key: ChunkKey, v: Option<ChunkValue>, enabled: bool)
    requires H.BinStart(s, start) && layer < s.layers
    ensures H.BinStart(SetChunkState(s, layer, storage, key, v, enabled),
                       StartAfterChunkSet(start, layer, storage, key, v, enabled))
  {
    ChunkSetShape(start, layer, storage, key, v, enabled);
    ChunkSetPastAll(s, start, layer, storage, key, v, enabled);
    H.StartTransfer(s, start, SetChunkState(s, layer, storage, key, v, enabled),
                    StartAfterChunkSet(start, layer, storage, key, v, enabled));
  }

  /** The chunk a run of edits leaves at k: the last one naming k, or d. */
  function Latest(edits: seq<(ChunkKey, Option<ChunkValue>)>, k: ChunkKey, d: Option<ChunkValue>): (r: Option<ChunkValue>)
    ensures (forall i :: 0 <= i < |edits| ==> edits[i].0 != k) ==> r == d
    ensures |edits| > 0 && edits[|edits| - 1].0 == k ==> r == edits[|edits| - 1].1
    ensures forall i | 0 <= i < |edits| && edits[i].0 == k && (forall j | i < j < |edits| :: edits[j].0 != k) :: r == edits[i].1
    decreases |edits|
  {
    if |edits| == 0 then d
    else Latest(edits[1..], k, if edits[0].0 == k then edits[0].1 else d)
  }

  /** A run of set_chunk and delete_chunk calls on one layer. */
  function SetChunks(s: ChunkHistory, layer: nat, storage: Storage, edits: seq<(ChunkKey, Option<ChunkValue>)>, enabled: bool): (r: ChunkHistory)
    requires H.Valid(s) && layer < s.layers
    ensures H.Valid(r) && r.layers == s.layers && r.emptyValue == s.emptyValue && r.cursor == s.cursor
    ensures s.resources.Keys <= r.resources.Keys
    ensures H.UndoCount(r) == H.UndoCount(s) && H.RedoCount(r) == if |edits| == 0 then H.RedoCount(s) else 0
    ensures forall k :: ChunkAt(r, layer, storage, k) == Latest(edits, k, ChunkAt(s, layer, storage, k))
    decreases |edits|
  {
    if |edits| == 0 then s
    else SetChunks(SetChunkState(s, layer, storage, edits[0].0, edits[0].1, enabled), layer, storage, edits[1..], enabled)
  }

  /** The start of the open bin after a run of edits. */
  function StartAfterChunkSets(start: ChunkValues, layer: nat, storage: Storage, edits: seq<(ChunkKey, Option<ChunkValue>)>, enabled: bool): ChunkValues
    decreases |edits|
  {
    if |edits| == 0 then start
    else StartAfterChunkSets(StartAfterChunkSet(start, layer, storage, edits[0].0, edits[0].1, enabled),
                             layer, storage, edits[1..], enabled)
  }

  lemma {:induction false} SetChunksKeepsStart(s: ChunkHistory, start: ChunkValues, layer: nat, storage: Storage, edits: seq<(ChunkKey, Option<ChunkValue>)>, enabled: bool)
    requires H.BinStart(s, start) && layer < s.layers
    ensures H.BinStart(SetChunks(s, layer, storage, edits, enabled),
                       StartAfterChunkSets(start, layer, storage, edits, enabled))
    ensures enabled ==> forall k ::
      ChunkIn(StartAfterChunkSets(start, layer, storage, edits, enabled), layer, storage, k) == ChunkIn(start, layer, storage, k)
    decreases |edits|
  {
    if |edits| > 0 {
      ChunkSetKeepsStart(s, start, layer, storage, edits[0].0, edits[0].1, enabled);
      SetChunksKeepsStart(SetChunkState(s, layer, storage, edits[0].0, edits[0].1, enabled),
                          StartAfterChunkSet(start, layer, storage, edits[0].0, edits[0].1, enabled),
                          layer, storage, edits[1..], enabled);
    }
  }

  /** One restore point holding any run of set_chunk and delete_chunk calls
      with history enabled: undo gives every chunk back the value it had
      before the restore point, and redo returns to the state after the
      run. */
  lemma UndoRestorePoint(h: ChunkHistory, layer: nat, storage: Storage, edits: seq<(ChunkKey, Option<ChunkValue>)>)
    requires H.Valid(h) && layer < h.layers
    ensures var r := SetChunks(H.CreateUndoBin(h), layer, storage, edits, true);
      var u := H.Undo(r);
      && H.UndoCount(r) == H.UndoCount(h) + 1 && H.RedoCount(r) == 0
      && H.UndoCount(u) == H.UndoCount(h) && H.RedoCount(u) == 1
      && (forall k :: ChunkAt(u, layer, storage, k) == ChunkAt(h, layer, storage, k))
      && H.Redo(u) == r
  {
    var s := H.CreateUndoBin(h);
    var r := SetChunks(s, layer, storage, edits, true);
    H.CreateUndoBinStart(h);
    SetChunksKeepsStart(s, H.Values(h), layer, storage, edits, true);
    H.UndoToStart(r, StartAfterChunkSets(H.Values(h), layer, storage, edits, true));
    H.RedoAfterUndo(r);
  }

  /** A chunk set before it was ever loaded, inside a restore point: with
      history enabled undo returns the stored chunk, with history disabled
      it returns the chunk that was set. */
  lemma HistoryBaseline(h: ChunkHistory, layer: nat, storage: Storage, key: ChunkKey, v: Option<ChunkValue>, enabled: bool)
    requires H.Valid(h) && layer < h.layers && H.ResourceKey(layer, key) !in h.resources
    ensures var u := H.Undo(SetChunkState(H.CreateUndoBin(h), layer, storage, key, v, enabled));
      ChunkAt(u, layer, storage, key) == if enabled then Stored(storage, key) else v
  {
    var s := H.CreateUndoBin(h);
    var start := H.Values(h);
    H.CreateUndoBinStart(h);
    ChunkSetKeepsStart(s, start, layer, storage, key, v, enabled);
    H.UndoToStart(SetChunkState(s, layer, storage, key, v, enabled),
                  StartAfterChunkSet(start, layer, storage, key, v, enabled));
  }

  /** A later restore point that sets a chunk keeps the timeline up to the
      earlier one. */
  lemma NestedKeepsPast(s: ChunkHistory, layer: nat, storage: Storage, key: ChunkKey, v: Option<ChunkValue>, e: H.ResourceKey<ChunkKey>, j: nat)
    requires H.Valid(s) && layer < s.layers && e in s.resources && j <= s.cursor
    ensures var r := SetChunkState(H.CreateUndoBin(s), layer, storage, key, v, true);
      e in r.resources && H.ValueAt(r, e, j) == H.ValueAt(s, e, j)
  {
    var b := H.CreateUndoBin(s);
    H.CreateUndoBinKeepsPast(s, e, j);
    ChunkSetPast(b, layer, storage, key, v, true, e, j);
  }

  /** Undoing a later restore point that set a chunk puts the timeline back
      inside the earlier restore point, with the earlier start. */
  lemma UndoNestedRestorePoint(s: ChunkHistory, start: ChunkValues, layer: nat, storage: Storage, key: ChunkKey, v: Option<ChunkValue>)
    requires H.BinStart(s, start) && layer < s.layers && H.ResourceKey(layer, key) in s.resources
    ensures var r := SetChunkState(H.CreateUndoBin(s), layer, storage, key, v, true);
      H.BinStart(H.Undo(r), start)
  {
    var b := H.CreateUndoBin(s);
    var r := SetChunkState(b, layer, storage, key, v, true);
    var u := H.Undo(r);
    assert u.resources.Keys == s.resources.Keys;
    var j := s.cursor - 1;
    assert u.cursor - 1 == j;
    forall e | e in u.resources ensures H.ValueAt(u, e, j) == start[e] {
      NestedKeepsPast(s, layer, storage, key, v, e, j);
      H.UndoKeepsTimeline(r, e, j);
    }
  }

  /** Two restore points that each set the same loaded chunk (a, then b):
      undo and redo walk the three states in order, and a chunk set after an
      undo (c) replaces the undone restore point. */
  lemma TwoRestorePoints(h: ChunkHistory, layer: nat, storage: Storage, key: ChunkKey, a: Option<ChunkValue>, b: Option<ChunkValue>, c: Option<ChunkValue>)
    requires H.Valid(h) && layer < h.layers
    ensures var s1 := SetChunkState(H.CreateUndoBin(h), layer, storage, key, a, true);
      var s2 := SetChunkState(H.CreateUndoBin(s1), layer, storage, key, b, true);
      var u1 := H.Undo(s2);
      var u2 := H.Undo(u1);
      var w := SetChunkState(u1, layer, storage, key, c, true);
      && H.UndoCount(s2) == H.UndoCount(h) + 2 && H.RedoCount(s2) == 0
      && H.UndoCount(u1) == H.UndoCount(h) + 1 && H.RedoCount(u1) == 1
      && ChunkAt(u1, layer, storage, key) == a
      && H.UndoCount(u2) == H.UndoCount(h) && H.RedoCount(u2) == 2
      && (forall k :: ChunkAt(u2, layer, storage, k) == ChunkAt(h, layer, storage, k))
      && H.Redo(u2) == u1 && H.Redo(u1) == s2
      && H.UndoCount(w) == H.UndoCount(h) + 1 && H.RedoCount(w) == 0
      && ChunkAt(w, layer, storage, key) == c
      && (forall k :: ChunkAt(H.Undo(w), layer, storage, k) == ChunkAt(h, layer, storage, k))
      && H.Redo(H.Undo(w)) == w
  {
    var b1 := H.CreateUndoBin(h);
    var s1 := SetChunkState(b1, layer, storage, key, a, true);
    var b2 := H.CreateUndoBin(s1);
    var s2 := SetChunkState(b2, layer, storage, key, b, true);
    var u1 := H.Undo(s2);
    var w := SetChunkState(u1, layer, storage, key, c, true);
    var start1 := StartAfterChunkSet(H.Values(h), layer, storage, key, a, true);
    H.CreateUndoBinStart(h);
    ChunkSetKeepsStart(b1, H.Values(h), layer, storage, key, a, true);
    var start2 := StartAfterChunkSet(H.Values(s1), layer, storage, key, b, true);
    H.CreateUndoBinStart(s1);
    ChunkSetKeepsStart(b2, H.Values(s1), layer, storage, key, b, true);
    H.UndoToStart(s2, start2);
    UndoNestedRestorePoint(s1, start1, layer, storage, key, b);
    H.UndoToStart(u1, start1);
    H.RedoAfterUndo(u1);
    H.RedoAfterUndo(s2);
    ChunkSetKeepsStart(u1, start1, layer, storage, key, c, true);
    H.UndoToStart(w, StartAfterChunkSet(start1, layer, storage, key, c, true));
    H.RedoAfterUndo(w);
  }

  /** A live chunk as a caller holds it: its class and its own palette. */
  class LoadedChunk {
    const chunkClass: JavaChunks.ChunkClass
    const palette: BlockPalette

    /** A new chunk object with a new palette holding v's stacks. */
    constructor(v: ChunkValue)
      ensures fresh(palette) && palette.Valid() && Snapshot() == v
    {
      chunkClass := v.chunkClass;
      palette := new BlockPalette.Copy(v.range, v.palette);
    }

    /** The chunk as a value. */
    function Snapshot(): ChunkValue
      requires palette.Valid()
      reads palette
    {
      ChunkValue(chunkClass, palette.versionRange, palette.stacks)
    }
  }

  /** The parts of a level a chunk handle uses: the history_enabled flag,
      the history manager with its chunk layer, and the stored chunks. */
  class Level {
    var historyEnabled: bool
    const storage: Storage
    const history: HistoryManager<ChunkKey, Option<ChunkValue>>
    const chunks: HistoryLayer<ChunkKey, Option<ChunkValue>>

    ghost predicate Valid()
      reads this, history
    {
      chunks.manager == history && chunks.Valid() && history.emptyValue == None
    }

    /** The chunk at key as the level currently has it. */
    function ChunkOf(key: ChunkKey): Option<ChunkValue>
      reads history
    {
      ChunkAt(history.State(), chunks.index, storage, key)
    }

    /** An opened level: history enabled, nothing loaded, nothing to undo. */
    constructor(storage: Storage)
      ensures Valid() && fresh(history) && historyEnabled && this.storage == storage
      ensures H.UndoCount(history.State()) == 0 && H.RedoCount(history.State()) == 0
      ensures forall k :: ChunkOf(k) == Stored(storage, k)
    {
      var m := new HistoryManager<ChunkKey, Option<ChunkValue>>(None);
      var layer := m.NewLayer();
      this.storage := storage;
      history := m;
      chunks := layer;
      historyEnabled := true;
    }

    method CreateRestorePoint()
      requires Valid()
      modifies history
      ensures Valid() && history.State() == H.CreateUndoBin(old(history.State()))
      ensures forall k :: ChunkOf(k) == old(ChunkOf(k))
    {
      history.CreateUndoBin();
    }

    method Undo()
      requires Valid()
      modifies history
      ensures Valid() && history.State() == H.Undo(old(history.State()))
    {
      history.Undo();
    }

    method Redo()
      requires Valid()
      modifies history
      ensures Valid() && history.State() == H.Redo(old(history.State()))
    {
      history.Redo();
    }

    method GetUndoCount() returns (n: nat)
      requires Valid()
      ensures n == H.UndoCount(history.State())
    {
      n := history.GetUndoCount();
    }

    method GetRedoCount() returns (n: nat)
      requires Valid()
      ensures n == H.RedoCount(history.State())
    {
      n := history.GetRedoCount();
    }

    method SetHistoryEnabled(enabled: bool)
      modifies this
      ensures historyEnabled == enabled
    {
      historyEnabled := enabled;
    }
  }

  /** A handle on the chunk at one coordinate of a level. */
  class JavaChunkHandle {
    const level: Level
    const key: ChunkKey

    constructor(level: Level, dimension: string, cx: int, cz: int)
      ensures this.level == level && key == ChunkKey(dimension, cx, cz)
    {
      this.level := level;
      key := ChunkKey(dimension, cx, cz);
    }

    /** The chunk this handle names, as the level currently has it. */
    function Chunk(): Option<ChunkValue>
      reads level.history
    {
      level.ChunkOf(key)
    }

    method Load()
      requires level.Valid()
      modifies level.history
      ensures level.Valid()
      ensures level.history.State() == Preload(old(level.history.State()), level.chunks.index, level.storage, key)
    {
      var stored := Stored(level.storage, key);
      level.chunks.SetInitialValue(key, stored);
    }

    /** exists: the loaded chunk when the history holds one, otherwise
        whether storage has the chunk. */
    method Exists() returns (b: bool)
      requires level.Valid()
      ensures b <==> Chunk().Some?
    {
      var r := level.chunks.GetValue(key);
      H.ValuesKeys(level.history.State());
      if r.Ok? {
        b := r.value.Some?;
      } else {
        b := key in level.storage;
      }
    }

    /** get_chunk: a new copy of the chunk, or ChunkDoesNotExist. Loading
        the chunk changes no chunk of the level. */
    method GetChunk() returns (r: Result<LoadedChunk>)
      requires level.Valid()
      modifies level.history
      ensures level.Valid()
      ensures level.history.State() == Preload(old(level.history.State()), level.chunks.index, level.storage, key)
      ensures r.Ok? <==> old(Chunk()).Some?
      ensures r.Err? ==> r.error == ChunkDoesNotExist
      ensures r.Ok? ==> fresh(r.value) && fresh(r.value.palette) && r.value.palette.Valid()
                        && r.value.Snapshot() == old(Chunk()).value
    {
      Load();
      var v := level.chunks.GetValue(key);
      if v.Ok? && v.value.Some? {
        var chunk := new LoadedChunk(v.value.value);
        r := Ok(chunk);
      } else {
        r := Err(ChunkDoesNotExist);
      }
    }

    /** set_chunk: the chunk's current state becomes this handle's chunk. */
    method SetChunk(chunk: LoadedChunk)
      requires level.Valid() && chunk.palette.Valid()
      modifies level.history
      ensures level.Valid()
      ensures level.history.State() == SetChunkState(old(level.history.State()), level.chunks.index, level.storage,
                                                     key, Some(chunk.Snapshot()), level.historyEnabled)
    {
      Write(Some(chunk.Snapshot()));
    }

    /** delete_chunk: the chunk is gone until it is set again. */
    method DeleteChunk()
      requires level.Valid()
      modifies level.history
      ensures level.Valid()
      ensures level.history.State() == SetChunkState(old(level.history.State()), level.chunks.index, level.storage,
                                                     key, None, level.historyEnabled)
    {
      Write(None);
    }

    method Write(v: Option<ChunkValue>)
      requires level.Valid()
      modifies level.history
      ensures level.Valid()
      ensures level.history.State() == SetChunkState(old(level.history.State()), level.chunks.index, level.storage,
                                                     key, v, level.historyEnabled)
    {
      var o;
      if level.historyEnabled {
        Load();
        o := level.chunks.SetValue(key, v, H.Default);
      } else {
        o := level.chunks.SetValue(key, v, H.Value);
      }
    }
  }

  /** Gets the chunk, adds b to the copy's palette and gets the chunk again:
      the copy's palette grows by b at the old length, the second copy still
      has the stored palette. */
  method EditCopy(handle: JavaChunkHandle, b: BlockStack) returns (first: LoadedChunk, index: nat, second: LoadedChunk)
    requires handle.level.Valid() && handle.Chunk().Some? && b !in handle.Chunk().value.palette
    modifies handle.level.history
    ensures handle.level.Valid() && first.palette.Valid() && second.palette.Valid()
    ensures index == |old(handle.Chunk()).value.palette|
    ensures first.palette.stacks == old(handle.Chunk()).value.palette + [b]
    ensures second.Snapshot() == old(handle.Chunk()).value
  {
    var r1 := handle.GetChunk();
    first := r1.value;
    index := first.palette.BlockStackToIndex(b);
    var r2 := handle.GetChunk();
    second := r2.value;
  }
}
