/** The history manager behind undo and redo (abc/history.hpp), with the
    behaviour its tests fix (test_history_.py.cpp).

    A manager owns layers; a layer maps resource ids to values. Every
    resource keeps the stack of values it has had, the index of the current
    one and the index that was current when the data was last saved. Edits
    are grouped into undo bins: the timeline is a sequence of bins with a
    cursor; the bins before the cursor can be undone and the ones after it
    redone. A layer is named by its index here, and a resource by its layer
    and key. */
module History {
  import opened Wrappers

  /** How set_value treats a key the layer has never seen. Default behaves as
      Error; Empty starts the key's history at the empty value; Value starts it
      at the value being set. */
  datatype InitMode = Default | Error | Empty | Value

  datatype ResourceKey<K> = ResourceKey(layer: nat, key: K)

  /** One resource's history: the values it has had, the current index and the
      saved index (None once the saved value has been discarded or overwritten,
      or when it was never saved). */
  datatype Resource<V> = Resource(versions: seq<V>, index: nat, saved: Option<nat>)

  datatype HistoryState<K(==), V> = HistoryState(
    emptyValue: V,
    layers: nat,
    resources: map<ResourceKey<K>, Resource<V>>,
    bins: seq<set<ResourceKey<K>>>,
    cursor: nat)

  /** The message of set_value's runtime error for a key it cannot create.
      Only the error kind is fixed by the history's tests; this text is the
      model's own. */
  const SetValueUnknownMessage: string := "Resource does not exist and initialisation mode is Error."

  /** The number of bins in bins that touched rk. */
  function Count<K(==)>(bins: seq<set<ResourceKey<K>>>, rk: ResourceKey<K>): nat
  {
    if |bins| == 0 then 0
    else Count(bins[..|bins| - 1], rk) + (if rk in bins[|bins| - 1] then 1 else 0)
  }

  lemma CountStep<K>(bins: seq<set<ResourceKey<K>>>, c: nat, rk: ResourceKey<K>)
    requires c < |bins|
    ensures Count(bins[..c + 1], rk) == Count(bins[..c], rk) + (if rk in bins[c] then 1 else 0)
  {
    assert bins[..c + 1][..c] == bins[..c];
  }

  lemma {:induction false} CountPrefix<K>(bins: seq<set<ResourceKey<K>>>, c: nat, rk: ResourceKey<K>)
    requires c <= |bins|
    ensures Count(bins[..c], rk) <= Count(bins, rk)
    decreases |bins| - c
  {
    if c < |bins| {
      CountStep(bins, c, rk);
      CountPrefix(bins, c + 1, rk);
    } else {
      assert bins[..c] == bins;
    }
  }

  /** A resource's stack is as long as the bins that touched it say, and its
      index counts the bins before the cursor that touched it. */
  ghost predicate ResourceValid<K, V>(h: HistoryState<K, V>, rk: ResourceKey<K>)
    requires rk in h.resources
  {
    var r := h.resources[rk];
    && h.cursor <= |h.bins|
    && rk.layer < h.layers
    && r.index == Count(h.bins[..h.cursor], rk)
    && |r.versions| == 1 + Count(h.bins, rk)
    && (r.saved.Some? ==> r.saved.value < |r.versions|)
  }

  ghost predicate Valid<K, V>(h: HistoryState<K, V>)
  {
    && h.cursor <= |h.bins|
    && (forall j, rk :: 0 <= j < |h.bins| && rk in h.bins[j] ==> rk in h.resources)
    && (forall rk :: rk in h.resources ==> ResourceValid(h, rk))
  }

  lemma IndexInRange<K, V>(h: HistoryState<K, V>, rk: ResourceKey<K>)
    requires Valid(h) && rk in h.resources
    ensures h.resources[rk].index < |h.resources[rk].versions|
  {
    assert ResourceValid(h, rk);
    CountPrefix(h.bins, h.cursor, rk);
  }

  /** The value a layer currently holds for a key. */
  function CurrentValue<V>(r: Resource<V>): V
    requires r.index < |r.versions|
  {
    r.versions[r.index]
  }

  /** The current value of every resource of every layer. */
  function Values<K(==), V>(h: HistoryState<K, V>): (m: map<ResourceKey<K>, V>)
    ensures m.Keys <= h.resources.Keys
    ensures forall rk :: rk in m ==>
      h.resources[rk].index < |h.resources[rk].versions| && m[rk] == CurrentValue(h.resources[rk])
  {
    map rk | rk in h.resources && h.resources[rk].index < |h.resources[rk].versions| ::
      CurrentValue(h.resources[rk])
  }

  lemma ValuesKeys<K, V>(h: HistoryState<K, V>)
    requires Valid(h)
    ensures Values(h).Keys == h.resources.Keys
  {
    forall rk | rk in h.resources ensures rk in Values(h) {
      IndexInRange(h, rk);
    }
  }

  /** A fresh manager: no layers, no resources, no bins. */
  function NewHistory<K(==), V>(emptyValue: V): (h: HistoryState<K, V>)
    ensures Valid(h) && Values(h) == map[] && h.emptyValue == emptyValue
    ensures UndoCount(h) == 0 && RedoCount(h) == 0
  {
    HistoryState(emptyValue, 0, map[], [], 0)
  }

  function UndoCount<K(==), V>(h: HistoryState<K, V>): nat
  {
    h.cursor
  }

  function RedoCount<K(==), V>(h: HistoryState<K, V>): nat
  {
    if h.cursor <= |h.bins| then |h.bins| - h.cursor else 0
  }

  /** new_layer: a new, empty layer, named by the returned index. */
  function NewLayer<K(==), V>(h: HistoryState<K, V>): (r: (HistoryState<K, V>, nat))
    requires Valid(h)
    ensures Valid(r.0) && r.1 == h.layers && r.0.layers == h.layers + 1
    ensures r.0.resources == h.resources && r.0.bins == h.bins && r.0.cursor == h.cursor
    ensures r.0.emptyValue == h.emptyValue
    ensures forall rk :: rk in r.0.resources ==> rk.layer != r.1
  {
    var h' := h.(layers := h.layers + 1);
    assert forall rk :: rk in h'.resources ==> ResourceValid(h', rk) by {
      forall rk | rk in h'.resources ensures ResourceValid(h', rk) {
        assert ResourceValid(h, rk);
      }
    }
    (h', h.layers)
  }

  /** get_value: the current value, or out_of_range for an unknown key. */
  function GetValue<K(==), V>(h: HistoryState<K, V>, layer: nat, key: K): (r: Result<V>)
    requires Valid(h)
    ensures r.Ok? <==> ResourceKey(layer, key) in h.resources
    ensures r.Err? ==> r.error == OutOfRange
    ensures r.Ok? ==> ResourceKey(layer, key) in Values(h) && r.value == Values(h)[ResourceKey(layer, key)]
  {
    var rk := ResourceKey(layer, key);
    ValuesKeys(h);
    if rk in h.resources then Ok(CurrentValue(h.resources[rk]))
    else Err(OutOfRange)
  }

  /** has_changed: the current version is not the one that was current at the
      last save. */
  function HasChanged<K(==), V>(h: HistoryState<K, V>, layer: nat, key: K): (r: Result<bool>)
    requires Valid(h)
    ensures r.Ok? <==> ResourceKey(layer, key) in h.resources
    ensures r.Err? ==> r.error == OutOfRange
    ensures r == Ok(false) ==>
      (var res := h.resources[ResourceKey(layer, key)];
       res.saved.Some? && GetValue(h, layer, key) == Ok(res.versions[res.saved.value]))
  {
    var rk := ResourceKey(layer, key);
    if rk in h.resources then
      var res := h.resources[rk];
      Ok(res.saved != Some(res.index))
    else Err(OutOfRange)
  }

  /** set_initial_value: records the value a key had before any edit, which
      is also its saved value; a key the layer already holds is left as it
      is. */
  function SetInitialValue<K(==), V>(h: HistoryState<K, V>, layer: nat, key: K, v: V): (r: HistoryState<K, V>)
    requires Valid(h) && layer < h.layers
    ensures Valid(r) && r.bins == h.bins && r.cursor == h.cursor && r.layers == h.layers
    ensures r.emptyValue == h.emptyValue
    ensures ResourceKey(layer, key) in h.resources ==> r == h
    ensures ResourceKey(layer, key) !in h.resources ==>
      Values(r) == Values(h)[ResourceKey(layer, key) := v] && HasChanged(r, layer, key) == Ok(false)
    ensures forall rk :: rk in h.resources ==> rk in r.resources && r.resources[rk] == h.resources[rk]
  {
    var rk := ResourceKey(layer, key);
    if rk in h.resources then h
    else
      var r := h.(resources := h.resources[rk := Resource([v], 0, Some(0))]);
      assert Valid(r) by {
        assert forall j :: 0 <= j < |h.bins| ==> rk !in h.bins[j];
        CountAbsent(h.bins, rk);
        assert forall j :: 0 <= j < |h.bins[..h.cursor]| ==> rk !in h.bins[..h.cursor][j];
        CountAbsent(h.bins[..h.cursor], rk);
        forall rk' | rk' in r.resources ensures ResourceValid(r, rk') {
          if rk' != rk { assert ResourceValid(h, rk'); }
        }
      }
      assert Values(r) == Values(h)[rk := v] by {
        ValuesKeys(h);
        ValuesKeys(r);
      }
      r
  }

  /** A key that no bin touched has a count of zero. */
  lemma {:induction false} CountAbsent<K>(bins: seq<set<ResourceKey<K>>>, rk: ResourceKey<K>)
    requires forall j :: 0 <= j < |bins| ==> rk !in bins[j]
    ensures Count(bins, rk) == 0
  {
    if |bins| > 0 {
      CountAbsent(bins[..|bins| - 1], rk);
    }
  }

  /** Drops every version past a resource's current one; a saved index that
      pointed past it is forgotten. */
  function Truncate<V>(r: Resource<V>): (t: Resource<V>)
    ensures r.index < |r.versions| ==> |t.versions| == r.index + 1 && t.index == r.index
    ensures r.index < |r.versions| ==> forall i :: 0 <= i <= r.index ==> t.versions[i] == r.versions[i]
  {
    if r.index < |r.versions| then
      Resource(r.versions[..r.index + 1], r.index,
               if r.saved.Some? && r.saved.value > r.index then None else r.saved)
    else r
  }

  /** The state with the redo suffix gone: the bins after the cursor and, in
      every resource, the versions only they reached. */
  function Discarded<K(==), V>(h: HistoryState<K, V>): HistoryState<K, V>
    requires h.cursor <= |h.bins|
  {
    h.(resources := map rk | rk in h.resources :: Truncate(h.resources[rk]),
       bins := h.bins[..h.cursor])
  }

  lemma DiscardedValid<K, V>(h: HistoryState<K, V>)
    requires Valid(h)
    ensures Valid(Discarded(h))
  {
    var r := Discarded(h);
    forall rk | rk in h.resources ensures ResourceValid(r, rk) {
      assert ResourceValid(h, rk);
      IndexInRange(h, rk);
      assert r.bins[..r.cursor] == r.bins;
    }
    forall j, rk | 0 <= j < |r.bins| && rk in r.bins[j] ensures rk in r.resources {
      assert rk in h.bins[j];
    }
  }

  lemma DiscardedResources<K, V>(h: HistoryState<K, V>)
    requires Valid(h)
    ensures forall rk :: rk in h.resources ==>
      var a, b := h.resources[rk], Discarded(h).resources[rk];
      && a.index == b.index && a.index < |a.versions| && |b.versions| == a.index + 1
      && (forall i :: 0 <= i <= a.index ==> b.versions[i] == a.versions[i])
      && (a.saved == Some(a.index) <==> b.saved == Some(b.index))
  {
    forall rk | rk in h.resources ensures h.resources[rk].index < |h.resources[rk].versions| {
      IndexInRange(h, rk);
    }
  }

  lemma DiscardedValues<K, V>(h: HistoryState<K, V>)
    requires Valid(h)
    ensures Values(Discarded(h)) == Values(h)
  {
    DiscardedValid(h);
    DiscardedResources(h);
    ValuesKeys(h);
    ValuesKeys(Discarded(h));
  }

  /** Discards the redo suffix. The undo count, every current value and every
      has_changed answer stay as they were. */
  function DiscardRedo<K(==), V>(h: HistoryState<K, V>): (r: HistoryState<K, V>)
    requires Valid(h)
    ensures Valid(r)
    ensures UndoCount(r) == UndoCount(h) && RedoCount(r) == 0 && r.bins == h.bins[..h.cursor]
    ensures r.layers == h.layers && r.emptyValue == h.emptyValue
    ensures r.resources.Keys == h.resources.Keys && Values(r) == Values(h)
    ensures forall rk :: rk in h.resources ==>
      var a, b := h.resources[rk], r.resources[rk];
      && a.index == b.index && a.index < |a.versions| && |b.versions| == a.index + 1
      && (forall i :: 0 <= i <= a.index ==> b.versions[i] == a.versions[i])
      && (a.saved == Some(a.index) <==> b.saved == Some(b.index))
  {
    DiscardedValid(h);
    DiscardedResources(h);
    DiscardedValues(h);
    Discarded(h)
  }

  /** Opening an empty bin at the end of a timeline without a redo suffix
      keeps the invariant and the current values. */
  lemma OpenBinValid<K, V>(d: HistoryState<K, V>)
    requires Valid(d) && d.cursor == |d.bins|
    ensures Valid(d.(bins := d.bins + [{}], cursor := d.cursor + 1))
    ensures Values(d.(bins := d.bins + [{}], cursor := d.cursor + 1)) == Values(d)
  {
    var r := d.(bins := d.bins + [{}], cursor := d.cursor + 1);
    forall rk | rk in r.resources ensures ResourceValid(r, rk) {
      assert ResourceValid(d, rk);
      assert r.bins[..|r.bins| - 1] == d.bins;
      assert d.bins[..d.cursor] == d.bins;
      assert r.bins[..r.cursor] == r.bins;
    }
    forall j, rk | 0 <= j < |r.bins| && rk in r.bins[j] ensures rk in r.resources {
      assert j < |d.bins| && rk in d.bins[j];
    }
  }

  /** create_undo_bin: discards the redo suffix and opens a new, empty bin. */
  function CreateUndoBin<K(==), V>(h: HistoryState<K, V>): (r: HistoryState<K, V>)
    requires Valid(h)
    ensures Valid(r)
    ensures UndoCount(r) == UndoCount(h) + 1 && RedoCount(r) == 0
    ensures r.layers == h.layers && r.emptyValue == h.emptyValue
    ensures r.resources.Keys == h.resources.Keys && Values(r) == Values(h)
    ensures r.bins == h.bins[..h.cursor] + [{}] && r.resources == DiscardRedo(h).resources
  {
    var d := DiscardRedo(h);
    OpenBinValid(d);
    d.(bins := d.bins + [{}], cursor := d.cursor + 1)
  }

  function Back<V>(r: Resource<V>): Resource<V>
  {
    r.(index := if r.index > 0 then r.index - 1 else 0)
  }

  function Forward<V>(r: Resource<V>): Resource<V>
  {
    r.(index := r.index + 1)
  }

  /** Every resource the bin before the cursor touched, one version back,
      and the cursor before that bin. */
  function BackOver<K(==), V>(h: HistoryState<K, V>): HistoryState<K, V>
    requires 0 < h.cursor <= |h.bins|
  {
    var c := h.cursor - 1;
    h.(resources := map rk | rk in h.resources ::
                      if rk in h.bins[c] then Back(h.resources[rk]) else h.resources[rk],
       cursor := c)
  }

  lemma BackOverValid<K, V>(h: HistoryState<K, V>)
    requires Valid(h) && h.cursor > 0
    ensures Valid(BackOver(h))
  {
    var r := BackOver(h);
    forall rk | rk in r.resources ensures ResourceValid(r, rk) {
      assert ResourceValid(h, rk);
      CountStep(h.bins, h.cursor - 1, rk);
    }
  }

  /** Every resource the bin at the cursor touched, one version forward, and
      the cursor after that bin. */
  function ForwardOver<K(==), V>(h: HistoryState<K, V>): HistoryState<K, V>
    requires h.cursor < |h.bins|
  {
    var c := h.cursor;
    h.(resources := map rk | rk in h.resources ::
                      if rk in h.bins[c] then Forward(h.resources[rk]) else h.resources[rk],
       cursor := c + 1)
  }

  lemma ForwardOverValid<K, V>(h: HistoryState<K, V>)
    requires Valid(h) && h.cursor < |h.bins|
    ensures Valid(ForwardOver(h))
  {
    var r := ForwardOver(h);
    forall rk | rk in r.resources ensures ResourceValid(r, rk) {
      assert ResourceValid(h, rk);
      CountStep(h.bins, h.cursor, rk);
    }
  }

  /** undo: every resource the last bin before the cursor touched steps back
      one version, and the cursor moves back over the bin. With no bin to undo
      nothing changes. */
  function Undo<K(==), V>(h: HistoryState<K, V>): (r: HistoryState<K, V>)
    requires Valid(h)
    ensures Valid(r)
    ensures UndoCount(h) > 0 ==> UndoCount(r) == UndoCount(h) - 1 && RedoCount(r) == RedoCount(h) + 1
    ensures UndoCount(h) == 0 ==> r == h
    ensures r.layers == h.layers && r.emptyValue == h.emptyValue && r.bins == h.bins
    ensures r.resources.Keys == h.resources.Keys
    ensures forall rk :: rk in r.resources ==> r.resources[rk].versions == h.resources[rk].versions
  {
    if h.cursor == 0 then h
    else
      BackOverValid(h);
      BackOver(h)
  }

  /** redo: the inverse of undo; every resource the bin at the cursor touched
      steps forward one version. With nothing to redo nothing changes. */
  function Redo<K(==), V>(h: HistoryState<K, V>): (r: HistoryState<K, V>)
    requires Valid(h)
    ensures Valid(r)
    ensures RedoCount(h) > 0 ==> UndoCount(r) == UndoCount(h) + 1 && RedoCount(r) == RedoCount(h) - 1
    ensures RedoCount(h) == 0 ==> r == h
    ensures r.layers == h.layers && r.emptyValue == h.emptyValue && r.bins == h.bins
    ensures r.resources.Keys == h.resources.Keys
    ensures forall rk :: rk in r.resources ==> r.resources[rk].versions == h.resources[rk].versions
  {
    if h.cursor == |h.bins| then h
    else
      ForwardOverValid(h);
      ForwardOver(h)
  }

  /** A key set_value accepts: one the layer holds, or any key when the mode
      creates missing ones. */
  predicate Accepts<K(==), V>(h: HistoryState<K, V>, layer: nat, key: K, mode: InitMode)
  {
    ResourceKey(layer, key) in h.resources || mode == Empty || mode == Value
  }

  /** The value a key's history starts from when set_value first meets it. */
  function BaselineValue<V>(mode: InitMode, emptyValue: V, v: V): V
  {
    if mode == Empty then emptyValue else v
  }

  /** Replaces a resource's current version in place; a saved index that
      pointed at it is forgotten. */
  function Overwrite<V>(r: Resource<V>, v: V): Resource<V>
  {
    if r.index < |r.versions| then
      Resource(r.versions[r.index := v], r.index, if r.saved == Some(r.index) then None else r.saved)
    else r
  }

  /** The stack a key is edited from once the redo suffix is gone: its own, or
      its baseline when the layer does not hold it yet. */
  function StartOf<K(==), V>(d: HistoryState<K, V>, rk: ResourceKey<K>, v: V, mode: InitMode): (base: Resource<V>)
    requires Valid(d) && RedoCount(d) == 0
    ensures base.index == Count(d.bins, rk) && |base.versions| == base.index + 1
    ensures base.saved.Some? ==> base.saved.value < |base.versions|
    ensures rk in d.resources ==> base == d.resources[rk]
  {
    assert d.bins[..d.cursor] == d.bins;
    if rk in d.resources then
      assert ResourceValid(d, rk);
      d.resources[rk]
    else
      assert forall j :: 0 <= j < |d.bins| ==> rk !in d.bins[j];
      CountAbsent(d.bins, rk);
      Resource([BaselineValue(mode, d.emptyValue, v)], 0, None)
  }

  /** Records v over the key's current version: before the first bin, or
      when the open bin already touched the key. */
  function RecordOverwrite<K(==), V>(d: HistoryState<K, V>, rk: ResourceKey<K>, v: V, mode: InitMode): (r: HistoryState<K, V>)
    requires Valid(d) && RedoCount(d) == 0 && rk.layer < d.layers
    requires d.cursor == 0 || rk in d.bins[d.cursor - 1]
    ensures Valid(r) && r.bins == d.bins && r.cursor == d.cursor && r.layers == d.layers
    ensures r.emptyValue == d.emptyValue
    ensures r.resources == d.resources[rk := Overwrite(StartOf(d, rk, v, mode), v)]
    ensures Values(r) == Values(d)[rk := v]
  {
    var r := d.(resources := d.resources[rk := Overwrite(StartOf(d, rk, v, mode), v)]);
    assert Valid(r) by {
      forall rk' | rk' in r.resources ensures ResourceValid(r, rk') {
        assert d.bins[..d.cursor] == d.bins;
        if rk' != rk { assert ResourceValid(d, rk'); }
      }
    }
    assert Values(r) == Values(d)[rk := v] by {
      ValuesKeys(d);
      ValuesKeys(r);
    }
    r
  }

  /** The state RecordPush builds. */
  function Pushed<K(==), V>(d: HistoryState<K, V>, rk: ResourceKey<K>, v: V, mode: InitMode): HistoryState<K, V>
    requires Valid(d) && RedoCount(d) == 0 && d.cursor > 0
  {
    var base := StartOf(d, rk, v, mode);
    var c := d.cursor - 1;
    d.(resources := d.resources[rk := Resource(base.versions + [v], base.index + 1, base.saved)],
       bins := d.bins[..c] + [d.bins[c] + {rk}])
  }

  lemma PushedValid<K, V>(d: HistoryState<K, V>, rk: ResourceKey<K>, v: V, mode: InitMode)
    requires Valid(d) && RedoCount(d) == 0 && rk.layer < d.layers
    requires d.cursor > 0 && rk !in d.bins[d.cursor - 1]
    ensures Valid(Pushed(d, rk, v, mode))
    ensures Values(Pushed(d, rk, v, mode)) == Values(d)[rk := v]
  {
    var r := Pushed(d, rk, v, mode);
    var c := d.cursor - 1;
    assert r.bins[..|r.bins| - 1] == d.bins[..c];
    assert d.bins[..c + 1] == d.bins;
    assert r.bins[..r.cursor] == r.bins;
    forall rk' | rk' in r.resources ensures ResourceValid(r, rk') {
      CountStep(d.bins, c, rk');
      if rk' != rk { assert ResourceValid(d, rk'); }
    }
    forall j, x | 0 <= j < |r.bins| && x in r.bins[j] ensures x in r.resources {
      if j < c || x != rk { assert x in d.bins[j]; }
    }
    ValuesKeys(d);
    ValuesKeys(r);
  }

  /** Records v as a new version of a key the open bin has not touched yet,
      and adds the key to the bin. */
  function RecordPush<K(==), V>(d: HistoryState<K, V>, rk: ResourceKey<K>, v: V, mode: InitMode): (r: HistoryState<K, V>)
    requires Valid(d) && RedoCount(d) == 0 && rk.layer < d.layers
    requires d.cursor > 0 && rk !in d.bins[d.cursor - 1]
    ensures Valid(r) && r.cursor == d.cursor && r.layers == d.layers && |r.bins| == |d.bins|
    ensures r.emptyValue == d.emptyValue
    ensures r.bins[..r.cursor - 1] == d.bins[..d.cursor - 1]
    ensures r.bins[r.cursor - 1] == d.bins[d.cursor - 1] + {rk}
    ensures var base := StartOf(d, rk, v, mode);
      r.resources == d.resources[rk := Resource(base.versions + [v], base.index + 1, base.saved)]
    ensures Values(r) == Values(d)[rk := v]
  {
    PushedValid(d, rk, v, mode);
    var r := Pushed(d, rk, v, mode);
    assert r.bins[..r.cursor - 1] == d.bins[..d.cursor - 1];
    r
  }

  /** set_value: discards the redo suffix, then records v as the key's value in
      the open bin: a key the bin already touched is overwritten, any other key
      gains a version. Before the first bin there is nothing to undo to and
      the current version is overwritten. A key the layer does not hold is an
      error in Default and Error mode, and starts from its baseline in Empty
      and Value mode. */
  function SetValue<K(==), V>(h: HistoryState<K, V>, layer: nat, key: K, v: V, mode: InitMode): (r: Result<HistoryState<K, V>>)
    requires Valid(h) && layer < h.layers
    ensures r.Ok? <==> Accepts(h, layer, key, mode)
    ensures r.Err? ==> r.error == RuntimeError(SetValueUnknownMessage)
    ensures r.Ok? ==> Valid(r.value) && Values(r.value) == Values(h)[ResourceKey(layer, key) := v]
    ensures r.Ok? ==> UndoCount(r.value) == UndoCount(h) && RedoCount(r.value) == 0
    ensures r.Ok? ==> r.value.layers == h.layers && r.value.emptyValue == h.emptyValue
    ensures r.Ok? ==> r.value.resources.Keys == h.resources.Keys + {ResourceKey(layer, key)}
  {
    var rk := ResourceKey(layer, key);
    if !Accepts(h, layer, key, mode) then Err(RuntimeError(SetValueUnknownMessage))
    else
      var d := DiscardRedo(h);
      if d.cursor == 0 || rk in d.bins[d.cursor - 1] then Ok(RecordOverwrite(d, rk, v, mode))
      else Ok(RecordPush(d, rk, v, mode))
  }

  /** An overwrite leaves the written key changed and every other resource
      as it was. */
  lemma OverwriteMarksChanged<K, V>(d: HistoryState<K, V>, rk: ResourceKey<K>, v: V, mode: InitMode)
    requires Valid(d) && RedoCount(d) == 0 && rk.layer < d.layers
    requires d.cursor == 0 || rk in d.bins[d.cursor - 1]
    ensures var r := RecordOverwrite(d, rk, v, mode); r.resources[rk].saved != Some(r.resources[rk].index)
  {
    var base := StartOf(d, rk, v, mode);
    assert RecordOverwrite(d, rk, v, mode).resources[rk] == Overwrite(base, v);
  }

  /** A push leaves the written key changed: its new current version lies
      past any saved one. */
  lemma PushMarksChanged<K, V>(d: HistoryState<K, V>, rk: ResourceKey<K>, v: V, mode: InitMode)
    requires Valid(d) && RedoCount(d) == 0 && rk.layer < d.layers
    requires d.cursor > 0 && rk !in d.bins[d.cursor - 1]
    ensures var r := RecordPush(d, rk, v, mode); r.resources[rk].saved != Some(r.resources[rk].index)
  {
    var base := StartOf(d, rk, v, mode);
    assert RecordPush(d, rk, v, mode).resources[rk] == Resource(base.versions + [v], base.index + 1, base.saved);
  }

  /** set_value leaves the written key reporting a change. */
  lemma SetValueMarksChanged<K, V>(h: HistoryState<K, V>, layer: nat, key: K, v: V, mode: InitMode)
    requires Valid(h) && layer < h.layers && Accepts(h, layer, key, mode)
    ensures HasChanged(SetValue(h, layer, key, v, mode).value, layer, key) == Ok(true)
  {
    var rk, d := ResourceKey(layer, key), DiscardRedo(h);
    if d.cursor == 0 || rk in d.bins[d.cursor - 1] {
      OverwriteMarksChanged(d, rk, v, mode);
    } else {
      PushMarksChanged(d, rk, v, mode);
    }
  }

  /** The record step of set_value leaves every other resource as it was. */
  lemma RecordKeepsOthers<K, V>(d: HistoryState<K, V>, rk: ResourceKey<K>, v: V, mode: InitMode, rk': ResourceKey<K>)
    requires Valid(d) && RedoCount(d) == 0 && rk.layer < d.layers
    requires rk' in d.resources && rk' != rk
    ensures d.cursor == 0 || rk in d.bins[d.cursor - 1] ==> RecordOverwrite(d, rk, v, mode).resources[rk'] == d.resources[rk']
    ensures d.cursor > 0 && rk !in d.bins[d.cursor - 1] ==> RecordPush(d, rk, v, mode).resources[rk'] == d.resources[rk']
  {
  }

  /** set_value, once accepted, is the record step applied after the redo
      suffix is discarded. */
  lemma SetValueRecords<K, V>(h: HistoryState<K, V>, layer: nat, key: K, v: V, mode: InitMode)
    requires Valid(h) && layer < h.layers && Accepts(h, layer, key, mode)
    ensures var d, rk := DiscardRedo(h), ResourceKey(layer, key);
      d.cursor == 0 || rk in d.bins[d.cursor - 1] ==> SetValue(h, layer, key, v, mode) == Ok(RecordOverwrite(d, rk, v, mode))
    ensures var d, rk := DiscardRedo(h), ResourceKey(layer, key);
      d.cursor > 0 && rk !in d.bins[d.cursor - 1] ==> SetValue(h, layer, key, v, mode) == Ok(RecordPush(d, rk, v, mode))
  {
  }

  /** set_value leaves every other resource's saved mark where it was
      relative to its current version. */
  lemma SetValueKeepsOthersSaved<K, V>(h: HistoryState<K, V>, layer: nat, key: K, v: V, mode: InitMode, rk': ResourceKey<K>)
    requires Valid(h) && layer < h.layers && Accepts(h, layer, key, mode)
    requires rk' in h.resources && rk' != ResourceKey(layer, key)
    ensures var a, b := h.resources[rk'], SetValue(h, layer, key, v, mode).value.resources[rk'];
      a.saved == Some(a.index) <==> b.saved == Some(b.index)
  {
    var rk, d := ResourceKey(layer, key), DiscardRedo(h);
    SetValueRecords(h, layer, key, v, mode);
    RecordKeepsOthers(d, rk, v, mode, rk');
    var a, b := h.resources[rk'], d.resources[rk'];
    assert a.saved == Some(a.index) <==> b.saved == Some(b.index);
  }

  /** set_value leaves every other key's has_changed answer as it was. */
  lemma SetValueKeepsOthersChanged<K, V>(h: HistoryState<K, V>, layer: nat, key: K, v: V, mode: InitMode, layer': nat, key': K)
    requires Valid(h) && layer < h.layers && Accepts(h, layer, key, mode)
    requires ResourceKey(layer', key') != ResourceKey(layer, key)
    ensures HasChanged(SetValue(h, layer, key, v, mode).value, layer', key') == HasChanged(h, layer', key')
  {
    if ResourceKey(layer', key') in h.resources {
      SetValueKeepsOthersSaved(h, layer, key, v, mode, ResourceKey(layer', key'));
    }
  }

  /** What a batch writes: for every key it names, the last value it gives. */
  function BatchMap<K(==), V>(layer: nat, batch: seq<(K, V)>): (m: map<ResourceKey<K>, V>)
    ensures m.Keys == set i | 0 <= i < |batch| :: ResourceKey(layer, batch[i].0)
  {
    if |batch| == 0 then map[]
    else
      var n := |batch| - 1;
      var m := BatchMap(layer, batch[..n])[ResourceKey(layer, batch[n].0) := batch[n].1];
      assert m.Keys == set i | 0 <= i < |batch| :: ResourceKey(layer, batch[i].0) by {
        forall x | x in m.Keys ensures x in set i | 0 <= i < |batch| :: ResourceKey(layer, batch[i].0) {
          if x != ResourceKey(layer, batch[n].0) {
            var i :| 0 <= i < n && x == ResourceKey(layer, batch[..n][i].0);
            assert batch[..n][i] == batch[i];
          }
        }
        forall i | 0 <= i < |batch| ensures ResourceKey(layer, batch[i].0) in m.Keys {
          if i < n { assert batch[..n][i] == batch[i]; }
        }
      }
      m
  }

  predicate AllAccepted<K(==), V>(h: HistoryState<K, V>, layer: nat, batch: seq<(K, V)>, mode: InitMode)
  {
    forall i :: 0 <= i < |batch| ==> Accepts(h, layer, batch[i].0, mode)
  }

  lemma AllAcceptedPrefix<K, V>(h: HistoryState<K, V>, layer: nat, batch: seq<(K, V)>, mode: InitMode, n: nat)
    requires AllAccepted(h, layer, batch, mode) && n <= |batch|
    ensures AllAccepted(h, layer, batch[..n], mode)
  {
    forall i | 0 <= i < n ensures Accepts(h, layer, batch[..n][i].0, mode) {
      assert batch[..n][i] == batch[i];
    }
  }

  /** Applies set_value to every pair of a batch, first to last. */
  function ApplyAll<K(==), V>(h: HistoryState<K, V>, layer: nat, batch: seq<(K, V)>, mode: InitMode): (r: HistoryState<K, V>)
    requires Valid(h) && layer < h.layers && AllAccepted(h, layer, batch, mode)
    ensures Valid(r) && r.layers == h.layers && r.emptyValue == h.emptyValue
    ensures |batch| > 0 ==> UndoCount(r) == UndoCount(h) && RedoCount(r) == 0
    ensures |batch| == 0 ==> r == h
    ensures h.resources.Keys <= r.resources.Keys
    ensures Values(r) == Values(h) + BatchMap(layer, batch)
    decreases |batch|
  {
    if |batch| == 0 then h
    else
      var n := |batch| - 1;
      assert AllAccepted(h, layer, batch[..n], mode) by {
        forall i | 0 <= i < n ensures Accepts(h, layer, batch[..n][i].0, mode) {
          assert batch[..n][i] == batch[i];
        }
      }
      var p := ApplyAll(h, layer, batch[..n], mode);
      assert Accepts(h, layer, batch[n].0, mode);
      assert Accepts(p, layer, batch[n].0, mode);
      var k := ResourceKey(layer, batch[n].0);
      MergeUpdate(Values(h), BatchMap(layer, batch[..n]), k, batch[n].1);
      SetValue(p, layer, batch[n].0, batch[n].1, mode).value
  }

  lemma MergeUpdate<A, B>(m1: map<A, B>, m2: map<A, B>, k: A, v: B)
    ensures (m1 + m2)[k := v] == m1 + m2[k := v]
  {
  }

  /** set_values: all or nothing. If the mode rejects any key of the batch,
      the call fails and nothing changes; otherwise the pairs are written in
      order, so the last value for a key wins. */
  function SetValues<K(==), V>(h: HistoryState<K, V>, layer: nat, batch: seq<(K, V)>, mode: InitMode): (r: Result<HistoryState<K, V>>)
    requires Valid(h) && layer < h.layers
    ensures r.Ok? <==> forall i :: 0 <= i < |batch| ==> Accepts(h, layer, batch[i].0, mode)
    ensures r.Err? ==> r.error == RuntimeError(SetValueUnknownMessage)
    ensures r.Ok? ==> Valid(r.value) && r.value.layers == h.layers && r.value.emptyValue == h.emptyValue
    ensures r.Ok? ==> Values(r.value) == Values(h) + BatchMap(layer, batch)
    ensures r.Ok? && |batch| > 0 ==> UndoCount(r.value) == UndoCount(h) && RedoCount(r.value) == 0
  {
    if AllAccepted(h, layer, batch, mode) then Ok(ApplyAll(h, layer, batch, mode))
    else Err(RuntimeError(SetValueUnknownMessage))
  }

  /** When a batch names each key once, every pair's value is what it writes. */
  lemma {:induction false} BatchMapDistinct<K, V>(layer: nat, batch: seq<(K, V)>)
    requires forall i, j :: 0 <= i < j < |batch| ==> batch[i].0 != batch[j].0
    ensures forall i :: 0 <= i < |batch| ==> BatchMap(layer, batch)[ResourceKey(layer, batch[i].0)] == batch[i].1
  {
    if |batch| > 0 {
      var n := |batch| - 1;
      BatchMapDistinct(layer, batch[..n]);
      forall i | 0 <= i < |batch| ensures BatchMap(layer, batch)[ResourceKey(layer, batch[i].0)] == batch[i].1 {
        if i < n {
          assert batch[..n][i] == batch[i];
        }
      }
    }
  }

  /** mark_saved: the current version of every resource becomes its saved one. */
  function MarkSaved<K(==), V>(h: HistoryState<K, V>): (r: HistoryState<K, V>)
    requires Valid(h)
    ensures Valid(r) && r.bins == h.bins && r.cursor == h.cursor && r.layers == h.layers
    ensures r.emptyValue == h.emptyValue
    ensures r.resources.Keys == h.resources.Keys && Values(r) == Values(h)
    ensures forall rk :: rk in r.resources ==> r.resources[rk].versions == h.resources[rk].versions
    ensures forall rk :: rk in h.resources ==> HasChanged(r, rk.layer, rk.key) == Ok(false)
  {
    var r := h.(resources := map rk | rk in h.resources ::
                              h.resources[rk].(saved := Some(h.resources[rk].index)));
    assert Valid(r) by {
      forall rk | rk in r.resources ensures ResourceValid(r, rk) {
        assert ResourceValid(h, rk);
        IndexInRange(h, rk);
      }
    }
    assert Values(r) == Values(h) by {
      ValuesKeys(h);
      ValuesKeys(r);
    }
    assert forall rk :: rk in h.resources ==> HasChanged(r, rk.layer, rk.key) == Ok(false) by {
      forall rk | rk in h.resources ensures HasChanged(r, rk.layer, rk.key) == Ok(false) {
        assert ResourceKey(rk.layer, rk.key) == rk;
        IndexInRange(h, rk);
      }
    }
    r
  }

  /** reset: forgets every resource of every layer and the whole timeline;
      the layers themselves remain. */
  function Reset<K(==), V>(h: HistoryState<K, V>): (r: HistoryState<K, V>)
    requires Valid(h)
    ensures Valid(r) && r.layers == h.layers && r.emptyValue == h.emptyValue
    ensures UndoCount(r) == 0 && RedoCount(r) == 0
    ensures r.resources == map[] && Values(r) == map[]
  {
    h.(resources := map[], bins := [], cursor := 0)
  }

  lemma CountMonotone<K>(bins: seq<set<ResourceKey<K>>>, i: nat, j: nat, rk: ResourceKey<K>)
    requires i <= j <= |bins|
    ensures Count(bins[..i], rk) <= Count(bins[..j], rk)
  {
    CountPrefix(bins[..j], i, rk);
    assert bins[..j][..i] == bins[..i];
  }

  lemma ValueAtInRange<K, V>(h: HistoryState<K, V>, rk: ResourceKey<K>, j: nat)
    requires Valid(h) && rk in h.resources && j <= |h.bins|
    ensures Count(h.bins[..j], rk) < |h.resources[rk].versions|
  {
    assert ResourceValid(h, rk);
    CountMonotone(h.bins, j, |h.bins|, rk);
    assert h.bins[..|h.bins|] == h.bins;
  }

  /** The value a resource has at timeline position j: after the first j bins
      have been applied. */
  ghost function ValueAt<K, V>(h: HistoryState<K, V>, rk: ResourceKey<K>, j: nat): V
    requires Valid(h) && rk in h.resources && j <= |h.bins|
  {
    ValueAtInRange(h, rk, j);
    h.resources[rk].versions[Count(h.bins[..j], rk)]
  }

  /** The current value is the value at the cursor's position. */
  lemma CurrentIsValueAt<K, V>(h: HistoryState<K, V>, rk: ResourceKey<K>)
    requires Valid(h) && rk in h.resources
    ensures rk in Values(h) && Values(h)[rk] == ValueAt(h, rk, h.cursor)
  {
    assert ResourceValid(h, rk);
    ValuesKeys(h);
  }

  /** undo moves the current value back to the position before the last bin. */
  lemma UndoValue<K, V>(h: HistoryState<K, V>, rk: ResourceKey<K>)
    requires Valid(h) && rk in h.resources && UndoCount(h) > 0
    ensures rk in Values(Undo(h)) && Values(Undo(h))[rk] == ValueAt(h, rk, h.cursor - 1)
  {
    CurrentIsValueAt(Undo(h), rk);
  }

  /** undo moves only the cursor: every position of the timeline keeps its
      value. */
  lemma UndoKeepsTimeline<K, V>(h: HistoryState<K, V>, rk: ResourceKey<K>, j: nat)
    requires Valid(h) && rk in h.resources && j <= |h.bins|
    ensures rk in Undo(h).resources && ValueAt(Undo(h), rk, j) == ValueAt(h, rk, j)
  {
  }

  /** redo moves the current value on to the position after the next bin. */
  lemma RedoValue<K, V>(h: HistoryState<K, V>, rk: ResourceKey<K>)
    requires Valid(h) && rk in h.resources && RedoCount(h) > 0
    ensures rk in Values(Redo(h)) && Values(Redo(h))[rk] == ValueAt(h, rk, h.cursor + 1)
  {
    CurrentIsValueAt(Redo(h), rk);
  }

  /** Discarding the redo suffix keeps every position up to the cursor. */
  lemma DiscardRedoKeepsPast<K, V>(h: HistoryState<K, V>, rk: ResourceKey<K>, j: nat)
    requires Valid(h) && rk in h.resources && j <= h.cursor
    ensures rk in DiscardRedo(h).resources && ValueAt(DiscardRedo(h), rk, j) == ValueAt(h, rk, j)
  {
    var d := DiscardRedo(h);
    assert d.bins[..j] == h.bins[..j];
    assert ResourceValid(h, rk);
    CountMonotone(h.bins, j, h.cursor, rk);
  }

  /** Creating a bin keeps every position up to the cursor, and the new
      position holds the current values. */
  lemma CreateUndoBinKeepsPast<K, V>(h: HistoryState<K, V>, rk: ResourceKey<K>, j: nat)
    requires Valid(h) && rk in h.resources && j <= h.cursor
    ensures rk in CreateUndoBin(h).resources && ValueAt(CreateUndoBin(h), rk, j) == ValueAt(h, rk, j)
  {
    var d := DiscardRedo(h);
    var s := CreateUndoBin(h);
    DiscardRedoKeepsPast(h, rk, j);
    assert s.bins[..j] == d.bins[..j];
  }

  lemma OverwriteKeepsPast<K, V>(d: HistoryState<K, V>, e: ResourceKey<K>, v: V, mode: InitMode, rk: ResourceKey<K>, j: nat)
    requires Valid(d) && RedoCount(d) == 0 && e.layer < d.layers
    requires d.cursor > 0 && e in d.bins[d.cursor - 1]
    requires rk in d.resources && j < d.cursor
    ensures var r := RecordOverwrite(d, e, v, mode);
      rk in r.resources && ValueAt(r, rk, j) == ValueAt(d, rk, j)
  {
    var c := d.cursor;
    var r := RecordOverwrite(d, e, v, mode);
    if rk == e {
      assert ResourceValid(d, rk);
      CountMonotone(d.bins, j, c - 1, rk);
      CountStep(d.bins, c - 1, rk);
    }
  }

  lemma PushKeepsPast<K, V>(d: HistoryState<K, V>, e: ResourceKey<K>, v: V, mode: InitMode, rk: ResourceKey<K>, j: nat)
    requires Valid(d) && RedoCount(d) == 0 && e.layer < d.layers
    requires d.cursor > 0 && e !in d.bins[d.cursor - 1]
    requires rk in d.resources && j < d.cursor
    ensures var r := RecordPush(d, e, v, mode);
      rk in r.resources && ValueAt(r, rk, j) == ValueAt(d, rk, j)
  {
    var c := d.cursor;
    var r := RecordPush(d, e, v, mode);
    assert r.bins[..j] == r.bins[..c - 1][..j];
    assert d.bins[..j] == d.bins[..c - 1][..j];
    ValueAtInRange(d, rk, j);
  }

  /** set_value rewrites only the open bin's position: every earlier position
      of every key the layer held keeps its value. */
  lemma SetValueKeepsPast<K, V>(h: HistoryState<K, V>, layer: nat, key: K, v: V, mode: InitMode, rk: ResourceKey<K>, j: nat)
    requires Valid(h) && layer < h.layers && Accepts(h, layer, key, mode)
    requires rk in h.resources && j < h.cursor
    ensures var r := SetValue(h, layer, key, v, mode).value;
      rk in r.resources && ValueAt(r, rk, j) == ValueAt(h, rk, j)
  {
    var d := DiscardRedo(h);
    var e := ResourceKey(layer, key);
    var r := SetValue(h, layer, key, v, mode).value;
    assert rk in r.resources && ValueAt(r, rk, j) == ValueAt(d, rk, j) by {
      if e in d.bins[d.cursor - 1] {
        assert r == RecordOverwrite(d, e, v, mode);
        OverwriteKeepsPast(d, e, v, mode, rk, j);
      } else {
        assert r == RecordPush(d, e, v, mode);
        PushKeepsPast(d, e, v, mode, rk, j);
      }
    }
    DiscardRedoKeepsPast(h, rk, j);
  }

  /** A key that set_value creates inside a bin holds its baseline at every
      earlier position. */
  lemma SetValueNewKeyPast<K, V>(h: HistoryState<K, V>, layer: nat, key: K, v: V, mode: InitMode, j: nat)
    requires Valid(h) && layer < h.layers && Accepts(h, layer, key, mode)
    requires ResourceKey(layer, key) !in h.resources && j < h.cursor
    ensures var r := SetValue(h, layer, key, v, mode).value;
      ResourceKey(layer, key) in r.resources &&
      ValueAt(r, ResourceKey(layer, key), j) == BaselineValue(mode, h.emptyValue, v)
  {
    var d := DiscardRedo(h);
    var e := ResourceKey(layer, key);
    var c := d.cursor;
    assert e !in d.bins[c - 1];
    var r := RecordPush(d, e, v, mode);
    assert r.bins[..j] == r.bins[..c - 1][..j];
    assert forall i :: 0 <= i < |r.bins[..j]| ==> e !in r.bins[..j][i] by {
      forall i | 0 <= i < |r.bins[..j]| ensures e !in r.bins[..j][i] {
        assert r.bins[..j][i] == d.bins[i];
      }
    }
    CountAbsent(r.bins[..j], e);
  }

  /** A key first given a value by set_initial_value holds it at every
      position of the timeline. */
  lemma SetInitialValueTimeline<K, V>(h: HistoryState<K, V>, layer: nat, key: K, v: V, rk: ResourceKey<K>, j: nat)
    requires Valid(h) && layer < h.layers && j <= |h.bins|
    requires rk in SetInitialValue(h, layer, key, v).resources
    ensures var r := SetInitialValue(h, layer, key, v);
      ValueAt(r, rk, j) == if rk in h.resources then ValueAt(h, rk, j) else v
  {
    if rk !in h.resources {
      assert forall i :: 0 <= i < |h.bins[..j]| ==> rk !in h.bins[..j][i];
      CountAbsent(h.bins[..j], rk);
    }
  }

  /** redo undoes an undo exactly. */
  lemma {:induction false} RedoAfterUndo<K, V>(h: HistoryState<K, V>)
    requires Valid(h) && UndoCount(h) > 0
    ensures Redo(Undo(h)) == h
  {
    var u := Undo(h);
    var r := Redo(u);
    var c := h.cursor - 1;
    forall rk | rk in h.resources ensures r.resources[rk] == h.resources[rk] {
      assert ResourceValid(h, rk);
      CountStep(h.bins, c, rk);
    }
  }

  /** undo undoes a redo exactly. */
  lemma {:induction false} UndoAfterRedo<K, V>(h: HistoryState<K, V>)
    requires Valid(h) && RedoCount(h) > 0
    ensures Undo(Redo(h)) == h
  {
    var r := Redo(h);
    var u := Undo(r);
    forall rk | rk in h.resources ensures u.resources[rk] == h.resources[rk] {
    }
  }

  /** s has an open bin, and start holds every key's value at the position
      before it: what undo returns to. */
  ghost predicate BinStart<K, V>(s: HistoryState<K, V>, start: map<ResourceKey<K>, V>)
  {
    && Valid(s) && s.cursor > 0
    && start.Keys == s.resources.Keys
    && forall rk {:trigger start[rk]} :: rk in s.resources ==> ValueAt(s, rk, s.cursor - 1) == start[rk]
  }

  /** A new bin starts at the current values. */
  lemma CreateUndoBinStart<K, V>(h: HistoryState<K, V>)
    requires Valid(h)
    ensures BinStart(CreateUndoBin(h), Values(h))
  {
    var s := CreateUndoBin(h);
    ValuesKeys(h);
    forall rk | rk in s.resources ensures ValueAt(s, rk, s.cursor - 1) == Values(h)[rk] {
      CreateUndoBinKeepsPast(h, rk, h.cursor);
      CurrentIsValueAt(h, rk);
    }
  }

  /** The start a bin has after set_value: unchanged for a key the layer held,
      the baseline for a key it creates. */
  function StartAfterSet<K(==), V>(start: map<ResourceKey<K>, V>, rk: ResourceKey<K>, mode: InitMode, emptyValue: V, v: V): map<ResourceKey<K>, V>
  {
    if rk in start then start else start[rk := BaselineValue(mode, emptyValue, v)]
  }

  /** The timeline before the open bin after set_value, for one key. */
  lemma SetValuePast<K, V>(s: HistoryState<K, V>, layer: nat, key: K, v: V, mode: InitMode, rk: ResourceKey<K>, j: nat)
    requires Valid(s) && layer < s.layers && Accepts(s, layer, key, mode) && j < s.cursor
    requires rk in s.resources || rk == ResourceKey(layer, key)
    ensures var r := SetValue(s, layer, key, v, mode).value;
      rk in r.resources && ValueAt(r, rk, j) ==
        if rk in s.resources then ValueAt(s, rk, j) else BaselineValue(mode, s.emptyValue, v)
  {
    if rk in s.resources {
      SetValueKeepsPast(s, layer, key, v, mode, rk, j);
    } else {
      SetValueNewKeyPast(s, layer, key, v, mode, j);
    }
  }

  /** A state r whose every key holds, before the open bin, what it held in
      s (or its entry of start' when s lacked it) starts its bin at start'. */
  lemma StartTransfer<K, V>(s: HistoryState<K, V>, start: map<ResourceKey<K>, V>, r: HistoryState<K, V>, start': map<ResourceKey<K>, V>)
    requires BinStart(s, start) && Valid(r) && r.cursor == s.cursor
    requires start'.Keys == r.resources.Keys && s.resources.Keys <= r.resources.Keys
    requires forall rk :: rk in s.resources ==> start'[rk] == start[rk]
    requires forall rk :: rk in r.resources ==>
      ValueAt(r, rk, r.cursor - 1) == if rk in s.resources then ValueAt(s, rk, s.cursor - 1) else start'[rk]
    ensures BinStart(r, start')
  {
  }

  /** set_value inside a bin keeps what undo returns to: every key the layer
      held keeps its start, and a key it creates starts at its baseline. */
  lemma SetValueKeepsStart<K, V>(s: HistoryState<K, V>, start: map<ResourceKey<K>, V>, layer: nat, key: K, v: V, mode: InitMode)
    requires BinStart(s, start) && layer < s.layers && Accepts(s, layer, key, mode)
    ensures BinStart(SetValue(s, layer, key, v, mode).value,
                     StartAfterSet(start, ResourceKey(layer, key), mode, s.emptyValue, v))
  {
    SetValuePastAll(s, layer, key, v, mode);
    StartTransferNew(s, start, SetValue(s, layer, key, v, mode).value,
                     ResourceKey(layer, key), BaselineValue(mode, s.emptyValue, v));
  }

  /** A state whose resources are those of s plus e, that agrees with s on
      the values before its last bin and gives e the value base there,
      starts its last bin from start extended by e's base value. */
  lemma StartTransferNew<K, V>(s: HistoryState<K, V>, start: map<ResourceKey<K>, V>, r: HistoryState<K, V>, e: ResourceKey<K>, base: V)
    requires BinStart(s, start) && Valid(r) && r.cursor == s.cursor
    requires r.resources.Keys == s.resources.Keys + {e}
    requires forall rk :: rk in r.resources ==>
      ValueAt(r, rk, r.cursor - 1) == if rk in s.resources then ValueAt(s, rk, s.cursor - 1) else base
    ensures BinStart(r, if e in start then start else start[e := base])
  {
    StartTransfer(s, start, r, if e in start then start else start[e := base]);
  }

  /** The position before the open bin after set_value, for every key. */
  lemma SetValuePastAll<K, V>(s: HistoryState<K, V>, layer: nat, key: K, v: V, mode: InitMode)
    requires Valid(s) && s.cursor > 0 && layer < s.layers && Accepts(s, layer, key, mode)
    ensures var r := SetValue(s, layer, key, v, mode).value;
      r.cursor == s.cursor &&
      forall rk :: rk in r.resources ==>
        ValueAt(r, rk, r.cursor - 1) ==
          if rk in s.resources then ValueAt(s, rk, s.cursor - 1) else BaselineValue(mode, s.emptyValue, v)
  {
    var r := SetValue(s, layer, key, v, mode).value;
    assert r.cursor == s.cursor;
    forall rk | rk in r.resources
      ensures ValueAt(r, rk, r.cursor - 1) ==
        if rk in s.resources then ValueAt(s, rk, s.cursor - 1) else BaselineValue(mode, s.emptyValue, v)
    {
      SetValuePast(s, layer, key, v, mode, rk, s.cursor - 1);
    }
  }

  lemma SetInitialValueKeepsStart<K, V>(s: HistoryState<K, V>, start: map<ResourceKey<K>, V>, layer: nat, key: K, v: V)
    requires BinStart(s, start) && layer < s.layers
    ensures var rk := ResourceKey(layer, key);
      BinStart(SetInitialValue(s, layer, key, v), if rk in start then start else start[rk := v])
  {
    var r := SetInitialValue(s, layer, key, v);
    var e := ResourceKey(layer, key);
    var start' := if e in start then start else start[e := v];
    forall rk | rk in r.resources
      ensures ValueAt(r, rk, r.cursor - 1) == if rk in s.resources then ValueAt(s, rk, s.cursor - 1) else start'[rk]
    {
      SetInitialValueTimeline(s, layer, key, v, rk, s.cursor - 1);
    }
    StartTransfer(s, start, r, start');
  }

  /** undo returns every key to its value at the start of the bin. */
  lemma UndoToStart<K, V>(s: HistoryState<K, V>, start: map<ResourceKey<K>, V>)
    requires BinStart(s, start)
    ensures Values(Undo(s)) == start
  {
    var u := Undo(s);
    ValuesKeys(u);
    forall rk | rk in s.resources ensures Values(u)[rk] == start[rk] {
      UndoValue(s, rk);
    }
  }

  /** The start a bin has after a batch: each key the batch creates starts at
      the baseline of its first write. */
  function StartAfterBatch<K(==), V>(start: map<ResourceKey<K>, V>, layer: nat, batch: seq<(K, V)>, mode: InitMode, emptyValue: V): map<ResourceKey<K>, V>
  {
    if |batch| == 0 then start
    else
      var n := |batch| - 1;
      StartAfterSet(StartAfterBatch(start, layer, batch[..n], mode, emptyValue),
                    ResourceKey(layer, batch[n].0), mode, emptyValue, batch[n].1)
  }

  lemma {:induction false} ApplyAllKeepsStart<K, V>(s: HistoryState<K, V>, start: map<ResourceKey<K>, V>, layer: nat, batch: seq<(K, V)>, mode: InitMode)
    requires BinStart(s, start) && layer < s.layers && AllAccepted(s, layer, batch, mode)
    ensures BinStart(ApplyAll(s, layer, batch, mode), StartAfterBatch(start, layer, batch, mode, s.emptyValue))
    decreases |batch|
  {
    if |batch| > 0 {
      var n := |batch| - 1;
      AllAcceptedPrefix(s, layer, batch, mode, n);
      ApplyAllKeepsStart(s, start, layer, batch[..n], mode);
      var p := ApplyAll(s, layer, batch[..n], mode);
      assert Accepts(s, layer, batch[n].0, mode);
      SetValueKeepsStart(p, StartAfterBatch(start, layer, batch[..n], mode, s.emptyValue), layer, batch[n].0, batch[n].1, mode);
    }
  }

  /** A bin holding one set_values call: undo restores every key the layer
      held before the bin and gives each key the batch created its baseline;
      redo brings the batch back. */
  lemma UndoSetValues<K, V>(h: HistoryState<K, V>, layer: nat, batch: seq<(K, V)>, mode: InitMode)
    requires Valid(h) && layer < h.layers
    requires SetValues(CreateUndoBin(h), layer, batch, mode).Ok?
    ensures var r := SetValues(CreateUndoBin(h), layer, batch, mode).value;
      && Values(Undo(r)) == StartAfterBatch(Values(h), layer, batch, mode, h.emptyValue)
      && Values(Redo(Undo(r))) == Values(h) + BatchMap(layer, batch)
      && UndoCount(Undo(r)) == UndoCount(h) && RedoCount(Undo(r)) == 1
  {
    var s := CreateUndoBin(h);
    CreateUndoBinStart(h);
    ApplyAllKeepsStart(s, Values(h), layer, batch, mode);
    var r := ApplyAll(s, layer, batch, mode);
    UndoToStart(r, StartAfterBatch(Values(h), layer, batch, mode, h.emptyValue));
    RedoAfterUndo(r);
  }

  /** A key first written inside a bin: in Default and Error mode the write
      fails and the key stays unknown; after undo, an Empty-mode key holds the
      empty value and a Value-mode key holds the value that was set. */
  lemma NewKeyBaseline<K, V>(s: HistoryState<K, V>, layer: nat, key: K, v: V, mode: InitMode)
    requires Valid(s) && layer < s.layers && UndoCount(s) > 0
    requires ResourceKey(layer, key) !in s.resources
    ensures mode == Default || mode == Error ==>
      SetValue(s, layer, key, v, mode) == Err(RuntimeError(SetValueUnknownMessage))
    ensures mode == Empty ==>
      Values(Undo(SetValue(s, layer, key, v, mode).value))[ResourceKey(layer, key)] == s.emptyValue
    ensures mode == Value ==>
      Values(Undo(SetValue(s, layer, key, v, mode).value))[ResourceKey(layer, key)] == v
  {
    if mode == Empty || mode == Value {
      var r := SetValue(s, layer, key, v, mode).value;
      SetValueNewKeyPast(s, layer, key, v, mode, s.cursor - 1);
      UndoValue(r, ResourceKey(layer, key));
    }
  }

  /** After a save, undo marks as changed exactly the keys the undone bin
      touched. */
  lemma UndoAfterSave<K, V>(h: HistoryState<K, V>, layer: nat, key: K)
    requires Valid(h) && UndoCount(h) > 0 && ResourceKey(layer, key) in h.resources
    ensures HasChanged(Undo(MarkSaved(h)), layer, key) == Ok(ResourceKey(layer, key) in h.bins[h.cursor - 1])
  {
    var rk := ResourceKey(layer, key);
    var m := MarkSaved(h);
    assert ResourceValid(m, rk);
    CountStep(m.bins, m.cursor - 1, rk);
  }

  /** The reads of a run on one layer with one key: set to v0 initially,
      then to v1 and v2 in two bins; after one undo it is set to v3, and the
      key is read after each write and after a second undo. */
  function UndoOverwriteReads<K(==), V>(emptyValue: V, key: K, v0: V, v1: V, v2: V, v3: V): (observed: seq<Result<V>>)
  {
    var (h0, layer) := NewLayer(NewHistory<K, V>(emptyValue));
    var h1 := SetInitialValue(h0, layer, key, v0);
    var s1 := CreateUndoBin(h1);
    var h2 := SetValue(s1, layer, key, v1, Default).value;
    var s2 := CreateUndoBin(h2);
    var h3 := SetValue(s2, layer, key, v2, Default).value;
    var u1 := Undo(h3);
    var h4 := SetValue(u1, layer, key, v3, Default).value;
    var u2 := Undo(h4);
    [GetValue(h1, layer, key), GetValue(h2, layer, key), GetValue(h3, layer, key),
     GetValue(h4, layer, key), GetValue(u2, layer, key)]
  }

  /** An edit made after an undo replaces the undone bin: a further undo goes
      back past it to the value the key had before the first bin. */
  lemma UndoOverwrite<K, V>(emptyValue: V, key: K, v0: V, v1: V, v2: V, v3: V)
    ensures UndoOverwriteReads(emptyValue, key, v0, v1, v2, v3) == [Ok(v0), Ok(v1), Ok(v2), Ok(v3), Ok(v0)]
  {
    var (h0, layer) := NewLayer(NewHistory<K, V>(emptyValue));
    var rk := ResourceKey(layer, key);
    var h1 := SetInitialValue(h0, layer, key, v0);
    var s1 := CreateUndoBin(h1);
    var h2 := SetValue(s1, layer, key, v1, Default).value;
    CreateUndoBinStart(h1);
    SetValueKeepsStart(s1, Values(h1), layer, key, v1, Default);
    var s2 := CreateUndoBin(h2);
    CreateUndoBinKeepsPast(h2, rk, 0);
    var h3 := SetValue(s2, layer, key, v2, Default).value;
    SetValueKeepsPast(s2, layer, key, v2, Default, rk, 0);
    var u1 := Undo(h3);
    var h4 := SetValue(u1, layer, key, v3, Default).value;
    SetValueKeepsPast(u1, layer, key, v3, Default, rk, 0);
    UndoValue(h4, rk);
  }
}
