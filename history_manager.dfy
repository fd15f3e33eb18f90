/** The history manager and its layers as objects whose state changes in
    place. Every method is specified by the matching transition of the
    History model, whose properties are proved there. */
module Histories {
  import opened Wrappers
  import H = History

  class HistoryManager<K(==), V> {
    const emptyValue: V
    var layerCount: nat
    var resources: map<H.ResourceKey<K>, H.Resource<V>>
    var bins: seq<set<H.ResourceKey<K>>>
    var cursor: nat

    /** The manager's state as a value of the History model. */
    function State(): H.HistoryState<K, V>
      reads this
    {
      H.HistoryState(emptyValue, layerCount, resources, bins, cursor)
    }

    ghost predicate Valid()
      reads this
    {
      H.Valid(State())
    }

    method Assign(s: H.HistoryState<K, V>)
      requires s.emptyValue == emptyValue
      modifies this
      ensures State() == s
    {
      layerCount := s.layers;
      resources := s.resources;
      bins := s.bins;
      cursor := s.cursor;
    }

    constructor(emptyValue: V)
      ensures Valid() && State() == H.NewHistory(emptyValue)
      ensures H.UndoCount(State()) == 0 && H.RedoCount(State()) == 0
    {
      this.emptyValue := emptyValue;
      layerCount := 0;
      resources := map[];
      bins := [];
      cursor := 0;
    }

    /** new_layer: a fresh layer object bound to this manager. */
    method NewLayer() returns (layer: HistoryLayer<K, V>)
      requires Valid()
      modifies this
      ensures Valid() && fresh(layer)
      ensures layer.manager == this && layer.index == old(layerCount)
      ensures State() == H.NewLayer(old(State())).0
    {
      layer := new HistoryLayer(this, layerCount);
      layerCount := layerCount + 1;
    }

    method GetUndoCount() returns (n: nat)
      requires Valid()
      ensures n == H.UndoCount(State())
    {
      n := cursor;
    }

    method GetRedoCount() returns (n: nat)
      requires Valid()
      ensures n == H.RedoCount(State())
    {
      n := |bins| - cursor;
    }

    method CreateUndoBin()
      requires Valid()
      modifies this
      ensures Valid() && State() == H.CreateUndoBin(old(State()))
    {
      Assign(H.CreateUndoBin(State()));
    }

    method Undo()
      requires Valid()
      modifies this
      ensures Valid() && State() == H.Undo(old(State()))
    {
      Assign(H.Undo(State()));
    }

    method Redo()
      requires Valid()
      modifies this
      ensures Valid() && State() == H.Redo(old(State()))
    {
      Assign(H.Redo(State()));
    }

    method MarkSaved()
      requires Valid()
      modifies this
      ensures Valid() && State() == H.MarkSaved(old(State()))
    {
      Assign(H.MarkSaved(State()));
    }

    method Reset()
      requires Valid()
      modifies this
      ensures Valid() && State() == H.Reset(old(State()))
    {
      Assign(H.Reset(State()));
    }
  }

  /** One layer of a manager: the resources of one kind. Its methods read and
      change the manager that owns it. */
  class HistoryLayer<K(==), V> {
    const manager: HistoryManager<K, V>
    const index: nat

    constructor(manager: HistoryManager<K, V>, index: nat)
      ensures this.manager == manager && this.index == index
    {
      this.manager := manager;
      this.index := index;
    }

    ghost predicate Valid()
      reads manager
    {
      manager.Valid() && index < manager.layerCount
    }

    method SetInitialValue(key: K, v: V)
      requires Valid()
      modifies manager
      ensures Valid() && manager.State() == H.SetInitialValue(old(manager.State()), index, key, v)
    {
      manager.Assign(H.SetInitialValue(manager.State(), index, key, v));
    }

    /** set_value: on failure the manager is left as it was. */
    method SetValue(key: K, v: V, mode: H.InitMode) returns (o: Outcome)
      requires Valid()
      modifies manager
      ensures Valid()
      ensures var r := H.SetValue(old(manager.State()), index, key, v, mode);
        && (r.Ok? ==> o == Pass && manager.State() == r.value)
        && (r.Err? ==> o == Fail(r.error) && manager.State() == old(manager.State()))
    {
      var r := H.SetValue(manager.State(), index, key, v, mode);
      if r.Ok? {
        manager.Assign(r.value);
        o := Pass;
      } else {
        o := Fail(r.error);
      }
    }

    /** set_values: all or nothing. */
    method SetValues(batch: seq<(K, V)>, mode: H.InitMode) returns (o: Outcome)
      requires Valid()
      modifies manager
      ensures Valid()
      ensures var r := H.SetValues(old(manager.State()), index, batch, mode);
        && (r.Ok? ==> o == Pass && manager.State() == r.value)
        && (r.Err? ==> o == Fail(r.error) && manager.State() == old(manager.State()))
    {
      var r := H.SetValues(manager.State(), index, batch, mode);
      if r.Ok? {
        manager.Assign(r.value);
        o := Pass;
      } else {
        o := Fail(r.error);
      }
    }

    /** get_value: the key's current value, or out_of_range for a key this
        layer does not hold. */
    method GetValue(key: K) returns (r: Result<V>)
      requires Valid()
      ensures r == H.GetValue(manager.State(), index, key)
      ensures r.Ok? <==> H.ResourceKey(index, key) in manager.resources
      ensures r.Ok? ==> r.value == H.Values(manager.State())[H.ResourceKey(index, key)]
    {
      r := H.GetValue(manager.State(), index, key);
    }

    /** get_resource(key).has_changed() */
    method HasChanged(key: K) returns (r: Result<bool>)
      requires Valid()
      ensures r == H.HasChanged(manager.State(), index, key)
      ensures r.Err? <==> H.ResourceKey(index, key) !in manager.resources
    {
      r := H.HasChanged(manager.State(), index, key);
    }

    /** get_resources: the keys this layer holds. */
    method GetResources() returns (keys: set<K>)
      requires Valid()
      ensures forall k :: k in keys <==> H.ResourceKey(index, k) in manager.resources
    {
      keys := set rk | rk in manager.resources && rk.layer == index :: rk.key;
    }
  }
}
