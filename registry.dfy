/** IdRegistry: a two-way table between numerical ids and namespaced ids,
    kept as one map in each direction. */
module Registries {
  import opened Wrappers

  /** A namespaced id such as ("minecraft", "stone"). */
  datatype NamespacedId = NamespacedId(namespace: string, baseName: string)

  /** The key registry[k] accepts: a numerical id or a namespaced id. */
  datatype RegistryKey = ByNumericalId(n: nat) | ByNamespacedId(name: NamespacedId)

  /** What registry[k] returns: the counterpart of the key. */
  datatype RegistryValue = NamespacedValue(name: NamespacedId) | NumericalValue(n: nat)

  /** Both directions of the table describe the same set of pairs. */
  predicate Bijective(toName: map<nat, NamespacedId>, toId: map<NamespacedId, nat>)
  {
    && (forall n :: n in toName ==> toName[n] in toId && toId[toName[n]] == n)
    && (forall name :: name in toId ==> toId[name] in toName && toName[toId[name]] == name)
  }

  /** The two directions of a bijective table have the same number of entries. */
  lemma {:induction false} BijectiveSameSize(toName: map<nat, NamespacedId>, toId: map<NamespacedId, nat>)
    requires Bijective(toName, toId)
    ensures |toName| == |toId|
    decreases |toName.Keys|
  {
    if toName.Keys == {} {
      assert toId.Keys == {} by {
        if name :| name in toId {
          assert toId[name] in toName;
        }
      }
    } else {
      var n :| n in toName;
      var name := toName[n];
      var a := toName - {n};
      var b := toId - {name};
      assert a.Keys == toName.Keys - {n};
      assert b.Keys == toId.Keys - {name};
      BijectiveSameSize(a, b);
    }
  }

  /** Registering a pair that does not collide keeps the table bijective. */
  lemma RegisterKeepsBijective(toName: map<nat, NamespacedId>, toId: map<NamespacedId, nat>, n: nat, name: NamespacedId)
    requires Bijective(toName, toId)
    requires n in toName ==> toName[n] == name
    requires name in toId ==> toId[name] == n
    ensures Bijective(toName[n := name], toId[name := n])
  {
  }

  /** The registered names are exactly the names the numerical ids map to. */
  lemma NamesAreImage(toName: map<nat, NamespacedId>, toId: map<NamespacedId, nat>)
    requires Bijective(toName, toId)
    ensures toId.Keys == set n | n in toName :: toName[n]
  {
  }

  class IdRegistry {
    var toName: map<nat, NamespacedId>
    var toId: map<NamespacedId, nat>

    predicate Valid()
      reads this
    {
      Bijective(toName, toId)
    }

    constructor ()
      ensures Valid() && toName == map[] && toId == map[]
    {
      toName := map[];
      toId := map[];
    }

    /** register_id: records the pair in both directions. An id or a name
        already registered to a different counterpart is a collision and
        changes nothing; registering an existing pair again changes nothing. */
    method RegisterId(n: nat, name: NamespacedId) returns (r: Outcome)
      requires Valid()
      modifies this
      ensures Valid()
      ensures r.Fail? <==> (n in old(toName) && old(toName)[n] != name) || (name in old(toId) && old(toId)[name] != n)
      ensures r.Fail? ==> r.error == IdCollision && toName == old(toName) && toId == old(toId)
      ensures r.Pass? ==> toName == old(toName)[n := name] && toId == old(toId)[name := n]
    {
      if (n in toName && toName[n] != name) || (name in toId && toId[name] != n) {
        return Fail(IdCollision);
      }
      RegisterKeepsBijective(toName, toId, n, name);
      toName := toName[n := name];
      toId := toId[name := n];
      r := Pass;
    }

    /** numerical_id_to_namespace_id: the registered name, whose numerical id
        is n again; KeyError for an unregistered id. */
    method NumericalIdToNamespaceId(n: nat) returns (r: Result<NamespacedId>)
      requires Valid()
      ensures r.Ok? <==> n in toName
      ensures r.Ok? ==> r.value == toName[n] && r.value in toId && toId[r.value] == n
      ensures r.Err? ==> r.error == KeyError
    {
      if n !in toName {
        return Err(KeyError);
      }
      r := Ok(toName[n]);
    }

    /** namespace_id_to_numerical_id: the registered id, whose name is the
        argument again; KeyError for an unregistered name. */
    method NamespaceIdToNumericalId(name: NamespacedId) returns (r: Result<nat>)
      requires Valid()
      ensures r.Ok? <==> name in toId
      ensures r.Ok? ==> r.value == toId[name] && r.value in toName && toName[r.value] == name
      ensures r.Err? ==> r.error == KeyError
    {
      if name !in toId {
        return Err(KeyError);
      }
      r := Ok(toId[name]);
    }

    /** The overload taking the namespace and the base name separately. */
    method NamespaceIdToNumericalIdParts(namespace: string, baseName: string) returns (r: Result<nat>)
      requires Valid()
      ensures r.Ok? <==> NamespacedId(namespace, baseName) in toId
      ensures r.Ok? ==> r.value in toName && toName[r.value] == NamespacedId(namespace, baseName)
      ensures r.Err? ==> r.error == KeyError
    {
      r := NamespaceIdToNumericalId(NamespacedId(namespace, baseName));
    }

    /** registry[k]: a numerical id looks up its name, a namespaced id its
        numerical id; a miss is a KeyError either way. */
    method GetItem(key: RegistryKey) returns (r: Result<RegistryValue>)
      requires Valid()
      ensures key.ByNumericalId? ==>
        (r.Ok? <==> key.n in toName) && (r.Ok? ==> r.value == NamespacedValue(toName[key.n]))
      ensures key.ByNamespacedId? ==>
        (r.Ok? <==> key.name in toId) && (r.Ok? ==> r.value == NumericalValue(toId[key.name]))
      ensures r.Err? ==> r.error == KeyError
    {
      match key
      case ByNumericalId(n) =>
        var found := NumericalIdToNamespaceId(n);
        r := if found.Ok? then Ok(NamespacedValue(found.value)) else Err(found.error);
      case ByNamespacedId(name) =>
        var found := NamespaceIdToNumericalId(name);
        r := if found.Ok? then Ok(NumericalValue(found.value)) else Err(found.error);
    }

    /** get: the registered name, or the caller's default (None when omitted). */
    method Get(n: nat, default: Option<NamespacedId>) returns (r: Option<NamespacedId>)
      requires Valid()
      ensures n in toName ==> r == Some(toName[n])
      ensures n !in toName ==> r == default
    {
      r := if n in toName then Some(toName[n]) else default;
    }

    /** len: the number of registered pairs, counted in either direction. */
    method Len() returns (len: nat)
      requires Valid()
      ensures len == |toName| && len == |toId|
    {
      BijectiveSameSize(toName, toId);
      len := |toName|;
    }

    /** keys: a snapshot of the registered numerical ids. */
    method Keys() returns (ks: set<nat>)
      requires Valid()
      ensures ks == toName.Keys
      ensures forall n :: n in ks ==> toName[n] in toId
    {
      ks := toName.Keys;
    }

    /** values: a snapshot of the registered names, the image of the ids. */
    method Values() returns (vs: set<NamespacedId>)
      requires Valid()
      ensures vs == set n | n in toName :: toName[n]
    {
      NamesAreImage(toName, toId);
      vs := toId.Keys;
    }

    /** items: a snapshot of the registered pairs, each of which the reverse
        lookup maps back. */
    method Items() returns (items: map<nat, NamespacedId>)
      requires Valid()
      ensures items == toName
      ensures forall n :: n in items ==> items[n] in toId && toId[items[n]] == n
    {
      items := toName;
    }
  }
}
