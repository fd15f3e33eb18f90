/** The raw-data component of a Java chunk: the NBT entries the chunk schema
    does not recognise, kept verbatim. The component is either unloaded (it
    was made by the null constructor) or loaded with a map that may be shared
    with whoever obtained it through GetRawData. */
module JavaRawChunk {
  import opened Wrappers
  import opened Core

  const NotLoadedMessage: string := "JavaRawChunkComponent has not been loaded."

  /** JavaRawChunkType: a map from string keys to named tags, held by shared
      pointer, so it is a heap object here. */
  class RawChunkData {
    var entries: map<string, NamedTag>

    constructor ()
      ensures entries == map[]
    {
      entries := map[];
    }

    method Put(key: string, tag: NamedTag)
      modifies this
      ensures entries == old(entries)[key := tag]
    {
      entries := entries[key := tag];
    }
  }

  class JavaRawChunkComponent {
    var rawData: Option<RawChunkData>

    predicate Loaded()
      reads this
    {
      rawData.Some?
    }

    /** The null constructor: the component is unloaded. */
    constructor Null()
      ensures rawData == None
    {
      rawData := None;
    }

    /** init(): loads a fresh, empty map. */
    method Init()
      modifies this
      ensures rawData.Some? && fresh(rawData.value) && rawData.value.entries == map[]
    {
      var data := new RawChunkData();
      rawData := Some(data);
    }

    /** init(raw_data): loads exactly the given map (shared, not copied). */
    method InitWith(data: RawChunkData)
      modifies this
      ensures rawData == Some(data)
    {
      rawData := Some(data);
    }

    /** get_raw_data: the stored map itself, or runtime_error when unloaded. */
    method GetRawData() returns (r: Result<RawChunkData>)
      ensures rawData.None? ==> r == Err(RuntimeError(NotLoadedMessage))
      ensures rawData.Some? ==> r == Ok(rawData.value)
    {
      if rawData.Some? {
        r := Ok(rawData.value);
      } else {
        r := Err(RuntimeError(NotLoadedMessage));
      }
    }

    /** set_raw_data: replaces the stored map when loaded; an unloaded
        component throws and stays unloaded. */
    method SetRawData(data: RawChunkData) returns (o: Outcome)
      modifies this
      ensures old(rawData).None? ==> o == Fail(RuntimeError(NotLoadedMessage)) && rawData == None
      ensures old(rawData).Some? ==> o == Pass && rawData == Some(data)
    {
      if rawData.Some? {
        rawData := Some(data);
        o := Pass;
      } else {
        o := Fail(RuntimeError(NotLoadedMessage));
      }
    }
  }

  /** The sharing behaviour the chunk tests rely on: entries added through the
      returned map are visible through the component, and replacing the map
      leaves the old map's entries as they were. */
  method SharedRawData(t1: NamedTag, t2: NamedTag)
    returns (seen: map<string, NamedTag>, afterReplace: map<string, NamedTag>, oldMap: map<string, NamedTag>)
    ensures seen == map["test" := t1, "test2" := t2]
    ensures afterReplace == map[]
    ensures oldMap == seen
  {
    var component := new JavaRawChunkComponent.Null();
    component.Init();
    var got := component.GetRawData();
    var raw := got.value;
    raw.Put("test", t1);
    raw.Put("test2", t2);
    var again := component.GetRawData();
    seen := again.value.entries;
    var empty := new RawChunkData();
    var o := component.SetRawData(empty);
    var now := component.GetRawData();
    afterReplace := now.value.entries;
    oldMap := raw.entries;
  }
}
