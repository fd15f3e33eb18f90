/** The Java chunk classes, one per schema era, and the table that maps each
    class's ChunkID string to its null constructor (chunk.cpp). Every class
    is built from the same components: raw data, data version and block data. */
module JavaChunks {
  import opened Wrappers
  import opened Core
  import opened JavaRawChunk

  /** JavaChunkNA, JavaChunk0, JavaChunk1444, JavaChunk1466, JavaChunk2203. */
  datatype ChunkClass = ChunkNA | Chunk0 | Chunk1444 | Chunk1466 | Chunk2203

  /** Each class's ChunkID constant. */
  function ChunkId(c: ChunkClass): string
  {
    match c
    case ChunkNA => "Amulet::JavaChunkNA"
    case Chunk0 => "Amulet::JavaChunk0"
    case Chunk1444 => "Amulet::JavaChunk1444"
    case Chunk1466 => "Amulet::JavaChunk1466"
    case Chunk2203 => "Amulet::JavaChunk2203"
  }

  /** java_chunk_constructors: ChunkID to the class its null constructor makes. */
  const JavaChunkConstructors: map<string, ChunkClass> := map[
    ChunkId(ChunkNA) := ChunkNA,
    ChunkId(Chunk0) := Chunk0,
    ChunkId(Chunk1444) := Chunk1444,
    ChunkId(Chunk1466) := Chunk1466,
    ChunkId(Chunk2203) := Chunk2203
  ]

  /** Dispatch by data version: the one versioned class whose interval holds v. */
  function ClassForVersion(v: nat): ChunkClass
  {
    if v <= 1443 then Chunk0
    else if v <= 1465 then Chunk1444
    else if v <= 2202 then Chunk1466
    else Chunk2203
  }

  /** The check each versioned constructor makes before initialising anything.
      A constructor accepts v exactly when v is non-negative and dispatch by
      version picks its class, so the four intervals are disjoint and together
      cover every non-negative data version. The JavaChunk1444 message names
      1443 although 1443 is rejected; the message text is kept as written. */
  function CheckDataVersion(c: ChunkClass, dataVersion: int): (r: Outcome)
    requires c != ChunkNA
    ensures r.Pass? <==> dataVersion >= 0 && ClassForVersion(dataVersion) == c
    ensures r.Fail? ==> r.error.InvalidArgument?
  {
    match c
    case Chunk0 =>
      if dataVersion < 0 || 1443 < dataVersion then Fail(InvalidArgument("data version must be between 0 and 1443")) else Pass
    case Chunk1444 =>
      if dataVersion < 1444 || 1465 < dataVersion then Fail(InvalidArgument("data version must be between 1443 and 1465")) else Pass
    case Chunk1466 =>
      if dataVersion < 1466 || 2202 < dataVersion then Fail(InvalidArgument("data version must be between 1466 and 2202")) else Pass
    case Chunk2203 =>
      if dataVersion < 2203 then Fail(InvalidArgument("data version must be at least 2203")) else Pass
  }

  /** The block version range every constructor builds: "java" from [v] to [v]. */
  function JavaVersionRange(v: int): VersionRange
  {
    VersionRange("java", [v], [v])
  }

  /** The section shape every constructor uses. */
  const ChunkSectionShape: SectionShape := SectionShape(16, 16, 16)

  /** The data of a block component. Sections are not modelled; see the README. */
  class BlockComponentData {
    const versionRange: VersionRange
    const sectionShape: SectionShape
    const palette: BlockPalette

    constructor (range: VersionRange, shape: SectionShape, defaultBlock: BlockStack)
      ensures versionRange == range && sectionShape == shape
      ensures fresh(palette) && palette.Valid()
      ensures palette.versionRange == range && palette.stacks == [defaultBlock]
    {
      versionRange := range;
      sectionShape := shape;
      palette := new BlockPalette(range, defaultBlock);
    }
  }

  class JavaChunk {
    const cls: ChunkClass
    /** JavaRawChunkComponent */
    const raw: JavaRawChunkComponent
    /** DataVersionComponent: None until initialised. */
    var dataVersion: Option<int>
    /** BlockComponent: None until initialised. */
    var block: Option<BlockComponentData>

    /** The state a constructor leaves a chunk in: every component loaded, raw
        data empty, the data version v, and a block component over "java" [v, v]
        with 16x16x16 sections whose palette holds only the default block. */
    ghost predicate Initialised(v: int, defaultBlock: BlockStack)
      reads this, raw, raw.rawData.value, block.value, block.value.palette
      requires raw.rawData.Some? && block.Some?
    {
      && raw.rawData.value.entries == map[]
      && dataVersion == Some(v)
      && block.value.versionRange == JavaVersionRange(v)
      && block.value.sectionShape == ChunkSectionShape
      && block.value.palette.stacks == [defaultBlock]
      && block.value.palette.Valid()
    }

    /** The constructor body shared by all five classes (lines 32-42 and the
        matching lines of the other four). Callers have already made the
        class's data-version check. */
    constructor (c: ChunkClass, v: int, defaultBlock: BlockStack)
      requires c == ChunkNA ==> v == -1
      requires c != ChunkNA ==> CheckDataVersion(c, v).Pass?
      ensures cls == c && fresh(raw)
      ensures raw.rawData.Some? && fresh(raw.rawData.value)
      ensures block.Some? && fresh(block.value) && fresh(block.value.palette)
      ensures Initialised(v, defaultBlock)
    {
      cls := c;
      var component := new JavaRawChunkComponent.Null();
      component.Init();
      raw := component;
      dataVersion := Some(v);
      var data := new BlockComponentData(JavaVersionRange(v), ChunkSectionShape, defaultBlock);
      block := Some(data);
    }

    /** The null constructor used before deserialising: nothing is loaded. */
    constructor Null(c: ChunkClass)
      ensures cls == c && fresh(raw) && raw.rawData.None?
      ensures dataVersion.None? && block.None?
    {
      cls := c;
      raw := new JavaRawChunkComponent.Null();
      dataVersion := None;
      block := None;
    }
  }

  /** JavaChunkNA(default_block, default_biome): data version -1. The biome
      argument is accepted and unused, as in the source. */
  method NewJavaChunkNA(defaultBlock: BlockStack, defaultBiome: Biome) returns (chunk: JavaChunk)
    ensures fresh(chunk) && chunk.cls == ChunkNA
    ensures chunk.raw.rawData.Some? && chunk.block.Some?
    ensures chunk.Initialised(-1, defaultBlock)
  {
    chunk := new JavaChunk(ChunkNA, -1, defaultBlock);
  }

  /** JavaChunk0/1444/1466/2203(data_version, default_block, default_biome):
      invalid_argument outside the class's interval, otherwise a chunk whose
      components are all initialised from data_version. */
  method NewVersionedChunk(c: ChunkClass, dataVersion: int, defaultBlock: BlockStack, defaultBiome: Biome)
    returns (r: Result<JavaChunk>)
    requires c != ChunkNA
    ensures r.Err? <==> CheckDataVersion(c, dataVersion).Fail?
    ensures r.Err? ==> r.error == CheckDataVersion(c, dataVersion).error
    ensures r.Ok? ==> fresh(r.value) && r.value.cls == c
    ensures r.Ok? ==> r.value.raw.rawData.Some? && r.value.block.Some?
    ensures r.Ok? ==> r.value.Initialised(dataVersion, defaultBlock)
  {
    var check := CheckDataVersion(c, dataVersion);
    if check.Fail? {
      return Err(check.error);
    }
    var chunk := new JavaChunk(c, dataVersion, defaultBlock);
    r := Ok(chunk);
  }

  /** detail::get_java_chunk_id: the chunk's own ChunkID, after checking that
      it is in the constructor table. Every class's id is, so the check never
      fails for the five classes. */
  function GetJavaChunkId(chunk: JavaChunk): (r: Result<string>)
    ensures r == Ok(ChunkId(chunk.cls))
  {
    var id := ChunkId(chunk.cls);
    if id in JavaChunkConstructors then Ok(id) else Err(RuntimeError("Unknown chunk_id " + id))
  }

  /** detail::get_java_null_chunk: a fresh null chunk of the class registered
      under chunk_id, or runtime_error for an unknown id. Reading the id back
      gives chunk_id again. */
  method GetJavaNullChunk(chunkId: string) returns (r: Result<JavaChunk>)
    ensures r.Ok? <==> chunkId in JavaChunkConstructors
    ensures r.Err? ==> r.error == RuntimeError("Unknown chunk_id " + chunkId)
    ensures r.Ok? ==> fresh(r.value) && r.value.cls == JavaChunkConstructors[chunkId]
    ensures r.Ok? ==> r.value.raw.rawData.None? && r.value.dataVersion.None? && r.value.block.None?
    ensures r.Ok? ==> GetJavaChunkId(r.value) == Ok(chunkId)
  {
    if chunkId !in JavaChunkConstructors {
      return Err(RuntimeError("Unknown chunk_id " + chunkId));
    }
    var chunk := new JavaChunk.Null(JavaChunkConstructors[chunkId]);
    ChunkIdTable(JavaChunkConstructors[chunkId]);
    KnownChunkIds(chunkId);
    r := Ok(chunk);
  }

  /** The table holds exactly the five ids, each mapped to its own class. */
  lemma ChunkIdTable(c: ChunkClass)
    ensures ChunkId(c) in JavaChunkConstructors && JavaChunkConstructors[ChunkId(c)] == c
  {
  }

  lemma KnownChunkIds(id: string)
    ensures id in JavaChunkConstructors <==> exists c :: ChunkId(c) == id
    ensures id in JavaChunkConstructors ==> ChunkId(JavaChunkConstructors[id]) == id
  {
    if id in JavaChunkConstructors {
      assert ChunkId(JavaChunkConstructors[id]) == id;
    }
  }

  /** Selecting a class by data version is total and unique on non-negative
      versions: exactly one versioned constructor accepts each of them, and
      every versioned constructor rejects negative versions. */
  lemma DispatchTotalAndUnique(v: int)
    ensures v >= 0 ==> CheckDataVersion(ClassForVersion(v), v).Pass?
    ensures forall c :: c != ChunkNA && CheckDataVersion(c, v).Pass? ==> v >= 0 && c == ClassForVersion(v)
  {
  }
}
