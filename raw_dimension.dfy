/** The raw chunk store of one Java dimension: chunk (cx, cz) lives in
    region (floor(cx / 32), floor(cz / 32)) at local coordinate
    (cx mod 32, cz mod 32). The dimension keeps the file of every region
    that has one; a raw chunk is a map from string keys to tags, with the
    tag values opaque. */
module RawDimensions {
  import opened Wrappers
  import R = Regions

  datatype RegionPos = RegionPos(rx: int, rz: int)

  /** The region files of a dimension; a region without a file is absent. */
  type Files<V> = map<RegionPos, R.RegionFile<V>>

  type RawChunk<T> = map<string, T>

  predicate ValidFiles<V>(files: Files<V>)
  {
    forall rp :: rp in files ==> R.WellFormed(files[rp])
  }

  /** The region holding chunk (cx, cz) and the chunk's place in it. Dafny's
      division by the positive 32 rounds toward negative infinity, so a
      negative coordinate falls in a negative region. */
  function Locate(cx: int, cz: int): (r: (RegionPos, R.Coord))
    ensures R.InBounds(r.1)
    ensures cx == r.0.rx * R.Width + r.1.x && cz == r.0.rz * R.Width + r.1.z
  {
    (RegionPos(cx / R.Width, cz / R.Width), R.Coord(cx % R.Width, cz % R.Width))
  }

  /** Locate is the only split of a chunk coordinate into a region and an
      in-bounds local coordinate, so distinct chunks never share a slot. */
  lemma LocateUnique(cx: int, cz: int, rp: RegionPos, c: R.Coord)
    requires R.InBounds(c)
    requires cx == rp.rx * R.Width + c.x && cz == rp.rz * R.Width + c.z
    ensures Locate(cx, cz) == (rp, c)
  {
    var (rp', c') := Locate(cx, cz);
    SplitUnique(cx, rp.rx, c.x, rp'.rx, c'.x);
    SplitUnique(cz, rp.rz, c.z, rp'.rz, c'.z);
  }

  lemma SplitUnique(n: int, q: int, r: int, q': int, r': int)
    requires 0 <= r < R.Width && 0 <= r' < R.Width
    requires n == q * R.Width + r && n == q' * R.Width + r'
    ensures q == q' && r == r'
  {
  }

  function DiskAt<V>(files: Files<V>, rp: RegionPos): R.Disk<V>
  {
    if rp in files then Some(files[rp]) else None
  }

  /** Writes a region's disk back: a region left without a file is dropped. */
  function Store<V>(files: Files<V>, rp: RegionPos, d: R.Disk<V>): Files<V>
  {
    if d.Some? then files[rp := d.value] else files - {rp}
  }

  /** The chunk stored at (cx, cz), if any. */
  function ChunkAt<V>(files: Files<V>, cx: int, cz: int): Option<V>
  {
    var (rp, c) := Locate(cx, cz);
    var e := R.Entries(DiskAt(files, rp));
    if c in e then Some(e[c]) else None
  }

  /** set_raw_chunk: the chunk is stored at (cx, cz) and every other chunk
      is unchanged. */
  function PutChunk<V>(files: Files<V>, cx: int, cz: int, v: V): (r: Files<V>)
    requires ValidFiles(files)
    ensures ValidFiles(r)
    ensures ChunkAt(r, cx, cz) == Some(v)
    ensures forall x, z :: (x, z) != (cx, cz) ==> ChunkAt(r, x, z) == ChunkAt(files, x, z)
  {
    var (rp, c) := Locate(cx, cz);
    var d' := R.Put(DiskAt(files, rp), c, v);
    StoreKeepsOthers(files, cx, cz, d');
    var r := Store(files, rp, d');
    r
  }

  /** Writing back a region whose only changed entry is (cx, cz)'s leaves
      every other chunk as it was. */
  lemma StoreKeepsOthers<V>(files: Files<V>, cx: int, cz: int, d': R.Disk<V>)
    requires var (rp, c) := Locate(cx, cz);
      R.Entries(d') - {c} == R.Entries(DiskAt(files, rp)) - {c}
    ensures var rp := Locate(cx, cz).0;
      forall x, z :: (x, z) != (cx, cz) ==> ChunkAt(Store(files, rp, d'), x, z) == ChunkAt(files, x, z)
  {
    var (rp, c) := Locate(cx, cz);
    var r := Store(files, rp, d');
    forall x, z | (x, z) != (cx, cz)
      ensures ChunkAt(r, x, z) == ChunkAt(files, x, z)
    {
      OtherSlot(cx, cz, x, z);
      var (rp', c') := Locate(x, z);
      if rp' == rp {
        assert c' != c;
        assert c' in R.Entries(d') <==> c' in R.Entries(d') - {c};
        assert c' in R.Entries(DiskAt(files, rp)) <==> c' in R.Entries(DiskAt(files, rp)) - {c};
      }
    }
  }

  /** Two distinct chunks in the same region sit at distinct coordinates. */
  lemma OtherSlot(cx: int, cz: int, x: int, z: int)
    requires (x, z) != (cx, cz)
    ensures Locate(x, z).0 == Locate(cx, cz).0 ==> Locate(x, z).1 != Locate(cx, cz).1
  {
  }

  /** delete_chunk: the chunk at (cx, cz) is gone and every other chunk is
      unchanged; no region file changes size, and deleting a chunk that is
      not stored changes nothing. */
  function RemoveChunk<V>(files: Files<V>, cx: int, cz: int): (r: Files<V>)
    requires ValidFiles(files)
    ensures ValidFiles(r)
    ensures ChunkAt(r, cx, cz) == None
    ensures forall x, z :: (x, z) != (cx, cz) ==> ChunkAt(r, x, z) == ChunkAt(files, x, z)
    ensures Sizes(r) == Sizes(files)
    ensures ChunkAt(files, cx, cz).None? ==> r == files
  {
    var (rp, c) := Locate(cx, cz);
    var d := DiskAt(files, rp);
    var d' := R.Delete(d, c);
    StoreKeepsOthers(files, cx, cz, d');
    var r := Store(files, rp, d');
    DeleteKeepsSizes(files, rp, c);
    r
  }

  /** Deleting from one region file keeps every region file and its size. */
  lemma DeleteKeepsSizes<V>(files: Files<V>, rp: RegionPos, c: R.Coord)
    requires ValidFiles(files)
    ensures Sizes(Store(files, rp, R.Delete(DiskAt(files, rp), c))) == Sizes(files)
  {
    var r := Store(files, rp, R.Delete(DiskAt(files, rp), c));
    assert r.Keys == files.Keys;
  }

  /** compact on every region: each region file is compacted and a region
      left with no chunk loses its file. */
  function CompactAll<V>(files: Files<V>): (r: Files<V>)
    requires ValidFiles(files)
    ensures ValidFiles(r)
    ensures forall x, z :: ChunkAt(r, x, z) == ChunkAt(files, x, z)
  {
    CompactedOverSpec(files, files.Keys);
    CompactedOver(files, files.Keys)
  }

  /** The regions in ks compacted, the others dropped. */
  function CompactedOver<V>(files: Files<V>, ks: set<RegionPos>): Files<V>
    requires ValidFiles(files)
  {
    map rp | rp in files && rp in ks && R.Compacted(Some(files[rp])).Some? :: R.Compacted(Some(files[rp])).value
  }

  lemma CompactedOverSpec<V>(files: Files<V>, ks: set<RegionPos>)
    requires ValidFiles(files)
    ensures ValidFiles(CompactedOver(files, ks))
    ensures forall x, z :: Locate(x, z).0 in ks ==> ChunkAt(CompactedOver(files, ks), x, z) == ChunkAt(files, x, z)
  {
  }

  /** One more region compacted. */
  lemma CompactedOverStep<V>(files: Files<V>, ks: set<RegionPos>, rp: RegionPos)
    requires ValidFiles(files) && rp in files && rp !in ks
    ensures var d := R.Compacted(Some(files[rp]));
      CompactedOver(files, ks + {rp}) ==
        if d.Some? then CompactedOver(files, ks)[rp := d.value] else CompactedOver(files, ks)
  {
    var d := R.Compacted(Some(files[rp]));
    var m1 := CompactedOver(files, ks + {rp});
    var m := if d.Some? then CompactedOver(files, ks)[rp := d.value] else CompactedOver(files, ks);
    forall k | k in m1 || k in m
      ensures k in m1 && k in m && m1[k] == m[k]
    {
      CompactedOverAt(files, ks + {rp}, k);
      CompactedOverAt(files, ks, k);
    }
  }

  /** The loop step of compact: taking rp out of the regions still to do. */
  lemma CompactedOverNext<V>(files: Files<V>, todo: set<RegionPos>, rp: RegionPos)
    requires ValidFiles(files) && rp in todo && todo <= files.Keys
    ensures var d := R.Compacted(Some(files[rp]));
      CompactedOver(files, files.Keys - (todo - {rp})) ==
        if d.Some? then CompactedOver(files, files.Keys - todo)[rp := d.value] else CompactedOver(files, files.Keys - todo)
  {
    assert files.Keys - (todo - {rp}) == (files.Keys - todo) + {rp};
    CompactedOverStep(files, files.Keys - todo, rp);
  }

  lemma CompactedOverAt<V>(files: Files<V>, ks: set<RegionPos>, k: RegionPos)
    requires ValidFiles(files)
    ensures k in CompactedOver(files, ks) <==> k in files && k in ks && R.Compacted(Some(files[k])).Some?
    ensures k in CompactedOver(files, ks) ==> CompactedOver(files, ks)[k] == R.Compacted(Some(files[k])).value
  {
  }

  /** The size of every region file. */
  function Sizes<V>(files: Files<V>): map<RegionPos, nat>
  {
    map rp | rp in files :: |files[rp].sectors|
  }

  ghost function Pick<K>(s: set<K>): K
    requires s != {}
  {
    var k :| k in s; k
  }

  /** The sum of a map's values. */
  ghost function Sum<K>(m: map<K, nat>): nat
    decreases |m.Keys|
  {
    if m.Keys == {} then 0
    else
      var k := Pick(m.Keys);
      assert (m - {k}).Keys == m.Keys - {k};
      m[k] + Sum(m - {k})
  }

  /** The total size of the dimension's region files. */
  ghost function StorageSize<V>(files: Files<V>): nat
  {
    Sum(Sizes(files))
  }

  lemma {:induction false} SumRemove<K>(m: map<K, nat>, k: K)
    requires k in m
    ensures Sum(m) == m[k] + Sum(m - {k})
    decreases |m.Keys|
  {
    var j := Pick(m.Keys);
    if j != k {
      assert (m - {j}).Keys == m.Keys - {j};
      SumRemove(m - {j}, k);
      SumRemove(m - {k}, j);
      assert m - {j} - {k} == m - {k} - {j};
    }
  }

  lemma {:induction false} SumLe<K>(m1: map<K, nat>, m2: map<K, nat>)
    requires m2.Keys <= m1.Keys
    requires forall j :: j in m2 ==> m2[j] <= m1[j]
    ensures Sum(m2) <= Sum(m1)
    decreases |m1.Keys|
  {
    if m1.Keys != {} {
      var j := Pick(m1.Keys);
      SumRemove(m1, j);
      assert (m1 - {j}).Keys == m1.Keys - {j};
      if j in m2 {
        SumRemove(m2, j);
        SumLe(m1 - {j}, m2 - {j});
      } else {
        assert m2 - {j} == m2;
        SumLe(m1 - {j}, m2);
      }
    } else {
      assert m2.Keys == {};
    }
  }

  /** A map that is pointwise no larger, and strictly smaller (or missing) at a
      key with a positive value, has a strictly smaller sum. */
  lemma SumLess<K>(m1: map<K, nat>, m2: map<K, nat>, k: K)
    requires m2.Keys <= m1.Keys
    requires forall j :: j in m2 ==> m2[j] <= m1[j]
    requires k in m1 && (if k in m2 then m2[k] < m1[k] else m1[k] > 0)
    ensures Sum(m2) < Sum(m1)
  {
    SumRemove(m1, k);
    if k in m2 {
      SumRemove(m2, k);
      SumLe(m1 - {k}, m2 - {k});
    } else {
      assert m2 - {k} == m2;
      SumLe(m1 - {k}, m2);
    }
  }

  /** Compaction never grows the storage. */
  lemma CompactAllNoLarger<V>(files: Files<V>)
    requires ValidFiles(files)
    ensures StorageSize(CompactAll(files)) <= StorageSize(files)
  {
    CompactedSizes(files);
    SumLe(Sizes(files), Sizes(CompactAll(files)));
  }

  lemma CompactedSizes<V>(files: Files<V>)
    requires ValidFiles(files)
    ensures Sizes(CompactAll(files)).Keys <= Sizes(files).Keys
    ensures forall rp :: rp in Sizes(CompactAll(files)) ==> Sizes(CompactAll(files))[rp] <= Sizes(files)[rp]
  {
    forall rp | rp in CompactAll(files)
      ensures |CompactAll(files)[rp].sectors| <= |files[rp].sectors|
    {
      R.CompactedSpec(Some(files[rp]));
    }
  }

  /** Deleting a stored chunk leaves the storage size unchanged, and
      compacting afterwards makes it strictly smaller. */
  lemma DeleteThenCompactShrinks<V>(files: Files<V>, cx: int, cz: int)
    requires ValidFiles(files) && ChunkAt(files, cx, cz).Some?
    ensures StorageSize(RemoveChunk(files, cx, cz)) == StorageSize(files)
    ensures StorageSize(CompactAll(RemoveChunk(files, cx, cz))) < StorageSize(files)
  {
    var d := RemoveChunk(files, cx, cz);
    var rp := Locate(cx, cz).0;
    var c := Locate(cx, cz).1;
    assert rp in files && rp in d && d[rp] == R.Delete(Some(files[rp]), c).value;
    R.CompactedSpec(Some(d[rp]));
    CompactedSizes(d);
    SumLess(Sizes(d), Sizes(CompactAll(d)), rp);
  }

  /** The chunks of one dimension, kept as the files of its regions. */
  class JavaRawDimension<T> {
    var files: Files<RawChunk<T>>

    predicate Valid()
      reads this
    {
      ValidFiles(files)
    }

    /** Opening a dimension reads whatever region files are on disk. */
    constructor (files: Files<RawChunk<T>>)
      requires ValidFiles(files)
      ensures Valid() && this.files == files
    {
      this.files := files;
    }

    method HasChunk(cx: int, cz: int) returns (b: bool)
      requires Valid()
      ensures b <==> ChunkAt(files, cx, cz).Some?
    {
      var (rp, c) := Locate(cx, cz);
      b := rp in files && c in files[rp].entries;
    }

    method GetRawChunk(cx: int, cz: int) returns (r: Result<RawChunk<T>>)
      requires Valid()
      ensures r.Ok? <==> ChunkAt(files, cx, cz).Some?
      ensures r.Ok? ==> Some(r.value) == ChunkAt(files, cx, cz)
      ensures r.Err? ==> r.error == ChunkDoesNotExist
    {
      var (rp, c) := Locate(cx, cz);
      if rp in files && c in files[rp].entries {
        r := Ok(files[rp].entries[c]);
      } else {
        r := Err(ChunkDoesNotExist);
      }
    }

    method SetRawChunk(cx: int, cz: int, chunk: RawChunk<T>)
      requires Valid()
      modifies this
      ensures Valid() && files == PutChunk(old(files), cx, cz, chunk)
    {
      files := PutChunk(files, cx, cz, chunk);
    }

    method DeleteChunk(cx: int, cz: int)
      requires Valid()
      modifies this
      ensures Valid() && files == RemoveChunk(old(files), cx, cz)
    {
      files := RemoveChunk(files, cx, cz);
    }

    /** Compacts the regions one at a time. */
    method Compact()
      requires Valid()
      modifies this
      ensures Valid() && files == CompactAll(old(files))
    {
      var fs := files;
      var todo := fs.Keys;
      var out: Files<RawChunk<T>> := map[];
      while todo != {}
        invariant todo <= fs.Keys
        invariant out == CompactedOver(fs, fs.Keys - todo)
        decreases |todo|
      {
        var rp :| rp in todo;
        CompactedOverNext(fs, todo, rp);
        var d := R.Compacted(Some(fs[rp]));
        if d.Some? {
          out := out[rp := d.value];
        }
        todo := todo - {rp};
      }
      assert fs.Keys - todo == fs.Keys;
      CompactedOverSpec(fs, fs.Keys);
      files := out;
    }
  }
}
