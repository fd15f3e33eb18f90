/** The Anvil region store: one region file holds a 32 x 32 grid of chunk
    payloads. A region's file is modelled as a value with three parts: the
    location header (which sector each stored coordinate occupies), the
    sector table (which coordinate owns each sector of the payload area, if
    any) and the payloads themselves. Each payload takes one sector; the
    file size is the number of sectors. */
module Regions {
  import opened Wrappers
  import opened Decimal

  /** Chunks per region along each axis. */
  const Width: int := 32

  /** A region-local chunk coordinate. */
  datatype Coord = Coord(x: int, z: int)

  predicate InBounds(c: Coord)
  {
    0 <= c.x < Width && 0 <= c.z < Width
  }

  /** The owner of each sector of the payload area; None is a free sector. */
  type Sectors = seq<Option<Coord>>

  datatype RegionFile<V> = RegionFile(locations: map<Coord, nat>, sectors: Sectors, entries: map<Coord, V>)

  /** What is on disk at a region's path: no file at all, or a region file. */
  type Disk<V> = Option<RegionFile<V>>

  /** The header and the sector table agree: every stored coordinate owns
      exactly the sector its location names, and every owned sector is the
      location of its owner. */
  predicate WellFormed<V>(f: RegionFile<V>)
  {
    && f.locations.Keys == f.entries.Keys
    && (forall c :: c in f.locations ==>
          InBounds(c) && f.locations[c] < |f.sectors| && f.sectors[f.locations[c]] == Some(c))
    && (forall i :: 0 <= i < |f.sectors| && f.sectors[i].Some? ==>
          f.sectors[i].value in f.locations && f.locations[f.sectors[i].value] == i)
  }

  predicate ValidDisk<V>(d: Disk<V>)
  {
    d.Some? ==> WellFormed(d.value)
  }

  /** The payloads a disk holds; a missing file holds none. */
  function Entries<V>(d: Disk<V>): map<Coord, V>
  {
    if d.Some? then d.value.entries else map[]
  }

  /** The file size in sectors; a missing file has size 0. */
  function Size<V>(d: Disk<V>): nat
  {
    if d.Some? then |d.value.sectors| else 0
  }

  predicate HasFreeSector<V>(d: Disk<V>)
  {
    d.Some? && exists i :: 0 <= i < |d.value.sectors| && d.value.sectors[i].None?
  }

  /** The lowest free sector, if any. */
  function FirstFree(s: Sectors): (r: Option<nat>)
    ensures r.Some? ==> r.value < |s| && s[r.value].None? && forall j :: 0 <= j < r.value ==> s[j].Some?
    ensures r.None? ==> forall j :: 0 <= j < |s| ==> s[j].Some?
  {
    if |s| == 0 then None
    else if s[0].None? then Some(0)
    else match FirstFree(s[1..])
      case None => None
      case Some(i) => Some(i + 1)
  }

  /** set_value on an in-bounds coordinate: the payload is stored at the
      coordinate and nothing else changes. A coordinate already stored is
      rewritten in its own sector; a new one takes the lowest free sector,
      and the file grows by one sector only when none is free. The file is
      created by the first set_value. */
  function Put<V>(d: Disk<V>, c: Coord, v: V): (r: Disk<V>)
    requires ValidDisk(d) && InBounds(c)
    ensures r.Some? && WellFormed(r.value)
    ensures Entries(r) == Entries(d)[c := v]
    ensures c in Entries(d) ==> Size(r) == Size(d)
    ensures c !in Entries(d) ==> Size(r) == if HasFreeSector(d) then Size(d) else Size(d) + 1
  {
    var f := if d.Some? then d.value else RegionFile(map[], [], map[]);
    if c in f.locations then
      Some(f.(entries := f.entries[c := v]))
    else
      match FirstFree(f.sectors)
      case Some(i) =>
        PlacedWellFormed(f, c, v, i);
        Some(RegionFile(f.locations[c := i], f.sectors[i := Some(c)], f.entries[c := v]))
      case None =>
        PlacedWellFormed(f, c, v, |f.sectors|);
        Some(RegionFile(f.locations[c := |f.sectors|], f.sectors + [Some(c)], f.entries[c := v]))
  }

  /** A new coordinate placed in a free sector i, or in a sector appended at
      i == |sectors|, keeps the header and the sector table in agreement. */
  lemma PlacedWellFormed<V>(f: RegionFile<V>, c: Coord, v: V, i: nat)
    requires WellFormed(f) && InBounds(c) && c !in f.locations && i <= |f.sectors|
    requires i < |f.sectors| ==> f.sectors[i].None?
    ensures WellFormed(RegionFile(f.locations[c := i],
                                  if i < |f.sectors| then f.sectors[i := Some(c)] else f.sectors + [Some(c)],
                                  f.entries[c := v]))
  {
  }

  /** delete_value: the coordinate is no longer stored and its sector becomes
      free, but the file keeps its size. Deleting a coordinate that is not
      stored changes nothing. */
  function Delete<V>(d: Disk<V>, c: Coord): (r: Disk<V>)
    requires ValidDisk(d)
    ensures ValidDisk(r) && r.Some? == d.Some?
    ensures Entries(r) == Entries(d) - {c}
    ensures Size(r) == Size(d)
    ensures c in Entries(d) ==> HasFreeSector(r)
    ensures c !in Entries(d) ==> r == d
  {
    if d.None? || c !in d.value.locations then d
    else
      var f := d.value;
      var i := f.locations[c];
      assert f.sectors[i := None][i].None?;
      Some(RegionFile(f.locations - {c}, f.sectors[i := None], f.entries - {c}))
  }

  /** The owned sectors in file order, with the free ones squeezed out. */
  function Packed(s: Sectors): (p: Sectors)
    ensures |p| <= |s|
    ensures forall j :: 0 <= j < |p| ==> p[j].Some?
  {
    if |s| == 0 then []
    else Packed(s[..|s| - 1]) + (if s[|s| - 1].Some? then [s[|s| - 1]] else [])
  }

  /** Where compaction moves each coordinate stored below sector i: to the
      number of owned sectors in front of it. */
  function RelocatedBelow<V>(f: RegionFile<V>, i: nat): map<Coord, nat>
    requires WellFormed(f)
  {
    map c | c in f.locations && f.locations[c] < i :: |Packed(f.sectors[..f.locations[c]])|
  }

  /** compact: the owned sectors are packed to the front of a file that holds
      nothing else, and a region left with no chunks has its file removed. */
  function Compacted<V>(d: Disk<V>): (r: Disk<V>)
    requires ValidDisk(d)
    ensures ValidDisk(r) && Entries(r) == Entries(d)
  {
    if d.None? then None
    else
      var f := d.value;
      var p := Packed(f.sectors);
      if |p| == 0 then
        assert f.entries == map[] by {
          if c :| c in f.entries {
            PackedAt(f.sectors, f.locations[c]);
          }
        }
        None
      else
        RelocatedWellFormed(f);
        Some(RegionFile(RelocatedBelow(f, |f.sectors|), p, f.entries))
  }

  lemma {:induction false} PackedPrefix(s: Sectors, i: nat, k: nat)
    requires i <= k <= |s|
    ensures |Packed(s[..i])| <= |Packed(s[..k])|
    ensures Packed(s[..k])[..|Packed(s[..i])|] == Packed(s[..i])
    decreases k - i
  {
    if i < k {
      PackedPrefix(s, i, k - 1);
      assert s[..k][..k - 1] == s[..k - 1];
    }
  }

  /** An owned sector i lands at position |Packed(s[..i])| of the packed table. */
  lemma PackedAt(s: Sectors, i: nat)
    requires i < |s| && s[i].Some?
    ensures |Packed(s[..i])| < |Packed(s)|
    ensures Packed(s)[|Packed(s[..i])|] == s[i]
  {
    assert s[..i + 1][..i] == s[..i];
    assert Packed(s[..i + 1]) == Packed(s[..i]) + [s[i]];
    PackedPrefix(s, i + 1, |s|);
    assert s[..|s|] == s;
  }

  /** Every position of the packed table comes from an owned sector. */
  lemma {:induction false} PackedOrigin(s: Sectors, j: nat)
    requires j < |Packed(s)|
    ensures exists i :: 0 <= i < |s| && s[i].Some? && |Packed(s[..i])| == j && Packed(s)[j] == s[i]
  {
    var n := |s| - 1;
    var front := s[..n];
    if j < |Packed(front)| {
      PackedOrigin(front, j);
      var i :| 0 <= i < |front| && front[i].Some? && |Packed(front[..i])| == j && Packed(front)[j] == front[i];
      assert front[..i] == s[..i];
    } else {
      assert s[..n] == front;
      assert s[n].Some? && |Packed(s[..n])| == j;
    }
  }

  /** The packed table is as long as the original exactly when no sector is free. */
  lemma {:induction false} PackedLength(s: Sectors)
    ensures |Packed(s)| == |s| <==> forall i :: 0 <= i < |s| ==> s[i].Some?
  {
    if |s| > 0 {
      PackedLength(s[..|s| - 1]);
    }
  }

  lemma {:induction false} PackedAllOwned(s: Sectors)
    requires forall i :: 0 <= i < |s| ==> s[i].Some?
    ensures Packed(s) == s
  {
    if |s| > 0 {
      PackedAllOwned(s[..|s| - 1]);
      assert s[..|s| - 1] + [s[|s| - 1]] == s;
    }
  }

  lemma {:induction false} PackedNoneOwned(s: Sectors)
    requires forall i :: 0 <= i < |s| ==> s[i].None?
    ensures Packed(s) == []
  {
    if |s| > 0 {
      PackedNoneOwned(s[..|s| - 1]);
    }
  }

  lemma RelocatedWellFormed<V>(f: RegionFile<V>)
    requires WellFormed(f) && |Packed(f.sectors)| > 0
    ensures WellFormed(RegionFile(RelocatedBelow(f, |f.sectors|), Packed(f.sectors), f.entries))
  {
    var s := f.sectors;
    var p := Packed(s);
    var loc := RelocatedBelow(f, |s|);
    assert loc.Keys == f.locations.Keys;
    forall c | c in loc
      ensures loc[c] < |p| && p[loc[c]] == Some(c)
    {
      PackedAt(s, f.locations[c]);
    }
    forall j | 0 <= j < |p|
      ensures p[j].value in loc && loc[p[j].value] == j
    {
      PackedOrigin(s, j);
    }
  }

  /** compact keeps every stored payload, never grows the file, shrinks it
      exactly when a sector is free, leaves no free sector behind, and
      removes the file exactly when the region holds no chunk. */
  lemma CompactedSpec<V>(d: Disk<V>)
    requires ValidDisk(d)
    ensures Size(Compacted(d)) <= Size(d)
    ensures Size(Compacted(d)) < Size(d) <==> HasFreeSector(d)
    ensures !HasFreeSector(Compacted(d))
    ensures Compacted(d).None? <==> Entries(d) == map[]
  {
    CompactedSizes(d);
    CompactedEmpty(d);
  }

  /** Compacting drops exactly the free sectors. */
  lemma CompactedSizes<V>(d: Disk<V>)
    requires ValidDisk(d)
    ensures Size(Compacted(d)) <= Size(d)
    ensures Size(Compacted(d)) < Size(d) <==> HasFreeSector(d)
    ensures !HasFreeSector(Compacted(d))
  {
    if d.Some? {
      var s := d.value.sectors;
      var r := Compacted(d);
      assert Size(r) == |Packed(s)| && (r.Some? ==> r.value.sectors == Packed(s));
      PackedLength(s);
    }
  }

  /** Compacting removes the file exactly when it stores nothing. */
  lemma CompactedEmpty<V>(d: Disk<V>)
    requires ValidDisk(d)
    ensures Compacted(d).None? <==> Entries(d) == map[]
  {
    if d.Some? {
      var f := d.value;
      var s := f.sectors;
      assert Compacted(d).None? <==> |Packed(s)| == 0;
      if f.entries != map[] {
        var c :| c in f.entries;
        PackedAt(s, f.locations[c]);
      } else {
        PackedNoneOwned(s);
      }
    }
  }


  /** A second compact changes nothing. */
  lemma CompactedIdempotent<V>(d: Disk<V>)
    requires ValidDisk(d)
    ensures Compacted(Compacted(d)) == Compacted(d)
  {
    CompactedSpec(d);
    var r := Compacted(d);
    if r.Some? {
      CompactedFixed(r.value);
    }
  }

  /** A file with no free sector is already compact. */
  lemma CompactedFixed<V>(g: RegionFile<V>)
    requires WellFormed(g) && |g.sectors| > 0
    requires forall i :: 0 <= i < |g.sectors| ==> g.sectors[i].Some?
    ensures Compacted(Some(g)) == Some(g)
  {
    PackedAllOwned(g.sectors);
    RelocatedIdentity(g);
  }

  lemma RelocatedIdentity<V>(g: RegionFile<V>)
    requires WellFormed(g)
    requires forall i :: 0 <= i < |g.sectors| ==> g.sectors[i].Some?
    ensures RelocatedBelow(g, |g.sectors|) == g.locations
  {
    var p := g.sectors;
    forall c | c in g.locations
      ensures RelocatedBelow(g, |p|)[c] == g.locations[c]
    {
      PackedAllOwned(p[..g.locations[c]]);
    }
  }

  /** One step of the compaction scan over sector i. */
  lemma RelocatedStep<V>(f: RegionFile<V>, i: nat)
    requires WellFormed(f) && i < |f.sectors|
    ensures RelocatedBelow(f, i + 1) ==
      if f.sectors[i].Some? then RelocatedBelow(f, i)[f.sectors[i].value := |Packed(f.sectors[..i])|]
      else RelocatedBelow(f, i)
  {
  }

  /** Scans the sector table once, moving each owned sector down to the next
      packed position and recording its new location. */
  method PackSectors<V>(f: RegionFile<V>) returns (packed: Sectors, locations: map<Coord, nat>)
    requires WellFormed(f)
    ensures packed == Packed(f.sectors)
    ensures locations == RelocatedBelow(f, |f.sectors|)
  {
    packed := [];
    locations := map[];
    var i := 0;
    while i < |f.sectors|
      invariant 0 <= i <= |f.sectors|
      invariant packed == Packed(f.sectors[..i])
      invariant locations == RelocatedBelow(f, i)
    {
      RelocatedStep(f, i);
      assert f.sectors[..i + 1][..i] == f.sectors[..i];
      if f.sectors[i].Some? {
        locations := locations[f.sectors[i].value := |packed|];
        packed := packed + [f.sectors[i]];
      }
      i := i + 1;
    }
    assert f.sectors[..i] == f.sectors;
  }

  /** The file name of region (rx, rz): r.<rx>.<rz>.mca. */
  function FileName(rx: int, rz: int): string
  {
    "r." + IntToString(rx) + "." + IntToString(rz) + ".mca"
  }

  /** The file name determines the region: distinct regions never share a file. */
  lemma FileNameInjective(rx: int, rz: int, rx': int, rz': int)
    requires FileName(rx, rz) == FileName(rx', rz')
    ensures rx == rx' && rz == rz'
  {
    var b, b' := IntToString(rz), IntToString(rz');
    FileNameParts(rx, rz);
    FileNameParts(rx', rz');
    DotSplit(IntToString(rx), "." + b + ".mca", IntToString(rx'), "." + b' + ".mca");
    IntToStringInjective(rx, rx');
    IntToStringInjective(rz, rz');
  }

  lemma FileNameParts(rx: int, rz: int)
    ensures var tail := "." + IntToString(rz) + ".mca";
      && FileName(rx, rz)[2..] == IntToString(rx) + tail
      && tail[1..|tail| - 4] == IntToString(rz)
  {
    var tail := "." + IntToString(rz) + ".mca";
    assert FileName(rx, rz) == "r." + (IntToString(rx) + tail);
  }

  /** Two texts without a dot, each followed by text starting with a dot, are
      equal when the concatenations are. */
  lemma DotSplit(a: string, rest: string, a': string, rest': string)
    requires forall i :: 0 <= i < |a| ==> a[i] != '.'
    requires forall i :: 0 <= i < |a'| ==> a'[i] != '.'
    requires |rest| > 0 && rest[0] == '.' && |rest'| > 0 && rest'[0] == '.'
    requires a + rest == a' + rest'
    ensures a == a' && rest == rest'
  {
    FirstDotAt(a, rest);
    FirstDotAt(a', rest');
    assert |a| == |a'|;
    assert a == (a + rest)[..|a|];
    assert a' == (a' + rest')[..|a'|];
  }

  lemma FirstDotAt(a: string, rest: string)
    requires forall i :: 0 <= i < |a| ==> a[i] != '.'
    requires |rest| > 0 && rest[0] == '.'
    ensures (a + rest)[|a|] == '.'
    ensures forall i :: 0 <= i < |a| ==> (a + rest)[i] != '.'
  {
  }

  /** A region: its grid position and the file at its path. Opening a region
      reads whatever file is there, so a region reopened after destroy sees
      what the previous one wrote. */
  class AnvilRegion<V> {
    const directory: string
    const rx: int
    const rz: int
    var disk: Disk<V>

    /** The region file's path inside the directory. */
    function Path(): string
    {
      directory + "/" + FileName(rx, rz)
    }

    predicate Valid()
      reads this
    {
      ValidDisk(disk)
    }

    constructor (directory: string, rx: int, rz: int, disk: Disk<V>)
      requires ValidDisk(disk)
      ensures Valid() && this.directory == directory && this.rx == rx && this.rz == rz && this.disk == disk
    {
      this.directory := directory;
      this.rx := rx;
      this.rz := rz;
      this.disk := disk;
    }

    /** The stored coordinates: all inside the grid. */
    method GetCoords() returns (coords: set<Coord>)
      requires Valid()
      ensures coords == Entries(disk).Keys
      ensures forall c :: c in coords ==> InBounds(c)
    {
      coords := if disk.Some? then disk.value.locations.Keys else {};
    }

    method HasValue(x: int, z: int) returns (r: Result<bool>)
      requires Valid()
      ensures r.Err? <==> !InBounds(Coord(x, z))
      ensures r.Err? ==> r.error == ValueError
      ensures r.Ok? ==> (r.value <==> Coord(x, z) in Entries(disk))
    {
      var c := Coord(x, z);
      if !InBounds(c) {
        return Err(ValueError);
      }
      r := Ok(disk.Some? && c in disk.value.locations);
    }

    method GetValue(x: int, z: int) returns (r: Result<V>)
      requires Valid()
      ensures r.Ok? <==> Coord(x, z) in Entries(disk)
      ensures r.Ok? ==> r.value == Entries(disk)[Coord(x, z)]
      ensures r.Err? ==> r.error == if InBounds(Coord(x, z)) then ChunkDoesNotExist else ValueError
    {
      var c := Coord(x, z);
      if !InBounds(c) {
        return Err(ValueError);
      }
      if disk.None? || c !in disk.value.entries {
        return Err(ChunkDoesNotExist);
      }
      r := Ok(disk.value.entries[c]);
    }

    method SetValue(x: int, z: int, v: V) returns (r: Outcome)
      requires Valid()
      modifies this
      ensures Valid()
      ensures !InBounds(Coord(x, z)) ==> r == Fail(ValueError) && disk == old(disk)
      ensures InBounds(Coord(x, z)) ==> r == Pass && disk == Put(old(disk), Coord(x, z), v)
    {
      var c := Coord(x, z);
      if !InBounds(c) {
        return Fail(ValueError);
      }
      disk := Put(disk, c, v);
      r := Pass;
    }

    method DeleteValue(x: int, z: int) returns (r: Outcome)
      requires Valid()
      modifies this
      ensures Valid()
      ensures !InBounds(Coord(x, z)) ==> r == Fail(ValueError) && disk == old(disk)
      ensures InBounds(Coord(x, z)) ==> r == Pass && disk == Delete(old(disk), Coord(x, z))
    {
      var c := Coord(x, z);
      if !InBounds(c) {
        return Fail(ValueError);
      }
      disk := Delete(disk, c);
      r := Pass;
    }

    /** compact: the file is rewritten with its owned sectors packed. */
    method Compact()
      requires Valid()
      modifies this
      ensures Valid()
      ensures disk == Compacted(old(disk))
    {
      if disk.Some? {
        var f := disk.value;
        var packed, locations := PackSectors(f);
        ghost var r := Compacted(disk);
        disk := if |packed| == 0 then None else Some(RegionFile(locations, packed, f.entries));
        assert disk == r;
      }
    }
  }
}
