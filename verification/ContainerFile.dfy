/** The container being filled, and the container file. */
module ContainerFile {
  import opened Common
  import opened Serial
  import opened ContainerLayout
  import C = Containers

  // ---------------------------------------------------------------- bytes in place

  lemma {:induction false} SpliceMore(d: Bytes, p: nat, a: Bytes, b: Bytes)
    requires p + |a| + |b| <= |d|
    ensures Splice(Splice(d, p, a), p + |a|, b) == Splice(d, p, a + b)
  {
    var s := Splice(d, p, a);
    assert s[..p + |a|] == d[..p] + a;
    assert s[p + |a| + |b|..] == d[p + |a| + |b|..];
  }

  // ---------------------------------------------------------------- the container being filled

  /** The bytes an entry points at. */
  function ChunkAt(data: Bytes, e: Entry): Bytes {
    if 0 <= e.off && 0 <= e.len && e.off + e.len <= |data| then data[e.off..e.off + e.len] else []
  }

  function Contents(data: Bytes, entries: map<Fp, Entry>): map<Fp, Bytes> {
    map fp | fp in entries :: ChunkAt(data, entries[fp])
  }

  lemma {:induction false} ChunkPrefix(a: Bytes, b: Bytes, e: Entry, size: nat)
    requires size <= |a| && size <= |b| && a[..size] == b[..size]
    requires 0 <= e.off && 0 <= e.len && e.off + e.len <= size
    ensures ChunkAt(a, e) == ChunkAt(b, e)
  {
    SliceOfSlice(a, 0, size, e.off, e.off + e.len);
    SliceOfSlice(b, 0, size, e.off, e.off + e.len);
    assert a[0..size] == a[..size] && b[0..size] == b[..size];
  }

  lemma {:induction false} EntryInside(order: seq<Fp>, entries: map<Fp, Entry>, size: int, fp: Fp)
    requires Tiles(order, entries, size) && fp in entries
    ensures 0 <= entries[fp].off && 0 <= entries[fp].len && entries[fp].off + entries[fp].len <= size
  {
    var i :| 0 <= i < |order| && order[i] == fp;
    PackedInside(order, entries, size, i);
  }

  /** Chunks inside [0, size) do not see what happens behind. */
  lemma {:induction false} ContentsPrefix(a: Bytes, b: Bytes, order: seq<Fp>, entries: map<Fp, Entry>, size: nat)
    requires Tiles(order, entries, size) && size <= |a| && size <= |b| && a[..size] == b[..size]
    ensures Contents(a, entries) == Contents(b, entries)
  {
    hide Tiles, ChunkAt;
    forall fp | fp in entries
      ensures ChunkAt(a, entries[fp]) == ChunkAt(b, entries[fp])
    {
      EntryInside(order, entries, size, fp);
      ChunkPrefix(a, b, entries[fp], size);
    }
  }

  lemma {:induction false} ContentsSnoc(a: Bytes, order: seq<Fp>, entries: map<Fp, Entry>, size: nat, fp: Fp, ck: Bytes)
    requires Tiles(order, entries, size) && size + |ck| <= |a| && fp !in entries
    ensures Contents(Splice(a, size, ck), entries[fp := Entry(size, |ck|)]) == Contents(a, entries)[fp := ck]
  {
    var b := Splice(a, size, ck);
    assert a[..size] == b[..size];
    ContentsPrefix(a, b, order, entries, size);
    assert b[size..size + |ck|] == ck;
    assert forall g | g in entries :: Contents(b, entries)[g] == ChunkAt(b, entries[g]);
  }

  /** struct container; `order` lists its fingerprints as they were added. */
  class OpenContainer {
    const id: int
    var chunkNum: int
    var dataSize: int
    var entries: map<Fp, Entry>
    const data: array<Byte>
    ghost var order: seq<Fp>

    ghost predicate Valid()
      reads this
    {
      && data.Length == CONTAINER_SIZE
      && Tiles(order, entries, dataSize) && (forall fp | fp in entries :: |fp| == FP_SIZE)
      && chunkNum == |entries|
      && 0 <= dataSize <= DATA_AREA && 16 + 28 * chunkNum <= CONTAINER_META_SIZE
    }

    /** The container as the rest of the node sees it. */
    ghost function View(): C.Container
      requires Valid()
      reads this, data
    {
      C.Container(id, order, Contents(data[..], entries), dataSize)
    }

    ghost function MetaView(): Meta
      reads this
    {
      Meta(id, chunkNum, dataSize, entries)
    }

    constructor (id: int)
      ensures Valid() && fresh(data) && this.id == id && View() == C.NewContainer(id)
    {
      this.id, chunkNum, dataSize, entries, order := id, 0, 0, map[], [];
      data := new Byte[CONTAINER_SIZE](i => 0);
    }

    /** container_overflow. */
    method Overflow(size: int) returns (r: bool)
      requires Valid()
      ensures r <==> C.Overflow(View(), size)
    {
      assert View().entries.Keys == entries.Keys;
      assert |View().entries| == |View().entries.Keys| && |entries| == |entries.Keys|;
      if dataSize + size > CONTAINER_SIZE - CONTAINER_META_SIZE {
        return true;
      }
      if (chunkNum + 1) * 28 + 16 > CONTAINER_META_SIZE {
        return true;
      }
      return false;
    }

    /** add_chunk_to_container; the caller has ruled out an overflow, as the source asserts. */
    method AddChunk(fp: Fp, ck: Bytes) returns (added: bool)
      requires Valid() && |fp| == FP_SIZE && !C.Overflow(View(), |ck|)
      modifies this, data
      ensures Valid()
      ensures added <==> fp !in old(View()).entries
      ensures View() == if added then C.Add(old(View()), fp, ck) else old(View())
    {
      hide Tiles, Contents, Splice;
      ViewSize(data[..], entries);
      ViewKeys(data[..], entries);
      if fp in entries {
        return false;
      }
      ContentsSnoc(data[..], order, entries, dataSize, fp, ck);
      TilesSnoc(order, entries, dataSize, fp, |ck|);
      entries := entries[fp := Entry(dataSize, |ck|)];
      chunkNum := chunkNum + 1;
      CopyInto(data, dataSize, ck);
      dataSize := dataSize + |ck|;
      order := order + [fp];
      return true;
    }

    /** write_container up to the file: the metadata goes behind the data area, in the table's own order. */
    method Serialise(little: bool, iter: seq<Fp>)
      requires Valid() && Known(iter, entries) && Fits(id, 8)
      modifies data
      ensures Valid() && data[..][..DATA_AREA] == old(data[..])[..DATA_AREA]
      ensures HoldsMeta(little, MetaView(), iter, data[..][DATA_AREA..])
    {
      hide Tiles, Known, Packed;
      ghost var d0 := data[..];
      KnownSize(iter, entries);
      KnownAmong(iter, entries);
      EntriesFit(order, entries, dataSize);
      SizesFit();
      PutHeader(data, little, id, chunkNum, dataSize);
      PutEntries(data, little, iter, entries, DATA_AREA + 16);
      assert 16 + 28 * |iter| <= CONTAINER_META_SIZE;
      MetaInPlace(little, MetaView(), iter, d0, data[..]);
    }
  }

  method PutHeader(data: array<Byte>, little: bool, id: int, chunkNum: int, dataSize: int)
    requires data.Length == CONTAINER_SIZE && Fits(id, 8) && Fits(chunkNum, 4) && Fits(dataSize, 4)
    modifies data
    ensures data[..] == Splice(old(data[..]), DATA_AREA, HeaderBytes(id, chunkNum, dataSize))
  {
    var h0 := SerialInt64(little, id);
    var h1 := SerialInt32(little, chunkNum);
    var h2 := SerialInt32(little, dataSize);
    CopyInto(data, DATA_AREA, h0 + h1 + h2);
  }

  /** The loop over the hash table. */
  method PutEntries(data: array<Byte>, little: bool, iter: seq<Fp>, entries: map<Fp, Entry>, start: nat)
    requires StorableMap(entries) && Among(iter, entries) && start + 28 * |iter| <= data.Length
    modifies data
    ensures data[..] == Splice(old(data[..]), start, EntriesBytes(little, iter, entries))
  {
    hide Splice, EntriesBytes, StorableMap;
    ghost var d0 := data[..];
    var p := start;
    NothingSpliced(little, d0, start, entries);
    for i := 0 to |iter|
      invariant p == start + 28 * i
      invariant data[..] == Splice(d0, start, EntriesBytes(little, iter[..i], entries))
    {
      var fp := iter[i];
      var me := entries[fp];
      StorableOne(entries, fp);
      var bytes := fp + Native(little, me.len, 4) + Native(little, me.off, 4);
      EntriesSnoc(little, iter, i, entries);
      SpliceMore(d0, start, EntriesBytes(little, iter[..i], entries), bytes);
      CopyInto(data, p, bytes);
      p := p + 28;
    }
    assert iter[..|iter|] == iter;
  }

  lemma {:induction false} NothingSpliced(little: bool, d: Bytes, p: nat, entries: map<Fp, Entry>)
    requires p <= |d| && StorableMap(entries)
    ensures Splice(d, p, EntriesBytes(little, [], entries)) == d
  {
  }

  lemma {:induction false} ViewKeys(data: Bytes, entries: map<Fp, Entry>)
    ensures forall fp :: fp in Contents(data, entries) <==> fp in entries
  {
  }

  lemma {:induction false} ViewSize(data: Bytes, entries: map<Fp, Entry>)
    ensures |Contents(data, entries)| == |entries|
  {
    assert Contents(data, entries).Keys == entries.Keys;
    assert |Contents(data, entries)| == |Contents(data, entries).Keys| && |entries| == |entries.Keys|;
  }

  lemma {:induction false} SizesFit()
    ensures Pow256(4) == 4294967296
  {
    assert Pow256(1) == 256;
    assert Pow256(2) == 65536;
    assert Pow256(3) == 16777216;
  }

  lemma {:induction false} EntriesFit(order: seq<Fp>, entries: map<Fp, Entry>, size: int)
    requires Tiles(order, entries, size) && size <= DATA_AREA && forall fp | fp in entries :: |fp| == FP_SIZE
    ensures StorableMap(entries)
  {
    SizesFit();
    forall fp | fp in entries
      ensures Storable(entries[fp])
    {
      EntryInside(order, entries, size, fp);
    }
  }

  lemma {:induction false} EntriesSnoc(little: bool, iter: seq<Fp>, i: nat, entries: map<Fp, Entry>)
    requires StorableMap(entries) && Among(iter, entries) && i < |iter|
    ensures Among(iter[..i], entries) && Among(iter[..i + 1], entries)
    ensures EntriesBytes(little, iter[..i + 1], entries)
         == EntriesBytes(little, iter[..i], entries) + EntryBytes(little, iter[i], entries[iter[i]])
  {
    assert iter[..i + 1][..i] == iter[..i];
  }

  lemma {:induction false} MetaInPlace(little: bool, m: Meta, iter: seq<Fp>, d0: Bytes, all: Bytes)
    requires Known(iter, m.entries) && StorableMap(m.entries) && m.chunkNum == |iter|
    requires Fits(m.id, 8) && Fits(m.chunkNum, 4) && Fits(m.dataSize, 4)
    requires |d0| == CONTAINER_SIZE && 16 + 28 * |iter| <= CONTAINER_META_SIZE
    requires var h := HeaderBytes(m.id, m.chunkNum, m.dataSize);
             var e := EntriesBytes(little, iter, m.entries);
             all == Splice(Splice(d0, DATA_AREA, h), DATA_AREA + 16, e)
    ensures HoldsMeta(little, m, iter, all[DATA_AREA..]) && all[..DATA_AREA] == d0[..DATA_AREA]
  {
    hide StorableMap, HeaderBytes, EntriesBytes;
    KnownAmong(iter, m.entries);
    var h, e := HeaderBytes(m.id, m.chunkNum, m.dataSize), EntriesBytes(little, iter, m.entries);
    SpliceTwice(d0, DATA_AREA, h, e, all);
  }

  lemma {:induction false} SpliceTwice(d: Bytes, p: nat, h: Bytes, e: Bytes, all: Bytes)
    requires p + |h| + |e| <= |d| && all == Splice(Splice(d, p, h), p + |h|, e)
    ensures all[..p] == d[..p] && all[p..][..|h|] == h && all[p..][|h|..|h| + |e|] == e
  {
    SpliceMore(d, p, h, e);
    var rest := d[p + |h| + |e|..];
    assert all[p..] == h + e + rest;
  }

  // ---------------------------------------------------------------- the container file

  /** fseek and fwrite: a gap behind the end of the file reads as zeros. */
  function FileWrite(file: Bytes, off: nat, bs: Bytes): (r: Bytes)
    ensures |r| == if off + |bs| <= |file| then |file| else off + |bs|
  {
    var padded := if off + |bs| <= |file| then file else file + seq(off + |bs| - |file|, i => 0);
    Splice(padded, off, bs)
  }

  /** Container `id` starts here; the first 8 bytes of the file are container_count. */
  function Offset(id: nat): nat {
    id * CONTAINER_SIZE + 8
  }

  /** The file holds `image` as container `id`. */
  predicate Stored(file: Bytes, id: nat, image: Bytes) {
    && |image| == CONTAINER_SIZE && Offset(id) + CONTAINER_SIZE <= |file|
    && file[Offset(id)..Offset(id) + CONTAINER_SIZE] == image
  }

  lemma {:induction false} WriteReads(file: Bytes, off: nat, bs: Bytes)
    ensures FileWrite(file, off, bs)[off..off + |bs|] == bs
  {
  }

  lemma {:induction false} WriteElsewhere(file: Bytes, off: nat, bs: Bytes, lo: nat, hi: nat)
    requires lo <= hi <= |file| && (hi <= off || off + |bs| <= lo)
    ensures FileWrite(file, off, bs)[lo..hi] == file[lo..hi]
  {
    var r := FileWrite(file, off, bs);
    assert forall k | lo <= k < hi :: r[k] == file[k];
  }

  /** A write puts the container where it is looked for and leaves every other container and the count alone. */
  lemma {:induction false} StoredAfterWrite(file: Bytes, id: nat, image: Bytes)
    requires |image| == CONTAINER_SIZE
    ensures Stored(FileWrite(file, Offset(id), image), id, image)
    ensures forall other: nat, im | other != id && Stored(file, other, im) ::
              Stored(FileWrite(file, Offset(id), image), other, im)
    ensures |file| >= 8 ==> FileWrite(file, Offset(id), image)[..8] == file[..8]
  {
    hide FileWrite;
    WriteReads(file, Offset(id), image);
    forall other: nat, im | other != id && Stored(file, other, im)
      ensures Stored(FileWrite(file, Offset(id), image), other, im)
    {
      Apart(other, id);
      WriteElsewhere(file, Offset(id), image, Offset(other), Offset(other) + CONTAINER_SIZE);
    }
    if |file| >= 8 {
      WriteElsewhere(file, Offset(id), image, 0, 8);
      assert FileWrite(file, Offset(id), image)[0..8] == FileWrite(file, Offset(id), image)[..8];
      assert file[0..8] == file[..8];
    }
  }

  lemma {:induction false} Apart(a: nat, b: nat)
    requires a != b
    ensures Offset(a) + CONTAINER_SIZE <= Offset(b) || Offset(b) + CONTAINER_SIZE <= Offset(a)
  {
  }

  /** close_container_store writes the count and no container. */
  lemma {:induction false} CountKeepsContainers(file: Bytes, count: Bytes, id: nat, image: Bytes)
    requires |count| == 8 && Stored(file, id, image)
    ensures Stored(FileWrite(file, 0, count), id, image)
  {
    hide FileWrite;
    WriteElsewhere(file, 0, count, Offset(id), Offset(id) + CONTAINER_SIZE);
  }

  /** write_container: an empty container is not written. */
  method WriteContainer(c: OpenContainer, little: bool, iter: seq<Fp>, file: Bytes) returns (out: Bytes)
    requires c.Valid() && Known(iter, c.entries) && 0 <= c.id && Fits(c.id, 8)
    modifies c.data
    ensures c.Valid() && c.View() == old(c.View())
    ensures c.entries == map[] ==> out == file
    ensures c.entries != map[] ==>
              && c.data.Length == CONTAINER_SIZE && out == FileWrite(file, Offset(c.id), c.data[..])
              && HoldsMeta(little, c.MetaView(), iter, c.data[..][DATA_AREA..])
  {
    hide Tiles, Known, HoldsMeta, FileWrite;
    EmptyMap(c.entries);
    if c.chunkNum == 0 {
      return file;
    }
    ghost var d0 := c.data[..];
    c.Serialise(little, iter);
    SamePrefix(d0, c.data[..], c.dataSize);
    ContentsPrefix(d0, c.data[..], c.order, c.entries, c.dataSize);
    out := FileWrite(file, Offset(c.id), c.data[..]);
  }

  lemma {:induction false} EmptyMap(entries: map<Fp, Entry>)
    ensures |entries| == 0 <==> entries == map[]
  {
    if |entries| == 0 {
      assert entries.Keys == {};
    }
  }

  lemma {:induction false} SamePrefix(a: Bytes, b: Bytes, size: nat)
    requires size <= DATA_AREA && |a| == |b| == CONTAINER_SIZE && a[..DATA_AREA] == b[..DATA_AREA]
    ensures a[..size] == b[..size]
  {
    assert a[..size] == a[..DATA_AREA][..size] && b[..size] == b[..DATA_AREA][..size];
  }

  /** The reading loop of both retrieve functions. */
  method ReadMeta(little: bool, buf: Bytes, id: int) returns (r: Outcome<Meta>)
    requires |buf| == CONTAINER_META_SIZE
    ensures r == ParseMeta(little, buf, id)
  {
    var found := UnserialInt64(little, buf[..8]);
    var num := UnserialInt32(little, buf[8..12]);
    var size := UnserialInt32(little, buf[12..16]);
    if found != id || 16 + 28 * num > CONTAINER_META_SIZE {
      return Crash;
    }
    var entries: map<Fp, Entry> := map[];
    var i, p := 0, 16;
    while i < num
      invariant 0 <= i && (i <= num || i == 0) && p == 16 + 28 * i && p <= CONTAINER_META_SIZE
      invariant entries == ParseEntries(little, buf, i)
    {
      var me := Entry(FromNative(little, buf[p + 24..p + 28]), FromNative(little, buf[p + 20..p + 24]));
      entries := entries[buf[p..p + 20] := me];
      i, p := i + 1, p + 28;
    }
    return Done(Meta(found, num, size, entries));
  }

  /** retrieve_container_meta_by_id, once the container is not in the queue: it reads the metadata region only. */
  method RetrieveMeta(file: Bytes, little: bool, id: nat) returns (r: Outcome<Meta>)
    ensures forall image | Stored(file, id, image) :: r == ParseMeta(little, image[DATA_AREA..], id)
  {
    hide ParseMeta;
    var off := (id + 1) * CONTAINER_SIZE - CONTAINER_META_SIZE + 8;
    if off + CONTAINER_META_SIZE > |file| {
      return Crash;
    }
    var buf := file[off..off + CONTAINER_META_SIZE];
    SliceOfSlice(file, Offset(id), Offset(id) + CONTAINER_SIZE, DATA_AREA, CONTAINER_SIZE);
    r := ReadMeta(little, buf, id);
  }

  /** retrieve_container_by_id. */
  method RetrieveContainer(file: Bytes, little: bool, id: nat) returns (r: Outcome<Meta>, data: Bytes)
    ensures forall image | Stored(file, id, image) :: r == ParseMeta(little, image[DATA_AREA..], id) && data == image
  {
    hide ParseMeta;
    if Offset(id) + CONTAINER_SIZE > |file| {
      return Crash, [];
    }
    data := file[Offset(id)..Offset(id) + CONTAINER_SIZE];
    r := ReadMeta(little, data[DATA_AREA..], id);
  }

  /** get_chunk_in_container. */
  function GetChunk(m: Meta, data: Bytes, fp: Fp): Outcome<Bytes> {
    if fp !in m.entries then Crash else Done(ChunkAt(data, m.entries[fp]))
  }

  /**
   * Write, then retrieve: the same metadata and, for every fingerprint, the bytes that were added under it; for any
   * iteration order of the hash table, either host byte order, and any earlier contents of the file.
   */
  method WriteThenRetrieve(c: OpenContainer, little: bool, iter: seq<Fp>, file: Bytes, fp: Fp)
    returns (m: Outcome<Meta>, chunk: Outcome<Bytes>)
    requires c.Valid() && Known(iter, c.entries) && 0 <= c.id && Fits(c.id, 8) && c.entries != map[]
    modifies c.data
    ensures m == Done(old(c.MetaView()))
    ensures chunk == if fp in old(c.View()).entries then Done(old(c.View()).entries[fp]) else Crash
  {
    hide Tiles, Known, FileWrite, HoldsMeta, ParseMeta, Stored;
    var written := WriteContainer(c, little, iter, file);
    StoredAfterWrite(file, c.id, c.data[..]);
    MetaRoundTrip(little, c.MetaView(), iter, c.data[..][DATA_AREA..]);
    var data: Bytes;
    m, data := RetrieveContainer(written, little, c.id);
    chunk := GetChunk(m.value, data, fp);
  }
}
