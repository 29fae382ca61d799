/** Containers as bytes: where chunks lie in the data area, how the metadata is written, and the container file. */
module ContainerLayout {
  import opened Common
  import opened Serial

  const DATA_AREA := CONTAINER_SIZE - CONTAINER_META_SIZE

  datatype Entry = Entry(off: int, len: int)

  /** struct containerMeta. */
  datatype Meta = Meta(id: int, chunkNum: int, dataSize: int, entries: map<Fp, Entry>)

  // ---------------------------------------------------------------- layout

  /** `order` lists every fingerprint of the map once. */
  predicate Known(order: seq<Fp>, entries: map<Fp, Entry>) {
    && Among(order, entries)
    && (forall i, j | 0 <= i < j < |order| :: order[i] != order[j])
    && (forall fp | fp in entries :: fp in order)
  }

  predicate Among(order: seq<Fp>, entries: map<Fp, Entry>) {
    forall i | 0 <= i < |order| :: order[i] in entries
  }

  /** In the order they were added, the chunks lie end to end from 0 to `size`. */
  predicate Packed(order: seq<Fp>, entries: map<Fp, Entry>, size: int)
    requires Among(order, entries)
  {
    if order == [] then size == 0
    else
      var e := entries[order[|order| - 1]];
      e.len >= 0 && e.off + e.len == size && Packed(order[..|order| - 1], entries, e.off)
  }

  predicate Tiles(order: seq<Fp>, entries: map<Fp, Entry>, size: int) {
    Known(order, entries) && Packed(order, entries, size)
  }

  /** A packed chunk lies inside the area in use. */
  lemma {:induction false} PackedInside(order: seq<Fp>, entries: map<Fp, Entry>, size: int, i: nat)
    requires Among(order, entries) && Packed(order, entries, size) && i < |order|
    ensures 0 <= entries[order[i]].off && 0 <= entries[order[i]].len
    ensures entries[order[i]].off + entries[order[i]].len <= size
    decreases |order|
  {
    var m := |order| - 1;
    PackedSize(order, entries, size);
    PackedSize(order[..m], entries, entries[order[m]].off);
    if i < m {
      PackedInside(order[..m], entries, entries[order[m]].off, i);
    }
  }

  lemma {:induction false} PackedSize(order: seq<Fp>, entries: map<Fp, Entry>, size: int)
    requires Among(order, entries) && Packed(order, entries, size)
    ensures size >= 0
  {
    if order != [] {
      PackedSize(order[..|order| - 1], entries, entries[order[|order| - 1]].off);
    }
  }

  /** Chunks do not overlap. */
  lemma {:induction false} PackedApart(order: seq<Fp>, entries: map<Fp, Entry>, size: int, i: nat, j: nat)
    requires Among(order, entries) && Packed(order, entries, size) && i < j < |order|
    ensures entries[order[i]].off + entries[order[i]].len <= entries[order[j]].off
    decreases |order|
  {
    var m := |order| - 1;
    if j < m {
      PackedApart(order[..m], entries, entries[order[m]].off, i, j);
    } else {
      PackedInside(order[..m], entries, entries[order[m]].off, i);
    }
  }

  /** Every byte of the data area in use belongs to exactly one chunk. */
  lemma {:induction false} TilesOnce(order: seq<Fp>, entries: map<Fp, Entry>, size: int, p: int)
    requires Tiles(order, entries, size) && 0 <= p < size
    ensures exists fp :: fp in entries && InEntry(entries[fp], p)
    ensures forall f, g | f in entries && g in entries && InEntry(entries[f], p) && InEntry(entries[g], p) :: f == g
  {
    PackedCovers(order, entries, size, p);
    forall f, g | f in entries && g in entries && InEntry(entries[f], p) && InEntry(entries[g], p)
      ensures f == g
    {
      var i :| 0 <= i < |order| && order[i] == f;
      var j :| 0 <= j < |order| && order[j] == g;
      if i < j {
        PackedApart(order, entries, size, i, j);
      } else if j < i {
        PackedApart(order, entries, size, j, i);
      }
    }
  }

  predicate InEntry(e: Entry, p: int) {
    e.off <= p < e.off + e.len
  }

  lemma {:induction false} PackedCovers(order: seq<Fp>, entries: map<Fp, Entry>, size: int, p: int)
    requires Among(order, entries) && Packed(order, entries, size) && 0 <= p < size
    ensures exists fp :: fp in entries && InEntry(entries[fp], p)
  {
    var fp := order[|order| - 1];
    assert fp in entries;
    if p < entries[fp].off {
      PackedCovers(order[..|order| - 1], entries, entries[fp].off, p);
    }
  }

  lemma {:induction false} PackedSame(order: seq<Fp>, entries: map<Fp, Entry>, size: int, fp: Fp, e: Entry)
    requires Among(order, entries) && Packed(order, entries, size) && fp !in order
    ensures Among(order, entries[fp := e]) && Packed(order, entries[fp := e], size)
  {
    if order != [] {
      var m := |order| - 1;
      assert order == order[..m] + [order[m]];
      PackedSame(order[..m], entries, entries[order[m]].off, fp, e);
    }
  }

  lemma {:induction false} KnownSnoc(order: seq<Fp>, entries: map<Fp, Entry>, fp: Fp, e: Entry)
    requires Known(order, entries) && fp !in entries
    ensures Known(order + [fp], entries[fp := e]) && fp !in order
  {
    forall g | g in entries[fp := e]
      ensures g in order + [fp]
    {
      if g != fp {
        assert g in order;
      }
    }
  }

  /** Adding a chunk at the end keeps the tiling. */
  lemma {:induction false} TilesSnoc(order: seq<Fp>, entries: map<Fp, Entry>, size: int, fp: Fp, len: nat)
    requires Tiles(order, entries, size) && fp !in entries
    ensures Tiles(order + [fp], entries[fp := Entry(size, len)], size + len)
  {
    hide Known;
    var e := Entry(size, len);
    KnownSnoc(order, entries, fp, e);
    KnownAmong(order, entries);
    KnownAmong(order + [fp], entries[fp := e]);
    PackedSame(order, entries, size, fp, e);
    assert (order + [fp])[..|order|] == order;
  }

  lemma {:induction false} KnownAmong(order: seq<Fp>, entries: map<Fp, Entry>)
    requires Known(order, entries)
    ensures Among(order, entries)
  {
  }

  lemma {:induction false} KnownFewer(order: seq<Fp>, entries: map<Fp, Entry>)
    requires Known(order, entries) && order != []
    ensures order[|order| - 1] in entries
    ensures Known(order[..|order| - 1], entries - {order[|order| - 1]})
  {
    var m := |order| - 1;
    forall g | g in entries && g != order[m]
      ensures g in order[..m]
    {
      assert g in order;
    }
  }

  lemma {:induction false} KnownSize(order: seq<Fp>, entries: map<Fp, Entry>)
    requires Known(order, entries)
    ensures |order| == |entries| && forall fp :: fp in order <==> fp in entries
    decreases |order|
  {
    if order == [] {
      assert entries == map[];
    } else {
      var m := |order| - 1;
      var fp := order[m];
      KnownFewer(order, entries);
      KnownSize(order[..m], entries - {fp});
      assert entries.Keys == (entries - {fp}).Keys + {fp};
      assert |entries.Keys| == |(entries - {fp}).Keys| + 1;
    }
  }

  // ---------------------------------------------------------------- metadata bytes

  predicate Storable(e: Entry) {
    Fits(e.len, 4) && Fits(e.off, 4)
  }

  predicate StorableMap(entries: map<Fp, Entry>) {
    forall fp | fp in entries :: |fp| == FP_SIZE && Storable(entries[fp])
  }

  function HeaderBytes(id: int, chunkNum: int, dataSize: int): (r: Bytes)
    requires Fits(id, 8) && Fits(chunkNum, 4) && Fits(dataSize, 4)
    ensures |r| == 16
  {
    Network(id, 8) + Network(chunkNum, 4) + Network(dataSize, 4)
  }

  function EntryBytes(little: bool, fp: Fp, e: Entry): (r: Bytes)
    requires |fp| == FP_SIZE && Storable(e)
    ensures |r| == 28
  {
    fp + Native(little, e.len, 4) + Native(little, e.off, 4)
  }

  function EntriesBytes(little: bool, order: seq<Fp>, entries: map<Fp, Entry>): (r: Bytes)
    requires StorableMap(entries) && Among(order, entries)
    ensures |r| == 28 * |order|
  {
    if order == [] then []
    else
      var fp := order[|order| - 1];
      EntriesBytes(little, order[..|order| - 1], entries) + EntryBytes(little, fp, entries[fp])
  }

  /** One entry read at `buf[p..]`. */
  function ParseEntry(little: bool, buf: Bytes, p: nat): (Fp, Entry)
    requires p + 28 <= |buf|
  {
    (buf[p..p + 20], Entry(FromNative(little, buf[p + 24..p + 28]), FromNative(little, buf[p + 20..p + 24])))
  }

  /** The first `n` entries, inserted one after the other. */
  function ParseEntries(little: bool, buf: Bytes, n: nat): map<Fp, Entry>
    requires 16 + 28 * n <= |buf|
  {
    if n == 0 then map[]
    else
      var (fp, e) := ParseEntry(little, buf, 16 + 28 * (n - 1));
      ParseEntries(little, buf, n - 1)[fp := e]
  }

  /** Reading a metadata region; the asserts on the id and on the length are crashes. */
  function ParseMeta(little: bool, buf: Bytes, id: int): Outcome<Meta>
    requires |buf| == CONTAINER_META_SIZE
  {
    var found := Signed(Value(buf[..8]), 8);
    var num := Signed(Value(buf[8..12]), 4);
    var size := Signed(Value(buf[12..16]), 4);
    if found != id || 16 + 28 * num > CONTAINER_META_SIZE then Crash
    else Done(Meta(found, num, size, ParseEntries(little, buf, if num < 0 then 0 else num)))
  }

  lemma {:induction false} ParseEntryOk(little: bool, fp: Fp, e: Entry, buf: Bytes, p: nat)
    requires |fp| == FP_SIZE && Storable(e) && p + 28 <= |buf| && buf[p..p + 28] == EntryBytes(little, fp, e)
    ensures ParseEntry(little, buf, p) == (fp, e)
  {
    var r := buf[p..p + 28];
    var l, o := Native(little, e.len, 4), Native(little, e.off, 4);
    assert r == fp + l + o;
    SliceOfSlice(buf, p, p + 28, 0, 20);
    SliceOfSlice(buf, p, p + 28, 20, 24);
    SliceOfSlice(buf, p, p + 28, 24, 28);
    assert r[0..20] == fp && r[20..24] == l && r[24..28] == o;
    NativeRoundTrip(little, e.len, 4);
    NativeRoundTrip(little, e.off, 4);
  }

  /** The entries of the first fingerprints of `order`. */
  function Restrict(order: seq<Fp>, entries: map<Fp, Entry>): map<Fp, Entry> {
    map fp | fp in entries && fp in order :: entries[fp]
  }

  lemma {:induction false} ParseEntriesOk(little: bool, order: seq<Fp>, entries: map<Fp, Entry>, buf: Bytes)
    requires StorableMap(entries) && Among(order, entries)
    requires 16 + 28 * |order| <= |buf| && buf[16..16 + 28 * |order|] == EntriesBytes(little, order, entries)
    ensures ParseEntries(little, buf, |order|) == Restrict(order, entries)
  {
    hide ParseEntry, EntryBytes, StorableMap, EntriesBytes;
    if order != [] {
      var m := |order| - 1;
      var fp := order[m];
      EntriesSplit(little, order, entries, buf);
      ParseEntriesOk(little, order[..m], entries, buf);
      StorableOne(entries, fp);
      ParseEntryOk(little, fp, entries[fp], buf, 16 + 28 * m);
      RestrictSnoc(order, entries);
    }
  }

  /** The bytes of the last entry, and of those before it. */
  lemma {:induction false} EntriesSplit(little: bool, order: seq<Fp>, entries: map<Fp, Entry>, buf: Bytes)
    requires StorableMap(entries) && Among(order, entries) && order != []
    requires 16 + 28 * |order| <= |buf| && buf[16..16 + 28 * |order|] == EntriesBytes(little, order, entries)
    ensures var m := |order| - 1;
            && buf[16..16 + 28 * m] == EntriesBytes(little, order[..m], entries)
            && buf[16 + 28 * m..16 + 28 * m + 28] == EntryBytes(little, order[m], entries[order[m]])
  {
    hide EntryBytes;
    var m := |order| - 1;
    var a, b := EntriesBytes(little, order[..m], entries), EntryBytes(little, order[m], entries[order[m]]);
    SliceOfSlice(buf, 16, 16 + 28 * |order|, 0, 28 * m);
    SliceOfSlice(buf, 16, 16 + 28 * |order|, 28 * m, 28 * m + 28);
    assert (a + b)[0..28 * m] == a && (a + b)[28 * m..28 * m + 28] == b;
  }

  lemma {:induction false} StorableOne(entries: map<Fp, Entry>, fp: Fp)
    requires StorableMap(entries) && fp in entries
    ensures |fp| == FP_SIZE && Storable(entries[fp])
  {
  }

  lemma {:induction false} RestrictSnoc(order: seq<Fp>, entries: map<Fp, Entry>)
    requires Among(order, entries) && order != []
    ensures var fp := order[|order| - 1];
            Restrict(order, entries) == Restrict(order[..|order| - 1], entries)[fp := entries[fp]]
  {
    assert order == order[..|order| - 1] + [order[|order| - 1]];
  }

  /** `buf` starts with the metadata of a container, its entries in the order `order`. */
  predicate HoldsMeta(little: bool, m: Meta, order: seq<Fp>, buf: Bytes) {
    && Known(order, m.entries) && StorableMap(m.entries)
    && Fits(m.id, 8) && Fits(m.chunkNum, 4) && Fits(m.dataSize, 4)
    && |buf| == CONTAINER_META_SIZE && m.chunkNum == |order| && 16 + 28 * |order| <= CONTAINER_META_SIZE
    && buf[..16] == HeaderBytes(m.id, m.chunkNum, m.dataSize)
    && buf[16..16 + 28 * |order|] == EntriesBytes(little, order, m.entries)
  }

  /**
   * The layout of the metadata region: id, number of chunks and bytes in use, most significant byte first, at 0, 8 and
   * 12; then one 28-byte entry per chunk with its 20-byte fingerprint, its length and its offset as the host stores them.
   */
  lemma {:induction false} FieldsOfMeta(little: bool, m: Meta, order: seq<Fp>, buf: Bytes, k: nat)
    requires HoldsMeta(little, m, order, buf)
    ensures Signed(Value(buf[0..8]), 8) == m.id
    ensures Signed(Value(buf[8..12]), 4) == m.chunkNum == |m.entries|
    ensures Signed(Value(buf[12..16]), 4) == m.dataSize
    ensures k < |order| ==>
              var at := 16 + 28 * k;
              && buf[at..at + 20] == order[k] && order[k] in m.entries
              && FromNative(little, buf[at + 20..at + 24]) == m.entries[order[k]].len
              && FromNative(little, buf[at + 24..at + 28]) == m.entries[order[k]].off
  {
    hide EntriesBytes, StorableMap, Known, Network, FromNative, Signed, Value;
    var h := buf[..16];
    assert buf[0..8] == h[..8] == Network(m.id, 8);
    assert buf[8..12] == h[8..12] == Network(m.chunkNum, 4);
    assert buf[12..16] == h[12..16] == Network(m.dataSize, 4);
    NetworkRoundTrip(m.id, 8);
    NetworkRoundTrip(m.chunkNum, 4);
    NetworkRoundTrip(m.dataSize, 4);
    KnownSize(order, m.entries);
    if k < |order| {
      KnownHas(order, m.entries, k);
      EntryAt(little, order, m.entries, k);
      var lo, hi := 28 * k, 28 * k + 28;
      SliceOfSlice(buf, 16, 16 + 28 * |order|, lo, hi);
      EntryFields(little, order[k], m.entries[order[k]], buf, 16 + lo);
    }
  }

  /** The fields of an entry found at `at`. */
  lemma {:induction false} EntryFields(little: bool, fp: Fp, e: Entry, buf: Bytes, at: nat)
    requires |fp| == FP_SIZE && Storable(e) && at + 28 <= |buf| && buf[at..at + 28] == EntryBytes(little, fp, e)
    ensures buf[at..at + 20] == fp
    ensures FromNative(little, buf[at + 20..at + 24]) == e.len && FromNative(little, buf[at + 24..at + 28]) == e.off
  {
    hide FromNative, Native;
    var one := buf[at..at + 28];
    SliceOfSlice(buf, at, at + 28, 0, 20);
    SliceOfSlice(buf, at, at + 28, 20, 24);
    SliceOfSlice(buf, at, at + 28, 24, 28);
    assert one[0..20] == fp && one[20..24] == Native(little, e.len, 4) && one[24..28] == Native(little, e.off, 4);
    NativeRoundTrip(little, e.len, 4);
    NativeRoundTrip(little, e.off, 4);
  }

  lemma {:induction false} KnownHas(order: seq<Fp>, entries: map<Fp, Entry>, k: nat)
    requires Known(order, entries) && k < |order|
    ensures order[k] in entries && Among(order, entries)
  {
  }

  lemma {:induction false} SliceOfPrefix(a: Bytes, b: Bytes, lo: nat, hi: nat)
    requires lo <= hi <= |a|
    ensures (a + b)[lo..hi] == a[lo..hi]
  {
  }

  lemma {:induction false} SliceOfRest(a: Bytes, b: Bytes)
    ensures (a + b)[|a|..|a| + |b|] == b
  {
  }

  lemma {:induction false} EntryAt(little: bool, order: seq<Fp>, entries: map<Fp, Entry>, k: nat)
    requires StorableMap(entries) && Among(order, entries) && k < |order|
    ensures order[k] in entries && |order[k]| == FP_SIZE && Storable(entries[order[k]])
    ensures EntriesBytes(little, order, entries)[28 * k..28 * k + 28] == EntryBytes(little, order[k], entries[order[k]])
  {
    var m := |order| - 1;
    StorableOne(entries, order[k]);
    StorableOne(entries, order[m]);
    hide EntryBytes, StorableMap, Storable;
    var init, last := EntriesBytes(little, order[..m], entries), EntryBytes(little, order[m], entries[order[m]]);
    if k < m {
      EntryAt(little, order[..m], entries, k);
      SliceOfPrefix(init, last, 28 * k, 28 * k + 28);
    } else {
      SliceOfRest(init, last);
    }
  }

  /** Reading gives back the metadata, in whatever order the hash table was iterated. */
  lemma {:induction false} MetaRoundTrip(little: bool, m: Meta, order: seq<Fp>, buf: Bytes)
    requires HoldsMeta(little, m, order, buf)
    ensures ParseMeta(little, buf, m.id) == Done(m)
  {
    hide EntriesBytes, StorableMap;
    var h := buf[..16];
    assert buf[..8] == h[..8] == Network(m.id, 8);
    assert buf[8..12] == h[8..12] == Network(m.chunkNum, 4);
    assert buf[12..16] == h[12..16] == Network(m.dataSize, 4);
    NetworkRoundTrip(m.id, 8);
    NetworkRoundTrip(m.chunkNum, 4);
    NetworkRoundTrip(m.dataSize, 4);
    ParseEntriesOk(little, order, m.entries, buf);
    assert Restrict(order, m.entries) == m.entries;
  }
}
