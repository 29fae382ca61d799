/** Every container a run makes fits its image: a pool file can always follow the run. */
module Images {
  import opened Common
  import opened Serial
  import opened Containers
  import opened Machine
  import opened InFlight
  import opened StoreInvariant
  import opened Safety
  import opened ContainerLayout
  import opened ContainerFile
  import opened Pool
  import L = ContainerLayout
  import R = Recipes

  // ---------------------------------------------------------------- containers are built chunk by chunk

  /** `c` without the chunk added last. */
  function Shorter(c: Container): Container
    requires c.order != [] && c.order[|c.order| - 1] in c.entries && |c.entries[c.order[|c.order| - 1]]| <= c.dataSize
  {
    var fp := c.order[|c.order| - 1];
    Container(c.id, c.order[..|c.order| - 1], c.entries - {fp}, c.dataSize - |c.entries[fp]|)
  }

  /** `c` was filled by add_chunk_to_container, each time after container_overflow had said there was room. */
  ghost predicate Built(c: Container)
    decreases |c.order|
  {
    if c.order == [] then c == NewContainer(c.id)
    else
      var fp := c.order[|c.order| - 1];
      && |fp| == FP_SIZE && fp in c.entries && |c.entries[fp]| <= c.dataSize
      && !Overflow(Shorter(c), |c.entries[fp]|) && Built(Shorter(c))
  }

  lemma {:induction false} BuiltAdd(c: Container, fp: Fp, data: Bytes)
    requires Built(c) && fp !in c.entries && |fp| == FP_SIZE && !Overflow(c, |data|)
    ensures Built(Add(c, fp, data))
  {
    hide Overflow;
    var d := Add(c, fp, data);
    assert d.order[..|d.order| - 1] == c.order && d.entries - {fp} == c.entries;
    assert Shorter(d) == c;
  }

  /** The bytes of the chunks of a container. */
  function Total(order: seq<Fp>, entries: map<Fp, Bytes>): nat
    requires forall fp | fp in order :: fp in entries
  {
    if order == [] then 0
    else Total(order[..|order| - 1], entries) + |entries[order[|order| - 1]]|
  }

  lemma {:induction false} TotalSame(order: seq<Fp>, a: map<Fp, Bytes>, b: map<Fp, Bytes>)
    requires forall fp | fp in order :: fp in a && fp in b && a[fp] == b[fp]
    ensures Total(order, a) == Total(order, b)
  {
    if order != [] {
      TotalSame(order[..|order| - 1], a, b);
    }
  }

  lemma {:induction false} KeysGrow(a: map<Fp, Bytes>, b: map<Fp, Bytes>, fp: Fp)
    requires fp in b && a == b - {fp}
    ensures |b| == |a| + 1 && (forall x :: x in b <==> x in a || x == fp)
  {
    assert b.Keys == a.Keys + {fp};
    assert |b.Keys| == |b| && |a.Keys| == |a|;
  }

  /** The size fields of a container count its chunks. */
  lemma {:induction false} BuiltCounts(c: Container)
    requires Built(c)
    ensures |c.entries| == |c.order| && (forall fp :: fp in c.order <==> fp in c.entries)
    ensures c.dataSize == Total(c.order, c.entries)
    decreases |c.order|
  {
    hide Overflow;
    if c.order != [] {
      var n := |c.order| - 1;
      var fp, b := c.order[n], Shorter(c);
      BuiltCounts(b);
      hide Built;
      assert c.order == b.order + [fp];
      KeysGrow(b.entries, c.entries, fp);
      TotalSame(b.order, b.entries, c.entries);
    }
  }

  /**
   * A new chunk fits exactly when the container with it stays within both regions of its image: all its bytes in the
   * data area, and a 16-byte header with one 28-byte entry per chunk in the metadata region.
   */
  lemma {:induction false} FitsExactly(c: Container, fp: Fp, data: Bytes)
    requires Built(c) && fp !in c.entries
    ensures var d := Add(c, fp, data);
            && (forall x | x in d.order :: x in d.entries)
            && (!Overflow(c, |data|)
                <==> Total(d.order, d.entries) <= CONTAINER_SIZE - CONTAINER_META_SIZE
                     && 16 + 28 * |d.order| <= CONTAINER_META_SIZE)
  {
    BuiltCounts(c);
    var d := Add(c, fp, data);
    assert d.order[..|d.order| - 1] == c.order;
    TotalSame(c.order, c.entries, d.entries);
  }

  ghost predicate BuiltStore(s: Store) {
    && (s.open.Some? ==> Built(s.open.value))
    && (forall i | 0 <= i < |s.pending| :: Built(s.pending[i]))
    && (forall id | id in s.disk :: Built(s.disk[id]))
  }

  lemma {:induction false} NewIsBuilt(id: int)
    ensures Built(NewContainer(id))
  {
  }

  lemma {:induction false} CreateBuilt(s: Store)
    requires BuiltStore(s)
    ensures BuiltStore(Create(s))
  {
    hide Built;
    NewIsBuilt(s.nextId);
  }

  lemma {:induction false} CloseBuilt(cfg: Config, s: Store, kv: map<Key, int>)
    requires cfg.ratio > 0 && BuiltStore(s) && s.open.Some?
    ensures BuiltStore(CloseOpen(cfg, s, kv).0)
  {
    hide Built, Features;
  }

  lemma {:induction false} RoomBuilt(cfg: Config, s: Store, kv: map<Key, int>, size: int)
    requires cfg.ratio > 0 && BuiltStore(s)
    ensures BuiltStore(MakeRoom(cfg, s, kv, size).0) && MakeRoom(cfg, s, kv, size).0.open.Some?
  {
    hide BuiltStore, Overflow, CloseOpen;
    var s1 := if s.open.None? then Create(s) else s;
    if s.open.None? {
      CreateBuilt(s);
    }
    if Overflow(s1.open.value, size) {
      CloseBuilt(cfg, s1, kv);
      CreateBuilt(CloseOpen(cfg, s1, kv).0);
    }
  }

  lemma {:induction false} OpenBuilt(s: Store, c: Container)
    requires BuiltStore(s) && Built(c)
    ensures BuiltStore(s.(open := Some(c)))
  {
    hide Built;
  }

  lemma {:induction false} WriteBuilt(cfg: Config, f: Filter, c: Chunk)
    requires cfg.ratio > 0 && BuiltStore(f.store) && c.Normal() && |c.item.fp| == FP_SIZE && WriteChunk(cfg, f, c).Done?
    ensures BuiltStore(WriteChunk(cfg, f, c).value.0.store)
  {
    var s := MakeRoom(cfg, f.store, f.kv, |c.item.data|).0;
    RoomBuilt(cfg, f.store, f.kv, |c.item.data|);
    assert Built(s.open.value);
    hide BuiltStore, Built, MakeRoom, Overflow, Add;
    if c.item.fp !in s.open.value.entries {
      BuiltAdd(s.open.value, c.item.fp, c.item.data);
      OpenBuilt(s, Add(s.open.value, c.item.fp, c.item.data));
    }
  }

  lemma {:induction false} FilterChunkBuilt(cfg: Config, f: Filter, c: Chunk, m: Mark)
    requires cfg.ratio > 0 && BuiltStore(f.store) && FilterChunk(cfg, f, c, m).Done?
    requires c.Normal() ==> |c.item.fp| == FP_SIZE
    ensures BuiltStore(FilterChunk(cfg, f, c, m).value.0.store)
  {
    hide BuiltStore, WriteChunk, MustWrite;
    if c.Normal() {
      var c1 := Resolve(f, c).value;
      var m' := m.(inCache := m.inCache && c.id in f.seen);
      if MustWrite(c1, m') {
        WriteBuilt(cfg, f, c1);
      }
    }
  }

  lemma {:induction false} FilterPrefixBuilt(cfg: Config, f: Filter, cs: seq<Chunk>, marks: seq<Mark>, n: nat)
    requires cfg.ratio > 0 && n <= |cs| == |marks| && BuiltStore(f.store) && FilterPrefix(cfg, f, cs, marks, n).Done?
    requires forall i | 0 <= i < |cs| && cs[i].Normal() :: |cs[i].item.fp| == FP_SIZE
    ensures BuiltStore(FilterPrefix(cfg, f, cs, marks, n).value.0.store)
  {
    hide BuiltStore, FilterChunk;
    if n > 0 {
      FilterPrefixBuilt(cfg, f, cs, marks, n - 1);
      FilterChunkBuilt(cfg, FilterPrefix(cfg, f, cs, marks, n - 1).value.0, cs[n - 1], marks[n - 1]);
    }
  }

  lemma {:induction false} FilterBuilt(cfg: Config, content: Content, st: State, marks: seq<Mark>)
    requires cfg.ratio > 0 && Inv(cfg, content, st) && BuiltStore(st.store)
    requires st.running && st.inflight != [] && |marks| == |st.inflight[0]|
    ensures FilterOldest(cfg, st, marks).Done? && BuiltStore(FilterOldest(cfg, st, marks).value.store)
  {
    hide Inv, IndexOk, BuiltStore, CheckPrefix, FilterPrefix, UpdatePrefix, R.RecordPrefix, Held, FilterOldest, Flat, Settled, R.Records,
      R.Scan, NormalCount, Source;
    var cs, g, out := FilterParts(cfg, content, st, marks);
    RunningParts(cfg, content, st);
    FlatHead(st.inflight);
    var cs' := FilterChecked(cfg, content, st, st.inflight[0], Flat(st.inflight[1..]), marks);
    FilterPrefixBuilt(cfg, StartFilter(st), cs, marks, |cs|);
  }

  lemma {:induction false} ClosedBuilt(disk: map<int, Container>, pending: seq<Container>)
    requires (forall i | 0 <= i < |pending| :: Built(pending[i])) && (forall id | id in disk :: Built(disk[id]))
    ensures forall id | id in Closed(disk, pending) :: Built(Closed(disk, pending)[id])
  {
    hide Built;
    if pending != [] {
      ClosedBuilt(disk, pending[..|pending| - 1]);
    }
  }

  lemma {:induction false} FinishBuilt(cfg: Config, st: State)
    requires cfg.ratio > 0 && BuiltStore(st.store)
    ensures BuiltStore(Finish(cfg, st).store)
  {
    var s := st.store;
    if Finishing(st) {
      var t := if s.open.None? || s.open.value.entries == map[] then s else CloseOpen(cfg, s, st.index.kv).0;
      if s.open.Some? && s.open.value.entries != map[] {
        CloseBuilt(cfg, s, st.index.kv);
      }
      ClosedBuilt(t.disk, t.pending);
      hide Built, Closed, CloseOpen, R.Scan, Items;
    } else {
      FinishIdle(cfg, st);
    }
  }

  lemma {:induction false} OtherBuilt(cfg: Config, st: State, a: Action)
    requires cfg.ratio > 0 && BuiltStore(st.store) && Next(cfg, st, a).Done?
    requires !a.DoFilter? && !a.DoFinish?
    ensures BuiltStore(Next(cfg, st, a).value.store)
  {
    hide Built, LookupPrefix, HasPiece;
  }

  lemma {:induction false} NextBuilt(cfg: Config, content: Content, st: State, a: Action)
    requires cfg.ratio > 0 && Inv(cfg, content, st) && BuiltStore(st.store) && Next(cfg, st, a).Done?
    ensures BuiltStore(Next(cfg, st, a).value.store)
  {
    hide Inv, BuiltStore, Finish;
    if a.DoFilter? && st.running && st.inflight != [] && |a.marks| == |st.inflight[0]| {
      hide FilterOldest;
      FilterBuilt(cfg, content, st, a.marks);
    } else if a.DoFinish? {
      FinishBuilt(cfg, st);
    } else if !a.DoFilter? {
      OtherBuilt(cfg, st, a);
    }
  }

  /** Over every run, every container was built within its limits. */
  lemma {:induction false} EveryContainerIsBuilt(cfg: Config, content: Content, actions: seq<Action>)
    requires cfg.ratio > 0 && LegalRun(cfg, content, actions)
    ensures Run(cfg, INITIAL, actions).Done? && BuiltStore(Run(cfg, INITIAL, actions).value.store)
  {
    EveryRunIsSafe(cfg, content, actions);
    hide Inv, Legal, Next;
    if actions != [] {
      var n := |actions| - 1;
      EveryRunIsSafe(cfg, content, actions[..n]);
      EveryContainerIsBuilt(cfg, content, actions[..n]);
      NextBuilt(cfg, content, Run(cfg, INITIAL, actions[..n]).value, actions[n]);
    }
  }

  // ---------------------------------------------------------------- a built container has an image

  /** The entries and the data buffer that adding the chunks one by one leaves. */
  ghost function Laid(c: Container): (r: (map<Fp, Entry>, Bytes))
    requires Built(c)
    ensures |r.1| == CONTAINER_SIZE
    decreases |c.order|
  {
    if c.order == [] then (map[], seq(CONTAINER_SIZE, i => 0))
    else
      var b, fp := Shorter(c), c.order[|c.order| - 1];
      var (entries, data) := Laid(b);
      (entries[fp := Entry(b.dataSize, |c.entries[fp]|)], Splice(data, b.dataSize, c.entries[fp]))
  }

  /** The chunks of `c` lie end to end in `data` and fit the container. */
  ghost predicate LaidFits(c: Container, entries: map<Fp, Entry>, data: Bytes) {
    && |data| == CONTAINER_SIZE && Tiles(c.order, entries, c.dataSize) && Contents(data, entries) == c.entries
    && (forall fp | fp in entries :: |fp| == FP_SIZE)
    && |entries| == |c.order| && c.dataSize <= DATA_AREA && 16 + 28 * |c.order| <= CONTAINER_META_SIZE
  }

  lemma {:induction false} LaidNothing(c: Container)
    requires Built(c) && c.order == []
    ensures c == NewContainer(c.id) && Laid(c) == (map[], seq(CONTAINER_SIZE, i => 0))
  {
  }

  /** Laid and Built unfolded once. */
  lemma {:induction false} LaidSome(c: Container) returns (b: Container, fp: Fp)
    requires Built(c) && c.order != []
    ensures |b.order| < |c.order| && Built(b) && fp in c.entries && fp !in b.entries && |fp| == FP_SIZE
    ensures !Overflow(b, |c.entries[fp]|) && c == Add(b, fp, c.entries[fp])
    ensures b.dataSize + |c.entries[fp]| <= |Laid(b).1|
    ensures Laid(c) == (Laid(b).0[fp := Entry(b.dataSize, |c.entries[fp]|)], Splice(Laid(b).1, b.dataSize, c.entries[fp]))
  {
    hide Splice;
    b, fp := Shorter(c), c.order[|c.order| - 1];
    assert c.order == b.order + [fp] && b.entries[fp := c.entries[fp]] == c.entries;
  }

  lemma {:induction false} LaidOk(c: Container)
    requires Built(c)
    ensures LaidFits(c, Laid(c).0, Laid(c).1)
    decreases |c.order|
  {
    hide *;
    if c.order == [] {
      LaidNothing(c);
      NothingLaid(c.id);
    } else {
      var b, fp := LaidSome(c);
      LaidOk(b);
      LaidStep(b, Laid(b).0, Laid(b).1, fp, c.entries[fp]);
    }
  }

  lemma {:induction false} LaidStep(b: Container, entries: map<Fp, Entry>, data: Bytes, fp: Fp, ck: Bytes)
    requires LaidFits(b, entries, data) && fp !in b.entries && |fp| == FP_SIZE && !Overflow(b, |ck|)
    requires b.dataSize + |ck| <= |data|
    ensures LaidFits(Add(b, fp, ck), entries[fp := Entry(b.dataSize, |ck|)], Splice(data, b.dataSize, ck))
  {
    hide Tiles, Contents, Splice;
    ViewSize(data, entries);
    ViewKeys(data, entries);
    TilesSnoc(b.order, entries, b.dataSize, fp, |ck|);
    ContentsSnoc(data, b.order, entries, b.dataSize, fp, ck);
    TilesSize(b.order + [fp], entries[fp := Entry(b.dataSize, |ck|)], b.dataSize + |ck|);
  }

  lemma {:induction false} NothingLaid(id: int)
    ensures LaidFits(NewContainer(id), map[], seq(CONTAINER_SIZE, i => 0))
  {
  }

  lemma {:induction false} TilesSize(order: seq<Fp>, entries: map<Fp, Entry>, size: int)
    requires Tiles(order, entries, size)
    ensures |entries| == |order|
  {
    KnownSize(order, entries);
  }

  lemma {:induction false} TilesKnown(order: seq<Fp>, entries: map<Fp, Entry>, size: int)
    requires Tiles(order, entries, size)
    ensures Known(order, entries)
  {
  }

  /** There is an image of every container that was built within its limits. */
  lemma {:induction false} EveryContainerHasAnImage(little: bool, c: Container) returns (image: Bytes)
    requires Built(c) && Fits(c.id, 8)
    ensures Represents(little, image, c)
  {
    LaidOk(c);
    image := ImageOf(little, c, Laid(c).0, Laid(c).1);
  }

  lemma {:induction false} ImageOf(little: bool, c: Container, entries: map<Fp, Entry>,
                                   data: Bytes) returns (image: Bytes)
    requires LaidFits(c, entries, data) && Fits(c.id, 8)
    ensures Represents(little, image, c)
  {
    hide Tiles, Contents, Known, StorableMap, HoldsMeta, Splice, HeaderBytes, EntriesBytes;
    EntriesFit(c.order, entries, c.dataSize);
    SizesFit();
    TilesKnown(c.order, entries, c.dataSize);
    KnownAmong(c.order, entries);
    var m := L.Meta(c.id, |c.order|, c.dataSize, entries);
    var h, e := HeaderBytes(c.id, |c.order|, c.dataSize), EntriesBytes(little, c.order, entries);
    image := Splice(Splice(data, DATA_AREA, h), DATA_AREA + 16, e);
    MetaInPlace(little, m, c.order, data, image);
    SamePrefix(data, image, c.dataSize);
    ContentsPrefix(data, image, c.order, entries, c.dataSize);
    assert Depicts(little, image, m, c.order, c);
  }

  // ---------------------------------------------------------------- a pool file can follow every run

  /** Closed containers have ids that 8 bytes hold. */
  ghost predicate Writable(c: Container) {
    Built(c) && c.id >= 0 && Fits(c.id, 8)
  }

  lemma {:induction false} CanWrite(little: bool, file: Bytes, cs: seq<Container>) returns (file': Bytes)
    requires forall i | 0 <= i < |cs| :: Writable(cs[i])
    ensures Written(little, file, cs, file')
    decreases |cs|
  {
    hide Represents, FileWrite, Built;
    file' := file;
    if cs != [] {
      var image := EveryContainerHasAnImage(little, cs[0]);
      file' := CanWrite(little, FileWrite(file, Offset(cs[0].id), image), cs[1..]);
    }
  }

  lemma {:induction false} PendingIds(s: Store, content: Content)
    requires StoreOk(s, content)
    ensures forall i | 0 <= i < |s.pending| :: 0 <= s.pending[i].id < s.nextId
    ensures s.open.Some? ==> 0 <= s.open.value.id < s.nextId
  {
    forall i | 0 <= i < |s.pending|
      ensures 0 <= s.pending[i].id < s.nextId
    {
      PendingIsClosed(s.disk, s.pending, i);
      assert s.pending[i].id in ClosedOf(s);
    }
  }

  lemma {:induction false} SmallerFits(a: int, b: int)
    requires 0 <= a <= b && Fits(b, 8)
    ensures Fits(a, 8)
  {
  }

  lemma {:induction false} AllWritable(s: Store, content: Content)
    requires StoreOk(s, content) && BuiltStore(s) && Fits(s.nextId, 8)
    ensures forall i | 0 <= i < |s.pending| :: Writable(s.pending[i])
    ensures s.open.Some? ==> Writable(s.open.value)
  {
    PendingIds(s, content);
    hide StoreOk, Built, Fits;
    forall i | 0 <= i < |s.pending|
      ensures Writable(s.pending[i])
    {
      SmallerFits(s.pending[i].id, s.nextId);
    }
    if s.open.Some? {
      SmallerFits(s.open.value.id, s.nextId);
    }
  }

  lemma {:induction false} RemainingWritable(cfg: Config, st: State)
    requires cfg.ratio > 0 && (forall i | 0 <= i < |st.store.pending| :: Writable(st.store.pending[i]))
    requires st.store.open.Some? ==> Writable(st.store.open.value)
    ensures forall i | 0 <= i < |Remaining(cfg, st)| :: Writable(Remaining(cfg, st)[i])
  {
    hide Writable;
  }

  lemma {:induction false} AppendCanFollow(cfg: Config, content: Content, little: bool, st: State, file: Bytes)
    returns (file': Bytes)
    requires cfg.ratio > 0 && StoreOk(st.store, content) && BuiltStore(st.store) && Fits(st.store.nextId, 8)
    ensures PoolStep(cfg, little, st, DoAppendWrite, file, file')
  {
    AllWritable(st.store, content);
    hide StoreOk, BuiltStore, Writable, Written, Fits;
    file' := CanWrite(little, file, if st.store.pending == [] || st.store.written then [] else [st.store.pending[0]]);
  }

  lemma {:induction false} FinishStep(cfg: Config, little: bool, st: State, file: Bytes, mid: Bytes, count: Bytes)
    requires cfg.ratio > 0 && Finishing(st) && |count| == 8 && Written(little, file, Remaining(cfg, st), mid)
    ensures PoolStep(cfg, little, st, DoFinish, file, FileWrite(mid, 0, count))
  {
    hide Written, FileWrite, Finishing, Remaining;
  }

  lemma {:induction false} IdleStep(cfg: Config, little: bool, st: State, file: Bytes)
    requires cfg.ratio > 0 && !Finishing(st)
    ensures PoolStep(cfg, little, st, DoFinish, file, file)
  {
    hide Written, FileWrite, Finishing, Remaining;
  }

  lemma {:induction false} FinishCanFollow(cfg: Config, content: Content, little: bool, st: State, file: Bytes)
    returns (file': Bytes)
    requires cfg.ratio > 0 && StoreOk(st.store, content) && BuiltStore(st.store) && Fits(st.store.nextId, 8)
    ensures PoolStep(cfg, little, st, DoFinish, file, file')
  {
    hide StoreOk, BuiltStore, Writable, Written, FileWrite, Fits, Finishing, Remaining, PoolStep;
    AllWritable(st.store, content);
    RemainingWritable(cfg, st);
    if Finishing(st) {
      var mid := CanWrite(little, file, Remaining(cfg, st));
      file' := FileWrite(mid, 0, seq(8, i => 0));
      FinishStep(cfg, little, st, file, mid, seq(8, i => 0));
    } else {
      file' := file;
      IdleStep(cfg, little, st, file);
    }
  }

  lemma {:induction false} StepCanFollow(cfg: Config, content: Content, little: bool, st: State, a: Action, file: Bytes)
    returns (file': Bytes)
    requires cfg.ratio > 0 && StoreOk(st.store, content) && BuiltStore(st.store) && Fits(st.store.nextId, 8)
    ensures PoolStep(cfg, little, st, a, file, file')
  {
    hide StoreOk, BuiltStore, Written, FileWrite, Fits, Finishing, Remaining;
    if a.DoAppendWrite? {
      file' := AppendCanFollow(cfg, content, little, st, file);
    } else if a.DoFinish? {
      file' := FinishCanFollow(cfg, content, little, st, file);
    } else {
      file' := if a.DoDelete? && !st.running then FileWrite(file, 0, seq(8, i => 0)) else file;
    }
  }

  /** As long as container ids fit their 8 bytes, a pool file can follow every run. */
  lemma {:induction false} PoolCanFollow(cfg: Config, content: Content, little: bool, actions: seq<Action>)
    returns (files: seq<Bytes>)
    requires cfg.ratio > 0 && LegalRun(cfg, content, actions)
    requires forall n | 0 <= n <= |actions| && Run(cfg, INITIAL, actions[..n]).Done? ::
               Fits(Run(cfg, INITIAL, actions[..n]).value.store.nextId, 8)
    ensures PoolRun(cfg, little, actions, files)
  {
    hide Run, Fits, PoolStep;
    if actions == [] {
      files := [[]];
    } else {
      var n := |actions| - 1;
      var before := actions[..n];
      assert forall k | 0 <= k <= n :: before[..k] == actions[..k];
      var fs := PoolCanFollow(cfg, content, little, before);
      EveryRunIsSafe(cfg, content, before);
      EveryContainerIsBuilt(cfg, content, before);
      var st := Run(cfg, INITIAL, before).value;
      InvStore(cfg, content, st);
      hide Inv, StoreOk, BuiltStore;
      var f := StepCanFollow(cfg, content, little, st, actions[n], fs[n]);
      files := fs + [f];
      assert files[..n + 1] == fs;
    }
  }
}
