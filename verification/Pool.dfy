/** The container pool file along a run: it holds, for every container on disk, an image that reads back as that container. */
module Pool {
  import opened Common
  import opened Serial
  import opened Containers
  import opened Machine
  import opened StoreInvariant
  import opened Safety
  import opened ContainerLayout
  import L = ContainerLayout
  import opened ContainerFile
  import R = Recipes

  // ---------------------------------------------------------------- images

  /** `image` holds the metadata `m`, and its entries point at the chunks of `c`. */
  ghost predicate Depicts(little: bool, image: Bytes, m: L.Meta, order: seq<Fp>, c: Container) {
    && |image| == CONTAINER_SIZE && HoldsMeta(little, m, order, image[DATA_AREA..])
    && m.id == c.id && m.dataSize == c.dataSize && Contents(image, m.entries) == c.entries
  }

  ghost predicate Represents(little: bool, image: Bytes, c: Container) {
    exists m, order :: Depicts(little, image, m, order, c)
  }

  /** Retrieving a container from its image gives its metadata, and under each fingerprint its bytes. */
  lemma {:induction false} ReadsBack(little: bool, image: Bytes, c: Container)
    requires Represents(little, image, c)
    ensures |image| == CONTAINER_SIZE && ParseMeta(little, image[DATA_AREA..], c.id).Done?
    ensures var m := ParseMeta(little, image[DATA_AREA..], c.id).value;
            && m.id == c.id && m.dataSize == c.dataSize && m.entries.Keys == c.entries.Keys && m.chunkNum == |c.entries|
            && forall fp :: GetChunk(m, image, fp) == if fp in c.entries then Done(c.entries[fp]) else Crash
  {
    hide HoldsMeta, ParseMeta, Contents, ChunkAt;
    var m, order :| Depicts(little, image, m, order, c);
    MetaRoundTrip(little, m, order, image[DATA_AREA..]);
    MetaCount(little, m, order, image[DATA_AREA..]);
    ViewSize(image, m.entries);
    ViewKeys(image, m.entries);
    forall fp
      ensures GetChunk(m, image, fp) == if fp in c.entries then Done(c.entries[fp]) else Crash
    {
      ChunkOf(image, m, fp);
    }
  }

  lemma {:induction false} MetaCount(little: bool, m: L.Meta, order: seq<Fp>, buf: Bytes)
    requires HoldsMeta(little, m, order, buf)
    ensures m.chunkNum == |m.entries|
  {
    KnownSize(order, m.entries);
  }

  lemma {:induction false} ChunkOf(image: Bytes, m: L.Meta, fp: Fp)
    ensures GetChunk(m, image, fp)
         == if fp in Contents(image, m.entries) then Done(Contents(image, m.entries)[fp]) else Crash
  {
  }

  /** What write_container leaves in the buffer depicts the container. */
  method WriteImage(c: OpenContainer, little: bool, iter: seq<Fp>, file: Bytes) returns (out: Bytes)
    requires c.Valid() && Known(iter, c.entries) && 0 <= c.id && Fits(c.id, 8) && c.entries != map[]
    modifies c.data
    ensures c.Valid() && c.View() == old(c.View())
    ensures Written(little, file, [c.View()], out)
  {
    hide Known, HoldsMeta, FileWrite, Tiles, Contents;
    out := WriteContainer(c, little, iter, file);
    assert Depicts(little, c.data[..], c.MetaView(), iter, c.View());
    assert Represents(little, c.data[..], c.View());
    OneWritten(little, file, c.View(), c.data[..]);
  }

  // ---------------------------------------------------------------- the pool

  /** The append thread has written the containers `cs`, in order. */
  ghost predicate Written(little: bool, file: Bytes, cs: seq<Container>, file': Bytes)
    decreases |cs|
  {
    if cs == [] then file' == file
    else
      exists image :: cs[0].id >= 0 && Represents(little, image, cs[0])
                      && Written(little, FileWrite(file, Offset(cs[0].id), image), cs[1..], file')
  }

  lemma {:induction false} OneWritten(little: bool, file: Bytes, c: Container, image: Bytes)
    requires c.id >= 0 && Represents(little, image, c)
    ensures Written(little, file, [c], FileWrite(file, Offset(c.id), image))
  {
    hide FileWrite, Represents;
    var file' := FileWrite(file, Offset(c.id), image);
    var cs := [c];
    assert cs[1..] == [] && Written(little, file', [], file');
    assert cs[0] == c && Written(little, FileWrite(file, Offset(cs[0].id), image), cs[1..], file');
  }

  ghost predicate HoldsContainer(little: bool, file: Bytes, id: int, c: Container) {
    id >= 0 && exists image :: Stored(file, id, image) && Represents(little, image, c)
  }

  /** The pool holds every container on disk. */
  ghost predicate PoolOk(little: bool, file: Bytes, disk: map<int, Container>) {
    forall id | id in disk :: HoldsContainer(little, file, id, disk[id])
  }

  /** Writing one container keeps the others. */
  lemma {:induction false} WriteOne(little: bool, file: Bytes, disk: map<int, Container>, c: Container, image: Bytes)
    requires PoolOk(little, file, disk) && c.id >= 0 && Represents(little, image, c)
    ensures PoolOk(little, FileWrite(file, Offset(c.id), image), disk[c.id := c])
  {
    ImageSize(little, image, c);
    hide FileWrite, Represents, Stored;
    StoredAfterWrite(file, c.id, image);
    var file', disk' := FileWrite(file, Offset(c.id), image), disk[c.id := c];
    forall id | id in disk'
      ensures HoldsContainer(little, file', id, disk'[id])
    {
      if id != c.id {
        assert HoldsContainer(little, file, id, disk[id]);
        var im :| Stored(file, id, im) && Represents(little, im, disk[id]);
        assert Stored(file', id, im);
      }
    }
  }

  lemma {:induction false} ImageSize(little: bool, image: Bytes, c: Container)
    requires Represents(little, image, c)
    ensures |image| == CONTAINER_SIZE
  {
  }

  lemma {:induction false} WriteAll(little: bool, file: Bytes, disk: map<int, Container>, cs: seq<Container>, file': Bytes)
    requires PoolOk(little, file, disk) && Written(little, file, cs, file')
    ensures PoolOk(little, file', Closed(disk, cs))
    decreases |cs|
  {
    hide PoolOk, Represents, FileWrite;
    if cs != [] {
      var c := cs[0];
      var image :| c.id >= 0 && Represents(little, image, c)
                   && Written(little, FileWrite(file, Offset(c.id), image), cs[1..], file');
      WriteOne(little, file, disk, c, image);
      ClosedHead(disk, cs);
      WriteAll(little, FileWrite(file, Offset(c.id), image), disk[c.id := c], cs[1..], file');
    }
  }

  /** close_container_store writes the count in front of all containers. */
  lemma {:induction false} CountOk(little: bool, file: Bytes, disk: map<int, Container>, count: Bytes)
    requires PoolOk(little, file, disk) && |count| == 8
    ensures PoolOk(little, FileWrite(file, 0, count), disk)
  {
    hide FileWrite, Represents, Stored;
    forall id | id in disk
      ensures HoldsContainer(little, FileWrite(file, 0, count), id, disk[id])
    {
      assert HoldsContainer(little, file, id, disk[id]);
      var im :| Stored(file, id, im) && Represents(little, im, disk[id]);
      CountKeepsContainers(file, count, id, im);
    }
  }

  // ---------------------------------------------------------------- along a run

  predicate Finishing(st: State) {
    st.running && st.inflight == [] && R.Scan(Items(st.filtered)) == R.Outside
  }

  /** The containers the append thread still has to write when the backup ends. */
  function Remaining(cfg: Config, st: State): seq<Container>
    requires cfg.ratio > 0
  {
    var s := st.store;
    var all := s.pending + if s.open.None? || s.open.value.entries == map[] then [] else [s.open.value];
    if s.written && all != [] then all[1..] else all
  }

  /** What a step of the machine does to the pool file. */
  ghost predicate PoolStep(cfg: Config, little: bool, st: State, a: Action, file: Bytes, file': Bytes)
    requires cfg.ratio > 0
  {
    match a
    case DoAppendWrite =>
      Written(little, file, if st.store.pending == [] || st.store.written then [] else [st.store.pending[0]], file')
    case DoFinish =>
      if Finishing(st) then
        exists mid, count: Bytes :: |count| == 8 && Written(little, file, Remaining(cfg, st), mid) && file' == FileWrite(mid, 0, count)
      else file' == file
    case DoDelete(_) =>
      if st.running then file' == file else exists count: Bytes :: |count| == 8 && file' == FileWrite(file, 0, count)
    case _ => file' == file
  }

  lemma {:induction false} FinishDisk(cfg: Config, content: Content, st: State)
    requires cfg.ratio > 0 && StoreOk(st.store, content) && Finishing(st)
    ensures Finish(cfg, st).store.disk == Closed(st.store.disk, Remaining(cfg, st))
  {
    var s := st.store;
    assert QueueOk(s);
    hide Closed, R.Scan, Items, StoreOk;
    var all := s.pending + if s.open.None? || s.open.value.entries == map[] then [] else [s.open.value];
    assert s.pending + [] == s.pending;
    assert Finish(cfg, st).store.disk == Closed(s.disk, all);
    if s.written {
      ClosedHead(s.disk, all);
      assert s.disk[all[0].id := all[0]] == s.disk;
    }
  }

  lemma {:induction false} SmallerPool(little: bool, file: Bytes, disk: map<int, Container>, dead: set<int>)
    requires PoolOk(little, file, disk)
    ensures PoolOk(little, file, disk - dead)
  {
    hide HoldsContainer;
  }

  lemma {:induction false} AppendPool(little: bool, s: Store, file: Bytes, file': Bytes)
    requires PoolOk(little, file, s.disk)
    requires Written(little, file, if s.pending == [] || s.written then [] else [s.pending[0]], file')
    ensures PoolOk(little, file', AppendWrite(s).disk)
  {
    hide PoolOk;
    var cs := if s.pending == [] || s.written then [] else [s.pending[0]];
    WriteAll(little, file, s.disk, cs, file');
    if cs != [] {
      ClosedHead(s.disk, cs);
      assert cs[1..] == [];
    }
  }

  lemma {:induction false} DeletePool(little: bool, st: State, jobid: int, file: Bytes)
    requires PoolOk(little, file, st.store.disk) && Delete(st, jobid).Done?
    ensures PoolOk(little, file, Delete(st, jobid).value.store.disk)
  {
    hide PoolOk;
    SmallerPool(little, file, st.store.disk, set id | id in st.manifest && st.manifest[id] <= jobid);
  }

  lemma {:induction false} OtherPool(cfg: Config, st: State, a: Action)
    requires cfg.ratio > 0 && Next(cfg, st, a).Done? && !a.DoAppendWrite? && !a.DoFinish? && !a.DoDelete? && !a.DoFilter?
    ensures Next(cfg, st, a).value.store.disk == st.store.disk
  {
    hide LookupPrefix, HasPiece;
  }

  lemma {:induction false} NextPool(cfg: Config, content: Content, little: bool, st: State, a: Action, file: Bytes, file': Bytes)
    requires cfg.ratio > 0 && Inv(cfg, content, st) && Next(cfg, st, a).Done?
    requires PoolOk(little, file, st.store.disk) && PoolStep(cfg, little, st, a, file, file')
    ensures PoolOk(little, file', Next(cfg, st, a).value.store.disk)
  {
    hide Inv, PoolOk, Written, FileWrite, FilterOldest, AppendWrite, Finish, Delete, Finishing, Remaining;
    match a
    case DoAppendWrite => AppendPool(little, st.store, file, file');
    case DoFinish =>
      FinishIdle(cfg, st);
      if Finishing(st) {
        var mid, count: Bytes :| |count| == 8 && Written(little, file, Remaining(cfg, st), mid) && file' == FileWrite(mid, 0, count);
        InvStore(cfg, content, st);
        FinishDisk(cfg, content, st);
        WriteAll(little, file, st.store.disk, Remaining(cfg, st), mid);
        CountOk(little, mid, Closed(st.store.disk, Remaining(cfg, st)), count);
      }
    case DoDelete(jobid) =>
      DeletePool(little, st, jobid, file);
      if !st.running {
        var count: Bytes :| |count| == 8 && file' == FileWrite(file, 0, count);
        CountOk(little, file, Delete(st, jobid).value.store.disk, count);
      }
    case DoFilter(marks) => FilterDisk(cfg, st, marks);
    case _ => OtherPool(cfg, st, a);
  }

  lemma {:induction false} FinishIdle(cfg: Config, st: State)
    requires cfg.ratio > 0
    ensures !Finishing(st) ==> Finish(cfg, st) == st
  {
    hide R.Scan, Items, CloseOpen, Closed;
  }

  // ---------------------------------------------------------------- filtering leaves the disk to the append thread

  lemma {:induction false} WriteDisk(cfg: Config, f: Filter, c: Chunk)
    requires cfg.ratio > 0 && c.Normal() && WriteChunk(cfg, f, c).Done?
    ensures WriteChunk(cfg, f, c).value.0.store.disk == f.store.disk
  {
    hide Overflow, MakeRoom, Add;
    RoomDisk(cfg, f.store, f.kv, |c.item.data|);
  }

  lemma {:induction false} RoomDisk(cfg: Config, s: Store, kv: map<Key, int>, size: int)
    requires cfg.ratio > 0
    ensures MakeRoom(cfg, s, kv, size).0.disk == s.disk
  {
    hide Overflow, Features;
  }

  lemma {:induction false} ChunkDisk(cfg: Config, f: Filter, c: Chunk, m: Mark)
    requires cfg.ratio > 0 && FilterChunk(cfg, f, c, m).Done?
    ensures FilterChunk(cfg, f, c, m).value.0.store.disk == f.store.disk
  {
    hide MustWrite, WriteChunk;
    if c.Normal() {
      var c1 := Resolve(f, c).value;
      if MustWrite(c1, m.(inCache := m.inCache && c.id in f.seen)) {
        WriteDisk(cfg, f, c1);
      }
    }
  }

  lemma {:induction false} PrefixDisk(cfg: Config, f: Filter, cs: seq<Chunk>, marks: seq<Mark>, n: nat)
    requires cfg.ratio > 0 && n <= |cs| == |marks| && FilterPrefix(cfg, f, cs, marks, n).Done?
    ensures FilterPrefix(cfg, f, cs, marks, n).value.0.store.disk == f.store.disk
  {
    hide FilterChunk;
    if n > 0 {
      PrefixDisk(cfg, f, cs, marks, n - 1);
      ChunkDisk(cfg, FilterPrefix(cfg, f, cs, marks, n - 1).value.0, cs[n - 1], marks[n - 1]);
    }
  }

  lemma {:induction false} FilterDisk(cfg: Config, st: State, marks: seq<Mark>)
    requires cfg.ratio > 0 && FilterOldest(cfg, st, marks).Done?
    ensures FilterOldest(cfg, st, marks).value.store.disk == st.store.disk
  {
    hide CheckPrefix, FilterPrefix, UpdatePrefix, R.RecordPrefix;
    if st.running && st.inflight != [] && |marks| == |st.inflight[0]| {
      var cs := CheckPrefix(st.index.buffer, st.inflight[0], marks, |marks|).value;
      PrefixDisk(cfg, StartFilter(st), cs, marks, |cs|);
    }
  }

  // ---------------------------------------------------------------- every run

  /** `files` are the contents of the pool file before and after each step. */
  ghost predicate PoolRun(cfg: Config, little: bool, actions: seq<Action>, files: seq<Bytes>)
    requires cfg.ratio > 0
  {
    |files| == |actions| + 1 &&
    (actions == [] ||
     var n := |actions| - 1;
     && PoolRun(cfg, little, actions[..n], files[..n + 1])
     && (Run(cfg, INITIAL, actions[..n]).Done? ==>
           PoolStep(cfg, little, Run(cfg, INITIAL, actions[..n]).value, actions[n], files[n], files[n + 1])))
  }

  /**
   * Over every legal run, for either byte order and any iteration orders of the hash tables: the pool file holds, for
   * every container on disk, an image that reads back as that container.
   */
  lemma {:induction false} PoolHoldsTheDisk(cfg: Config, content: Content, little: bool, actions: seq<Action>, files: seq<Bytes>)
    requires cfg.ratio > 0 && LegalRun(cfg, content, actions) && PoolRun(cfg, little, actions, files)
    ensures Run(cfg, INITIAL, actions).Done?
    ensures PoolOk(little, files[|actions|], Run(cfg, INITIAL, actions).value.store.disk)
  {
    EveryRunIsSafe(cfg, content, actions);
    hide Inv, Legal, Next, PoolStep, HoldsContainer;
    if actions != [] {
      var n := |actions| - 1;
      EveryRunIsSafe(cfg, content, actions[..n]);
      PoolHoldsTheDisk(cfg, content, little, actions[..n], files[..n + 1]);
      hide PoolOk;
      NextPool(cfg, content, little, Run(cfg, INITIAL, actions[..n]).value, actions[n], files[n], files[n + 1]);
    }
  }

  /** So a chunk read from the file, after any run, is the chunk the container holds. */
  method ReadChunk(file: Bytes, little: bool, ghost disk: map<int, Container>, id: nat, fp: Fp) returns (r: Outcome<Bytes>)
    requires PoolOk(little, file, disk) && id in disk && disk[id].id == id
    ensures r == if fp in disk[id].entries then Done(disk[id].entries[fp]) else Crash
  {
    hide Represents, Stored, ParseMeta, GetChunk;
    assert HoldsContainer(little, file, id, disk[id]);
    ghost var image :| Stored(file, id, image) && Represents(little, image, disk[id]);
    ReadsBack(little, image, disk[id]);
    var m, data := RetrieveContainer(file, little, id);
    r := GetChunk(m.value, data, fp);
  }
}
