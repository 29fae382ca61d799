/** The invariant of the whole node, and what it means for backups, restores and deletions. */
module Safety {
  import opened Common
  import opened Containers
  import opened Machine
  import opened InFlight
  import opened StoreInvariant
  import opened FilterInvariant
  import opened RestoreSpec
  import R = Recipes

  function Used(ptrs: seq<R.Pointer>): set<int> {
    set p | p in ptrs :: p.id
  }

  ghost predicate PtrOk(content: Content, held: Holdings, manifest: map<int, int>, j: int, p: R.Pointer) {
    && Stored(held, p.id, p.fp)
    && p.size == |content(p.fp)|
    && p.id in manifest && manifest[p.id] >= j
  }

  /** A finished backup: its recipe stands for its stream and every pointer is good. */
  ghost predicate JobOk(content: Content, held: Holdings, manifest: map<int, int>, j: int, job: Job) {
    && (forall p | p in job.ptrs :: PtrOk(content, held, manifest, j, p))
    && AllMatch(R.ReadRecipe(job.files, job.ptrs), job.source) && R.FilesSized(job.files, job.ptrs)
    && (forall i | 0 <= i < |job.source| :: Genuine(job.source[i], content))
  }

  /** The manifest time of a container is the last backup that uses it. */
  ghost predicate ArchiveOk(content: Content, held: Holdings, manifest: map<int, int>, jobs: map<int, Job>, nextJob: int) {
    && (forall id | id in manifest ::
          id in held && manifest[id] in jobs && id in Used(jobs[manifest[id]].ptrs))
    && (forall j | j in jobs :: 0 <= j < nextJob && JobOk(content, held, manifest, j, jobs[j]))
  }

  ghost predicate FilteredOk(content: Content, held: Holdings, cs: seq<Chunk>) {
    forall i | 0 <= i < |cs| ::
      && Genuine(cs[i].item, content)
      && (cs[i].Normal() ==> cs[i].id >= 0 && Stored(held, cs[i].id, cs[i].item.fp))
  }

  ghost predicate RunningOk(cfg: Config, content: Content, st: State) {
    && IndexOk(cfg, content, st.store, st.index, Flat(st.inflight))
    && (forall c | c in Flat(st.inflight) :: Genuine(c.item, content))
    && FilteredOk(content, Held(st.store), st.filtered)
    && R.Records(st.recipe, st.filtered)
    && R.Scan(Source(st)) != R.Malformed
    && st.monitor == Ids(st.filtered)
    && Held(st.store).Keys <= st.manifest.Keys + st.monitor
  }

  ghost predicate IdleOk(cfg: Config, content: Content, st: State) {
    && StoreOk(st.store, content) && st.store.open.None? && st.store.pending == []
    && KvOk(cfg, ClosedOf(st.store), st.index.kv)
    && st.inflight == []
    && Held(st.store).Keys <= st.manifest.Keys
  }

  ghost predicate Inv(cfg: Config, content: Content, st: State) {
    && ArchiveOk(content, Held(st.store), st.manifest, st.jobs, st.nextJob)
    && st.nextJob >= 0
    && if st.running then RunningOk(cfg, content, st) else IdleOk(cfg, content, st)
  }

  /** What callers and the environment owe each step. */
  ghost predicate Legal(cfg: Config, content: Content, st: State, a: Action) {
    match a
    case DoLookup(items) =>
      && (forall i | 0 <= i < |items| :: Genuine(items[i], content))
      && R.Scan(Source(st) + items) != R.Malformed
    case DoDelete(jobid) => 0 <= jobid < st.nextJob
    case _ => true
  }

  // ---------------------------------------------------------------- growth

  lemma {:induction false} ArchiveGrows(content: Content, held: Holdings, held': Holdings, manifest: map<int, int>,
                                        jobs: map<int, Job>, nextJob: int)
    requires ArchiveOk(content, held, manifest, jobs, nextJob)
    requires forall id, fp | Stored(held, id, fp) :: Stored(held', id, fp)
    ensures ArchiveOk(content, held', manifest, jobs, nextJob)
  {
    forall id | id in manifest
      ensures id in held'
    {
      var job := jobs[manifest[id]];
      var p :| p in job.ptrs && p.id == id;
      assert PtrOk(content, held, manifest, manifest[id], p);
    }
    forall j | j in jobs
      ensures JobOk(content, held', manifest, j, jobs[j])
    {
      assert JobOk(content, held, manifest, j, jobs[j]);
      forall p | p in jobs[j].ptrs
        ensures PtrOk(content, held', manifest, j, p)
      {
        assert PtrOk(content, held, manifest, j, p);
      }
    }
  }

  // ---------------------------------------------------------------- begin and lookup

  lemma {:induction false} BeginOk(cfg: Config, content: Content, st: State)
    requires Inv(cfg, content, st)
    ensures Inv(cfg, content, Begin(st))
  {
    if !st.running {
      R.EmptyRecords();
      var t := Begin(st);
      assert Flat(t.inflight) == [] && t.filtered + [] == [];
      assert FlightOk(Held(t.store), map[], []);
    }
  }

  lemma {:induction false} LookupOk(cfg: Config, content: Content, st: State, items: seq<Item>)
    requires Inv(cfg, content, st) && Legal(cfg, content, st, DoLookup(items))
    ensures Lookup(cfg, st, items).Done?
    ensures Inv(cfg, content, Lookup(cfg, st, items).value)
  {
    hide IndexOk, ArchiveOk, FilteredOk, R.Records, LookupPrefix, HasPiece, Flat, Items, Held, R.Scan, Genuine, Ids;
    if st.running {
      var flat := Flat(st.inflight);
      LookupPrefixOk(cfg, content, st.store, st.index, flat, items, |items|);
      assert items[..|items|] == items;
      var (ix, cs) := LookupPrefix(cfg, st.store, st.index, items, |items|).value;
      FlatSnoc(st.inflight, cs);
      assert st.filtered + (flat + cs) == (st.filtered + flat) + cs;
      ItemsConcat(st.filtered + flat, cs);
      ItemsGenuine(content, cs, items);
    }
  }

  lemma {:induction false} ItemsAt(cs: seq<Chunk>)
    ensures |Items(cs)| == |cs| && forall i | 0 <= i < |cs| :: Items(cs)[i] == cs[i].item
  {
    if cs != [] {
      ItemsAt(cs[..|cs| - 1]);
    }
  }

  lemma {:induction false} ItemsGenuine(content: Content, cs: seq<Chunk>, items: seq<Item>)
    requires Items(cs) == items && forall i | 0 <= i < |items| :: Genuine(items[i], content)
    ensures forall c | c in cs :: Genuine(c.item, content)
  {
    ItemsAt(cs);
  }

  // ---------------------------------------------------------------- filter

  lemma {:induction false} HeldIds(s: Store, content: Content)
    requires StoreOk(s, content)
    ensures forall id | id in Held(s) :: id >= 0
  {
    forall id | id in Held(s)
      ensures id >= 0
    {
      assert id in ClosedOf(s) || id == s.open.value.id;
    }
  }

  lemma {:induction false} NormalConcat(a: seq<Chunk>, b: seq<Chunk>)
    ensures NormalCount(a + b) == NormalCount(a) + NormalCount(b)
  {
    if b == [] {
      assert a + b == a;
    } else {
      NormalConcat(a, b[..|b| - 1]);
      assert (a + b)[..|a + b| - 1] == a + b[..|b| - 1];
    }
  }

  lemma {:induction false} SameItems(a: seq<Chunk>, b: seq<Chunk>)
    requires |a| == |b| && forall i | 0 <= i < |a| :: a[i].item == b[i].item
    ensures Items(a) == Items(b) && NormalCount(a) == NormalCount(b)
  {
    if a != [] {
      SameItems(a[..|a| - 1], b[..|b| - 1]);
    }
  }

  lemma {:induction false} RestUnwritten(held: Holdings, buffer: map<Fp, seq<int>>, open: set<Fp>, open': set<Fp>,
                                         seg: seq<Chunk>, rest: seq<Chunk>)
    requires FlightOk(held, buffer, seg + rest) && Unwritten(open, seg + rest) && open' <= open + FpSet(seg)
    ensures Unwritten(open', rest)
  {
    FpSetConcat(seg, rest);
    forall fp | fp in UniqueFps(rest)
      ensures fp !in FpSet(seg)
    {
      var u :| u in rest && u.Normal() && !u.dup && u.item.fp == fp;
      var k :| 0 <= k < |rest| && rest[k] == u;
      var flat := seg + rest;
      var i := |seg| + k;
      assert ChunkOk(held, flat, i);
      assert flat[i] == rest[k];
      assert flat[..i] == seg + rest[..k];
      assert fp !in FpSet(flat[..i]);
      FpSetConcat(seg, rest[..k]);
    }
  }

  lemma {:induction false} CacheGrows(s: Store, t: Store, cache: seq<Meta>)
    requires CacheOk(ClosedOf(s), cache) && Extends(s, t)
    ensures CacheOk(ClosedOf(t), cache)
  {
  }

  lemma {:induction false} SettledSame(held: Holdings, seg: seq<Chunk>, cs: seq<Chunk>, out: seq<Chunk>)
    requires SameChunks(seg, cs) && Settled(held, cs, out)
    ensures Settled(held, seg, out)
    ensures FpSet(seg) == FpSet(cs)
  {
    SameFps(seg, cs);
  }

  /** After a segment is filtered, the index buffer fits the segments that remain. */
  lemma {:induction false} FilterIndexOk(cfg: Config, content: Content, s: Store, ix: Index, seg: seq<Chunk>, rest: seq<Chunk>,
                                         cs: seq<Chunk>, f: Filter, g: Filter, out: seq<Chunk>)
    requires cfg.ratio > 0 && IndexOk(cfg, content, s, ix, seg + rest) && SameChunks(seg, cs)
    requires FilterOk(cfg, content, g) && f.store == s && Progress(f, g, cs, out)
    ensures UpdatePrefix(ix.buffer, out, |out|).Done?
    ensures IndexOk(cfg, content, g.store,
                    Index(UpdatePrefix(ix.buffer, out, |out|).value, ix.chunkNum - NormalCount(out), ix.cache, g.kv), rest)
  {
    hide FlightOk, StoreOk, KvOk, CacheOk, Held, Closed, Settled, TableOk, Unwritten, UpdatePrefix, FpSet, UniqueFps, NormalCount, Ids;
    SettledSame(Held(g.store), seg, cs, out);
    ExtendsStored(s, g.store);
    RestUnwritten(Held(s), ix.buffer, OpenFps(s), OpenFps(g.store), seg, rest);
    FlightGrows(Held(s), Held(g.store), ix.buffer, seg + rest);
    SettledShape(Held(g.store), seg, out);
    PopSegment(Held(g.store), ix.buffer, seg, out, rest, |seg|);
    assert seg[|seg|..] + rest == rest;
    NormalConcat(seg, rest);
    SameItems(seg, out);
    CacheGrows(s, g.store, ix.cache);
  }

  lemma {:induction false} ExtendsStored(s: Store, t: Store)
    requires Extends(s, t)
    ensures forall id, fp | Stored(Held(s), id, fp) :: Stored(Held(t), id, fp)
  {
  }

  lemma {:induction false} SettledShape(held: Holdings, seg: seq<Chunk>, out: seq<Chunk>)
    requires Settled(held, seg, out)
    ensures |out| == |seg| && forall i | 0 <= i < |seg| :: out[i].item == seg[i].item
  {
  }

  lemma {:induction false} ItemsSwap(filtered: seq<Chunk>, seg: seq<Chunk>, out: seq<Chunk>, rest: seq<Chunk>)
    requires |out| == |seg| && forall i | 0 <= i < |seg| :: out[i].item == seg[i].item
    ensures Items((filtered + out) + rest) == Items(filtered + (seg + rest))
  {
    SameItems(seg, out);
    ItemsConcat(filtered + out, rest);
    ItemsConcat(filtered, out);
    ItemsConcat(filtered + seg, rest);
    ItemsConcat(filtered, seg);
    assert filtered + (seg + rest) == (filtered + seg) + rest;
  }

  /** The recipe part of the filter step. */
  lemma {:induction false} FilterRecipeOk(r: R.Recipe, filtered: seq<Chunk>, seg: seq<Chunk>, out: seq<Chunk>, rest: seq<Chunk>)
    requires R.Records(r, filtered) && R.Scan(Items(filtered + (seg + rest))) != R.Malformed
    requires |out| == |seg| && forall i | 0 <= i < |seg| :: out[i].item == seg[i].item
    requires forall i | 0 <= i < |out| && out[i].Normal() :: out[i].id >= 0
    ensures R.RecordPrefix(r, out, |out|).Done?
    ensures R.Records(R.RecordPrefix(r, out, |out|).value, filtered + out)
    ensures Items((filtered + out) + rest) == Items(filtered + (seg + rest))
  {
    hide R.Records, R.RecordPrefix, R.Scan, Items;
    ItemsSwap(filtered, seg, out, rest);
    assert filtered + (out + rest) == (filtered + out) + rest;
    R.StreamPrefix(filtered, out + rest, |out|);
    assert (out + rest)[..|out|] == out && out[..|out|] == out;
    R.RecordPrefixOk(r, filtered, out, |out|);
  }

  lemma {:induction false} FilteredGrows(content: Content, held: Holdings, held': Holdings, filtered: seq<Chunk>,
                                         seg: seq<Chunk>, out: seq<Chunk>)
    requires FilteredOk(content, held, filtered) && Settled(held', seg, out)
    requires forall id, fp | Stored(held, id, fp) :: Stored(held', id, fp)
    requires forall id | id in held' :: id >= 0
    requires forall c | c in seg :: Genuine(c.item, content)
    ensures FilteredOk(content, held', filtered + out)
    ensures forall i | 0 <= i < |out| && out[i].Normal() :: out[i].id >= 0
    ensures Ids(filtered + out) == Ids(filtered) + Ids(out)
  {
  }

  /** The filter thread's critical section on the segment `seg`, whatever the marks. */
  lemma {:induction false} FilterSegmentOk(cfg: Config, content: Content, st: State, seg: seq<Chunk>, rest: seq<Chunk>,
                                           marks: seq<Mark>) returns (cs: seq<Chunk>, g: Filter, out: seq<Chunk>)
    requires cfg.ratio > 0 && |marks| == |seg| && IndexOk(cfg, content, st.store, st.index, seg + rest)
    requires forall c | c in seg + rest :: Genuine(c.item, content)
    requires TEMPORARY_ID !in st.monitor
    ensures CheckPrefix(st.index.buffer, seg, marks, |seg|) == Done(cs) && |cs| == |seg|
    ensures FilterPrefix(cfg, StartFilter(st), cs, marks, |cs|) == Done((g, out)) && g.seen == st.monitor + Ids(out)
    ensures UpdatePrefix(st.index.buffer, out, |out|).Done? && |out| == |seg|
    ensures IndexOk(cfg, content, g.store,
                    Index(UpdatePrefix(st.index.buffer, out, |out|).value, st.index.chunkNum - NormalCount(out),
                          st.index.cache, g.kv), rest)
    ensures Settled(Held(g.store), seg, out) && Extends(st.store, g.store)
    ensures forall id | id in Held(g.store) :: id >= 0
    ensures Held(g.store).Keys <= Held(st.store).Keys + Ids(out)
  {
    hide IndexOk, FilterOk, Checked, CheckPrefix, FilterPrefix, UpdatePrefix, Held, Closed, Settled, Extends, Stored,
      FpSet, UniqueFps, Ids, NormalCount, Genuine, Progress;
    cs := FilterChecked(cfg, content, st, seg, rest, marks);
    var f := StartFilter(st);
    SameLength(seg, cs);
    FilterPrefixOk(cfg, content, f, cs, marks, |cs|);
    assert cs[..|cs|] == cs;
    g, out := FilterPrefix(cfg, f, cs, marks, |cs|).value.0, FilterPrefix(cfg, f, cs, marks, |cs|).value.1;
    ProgressParts(f, g, cs, out);
    SettledSame(Held(g.store), seg, cs, out);
    SettledShape(Held(g.store), seg, out);
    HeldIdsFilter(cfg, content, g);
    FilterIndexOk(cfg, content, st.store, st.index, seg, rest, cs, f, g, out);
  }

  lemma {:induction false} SameLength(seg: seq<Chunk>, cs: seq<Chunk>)
    requires SameChunks(seg, cs)
    ensures |seg| == |cs|
  {
  }

  /** FilterOldest unfolded, for callers that know what its parts return. */
  lemma {:induction false} FilterUnfold(cfg: Config, st: State, marks: seq<Mark>, cs: seq<Chunk>, g: Filter, out: seq<Chunk>)
    requires cfg.ratio > 0 && st.running && st.inflight != [] && |marks| == |st.inflight[0]|
    requires CheckPrefix(st.index.buffer, st.inflight[0], marks, |marks|) == Done(cs) && |cs| == |marks| == |out|
    requires FilterPrefix(cfg, StartFilter(st), cs, marks, |cs|) == Done((g, out))
    requires UpdatePrefix(st.index.buffer, out, |out|).Done? && R.RecordPrefix(st.recipe, out, |out|).Done?
    ensures FilterOldest(cfg, st, marks)
         == Done(AfterFilter(st, g, out, UpdatePrefix(st.index.buffer, out, |out|).value,
                             R.RecordPrefix(st.recipe, out, |out|).value))
  {
    hide CheckPrefix, FilterPrefix, UpdatePrefix, R.RecordPrefix, AfterFilter;
  }

  lemma {:induction false} RunningParts(cfg: Config, content: Content, st: State)
    requires Inv(cfg, content, st) && st.running
    ensures IndexOk(cfg, content, st.store, st.index, Flat(st.inflight)) && TEMPORARY_ID !in st.monitor
    ensures forall c | c in Flat(st.inflight) :: Genuine(c.item, content)
    ensures R.Records(st.recipe, st.filtered) && R.Scan(Source(st)) != R.Malformed
  {
  }

  /** The critical section on the oldest segment: what its parts return, and the state it leaves. */
  lemma {:induction false} FilterParts(cfg: Config, content: Content, st: State, marks: seq<Mark>)
    returns (cs: seq<Chunk>, g: Filter, out: seq<Chunk>)
    requires cfg.ratio > 0 && Inv(cfg, content, st)
    requires st.running && st.inflight != [] && |marks| == |st.inflight[0]|
    ensures CheckPrefix(st.index.buffer, st.inflight[0], marks, |marks|) == Done(cs) && |cs| == |marks| == |out|
    ensures FilterPrefix(cfg, StartFilter(st), cs, marks, |cs|) == Done((g, out))
    ensures UpdatePrefix(st.index.buffer, out, |out|).Done? && R.RecordPrefix(st.recipe, out, |out|).Done?
    ensures FilterOldest(cfg, st, marks)
         == Done(AfterFilter(st, g, out, UpdatePrefix(st.index.buffer, out, |out|).value,
                             R.RecordPrefix(st.recipe, out, |out|).value))
    ensures Settled(Held(g.store), st.inflight[0], out)
    ensures Inv(cfg, content, FilterOldest(cfg, st, marks).value)
  {
    hide Inv, IndexOk, CheckPrefix, FilterPrefix, UpdatePrefix, R.RecordPrefix, Held, Closed, Settled, Extends, Ids,
      NormalCount, Items, R.Scan, Genuine, Flat, Stored, AfterFilter, R.Records, FilterOldest;
    var seg, rest := st.inflight[0], Flat(st.inflight[1..]);
    FlatHead(st.inflight);
    RunningParts(cfg, content, st);
    cs, g, out := FilterSegmentOk(cfg, content, st, seg, rest, marks);
    SettledShape(Held(g.store), seg, out);
    SettledReal(Held(g.store), seg, out);
    FilterRecipeOk(st.recipe, st.filtered, seg, out, rest);
    FilterUnfold(cfg, st, marks, cs, g, out);
    AfterFilterOk(cfg, content, st, seg, rest, g, out);
  }

  lemma {:induction false} SettledReal(held: Holdings, seg: seq<Chunk>, out: seq<Chunk>)
    requires Settled(held, seg, out) && forall id | id in held :: id >= 0
    ensures forall i | 0 <= i < |out| && out[i].Normal() :: out[i].id >= 0
  {
  }

  lemma {:induction false} AfterFilterOk(cfg: Config, content: Content, st: State, seg: seq<Chunk>, rest: seq<Chunk>,
                                         g: Filter, out: seq<Chunk>)
    requires Inv(cfg, content, st) && st.running && st.inflight != [] && seg == st.inflight[0]
    requires rest == Flat(st.inflight[1..]) && Flat(st.inflight) == seg + rest
    requires UpdatePrefix(st.index.buffer, out, |out|).Done? && R.RecordPrefix(st.recipe, out, |out|).Done?
    requires IndexOk(cfg, content, g.store,
                     Index(UpdatePrefix(st.index.buffer, out, |out|).value, st.index.chunkNum - NormalCount(out),
                           st.index.cache, g.kv), rest)
    requires R.Records(R.RecordPrefix(st.recipe, out, |out|).value, st.filtered + out)
    requires Items((st.filtered + out) + rest) == Items(st.filtered + (seg + rest))
    requires Settled(Held(g.store), seg, out) && Extends(st.store, g.store) && g.seen == st.monitor + Ids(out)
    requires (forall id | id in Held(g.store) :: id >= 0) && Held(g.store).Keys <= Held(st.store).Keys + Ids(out)
    ensures Inv(cfg, content, AfterFilter(st, g, out, UpdatePrefix(st.index.buffer, out, |out|).value,
                                          R.RecordPrefix(st.recipe, out, |out|).value))
  {
    hide IndexOk, ArchiveOk, FilteredOk, R.Records, UpdatePrefix, R.RecordPrefix, Held, Closed, Settled, Extends, Ids,
      NormalCount, Items, R.Scan, Genuine, Flat, Stored;
    ExtendsStored(st.store, g.store);
    GenuineSplit(content, seg, rest);
    FilteredGrows(content, Held(st.store), Held(g.store), st.filtered, seg, out);
    ArchiveGrows(content, Held(st.store), Held(g.store), st.manifest, st.jobs, st.nextJob);
  }

  lemma {:induction false} GenuineSplit(content: Content, seg: seq<Chunk>, rest: seq<Chunk>)
    ensures (forall c | c in seg + rest :: Genuine(c.item, content)) ==>
              (forall c | c in seg :: Genuine(c.item, content)) && (forall c | c in rest :: Genuine(c.item, content))
  {
    assert forall c | c in seg :: c in seg + rest;
    assert forall c | c in rest :: c in seg + rest;
  }

  /** One round of the filter thread: every assert holds and the invariant is kept. */
  lemma {:induction false} FilterStepOk(cfg: Config, content: Content, st: State, marks: seq<Mark>)
    requires cfg.ratio > 0 && Inv(cfg, content, st)
    ensures FilterOldest(cfg, st, marks).Done?
    ensures Inv(cfg, content, FilterOldest(cfg, st, marks).value)
  {
    hide Inv;
    if st.running && st.inflight != [] && |marks| == |st.inflight[0]| {
      hide FilterOldest;
      var cs, g, out := FilterParts(cfg, content, st, marks);
    }
  }

  lemma {:induction false} HeldIdsFilter(cfg: Config, content: Content, g: Filter)
    requires FilterOk(cfg, content, g)
    ensures forall id | id in Held(g.store) :: id >= 0
  {
    HeldIds(g.store, content);
  }

  lemma {:induction false} ProgressParts(f: Filter, g: Filter, cs: seq<Chunk>, out: seq<Chunk>)
    requires Progress(f, g, cs, out)
    ensures Settled(Held(g.store), cs, out) && Extends(f.store, g.store)
    ensures Held(g.store).Keys <= Held(f.store).Keys + Ids(out) && g.seen == f.seen + Ids(out)
  {
  }

  lemma {:induction false} FilterChecked(cfg: Config, content: Content, st: State, seg: seq<Chunk>, rest: seq<Chunk>,
                                         marks: seq<Mark>) returns (cs: seq<Chunk>)
    requires |marks| == |seg| && IndexOk(cfg, content, st.store, st.index, seg + rest) && TEMPORARY_ID !in st.monitor
    requires forall c | c in seg + rest :: Genuine(c.item, content)
    ensures CheckPrefix(st.index.buffer, seg, marks, |seg|) == Done(cs)
    ensures SameChunks(seg, cs) && Checked(Held(st.store), OpenFps(st.store), cs)
    ensures FilterOk(cfg, content, StartFilter(st))
    ensures forall i | 0 <= i < |cs| :: Genuine(cs[i].item, content)
    ensures forall c | c in seg :: Genuine(c.item, content)
  {
    hide FlightOk, StoreOk, KvOk, CacheOk, Held, Closed, Checked, CheckPrefix, Genuine, Unwritten;
    HeldIds(st.store, content);
    CheckedSegment(Held(st.store), OpenFps(st.store), st.index.buffer, seg, rest, marks);
    cs := CheckPrefix(st.index.buffer, seg, marks, |seg|).value;
    forall c | c in seg
      ensures Genuine(c.item, content)
    {
      assert c in seg + rest;
    }
  }

  // ---------------------------------------------------------------- append thread

  lemma {:induction false} SameClosed(cfg: Config, content: Content, s: Store, t: Store, ix: Index, flat: seq<Chunk>)
    requires ClosedOf(t) == ClosedOf(s) && t.open == s.open && t.nextId == s.nextId && QueueOk(t)
    ensures Held(t) == Held(s)
    ensures StoreOk(s, content) ==> StoreOk(t, content)
    ensures IndexOk(cfg, content, s, ix, flat) ==> IndexOk(cfg, content, t, ix, flat)
  {
    hide FlightOk, KvOk, CacheOk, Closed, Unwritten, ContainerOk, QueueOk, NormalCount;
  }

  /** The append thread may run at any moment. */
  lemma {:induction false} AppendOk(cfg: Config, content: Content, st: State, t: Store)
    requires Inv(cfg, content, st) && (t == AppendWrite(st.store) || t == AppendPop(st.store))
    ensures Inv(cfg, content, st.(store := t))
  {
    hide IndexOk, ArchiveOk, FilteredOk, R.Records, Held, Closed, KvOk, Ids, R.Scan;
    assert StoreOk(st.store, content) by { InvStore(cfg, content, st); }
    AppendKeepsClosed(st.store);
    SameClosed(cfg, content, st.store, t, st.index, Flat(st.inflight));
  }

  lemma {:induction false} InvStore(cfg: Config, content: Content, st: State)
    requires Inv(cfg, content, st)
    ensures StoreOk(st.store, content) && KvOk(cfg, ClosedOf(st.store), st.index.kv)
  {
  }

  // ---------------------------------------------------------------- finishing a backup

  lemma {:induction false} RefsAt(cs: seq<Chunk>)
    ensures |R.Refs(cs)| == |cs| && forall i | 0 <= i < |cs| :: R.Refs(cs)[i] == R.RefOf(cs[i])
  {
    if cs != [] {
      RefsAt(cs[..|cs| - 1]);
    }
  }

  lemma {:induction false} PointersOf(cs: seq<Chunk>)
    ensures Used(R.Pointers(cs)) == Ids(cs)
    ensures forall p | p in R.Pointers(cs) ::
              exists i :: 0 <= i < |cs| && cs[i].Normal() && p == R.Pointer(cs[i].item.fp, cs[i].id, |cs[i].item.data|)
  {
    if cs != [] {
      var m := |cs| - 1;
      PointersOf(cs[..m]);
      assert cs == cs[..m] + [cs[m]];
      IdsSnoc(cs[..m], cs[m]);
      forall p | p in R.Pointers(cs)
        ensures exists i :: 0 <= i < |cs| && cs[i].Normal() && p == R.Pointer(cs[i].item.fp, cs[i].id, |cs[i].item.data|)
      {
        if p in R.Pointers(cs[..m]) {
          var i :| 0 <= i < m && cs[..m][i].Normal()
                   && p == R.Pointer(cs[..m][i].item.fp, cs[..m][i].id, |cs[..m][i].item.data|);
          assert cs[i] == cs[..m][i];
        } else {
          assert p == R.Pointer(cs[m].item.fp, cs[m].id, |cs[m].item.data|);
        }
      }
    }
  }

  /** The new backup's recipe stands for its stream, and its manifest entries are fresh. */
  lemma {:induction false} NewSourceOk(content: Content, held: Holdings, filtered: seq<Chunk>)
    requires FilteredOk(content, held, filtered)
    ensures AllMatch(R.Refs(filtered), Items(filtered))
    ensures forall i | 0 <= i < |Items(filtered)| :: Genuine(Items(filtered)[i], content)
  {
    hide R.Refs, Items;
    RefsAt(filtered);
    ItemsAt(filtered);
  }

  lemma {:induction false} NewPtrOk(content: Content, held: Holdings, filtered: seq<Chunk>, manifest: map<int, int>,
                                    j: int, i: nat)
    requires FilteredOk(content, held, filtered) && i < |filtered| && filtered[i].Normal()
    requires forall id | id in Ids(filtered) :: id in manifest && manifest[id] == j
    ensures var c := filtered[i];
            PtrOk(content, held, manifest, j, R.Pointer(c.item.fp, c.id, |c.item.data|))
  {
    assert filtered[i].id in Ids(filtered);
  }

  lemma {:induction false} NewJobOk(content: Content, held: Holdings, filtered: seq<Chunk>, r: R.Recipe,
                                    manifest: map<int, int>, j: int)
    requires FilteredOk(content, held, filtered) && R.Records(r, filtered) && R.Scan(Items(filtered)) == R.Outside
    requires forall id | id in Ids(filtered) :: id in manifest && manifest[id] == j
    ensures JobOk(content, held, manifest, j, Job(r.files, r.ptrs, Items(filtered)))
    ensures Used(r.ptrs) == Ids(filtered)
  {
    R.Finished(r, filtered);
    assert r.ptrs == R.Pointers(filtered);
    hide R.Records, R.Pointers, R.ReadRecipe, R.Scan, Used, Items, PtrOk, Ids, FilteredOk, AllMatch, Genuine;
    PointersOf(filtered);
    NewSourceOk(content, held, filtered);
    forall p | p in r.ptrs
      ensures PtrOk(content, held, manifest, j, p)
    {
      var i :| 0 <= i < |filtered| && filtered[i].Normal()
               && p == R.Pointer(filtered[i].item.fp, filtered[i].id, |filtered[i].item.data|);
      NewPtrOk(content, held, filtered, manifest, j, i);
    }
  }

  lemma {:induction false} ArchiveFinish(content: Content, held: Holdings, manifest: map<int, int>, jobs: map<int, Job>,
                                         nextJob: int, monitor: set<int>, job: Job)
    requires ArchiveOk(content, held, manifest, jobs, nextJob) && nextJob >= 0
    requires Used(job.ptrs) == monitor
    requires var m := manifest + map id | id in monitor :: nextJob; JobOk(content, held, m, nextJob, job)
    ensures var m := manifest + map id | id in monitor :: nextJob;
            ArchiveOk(content, held, m, jobs[nextJob := job], nextJob + 1)
  {
    hide AllMatch, Genuine, R.ReadRecipe;
    var m := manifest + map id | id in monitor :: nextJob;
    var jobs' := jobs[nextJob := job];
    forall id | id in m
      ensures id in held && m[id] in jobs' && id in Used(jobs'[m[id]].ptrs)
    {
      if id in monitor {
        var p :| p in job.ptrs && p.id == id;
        assert PtrOk(content, held, m, nextJob, p);
      } else {
        assert m[id] == manifest[id] && manifest[id] in jobs;
        assert manifest[id] < nextJob;
      }
    }
    forall j | j in jobs'
      ensures 0 <= j < nextJob + 1 && JobOk(content, held, m, j, jobs'[j])
    {
      if j != nextJob {
        assert JobOk(content, held, manifest, j, jobs[j]);
        forall p | p in jobs[j].ptrs
          ensures PtrOk(content, held, m, j, p)
        {
          assert PtrOk(content, held, manifest, j, p);
        }
      }
    }
  }

  /** Draining the append queue and dropping an unused open container loses nothing. */
  lemma {:induction false} DrainOk(cfg: Config, content: Content, s: Store, kv: map<Key, int>)
    requires StoreOk(s, content) && KvOk(cfg, ClosedOf(s), kv)
    requires s.open.Some? ==> s.open.value.entries == map[]
    ensures var t := Store(None, s.nextId, [], false, ClosedOf(s));
            && StoreOk(t, content) && KvOk(cfg, ClosedOf(t), kv)
            && Held(t).Keys <= Held(s).Keys
            && (forall id, fp | Stored(Held(s), id, fp) :: Stored(Held(t), id, fp))
  {
    var t := Store(None, s.nextId, [], false, ClosedOf(s));
    assert ClosedOf(t) == ClosedOf(s);
  }

  lemma {:induction false} FinishStore(cfg: Config, content: Content, s: Store, kv: map<Key, int>)
    requires cfg.ratio > 0 && StoreOk(s, content) && KvOk(cfg, ClosedOf(s), kv)
    ensures var (u, kv') := if s.open.None? || s.open.value.entries == map[] then (s, kv) else CloseOpen(cfg, s, kv);
            var t := Store(None, u.nextId, [], false, Closed(u.disk, u.pending));
            && StoreOk(t, content) && KvOk(cfg, ClosedOf(t), kv')
            && Held(t).Keys <= Held(s).Keys
            && (forall id, fp | Stored(Held(s), id, fp) :: Stored(Held(t), id, fp))
  {
    hide StoreOk, KvOk, Held, Closed, CloseOpen, Stored;
    if s.open.None? || s.open.value.entries == map[] {
      DrainOk(cfg, content, s, kv);
    } else {
      CloseOk(cfg, s, kv, content);
      CloseKv(cfg, s, kv, content);
      CloseShape(cfg, s, kv);
      DrainOk(cfg, content, CloseOpen(cfg, s, kv).0, CloseOpen(cfg, s, kv).1);
    }
  }

  lemma {:induction false} FinishOk(cfg: Config, content: Content, st: State)
    requires cfg.ratio > 0 && Inv(cfg, content, st)
    ensures Inv(cfg, content, Finish(cfg, st))
  {
    hide IndexOk, ArchiveOk, FilteredOk, R.Records, Held, Closed, KvOk, StoreOk, Ids, R.Scan, Items, CloseOpen, JobOk, Stored;
    if st.running && st.inflight == [] && R.Scan(Items(st.filtered)) == R.Outside {
      var t := Finish(cfg, st);
      InvStore(cfg, content, st);
      FinishStore(cfg, content, st.store, st.index.kv);
      ArchiveGrows(content, Held(st.store), Held(t.store), st.manifest, st.jobs, st.nextJob);
      FilteredHeld(content, Held(st.store), Held(t.store), st.filtered);
      NewJobOk(content, Held(t.store), st.filtered, st.recipe, t.manifest, st.nextJob);
      ArchiveFinish(content, Held(t.store), st.manifest, st.jobs, st.nextJob, st.monitor, t.jobs[st.nextJob]);
    }
  }

  lemma {:induction false} FilteredHeld(content: Content, held: Holdings, held': Holdings, cs: seq<Chunk>)
    requires FilteredOk(content, held, cs) && forall id, fp | Stored(held, id, fp) :: Stored(held', id, fp)
    ensures FilteredOk(content, held', cs)
  {
  }

  // ---------------------------------------------------------------- deletion

  lemma {:induction false} DeleteArchive(content: Content, held: Holdings, held': Holdings, manifest: map<int, int>,
                                         jobs: map<int, Job>, nextJob: int, jobid: int)
    requires ArchiveOk(content, held, manifest, jobs, nextJob)
    requires forall id | id in held && !(id in manifest && manifest[id] <= jobid) :: id in held' && held'[id] == held[id]
    ensures ArchiveOk(content, held', manifest - (set id | id in manifest && manifest[id] <= jobid),
                      map j | j in jobs && j > jobid :: jobs[j], nextJob)
  {
    hide AllMatch, Genuine, R.ReadRecipe;
    var dead := set id | id in manifest && manifest[id] <= jobid;
    var m := manifest - dead;
    var live := map j | j in jobs && j > jobid :: jobs[j];
    forall j | j in live
      ensures 0 <= j < nextJob && JobOk(content, held', m, j, live[j])
    {
      assert JobOk(content, held, manifest, j, jobs[j]);
      forall p | p in jobs[j].ptrs
        ensures PtrOk(content, held', m, j, p)
      {
        assert PtrOk(content, held, manifest, j, p);
      }
    }
  }

  lemma {:induction false} DeleteStore(cfg: Config, content: Content, s: Store, kv: map<Key, int>, dead: set<int>)
    requires StoreOk(s, content) && s.open.None? && s.pending == [] && KvOk(cfg, ClosedOf(s), kv)
    ensures var t := s.(disk := s.disk - dead);
            && StoreOk(t, content) && ClosedOf(t) == s.disk - dead
            && KvOk(cfg, ClosedOf(t), map k | k in kv && kv[k] !in dead :: kv[k])
            && Held(t).Keys == Held(s).Keys - dead
            && (forall id | id in Held(s) && id !in dead :: Held(t)[id] == Held(s)[id])
  {
    var t := s.(disk := s.disk - dead);
    assert ClosedOf(t) == t.disk && ClosedOf(s) == s.disk;
    var kv' := map k | k in kv && kv[k] !in dead :: kv[k];
    forall k | k in kv'
      ensures kv'[k] in t.disk && exists fp :: fp in t.disk[kv'[k]].entries && KeyOf(fp, cfg.keySize) == k
    {
      var fp :| fp in s.disk[kv[k]].entries && KeyOf(fp, cfg.keySize) == k;
      assert fp in t.disk[kv'[k]].entries;
    }
  }

  lemma {:induction false} DeleteOk(cfg: Config, content: Content, st: State, jobid: int)
    requires Inv(cfg, content, st) && Legal(cfg, content, st, DoDelete(jobid))
    ensures Delete(st, jobid).Done?
    ensures Inv(cfg, content, Delete(st, jobid).value)
  {
    hide IndexOk, ArchiveOk, FilteredOk, R.Records, Held, Closed, KvOk, StoreOk, Ids, R.Scan, Items;
    if !st.running {
      var dead := set id | id in st.manifest && st.manifest[id] <= jobid;
      var t := Delete(st, jobid).value;
      DeleteStore(cfg, content, st.store, st.index.kv, dead);
      DeleteArchive(content, Held(st.store), Held(t.store), st.manifest, st.jobs, st.nextJob, jobid);
    }
  }

  // ---------------------------------------------------------------- every run

  /** Every step the program may take keeps the invariant, and no assert of the program fails. */
  lemma {:induction false} NextOk(cfg: Config, content: Content, st: State, a: Action)
    requires cfg.ratio > 0 && Inv(cfg, content, st) && Legal(cfg, content, st, a)
    ensures Next(cfg, st, a).Done?
    ensures Inv(cfg, content, Next(cfg, st, a).value)
  {
    hide Inv, Legal, Begin, Lookup, FilterOldest, Finish, Delete, AppendWrite, AppendPop;
    match a
    case DoBegin => BeginOk(cfg, content, st);
    case DoLookup(items) => LookupOk(cfg, content, st, items);
    case DoFilter(marks) => FilterStepOk(cfg, content, st, marks);
    case DoAppendWrite => AppendOk(cfg, content, st, AppendWrite(st.store));
    case DoAppendPop => AppendOk(cfg, content, st, AppendPop(st.store));
    case DoFinish => FinishOk(cfg, content, st);
    case DoDelete(jobid) => DeleteOk(cfg, content, st, jobid);
  }

  /** Each step of a run from `st` is legal in the state it is taken in. */
  ghost predicate LegalFrom(cfg: Config, content: Content, st: State, actions: seq<Action>)
    requires cfg.ratio > 0
  {
    actions == [] ||
    var n := |actions| - 1;
    && LegalFrom(cfg, content, st, actions[..n])
    && (Run(cfg, st, actions[..n]).Done? ==> Legal(cfg, content, Run(cfg, st, actions[..n]).value, actions[n]))
  }

  ghost predicate LegalRun(cfg: Config, content: Content, actions: seq<Action>)
    requires cfg.ratio > 0
  {
    LegalFrom(cfg, content, INITIAL, actions)
  }

  lemma {:induction false} InitialOk(cfg: Config, content: Content)
    ensures Inv(cfg, content, INITIAL)
  {
  }

  lemma {:induction false} RunFromIsSafe(cfg: Config, content: Content, st: State, actions: seq<Action>)
    requires cfg.ratio > 0 && Inv(cfg, content, st) && LegalFrom(cfg, content, st, actions)
    ensures Run(cfg, st, actions).Done?
    ensures Inv(cfg, content, Run(cfg, st, actions).value)
  {
    hide Inv, Legal, Next;
    if actions != [] {
      var n := |actions| - 1;
      RunFromIsSafe(cfg, content, st, actions[..n]);
      NextOk(cfg, content, Run(cfg, st, actions[..n]).value, actions[n]);
    }
  }

  /**
   * Main theorem. Over every interleaving of lookups, filters, append steps, backups and deletions, with any rewrite
   * marks and in every configuration: no assert of the program fails, but for the one at filter_phase.c:186 that
   * `tripped` records, and the invariant holds.
   */
  lemma {:induction false} EveryRunIsSafe(cfg: Config, content: Content, actions: seq<Action>)
    requires cfg.ratio > 0 && LegalRun(cfg, content, actions)
    ensures Run(cfg, INITIAL, actions).Done?
    ensures Inv(cfg, content, Run(cfg, INITIAL, actions).value)
  {
    InitialOk(cfg, content);
    RunFromIsSafe(cfg, content, INITIAL, actions);
  }

  lemma {:induction false} FetchedPointers(files: seq<R.FileMeta>, ptrs: seq<R.Pointer>, i: nat)
    requires i < |R.ReadRecipe(files, ptrs)| && R.ReadRecipe(files, ptrs)[i].Fetch?
    ensures R.ReadRecipe(files, ptrs)[i].ptr in ptrs
  {
    var n := Min(files[0].chunkNum, |ptrs|);
    var b := R.Block(files[0].name, ptrs[..n]);
    FetchesAt(ptrs[..n]);
    if i >= |b| {
      FetchedPointers(files[1..], ptrs[n..], i - |b|);
    }
  }

  lemma {:induction false} FetchesAt(ptrs: seq<R.Pointer>)
    ensures |R.Fetches(ptrs)| == |ptrs| && forall i | 0 <= i < |ptrs| :: R.Fetches(ptrs)[i] == R.Fetch(ptrs[i])
  {
    if ptrs != [] {
      FetchesAt(ptrs[..|ptrs| - 1]);
    }
  }

  lemma {:induction false} StoredContent(s: Store, content: Content, id: int, fp: Fp)
    requires StoreOk(s, content) && Stored(Held(s), id, fp)
    ensures Held(s)[id][fp] == content(fp)
  {
    assert id in ClosedOf(s) || (s.open.Some? && id == s.open.value.id);
  }

  /** In every reachable state, every backup not yet deleted restores to exactly its stream. */
  lemma {:induction false} LiveBackupsRestore(cfg: Config, content: Content, st: State, j: int)
    requires Inv(cfg, content, st) && j in st.jobs
    ensures var job := st.jobs[j];
            Restore(Held(st.store), R.ReadRecipe(job.files, job.ptrs)) == Done(Outputs(job.source))
            && R.FilesSized(job.files, job.ptrs)
  {
    var job := st.jobs[j];
    var refs := R.ReadRecipe(job.files, job.ptrs);
    var held := Held(st.store);
    assert JobOk(content, held, st.manifest, j, job);
    InvStore(cfg, content, st);
    hide Inv, Held, R.ReadRecipe, StoreOk;
    forall i | 0 <= i < |refs| && refs[i].Fetch?
      ensures Stored(held, refs[i].ptr.id, refs[i].ptr.fp) && held[refs[i].ptr.id][refs[i].ptr.fp] == job.source[i].data
    {
      FetchedPointers(job.files, job.ptrs, i);
      assert PtrOk(content, held, st.manifest, j, refs[i].ptr);
      StoredContent(st.store, content, refs[i].ptr.id, refs[i].ptr.fp);
      assert Matches(refs[i], job.source[i]) && Genuine(job.source[i], content);
    }
    RestoreMatching(held, refs, job.source);
  }

  /**
   * Garbage collection is exact. Between backups a container is on disk if and only if some live
   * backup points into it, its manifest time is the last such backup, and every index entry names
   * a container on disk.
   */
  lemma {:induction false} ReclaimIsExact(cfg: Config, content: Content, st: State)
    requires Inv(cfg, content, st) && !st.running
    ensures forall id :: id in st.store.disk <==> exists j | j in st.jobs :: id in Used(st.jobs[j].ptrs)
    ensures forall id | id in st.store.disk :: id in st.manifest && st.manifest[id] in st.jobs
              && id in Used(st.jobs[st.manifest[id]].ptrs)
              && forall j | j in st.jobs && id in Used(st.jobs[j].ptrs) :: j <= st.manifest[id]
    ensures forall k | k in st.index.kv :: st.index.kv[k] in st.store.disk
  {
    assert ClosedOf(st.store) == st.store.disk;
    assert Held(st.store).Keys == st.store.disk.Keys;
    hide StoreOk, AllMatch, Genuine, R.ReadRecipe;
    forall j, id | j in st.jobs && id in Used(st.jobs[j].ptrs)
      ensures id in st.store.disk && id in st.manifest && j <= st.manifest[id]
    {
      var p :| p in st.jobs[j].ptrs && p.id == id;
      assert JobOk(content, Held(st.store), st.manifest, j, st.jobs[j]);
      assert PtrOk(content, Held(st.store), st.manifest, j, p);
    }
  }
}
