/**
 * The dedup node as a state machine. The dedup thread looks up segments, the filter thread resolves
 * and stores the oldest segment in flight, the append thread moves containers to disk; whole
 * backups alternate with deletions. Every function here is one critical section of the program.
 */
module Machine {
  import opened Common
  import opened Containers
  import opened Lru
  import R = Recipes

  type Key = Bytes

  /** The index settings for physical locality: exact is keySize 20 and ratio 1. */
  datatype Config = Config(keySize: nat, ratio: nat, cacheSize: int, threshold: int,
                           exact: bool, rewriteOff: bool)

  function KeyOf(fp: Fp, keySize: nat): Key {
    if |fp| <= keySize then fp else fp[..keySize]
  }

  datatype Meta = Meta(id: int, fps: set<Fp>)

  /** `buffer` maps a fingerprint in flight to the queue of its container ids. */
  datatype Index = Index(buffer: map<Fp, seq<int>>, chunkNum: int, cache: seq<Meta>, kv: map<Key, int>)

  // ---------------------------------------------------------------- lookup (dedup thread)

  /** lru_cache_lookup over container metadata: the first element holding `fp`. */
  function Find(cache: seq<Meta>, fp: Fp): (i: nat)
    ensures i <= |cache|
    ensures i < |cache| ==> fp in cache[i].fps
    ensures forall j | 0 <= j < i :: fp !in cache[j].fps
  {
    var hit := (m: Meta) => fp in m.fps;
    var i := FirstHit(cache, hit);
    assert forall j | 0 <= j < i :: !hit(cache[j]);
    i
  }

  datatype Found = Found(id: int, dup: bool, denied: bool, cache: seq<Meta>)

  /** fingerprint_cache_lookup, with the list re-linked on a hit. */
  function CacheLookup(cache: seq<Meta>, fp: Fp): Found {
    var i := Find(cache, fp);
    if i < |cache| then Found(cache[i].id, true, false, ToFront(cache, i))
    else Found(TEMPORARY_ID, false, false, cache)
  }

  /** The four places index_lookup_base searches, in order. */
  function FindDuplicate(cfg: Config, s: Store, ix: Index, fp: Fp): Outcome<Found> {
    if s.open.Some? && fp in s.open.value.entries then
      Done(Found(s.open.value.id, true, true, ix.cache))
    else if fp in ix.buffer then
      if ix.buffer[fp] == [] then Crash else Done(Found(ix.buffer[fp][0], true, false, ix.cache))
    else
      var hit := CacheLookup(ix.cache, fp);
      var key := KeyOf(fp, cfg.keySize);
      if hit.dup || key !in ix.kv then Done(hit)
      else
        var c :- Retrieve(s, ix.kv[key]);
        Done(CacheLookup(Insert(ix.cache, Meta(ix.kv[key], c.entries.Keys), cfg.cacheSize), fp))
  }

  function Push(buffer: map<Fp, seq<int>>, fp: Fp, id: int): map<Fp, seq<int>> {
    buffer[fp := (if fp in buffer then buffer[fp] else []) + [id]]
  }

  function LookupChunk(cfg: Config, s: Store, ix: Index, item: Item): Outcome<(Index, Chunk)> {
    if !item.Piece? then Done((ix, NewChunk(item)))
    else
      var f :- FindDuplicate(cfg, s, ix, item.fp);
      Done((Index(Push(ix.buffer, item.fp, f.id), ix.chunkNum + 1, f.cache, ix.kv),
            Chunk(item, f.id, f.dup, f.denied)))
  }

  function LookupPrefix(cfg: Config, s: Store, ix: Index, items: seq<Item>, n: nat): (r: Outcome<(Index, seq<Chunk>)>)
    requires n <= |items|
    ensures r.Done? ==> |r.value.1| == n
  {
    if n == 0 then Done((ix, []))
    else
      var (jx, cs) :- LookupPrefix(cfg, s, ix, items, n - 1);
      var (kx, c) :- LookupChunk(cfg, s, jx, items[n - 1]);
      Done((kx, cs + [c]))
  }

  // ---------------------------------------------------------------- filter thread

  /**
   * What the rewrite phase, the cache-aware filter and the CFL switch decided about one chunk:
   * CHUNK_SPARSE, CHUNK_OUT_OF_ORDER, CHUNK_IN_CACHE and enable_rewrite. Any decision is possible;
   * `inCache` counts only for a container this backup has already used.
   */
  datatype Mark = Mark(sparse: bool, outOfOrder: bool, inCache: bool, enabled: bool)

  /** The loop body of index_check_buffer. */
  function CheckChunk(buffer: map<Fp, seq<int>>, c: Chunk, m: Mark): Outcome<Chunk> {
    if c.Normal() && ((c.dup && c.id == TEMPORARY_ID) || m.outOfOrder || m.sparse) then
      if c.item.fp !in buffer || buffer[c.item.fp] == [] then Crash
      else
        var be := buffer[c.item.fp][0];
        if be > c.id then Done(c.(id := be, denied := c.denied || c.id != TEMPORARY_ID)) else Done(c)
    else Done(c)
  }

  function CheckPrefix(buffer: map<Fp, seq<int>>, seg: seq<Chunk>, marks: seq<Mark>, n: nat): (r: Outcome<seq<Chunk>>)
    requires n <= |seg| == |marks|
    ensures r.Done? ==> |r.value| == n
  {
    if n == 0 then Done([])
    else
      var cs :- CheckPrefix(buffer, seg, marks, n - 1);
      var c :- CheckChunk(buffer, seg[n - 1], marks[n - 1]);
      Done(cs + [c])
  }

  /**
   * The store and index as the filter loop sees them, with its two per-segment tables. `seen` are the containers
   * given to har_monitor_update and restore_aware_update. `tripped` says that the assert at filter_phase.c:186 has
   * failed: the program stops there, the model goes on.
   */
  datatype Filter = Filter(store: Store, kv: map<Key, int>, unique: map<Fp, int>, rewritten: map<Fp, int>,
                           seen: set<int>, tripped: bool)

  /** index_sampling_uniform over the fingerprints of a container. */
  function Features(order: seq<Fp>, cfg: Config): set<Key>
    requires cfg.ratio > 0
  {
    set i | 0 <= i < |order| && i % cfg.ratio == 0 :: KeyOf(order[i], cfg.keySize)
  }

  /** Sample the open container into the key-value store and hand it to the append thread. */
  function CloseOpen(cfg: Config, s: Store, kv: map<Key, int>): (Store, map<Key, int>)
    requires cfg.ratio > 0 && s.open.Some?
  {
    var c := s.open.value;
    (s.(open := None, pending := s.pending + [c]),
     kv + map k | k in Features(c.order, cfg) :: c.id)
  }

  function Create(s: Store): Store {
    s.(open := Some(NewContainer(s.nextId)), nextId := s.nextId + 1)
  }

  /** Make sure the open container exists and has room for `size` bytes. */
  function MakeRoom(cfg: Config, s: Store, kv: map<Key, int>, size: int): (Store, map<Key, int>)
    requires cfg.ratio > 0
  {
    var s1 := if s.open.None? then Create(s) else s;
    if Overflow(s1.open.value, size) then
      var (s2, kv2) := CloseOpen(cfg, s1, kv);
      (Create(s2), kv2)
    else (s1, kv)
  }

  /** Resolve a temporary id, then the id of a copy rewritten earlier in this segment. */
  function Resolve(f: Filter, c: Chunk): Outcome<Chunk>
    requires c.Normal()
  {
    var fp := c.item.fp;
    if c.dup && c.id == TEMPORARY_ID && fp !in f.unique then Crash
    else
      var c1 := if c.dup && c.id == TEMPORARY_ID then c.(id := f.unique[fp]) else c;
      Done(if fp in f.rewritten then c1.(id := f.rewritten[fp], denied := true) else c1)
  }

  predicate MustWrite(c: Chunk, m: Mark) {
    !c.dup || (!c.denied && (m.sparse || (m.enabled && m.outOfOrder && !m.inCache)))
  }

  function WriteChunk(cfg: Config, f: Filter, c: Chunk): Outcome<(Filter, Chunk)>
    requires cfg.ratio > 0 && c.Normal()
  {
    var fp, data := c.item.fp, c.item.data;
    var (s, kv) := MakeRoom(cfg, f.store, f.kv, |data|);
    var open := s.open.value;
    var c' := c.(id := open.id);
    if Overflow(open, |data|) then Crash
    else if fp in open.entries then
      Done((f.(store := s, kv := kv, tripped := f.tripped || (cfg.exact && cfg.rewriteOff)), c'))
    else
      var g := f.(store := s.(open := Some(Add(open, fp, data))), kv := kv);
      Done((if c.dup then g.(rewritten := g.rewritten[fp := open.id]) else g.(unique := g.unique[fp := open.id]), c'))
  }

  /** The loop body of filter_thread. */
  function FilterChunk(cfg: Config, f: Filter, c: Chunk, m: Mark): Outcome<(Filter, Chunk)>
    requires cfg.ratio > 0
  {
    if !c.Normal() then Done((f, c))
    else
      var cached := m.inCache && c.id in f.seen;
      if cached && c.id == TEMPORARY_ID then Crash
      else
        var c1 :- Resolve(f, c);
        var (g, c2) :- if MustWrite(c1, m.(inCache := cached)) then WriteChunk(cfg, f, c1) else Done((f, c1));
        if c2.id == TEMPORARY_ID then Crash else Done((g.(seen := g.seen + {c2.id}), c2))
  }

  function FilterPrefix(cfg: Config, f: Filter, seg: seq<Chunk>, marks: seq<Mark>, n: nat): (r: Outcome<(Filter, seq<Chunk>)>)
    requires cfg.ratio > 0 && n <= |seg| == |marks|
    ensures r.Done? ==> |r.value.1| == n
  {
    if n == 0 then Done((f, []))
    else
      var (g, cs) :- FilterPrefix(cfg, f, seg, marks, n - 1);
      var (h, c) :- FilterChunk(cfg, g, seg[n - 1], marks[n - 1]);
      Done((h, cs + [c]))
  }

  /** The loop body of index_update_buffer: pop the head, tell the copies behind it. */
  function UpdateChunk(buffer: map<Fp, seq<int>>, c: Chunk): Outcome<map<Fp, seq<int>>> {
    if !c.Normal() then Done(buffer)
    else if c.id == TEMPORARY_ID || c.item.fp !in buffer || buffer[c.item.fp] == [] then Crash
    else
      var n := |buffer[c.item.fp]| - 1;
      Done(if n == 0 then buffer - {c.item.fp} else buffer[c.item.fp := seq(n, i => c.id)])
  }

  function UpdatePrefix(buffer: map<Fp, seq<int>>, seg: seq<Chunk>, n: nat): Outcome<map<Fp, seq<int>>>
    requires n <= |seg|
  {
    if n == 0 then Done(buffer)
    else
      var b :- UpdatePrefix(buffer, seg, n - 1);
      UpdateChunk(b, seg[n - 1])
  }

  function NormalCount(cs: seq<Chunk>): nat {
    if cs == [] then 0 else NormalCount(cs[..|cs| - 1]) + if cs[|cs| - 1].Normal() then 1 else 0
  }

  function Ids(cs: seq<Chunk>): set<int> {
    set c | c in cs && c.Normal() :: c.id
  }

  // ---------------------------------------------------------------- whole backups and deletions

  /** A finished backup; `source` is the stream that was backed up. */
  datatype Job = Job(files: seq<R.FileMeta>, ptrs: seq<R.Pointer>, source: seq<Item>)

  /**
   * `inflight` are the segments between the two threads; `filtered` the chunks already in the recipe
   * of the running backup; `monitor` the containers it refers to; `manifest` the last backup that
   * used each container.
   */
  datatype State = State(
    running: bool, store: Store, index: Index, inflight: seq<seq<Chunk>>,
    recipe: R.Recipe, filtered: seq<Chunk>, monitor: set<int>,
    manifest: map<int, int>, jobs: map<int, Job>, nextJob: int, tripped: bool)

  const INITIAL := State(false, Containers.EMPTY, Index(map[], 0, [], map[]), [], R.EMPTY, [], {}, map[], map[], 0, false)

  /** The stream read so far by the running backup. */
  function Source(st: State): seq<Item> {
    Items(st.filtered + Flat(st.inflight))
  }

  /** init_index and create_backup_version: an empty cache and an empty index buffer. */
  function Begin(st: State): State {
    if st.running then st
    else st.(running := true, index := Index(map[], 0, [], st.index.kv), recipe := R.EMPTY, filtered := [], monitor := {})
  }

  predicate HasPiece(items: seq<Item>) {
    exists i | 0 <= i < |items| :: items[i].Piece?
  }

  /** One round of dedup_thread; a full index buffer makes it wait. */
  function Lookup(cfg: Config, st: State, items: seq<Item>): Outcome<State> {
    if !st.running || (HasPiece(items) && cfg.threshold > 0 && st.index.chunkNum >= cfg.threshold) then Done(st)
    else
      var (ix, cs) :- LookupPrefix(cfg, st.store, st.index, items, |items|);
      Done(st.(index := ix, inflight := st.inflight + [cs]))
  }

  /** One round of filter_thread on the oldest segment, under the index lock. */
  function FilterOldest(cfg: Config, st: State, marks: seq<Mark>): Outcome<State>
    requires cfg.ratio > 0
  {
    if !st.running || st.inflight == [] || |marks| != |st.inflight[0]| then Done(st)
    else
      var seg := st.inflight[0];
      var n := |seg|;
      var checked :- CheckPrefix(st.index.buffer, seg, marks, n);
      Filtering(cfg, st, checked, marks)
  }

  /** The filter loop starts a segment with empty tables. */
  function StartFilter(st: State): Filter {
    Filter(st.store, st.index.kv, map[], map[], st.monitor, st.tripped)
  }

  function Filtering(cfg: Config, st: State, checked: seq<Chunk>, marks: seq<Mark>): Outcome<State>
    requires cfg.ratio > 0 && st.inflight != [] && |checked| == |marks|
  {
    var n := |checked|;
    var (f, cs) :- FilterPrefix(cfg, StartFilter(st), checked, marks, n);
    var buffer :- UpdatePrefix(st.index.buffer, cs, n);
    var recipe :- R.RecordPrefix(st.recipe, cs, n);
    Done(AfterFilter(st, f, cs, buffer, recipe))
  }

  /** The shared state once the oldest segment has become `cs`. */
  function AfterFilter(st: State, f: Filter, cs: seq<Chunk>, buffer: map<Fp, seq<int>>, recipe: R.Recipe): State
    requires st.inflight != []
  {
    st.(store := f.store, index := Index(buffer, st.index.chunkNum - NormalCount(cs), st.index.cache, f.kv),
        inflight := st.inflight[1..], recipe := recipe, filtered := st.filtered + cs, monitor := f.seen,
        tripped := f.tripped)
  }

  /** The end of filter_thread, close_har and close_container_store. */
  function Finish(cfg: Config, st: State): State
    requires cfg.ratio > 0
  {
    if !st.running || st.inflight != [] || R.Scan(Items(st.filtered)) != R.Outside then st
    else
      var (s, kv) := if st.store.open.None? || st.store.open.value.entries == map[] then (st.store, st.index.kv)
                     else CloseOpen(cfg, st.store, st.index.kv);
      var job := Job(st.recipe.files, st.recipe.ptrs, Items(st.filtered));
      st.(running := false,
          store := Store(None, s.nextId, [], false, Closed(s.disk, s.pending)),
          index := st.index.(kv := kv),
          manifest := st.manifest + map id | id in st.monitor :: st.nextJob,
          jobs := st.jobs[st.nextJob := job],
          nextJob := st.nextJob + 1)
  }

  /**
   * trunc_manifest and do_delete: drop every backup up to `jobid` and what only they used.
   * Naming a backup that does not exist ends the program.
   */
  function Delete(st: State, jobid: int): Outcome<State> {
    if st.running then Done(st)
    else if !(0 <= jobid < st.nextJob) then Crash
    else
      var dead := set id | id in st.manifest && st.manifest[id] <= jobid;
      Done(st.(manifest := st.manifest - dead,
          index := st.index.(kv := map k | k in st.index.kv && st.index.kv[k] !in dead :: st.index.kv[k]),
          store := st.store.(disk := st.store.disk - dead),
          jobs := map j | j in st.jobs && j > jobid :: st.jobs[j]))
  }

  datatype Action =
    | DoBegin
    | DoLookup(items: seq<Item>)
    | DoFilter(marks: seq<Mark>)
    | DoAppendWrite
    | DoAppendPop
    | DoFinish
    | DoDelete(jobid: int)

  function Next(cfg: Config, st: State, a: Action): Outcome<State>
    requires cfg.ratio > 0
  {
    match a
    case DoBegin => Done(Begin(st))
    case DoLookup(items) => Lookup(cfg, st, items)
    case DoFilter(marks) => FilterOldest(cfg, st, marks)
    case DoAppendWrite => Done(st.(store := AppendWrite(st.store)))
    case DoAppendPop => Done(st.(store := AppendPop(st.store)))
    case DoFinish => Done(Finish(cfg, st))
    case DoDelete(jobid) => Delete(st, jobid)
  }

  function Run(cfg: Config, st: State, actions: seq<Action>): Outcome<State>
    requires cfg.ratio > 0
  {
    if actions == [] then Done(st)
    else
      var t :- Run(cfg, st, actions[..|actions| - 1]);
      Next(cfg, t, actions[|actions| - 1])
  }
}
