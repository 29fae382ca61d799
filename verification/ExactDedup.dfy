/** Exact deduplication with physical locality: no chunk is ever stored twice. */
module ExactDedup {
  import opened Common
  import opened Containers
  import opened Lru
  import opened Machine
  import opened InFlight
  import opened StoreInvariant
  import opened FilterInvariant
  import opened Safety
  import R = Recipes

  /** What init_index sets up for an exact index on containers, with no rewriting. */
  predicate ExactConfig(cfg: Config) {
    cfg.exact && cfg.rewriteOff && cfg.keySize == FP_SIZE && cfg.ratio == 1
  }

  /** Rewriting and history-aware rewriting are both off: nothing asks for a rewrite. */
  predicate Quiet(m: Mark) {
    !m.sparse && !m.outOfOrder
  }

  predicate QuietStep(a: Action) {
    a.DoFilter? ==> forall i | 0 <= i < |a.marks| :: Quiet(a.marks[i])
  }

  predicate QuietRun(actions: seq<Action>) {
    forall i | 0 <= i < |actions| :: QuietStep(actions[i])
  }

  /** Each fingerprint is in at most one container. */
  ghost predicate Single(held: Holdings) {
    forall i, j, fp | Stored(held, i, fp) && Stored(held, j, fp) :: i == j
  }

  ghost predicate FullLength(held: Holdings) {
    forall i, fp | Stored(held, i, fp) :: |fp| == FP_SIZE
  }

  /** Every fingerprint of a closed container is in the index and leads to that container. */
  ghost predicate Indexed(closed: map<int, Container>, kv: map<Key, int>) {
    forall id, fp | id in closed && fp in closed[id].entries :: fp in kv && kv[fp] == id
  }

  /** What lookup called unique is stored nowhere yet. */
  ghost predicate TrulyNew(held: Holdings, fps: set<Fp>) {
    forall i, fp | fp in fps :: !Stored(held, i, fp)
  }

  ghost predicate ExactStore(s: Store, kv: map<Key, int>) {
    Single(Held(s)) && FullLength(Held(s)) && Indexed(ClosedOf(s), kv)
  }

  // ---------------------------------------------------------------- lookup

  /** A full-key index finds every stored chunk, so a miss means the chunk is new. */
  lemma {:induction false} MissIsNew(cfg: Config, content: Content, s: Store, ix: Index, flat: seq<Chunk>, fp: Fp)
    requires ExactConfig(cfg) && |fp| == FP_SIZE && IndexOk(cfg, content, s, ix, flat) && ExactStore(s, ix.kv)
    requires FindDuplicate(cfg, s, ix, fp).Done? && !FindDuplicate(cfg, s, ix, fp).value.dup
    ensures forall id :: !Stored(Held(s), id, fp)
  {
    assert StoreOk(s, content) && Indexed(ClosedOf(s), ix.kv);
    hide IndexOk, ExactStore, StoreOk, Held, Closed, FindDuplicate, Indexed;
    forall id
      ensures !Stored(Held(s), id, fp)
    {
      if Stored(Held(s), id, fp) {
        StoredWhere(s, content, id, fp);
        StoredIsFound(cfg, content, s, ix, id, fp);
      }
    }
  }

  lemma {:induction false} StoredWhere(s: Store, content: Content, id: int, fp: Fp)
    requires StoreOk(s, content) && Stored(Held(s), id, fp)
    ensures fp in OpenFps(s) || (id in ClosedOf(s) && fp in ClosedOf(s)[id].entries)
  {
  }

  /** What a container holds is found: in the open container, or through the index. */
  lemma {:induction false} StoredIsFound(cfg: Config, content: Content, s: Store, ix: Index, id: int, fp: Fp)
    requires ExactConfig(cfg) && |fp| == FP_SIZE && StoreOk(s, content) && Indexed(ClosedOf(s), ix.kv)
    requires fp in OpenFps(s) || (id in ClosedOf(s) && fp in ClosedOf(s)[id].entries)
    requires FindDuplicate(cfg, s, ix, fp).Done?
    ensures FindDuplicate(cfg, s, ix, fp).value.dup
  {
    hide StoreOk, Held, Closed, Insert;
    if fp !in OpenFps(s) {
      assert ix.kv[fp] == id && KeyOf(fp, cfg.keySize) == fp;
      StoreQueue(s, content);
      RetrieveIsClosed(s, id);
      hide Retrieve, Indexed;
      InsertedIsFound(ix.cache, Meta(id, ClosedOf(s)[id].entries.Keys), cfg.cacheSize, fp);
    }
  }

  lemma {:induction false} InsertedIsFound(cache: seq<Meta>, m: Meta, max: int, fp: Fp)
    requires fp in m.fps
    ensures CacheLookup(Insert(cache, m, max), fp).dup
  {
  }

  lemma {:induction false} LookupChunkNew(cfg: Config, content: Content, s: Store, ix: Index, flat: seq<Chunk>, item: Item)
    requires ExactConfig(cfg) && IndexOk(cfg, content, s, ix, flat) && ExactStore(s, ix.kv)
    requires Genuine(item, content) && TrulyNew(Held(s), UniqueFps(flat))
    ensures LookupChunk(cfg, s, ix, item).Done?
    ensures TrulyNew(Held(s), UniqueFps(flat + [LookupChunk(cfg, s, ix, item).value.1]))
  {
    hide IndexOk, ExactStore, Held, FindDuplicate, Stored, UniqueFps;
    LookupChunkOk(cfg, content, s, ix, flat, item);
    var c := LookupChunk(cfg, s, ix, item).value.1;
    FpSetConcat(flat, [c]);
    SingleFps(c);
    if item.Piece? && !c.dup {
      MissIsNew(cfg, content, s, ix, flat, item.fp);
    }
  }

  lemma {:induction false} LookupPrefixNew(cfg: Config, content: Content, s: Store, ix: Index, flat: seq<Chunk>,
                                           items: seq<Item>, n: nat)
    requires ExactConfig(cfg) && IndexOk(cfg, content, s, ix, flat) && ExactStore(s, ix.kv)
    requires n <= |items| && forall i | 0 <= i < |items| :: Genuine(items[i], content)
    requires TrulyNew(Held(s), UniqueFps(flat))
    ensures LookupPrefix(cfg, s, ix, items, n).Done?
    ensures TrulyNew(Held(s), UniqueFps(flat + LookupPrefix(cfg, s, ix, items, n).value.1))
  {
    hide IndexOk, ExactStore, Held, LookupChunk, TrulyNew, UniqueFps;
    if n == 0 {
      assert flat + [] == flat;
    } else {
      LookupPrefixNew(cfg, content, s, ix, flat, items, n - 1);
      LookupPrefixOk(cfg, content, s, ix, flat, items, n - 1);
      var (jx, cs) := LookupPrefix(cfg, s, ix, items, n - 1).value;
      LookupChunkNew(cfg, content, s, jx, flat + cs, items[n - 1]);
      var c := LookupChunk(cfg, s, jx, items[n - 1]).value.1;
      assert flat + (cs + [c]) == (flat + cs) + [c];
    }
  }

  // ---------------------------------------------------------------- filter

  lemma {:induction false} CloseIndexed(cfg: Config, content: Content, s: Store, kv: map<Key, int>)
    requires ExactConfig(cfg) && StoreOk(s, content) && s.open.Some? && ExactStore(s, kv)
    ensures Indexed(ClosedOf(s)[s.open.value.id := s.open.value], CloseOpen(cfg, s, kv).1)
  {
    var c := s.open.value;
    var closed' := ClosedOf(s)[c.id := c];
    var kv' := CloseOpen(cfg, s, kv).1;
    var features := Features(c.order, cfg);
    assert forall fp :: fp in c.order <==> fp in c.entries;
    forall fp | fp in c.entries
      ensures fp in features
    {
      var i :| 0 <= i < |c.order| && c.order[i] == fp;
      assert Stored(Held(s), c.id, fp);
      assert i % cfg.ratio == 0 && KeyOf(c.order[i], cfg.keySize) == fp;
    }
    forall fp | fp in features
      ensures fp in c.entries
    {
      var i :| 0 <= i < |c.order| && i % cfg.ratio == 0 && KeyOf(c.order[i], cfg.keySize) == fp;
      assert Stored(Held(s), c.id, c.order[i]);
    }
    forall id, fp | id in closed' && fp in closed'[id].entries
      ensures fp in kv' && kv'[fp] == id
    {
      if id != c.id {
        assert Stored(Held(s), id, fp);
        assert fp !in c.entries by {
          if fp in c.entries { assert Stored(Held(s), c.id, fp); assert false; }
        }
      }
    }
  }

  lemma {:induction false} RoomExact(cfg: Config, content: Content, s: Store, kv: map<Key, int>, size: int)
    requires ExactConfig(cfg) && StoreOk(s, content) && KvOk(cfg, ClosedOf(s), kv) && ExactStore(s, kv)
    requires 0 <= size <= CONTAINER_SIZE - CONTAINER_META_SIZE
    ensures ExactStore(MakeRoom(cfg, s, kv, size).0, MakeRoom(cfg, s, kv, size).1)
  {
    hide StoreOk, KvOk, Held, Closed, CloseOpen, Indexed;
    MakeRoomOk(cfg, s, kv, size, content);
    var (t, kv') := MakeRoom(cfg, s, kv, size);
    var s1 := if s.open.None? then Create(s) else s;
    if s.open.None? {
      CreateOk(s, content);
      assert ExactStore(s1, kv);
    }
    if Overflow(s1.open.value, size) {
      CloseOk(cfg, s1, kv, content);
      CloseIndexed(cfg, content, s1, kv);
      CloseShape(cfg, s1, kv);
      assert ClosedOf(Create(CloseOpen(cfg, s1, kv).0)) == ClosedOf(CloseOpen(cfg, s1, kv).0);
    }
  }

  lemma {:induction false} SingleAfterAdd(held: Holdings, held': Holdings, id: int, fp: Fp)
    requires Single(held) && FullLength(held) && TrulyNew(held, {fp}) && |fp| == FP_SIZE
    requires forall i, x :: Stored(held', i, x) <==> Stored(held, i, x) || (i == id && x == fp)
    ensures Single(held') && FullLength(held')
  {
  }

  /** Storing a new chunk: it is in one container, and it is the only thing added. */
  lemma {:induction false} WriteExact(cfg: Config, content: Content, f: Filter, c: Chunk)
    requires ExactConfig(cfg) && FilterOk(cfg, content, f) && c.Normal() && !c.dup && Genuine(c.item, content)
    requires ExactStore(f.store, f.kv) && TrulyNew(Held(f.store), {c.item.fp}) && c.item.fp !in OpenFps(f.store)
    ensures WriteChunk(cfg, f, c).Done?
    ensures var (g, d) := WriteChunk(cfg, f, c).value;
            && ExactStore(g.store, g.kv)
            && (forall i, fp :: Stored(Held(g.store), i, fp) <==> Stored(Held(f.store), i, fp) || (i == d.id && fp == c.item.fp))
  {
    hide StoreOk, KvOk, Held, Closed, MakeRoom, Indexed, TableOk, Add, Single, FullLength, Stored, Overflow;
    MakeRoomOk(cfg, f.store, f.kv, |c.item.data|, content);
    RoomExact(cfg, content, f.store, f.kv, |c.item.data|);
    var s := MakeRoom(cfg, f.store, f.kv, |c.item.data|).0;
    AddOk(s, c.item.fp, c.item.data, content);
    var g := WriteChunk(cfg, f, c).value.0;
    SingleAfterAdd(Held(f.store), Held(g.store), s.open.value.id, c.item.fp);
  }

  /** Only first copies are unique, so the rest of the segment stays new when one is stored. */
  ghost predicate Firsts(cs: seq<Chunk>) {
    forall i | 0 <= i < |cs| && cs[i].Normal() && !cs[i].dup :: cs[i].item.fp !in FpSet(cs[..i])
  }

  lemma {:induction false} FirstsTail(cs: seq<Chunk>)
    requires cs != [] && Firsts(cs)
    ensures Firsts(cs[1..])
    ensures cs[0].Normal() ==> cs[0].item.fp !in UniqueFps(cs[1..])
    ensures UniqueFps(cs) == UniqueFps([cs[0]]) + UniqueFps(cs[1..])
  {
    var tail := cs[1..];
    assert cs == [cs[0]] + tail;
    FpSetConcat([cs[0]], tail);
    forall i | 0 <= i < |tail| && tail[i].Normal() && !tail[i].dup
      ensures tail[i].item.fp !in FpSet(tail[..i])
      ensures cs[0].Normal() ==> tail[i].item.fp != cs[0].item.fp
    {
      assert cs[i + 1] == tail[i];
      assert cs[..i + 1] == [cs[0]] + tail[..i];
      FpSetConcat([cs[0]], tail[..i]);
      SingleFps(cs[0]);
    }
  }

  ghost predicate Has(held: Holdings, fp: Fp) {
    exists i :: Stored(held, i, fp)
  }

  /** The stored fingerprints after filtering `cs`: those before, and those of `cs` that were new. */
  ghost predicate Adds(held: Holdings, held': Holdings, fps: set<Fp>) {
    forall fp :: Has(held', fp) <==> Has(held, fp) || fp in fps
  }

  lemma {:induction false} AddsOne(held: Holdings, g: Holdings, h: Holdings, fps: set<Fp>, id: int, fp: Fp)
    requires Adds(held, g, fps)
    requires forall i, x :: Stored(h, i, x) <==> Stored(g, i, x) || (i == id && x == fp)
    ensures Adds(held, h, fps + {fp})
  {
    forall x
      ensures Has(h, x) <==> Has(held, x) || x in fps + {fp}
    {
      if x == fp {
        assert Stored(h, id, x);
      } else {
        assert forall i :: Stored(h, i, x) <==> Stored(g, i, x);
        assert Has(h, x) <==> Has(g, x);
      }
    }
  }

  lemma {:induction false} NewAfterOne(g: Holdings, h: Holdings, fps: set<Fp>, id: int, fp: Fp)
    requires TrulyNew(g, fps) && fp !in fps
    requires forall i, x :: Stored(h, i, x) <==> Stored(g, i, x) || (i == id && x == fp)
    ensures TrulyNew(h, fps)
  {
  }

  ghost predicate ExactProgress(f: Filter, g: Filter, done: seq<Chunk>, todo: seq<Chunk>) {
    && ExactStore(g.store, g.kv)
    && TrulyNew(Held(g.store), UniqueFps(todo))
    && Firsts(todo)
    && Adds(Held(f.store), Held(g.store), UniqueFps(done))
  }

  lemma {:induction false} FilterChunkExact(cfg: Config, content: Content, f: Filter, g: Filter, done: seq<Chunk>,
                                            c: Chunk, todo: seq<Chunk>, m: Mark)
    requires ExactConfig(cfg) && FilterOk(cfg, content, g) && Genuine(c.item, content) && Quiet(m)
    requires Ready(Held(g.store), OpenFps(g.store), g.unique.Keys, c)
    requires ExactProgress(f, g, done, [c] + todo)
    requires c.Normal() && !c.dup ==> c.item.fp !in g.rewritten
    ensures FilterChunk(cfg, g, c, m).Done?
    ensures ExactProgress(f, FilterChunk(cfg, g, c, m).value.0, done + [c], todo)
    ensures FilterChunk(cfg, g, c, m).value.0.rewritten == g.rewritten
  {
    hide FilterOk, ExactStore, Held, Closed, WriteChunk, Adds, Firsts, FpSet, UniqueFps, Stored;
    FilterChunkOk(cfg, content, g, c, m);
    var all := [c] + todo;
    assert all[1..] == todo && all[0] == c;
    FirstsTail(all);
    FpSetConcat(done, [c]);
    SingleFps(c);
    if c.Normal() && !c.dup {
      WriteExact(cfg, content, g, c);
      WriteKeepsRewritten(cfg, g, c);
      var (h, d) := WriteChunk(cfg, g, c).value;
      AddsOne(Held(f.store), Held(g.store), Held(h.store), UniqueFps(done), d.id, c.item.fp);
      NewAfterOne(Held(g.store), Held(h.store), UniqueFps(todo), d.id, c.item.fp);
    } else {
      assert UniqueFps(done + [c]) == UniqueFps(done);
      QuietDuplicate(cfg, g, c, m);
    }
  }

  /** An unmarked duplicate is not written. */
  lemma {:induction false} QuietDuplicate(cfg: Config, f: Filter, c: Chunk, m: Mark)
    requires cfg.ratio > 0 && Quiet(m) && !(c.Normal() && !c.dup) && FilterChunk(cfg, f, c, m).Done?
    ensures var g := FilterChunk(cfg, f, c, m).value.0;
            g.store == f.store && g.kv == f.kv && g.unique == f.unique && g.rewritten == f.rewritten
  {
    hide WriteChunk;
  }

  lemma {:induction false} WriteKeepsRewritten(cfg: Config, f: Filter, c: Chunk)
    requires cfg.ratio > 0 && c.Normal() && !c.dup && WriteChunk(cfg, f, c).Done?
    ensures WriteChunk(cfg, f, c).value.0.rewritten == f.rewritten
  {
  }

  lemma {:induction false} FilterPrefixExact(cfg: Config, content: Content, f: Filter, cs: seq<Chunk>, rest: seq<Chunk>,
                                             marks: seq<Mark>, n: nat)
    requires ExactConfig(cfg) && n <= |cs| == |marks|
    requires FilterOk(cfg, content, f) && f.unique == map[] && f.rewritten == map[]
    requires Checked(Held(f.store), OpenFps(f.store), cs)
    requires forall i | 0 <= i < |cs| :: Genuine(cs[i].item, content) && Quiet(marks[i])
    requires ExactStore(f.store, f.kv) && Firsts(cs + rest) && TrulyNew(Held(f.store), UniqueFps(cs + rest))
    ensures FilterPrefix(cfg, f, cs, marks, n).Done?
    ensures ExactProgress(f, FilterPrefix(cfg, f, cs, marks, n).value.0, cs[..n], cs[n..] + rest)
    ensures FilterPrefix(cfg, f, cs, marks, n).value.0.rewritten == map[]
  {
    hide FilterOk, Progress, Held, Closed, FilterChunk, ExactStore, TrulyNew, Firsts, ExactProgress, Genuine, Checked;
    if n == 0 {
      assert cs[0..] + rest == cs + rest;
      ExactStart(f, cs + rest);
    } else {
      FilterPrefixExact(cfg, content, f, cs, rest, marks, n - 1);
      FilterPrefixOk(cfg, content, f, cs, marks, n - 1);
      var (g, out) := FilterPrefix(cfg, f, cs, marks, n - 1).value;
      ReadyNext(f, g, cs, out, n - 1);
      var c, todo := cs[n - 1], cs[n..] + rest;
      assert cs[n - 1..] + rest == [c] + todo;
      FilterChunkExact(cfg, content, f, g, cs[..n - 1], c, todo, marks[n - 1]);
      assert cs[..n] == cs[..n - 1] + [c];
    }
  }

  lemma {:induction false} ExactStart(f: Filter, flat: seq<Chunk>)
    requires ExactStore(f.store, f.kv) && Firsts(flat) && TrulyNew(Held(f.store), UniqueFps(flat))
    ensures ExactProgress(f, f, [], flat)
  {
  }

  // ---------------------------------------------------------------- the whole machine

  ghost predicate ExactInv(st: State) {
    ExactStore(st.store, st.index.kv) && TrulyNew(Held(st.store), UniqueFps(Flat(st.inflight)))
  }

  lemma {:induction false} CheckedFirsts(held: Holdings, buffer: map<Fp, seq<int>>, seg: seq<Chunk>, rest: seq<Chunk>, cs: seq<Chunk>)
    requires FlightOk(held, buffer, seg + rest) && SameChunks(seg, cs)
    ensures Firsts(cs + rest) && UniqueFps(cs + rest) == UniqueFps(seg + rest)
  {
    var a, b := seg + rest, cs + rest;
    assert SameChunks(a, b);
    SameFps(a, b);
    forall i | 0 <= i < |b| && b[i].Normal() && !b[i].dup
      ensures b[i].item.fp !in FpSet(b[..i])
    {
      assert ChunkOk(held, a, i);
      assert SameChunks(a[..i], b[..i]);
      SameFps(a[..i], b[..i]);
    }
  }

  lemma {:induction false} AddsAll(held: Holdings, held': Holdings, seg: seq<Chunk>, cs: seq<Chunk>, out: seq<Chunk>)
    requires SameChunks(seg, cs) && Settled(held', seg, out) && Adds(held, held', UniqueFps(cs))
    ensures Adds(held, held', FpSet(seg))
  {
    SameFps(seg, cs);
    forall fp | fp in FpSet(seg)
      ensures Has(held', fp)
    {
      var u :| u in seg && u.Normal() && u.item.fp == fp;
      var k :| 0 <= k < |seg| && seg[k] == u;
      assert Stored(held', out[k].id, fp);
    }
    assert UniqueFps(seg) <= FpSet(seg);
  }

  /** The filter loop on the oldest segment `seg`, with `rest` behind it. */
  lemma {:induction false} SegmentExact(cfg: Config, content: Content, st: State, seg: seq<Chunk>, rest: seq<Chunk>,
                                        marks: seq<Mark>, cs: seq<Chunk>, g: Filter, out: seq<Chunk>)
    requires ExactConfig(cfg) && |marks| == |seg| && IndexOk(cfg, content, st.store, st.index, seg + rest)
    requires forall c | c in seg + rest :: Genuine(c.item, content)
    requires TEMPORARY_ID !in st.monitor && forall i | 0 <= i < |marks| :: Quiet(marks[i])
    requires ExactStore(st.store, st.index.kv) && TrulyNew(Held(st.store), UniqueFps(seg + rest))
    requires CheckPrefix(st.index.buffer, seg, marks, |seg|) == Done(cs)
    requires |cs| == |seg| && FilterPrefix(cfg, StartFilter(st), cs, marks, |cs|) == Done((g, out))
    requires Settled(Held(g.store), seg, out)
    ensures ExactStore(g.store, g.kv) && TrulyNew(Held(g.store), UniqueFps(rest))
    ensures Adds(Held(st.store), Held(g.store), FpSet(seg))
  {
    FlightPart(cfg, content, st, seg + rest);
    hide IndexOk, FilterOk, CheckPrefix, FilterPrefix, Held, Closed, Settled, Genuine, Quiet,
      ExactStore, TrulyNew, Checked, FlightOk, FpSet, UniqueFps, Firsts, Adds;
    var cs' := FilterChecked(cfg, content, st, seg, rest, marks);
    CheckedFirsts(Held(st.store), st.index.buffer, seg, rest, cs);
    FilterPrefixExact(cfg, content, StartFilter(st), cs, rest, marks, |cs|);
    assert cs[|cs|..] + rest == rest && cs[..|cs|] == cs;
    AddsAll(Held(st.store), Held(g.store), seg, cs, out);
  }

  lemma {:induction false} FlightPart(cfg: Config, content: Content, st: State, flat: seq<Chunk>)
    requires IndexOk(cfg, content, st.store, st.index, flat)
    ensures FlightOk(Held(st.store), st.index.buffer, flat)
  {
  }

  /**
   * Filtering a segment stores exactly what was missing: afterwards the stored fingerprints are
   * those stored before and those of the segment, each still in one container only.
   */
  lemma {:induction false} FilterIsExact(cfg: Config, content: Content, st: State, marks: seq<Mark>)
    requires ExactConfig(cfg) && Inv(cfg, content, st) && QuietStep(DoFilter(marks)) && ExactInv(st)
    requires st.running && st.inflight != [] && |marks| == |st.inflight[0]|
    ensures FilterOldest(cfg, st, marks).Done?
    ensures var t := FilterOldest(cfg, st, marks).value;
            ExactInv(t) && Adds(Held(st.store), Held(t.store), FpSet(st.inflight[0]))
  {
    hide Inv, IndexOk, CheckPrefix, FilterPrefix, UpdatePrefix, R.RecordPrefix, Held, FilterOldest, Genuine, Quiet, Flat,
      ExactStore, TrulyNew, FpSet, UniqueFps, Adds, Settled, R.Records, R.Scan, NormalCount;
    var seg, rest := st.inflight[0], Flat(st.inflight[1..]);
    FlatHead(st.inflight);
    RunningParts(cfg, content, st);
    var cs, g, out := FilterParts(cfg, content, st, marks);
    SegmentExact(cfg, content, st, seg, rest, marks, cs, g, out);
  }

  lemma {:induction false} LookupExact(cfg: Config, content: Content, st: State, items: seq<Item>)
    requires ExactConfig(cfg) && Inv(cfg, content, st) && Legal(cfg, content, st, DoLookup(items)) && ExactInv(st)
    ensures Lookup(cfg, st, items).Done? && ExactInv(Lookup(cfg, st, items).value)
  {
    hide IndexOk, ArchiveOk, FilteredOk, R.Records, LookupPrefix, HasPiece, ExactStore, TrulyNew, UniqueFps, Held;
    if st.running {
      LookupPrefixNew(cfg, content, st.store, st.index, Flat(st.inflight), items, |items|);
      LookupPrefixOk(cfg, content, st.store, st.index, Flat(st.inflight), items, |items|);
      FlatSnoc(st.inflight, LookupPrefix(cfg, st.store, st.index, items, |items|).value.1);
    }
  }

  lemma {:induction false} SubsetExact(held: Holdings, held': Holdings)
    requires Single(held) && FullLength(held) && forall id, fp | Stored(held', id, fp) :: Stored(held, id, fp)
    ensures Single(held') && FullLength(held')
  {
  }

  lemma {:induction false} DrainExact(content: Content, s: Store, kv: map<Key, int>)
    requires StoreOk(s, content) && Single(Held(s)) && FullLength(Held(s)) && Indexed(ClosedOf(s), kv)
    ensures ExactStore(Store(None, s.nextId, [], false, ClosedOf(s)), kv)
  {
    var t := Store(None, s.nextId, [], false, ClosedOf(s));
    assert ClosedOf(t) == ClosedOf(s);
    SubsetExact(Held(s), Held(t));
  }

  lemma {:induction false} FinishExact(cfg: Config, content: Content, st: State)
    requires ExactConfig(cfg) && Inv(cfg, content, st) && ExactInv(st)
    ensures ExactInv(Finish(cfg, st))
  {
    InvStore(cfg, content, st);
    hide Inv, StoreOk, KvOk, Held, Closed, CloseOpen, Single, FullLength, Indexed, R.Scan;
    var s, kv := st.store, st.index.kv;
    if st.running && st.inflight == [] && R.Scan(Items(st.filtered)) == R.Outside {
      if s.open.None? || s.open.value.entries == map[] {
        DrainExact(content, s, kv);
      } else {
        CloseOk(cfg, s, kv, content);
        CloseIndexed(cfg, content, s, kv);
        DrainExact(content, CloseOpen(cfg, s, kv).0, CloseOpen(cfg, s, kv).1);
      }
    }
  }

  lemma {:induction false} HeldSubset(held: Holdings, held': Holdings, dead: set<int>)
    requires held'.Keys == held.Keys - dead && forall id | id in held && id !in dead :: held'[id] == held[id]
    ensures forall id, fp | Stored(held', id, fp) :: Stored(held, id, fp)
  {
  }

  lemma {:induction false} IndexedAfterDelete(disk: map<int, Container>, kv: map<Key, int>, dead: set<int>)
    requires Indexed(disk, kv)
    ensures Indexed(disk - dead, map k | k in kv && kv[k] !in dead :: kv[k])
  {
  }

  lemma {:induction false} NewSubset(held: Holdings, held': Holdings, fps: set<Fp>)
    requires TrulyNew(held, fps) && forall id, fp | Stored(held', id, fp) :: Stored(held, id, fp)
    ensures TrulyNew(held', fps)
  {
  }

  lemma {:induction false} DeleteExact(cfg: Config, content: Content, st: State, jobid: int)
    requires ExactConfig(cfg) && Inv(cfg, content, st) && ExactInv(st) && Delete(st, jobid).Done?
    ensures ExactInv(Delete(st, jobid).value)
  {
    if !st.running {
      var dead := set id | id in st.manifest && st.manifest[id] <= jobid;
      DeleteStore(cfg, content, st.store, st.index.kv, dead);
      var t := Delete(st, jobid).value;
      assert ClosedOf(st.store) == st.store.disk;
      hide Inv, StoreOk, KvOk, Held, Closed, Single, FullLength, Indexed, TrulyNew;
      HeldSubset(Held(st.store), Held(t.store), dead);
      SubsetExact(Held(st.store), Held(t.store));
      IndexedAfterDelete(st.store.disk, st.index.kv, dead);
      NewSubset(Held(st.store), Held(t.store), UniqueFps(Flat(st.inflight)));
    }
  }

  lemma {:induction false} NextExact(cfg: Config, content: Content, st: State, a: Action)
    requires ExactConfig(cfg) && Inv(cfg, content, st) && Legal(cfg, content, st, a) && QuietStep(a) && ExactInv(st)
    ensures Next(cfg, st, a).Done? && ExactInv(Next(cfg, st, a).value)
  {
    NextOk(cfg, content, st, a);
    hide Inv, Legal, Lookup, FilterOldest, Finish, Delete, AppendWrite, AppendPop, ExactStore, TrulyNew;
    match a {
      case DoBegin => BeginExact(st);
      case DoLookup(items) => LookupExact(cfg, content, st, items);
      case DoFilter(marks) =>
        if st.running && st.inflight != [] && |marks| == |st.inflight[0]| {
          FilterIsExact(cfg, content, st, marks);
        } else {
          FilterIdle(cfg, st, marks);
        }
      case DoAppendWrite => AppendExact(cfg, content, st, AppendWrite(st.store));
      case DoAppendPop => AppendExact(cfg, content, st, AppendPop(st.store));
      case DoFinish => FinishExact(cfg, content, st);
      case DoDelete(jobid) => DeleteExact(cfg, content, st, jobid);
    }
  }

  lemma {:induction false} FilterIdle(cfg: Config, st: State, marks: seq<Mark>)
    requires cfg.ratio > 0 && !(st.running && st.inflight != [] && |marks| == |st.inflight[0]|)
    ensures FilterOldest(cfg, st, marks) == Done(st)
  {
  }

  lemma {:induction false} BeginExact(st: State)
    requires ExactInv(st)
    ensures ExactInv(Begin(st))
  {
  }

  lemma {:induction false} AppendExact(cfg: Config, content: Content, st: State, t: Store)
    requires Inv(cfg, content, st) && ExactInv(st) && (t == AppendWrite(st.store) || t == AppendPop(st.store))
    ensures ExactInv(st.(store := t))
  {
    InvStore(cfg, content, st);
    AppendKeepsClosed(st.store);
    SameClosed(cfg, content, st.store, t, st.index, Flat(st.inflight));
    hide Inv, StoreOk, Held, Closed;
  }

  /** Over every run, exact deduplication never stores a fingerprint in two containers. */
  lemma {:induction false} NothingIsStoredTwice(cfg: Config, content: Content, actions: seq<Action>)
    requires ExactConfig(cfg) && LegalRun(cfg, content, actions) && QuietRun(actions)
    ensures Run(cfg, INITIAL, actions).Done?
    ensures var st := Run(cfg, INITIAL, actions).value;
            ExactInv(st) && Single(Held(st.store)) && Indexed(ClosedOf(st.store), st.index.kv)
  {
    hide Inv, Legal, Next, Held, TrulyNew, Single, FullLength, Indexed;
    EveryRunIsSafe(cfg, content, actions);
    if actions == [] {
      InitialExact();
    } else {
      var n := |actions| - 1;
      NothingIsStoredTwice(cfg, content, actions[..n]);
      EveryRunIsSafe(cfg, content, actions[..n]);
      NextExact(cfg, content, Run(cfg, INITIAL, actions[..n]).value, actions[n]);
    }
  }

  lemma {:induction false} InitialExact()
    ensures ExactInv(INITIAL)
  {
  }

  // ---------------------------------------------------------------- the stored set

  /** Does this step filter a segment? */
  predicate Filters(st: State, a: Action) {
    a.DoFilter? && st.running && st.inflight != [] && |a.marks| == |st.inflight[0]|
  }

  /** The fingerprints of every segment filtered so far. */
  ghost function EverFiltered(cfg: Config, actions: seq<Action>): set<Fp>
    requires cfg.ratio > 0
  {
    if actions == [] then {}
    else
      var n := |actions| - 1;
      var before := Run(cfg, INITIAL, actions[..n]);
      EverFiltered(cfg, actions[..n])
        + if before.Done? && Filters(before.value, actions[n]) then FpSet(before.value.inflight[0]) else {}
  }

  lemma {:induction false} DrainKeeps(s: Store, content: Content)
    requires StoreOk(s, content) && (s.open.Some? ==> s.open.value.entries == map[])
    ensures forall fp :: Has(Held(Store(None, s.nextId, [], false, ClosedOf(s))), fp) <==> Has(Held(s), fp)
  {
    var t := Store(None, s.nextId, [], false, ClosedOf(s));
    assert ClosedOf(t) == ClosedOf(s);
    if s.open.Some? {
      OpenNotClosed(s, content);
    }
    assert forall id, fp :: Stored(Held(t), id, fp) <==> Stored(Held(s), id, fp);
  }

  lemma {:induction false} FinishKeeps(cfg: Config, content: Content, st: State)
    requires cfg.ratio > 0 && Inv(cfg, content, st)
    ensures forall fp :: Has(Held(Finish(cfg, st).store), fp) <==> Has(Held(st.store), fp)
  {
    InvStore(cfg, content, st);
    hide Inv, StoreOk, KvOk, Held, Closed, CloseOpen, R.Scan, Has;
    var s, kv := st.store, st.index.kv;
    if st.running && st.inflight == [] && R.Scan(Items(st.filtered)) == R.Outside {
      if s.open.None? || s.open.value.entries == map[] {
        DrainKeeps(s, content);
      } else {
        CloseOk(cfg, s, kv, content);
        CloseShape(cfg, s, kv);
        DrainKeeps(CloseOpen(cfg, s, kv).0, content);
      }
    }
  }

  lemma {:induction false} DeleteShrinks(cfg: Config, content: Content, st: State, jobid: int)
    requires Inv(cfg, content, st) && Delete(st, jobid).Done?
    ensures forall fp | Has(Held(Delete(st, jobid).value.store), fp) :: Has(Held(st.store), fp)
  {
    if !st.running {
      var dead := set id | id in st.manifest && st.manifest[id] <= jobid;
      DeleteStore(cfg, content, st.store, st.index.kv, dead);
      var t := Delete(st, jobid).value.store;
      assert forall id, fp | Stored(Held(t), id, fp) :: Stored(Held(st.store), id, fp);
    }
  }

  lemma {:induction false} LookupKeeps(cfg: Config, st: State, items: seq<Item>)
    requires Lookup(cfg, st, items).Done?
    ensures Lookup(cfg, st, items).value.store == st.store
  {
  }

  lemma {:induction false} AppendKeeps(cfg: Config, content: Content, st: State, t: Store)
    requires Inv(cfg, content, st) && (t == AppendWrite(st.store) || t == AppendPop(st.store))
    ensures Held(t) == Held(st.store)
  {
    InvStore(cfg, content, st);
    AppendKeepsClosed(st.store);
    SameClosed(cfg, content, st.store, t, st.index, Flat(st.inflight));
  }

  /** One step adds the fingerprints of the segment it filters, if any; only a deletion takes some away. */
  lemma {:induction false} StepStores(cfg: Config, content: Content, st: State, a: Action)
    requires ExactConfig(cfg) && Inv(cfg, content, st) && Legal(cfg, content, st, a) && QuietStep(a) && ExactInv(st)
    requires Next(cfg, st, a).Done?
    ensures var added := if Filters(st, a) then FpSet(st.inflight[0]) else {};
            var held, held' := Held(st.store), Held(Next(cfg, st, a).value.store);
            forall fp :: && (Has(held', fp) ==> Has(held, fp) || fp in added)
                         && (!a.DoDelete? && (Has(held, fp) || fp in added) ==> Has(held', fp))
  {
    hide Inv, Lookup, FilterOldest, Finish, Delete, AppendWrite, AppendPop, ExactInv, FpSet, Held, Has;
    match a {
      case DoBegin =>
      case DoLookup(items) => LookupKeeps(cfg, st, items);
      case DoFilter(marks) =>
        if Filters(st, a) {
          FilterIsExact(cfg, content, st, marks);
        } else {
          FilterIdle(cfg, st, marks);
        }
      case DoAppendWrite => AppendKeeps(cfg, content, st, AppendWrite(st.store));
      case DoAppendPop => AppendKeeps(cfg, content, st, AppendPop(st.store));
      case DoFinish => FinishKeeps(cfg, content, st);
      case DoDelete(jobid) => DeleteShrinks(cfg, content, st, jobid);
    }
  }

  /**
   * Over every run the stored fingerprints are among those filtered, and in a run without deletions they are
   * exactly those filtered.
   */
  lemma {:induction false} StoredIsFiltered(cfg: Config, content: Content, actions: seq<Action>)
    requires ExactConfig(cfg) && LegalRun(cfg, content, actions) && QuietRun(actions)
    ensures Run(cfg, INITIAL, actions).Done?
    ensures forall fp | Has(Held(Run(cfg, INITIAL, actions).value.store), fp) :: fp in EverFiltered(cfg, actions)
    ensures (forall i | 0 <= i < |actions| :: !actions[i].DoDelete?) ==>
              forall fp | fp in EverFiltered(cfg, actions) :: Has(Held(Run(cfg, INITIAL, actions).value.store), fp)
  {
    NothingIsStoredTwice(cfg, content, actions);
    hide Inv, Legal, Next, Held, ExactInv, FpSet, Single, Indexed, Has, Filters;
    if actions == [] {
      NothingAtFirst();
    } else {
      var n := |actions| - 1;
      EveryRunIsSafe(cfg, content, actions[..n]);
      NothingIsStoredTwice(cfg, content, actions[..n]);
      StoredIsFiltered(cfg, content, actions[..n]);
      StepStores(cfg, content, Run(cfg, INITIAL, actions[..n]).value, actions[n]);
    }
  }

  lemma {:induction false} NothingAtFirst()
    ensures forall fp :: !Has(Held(INITIAL.store), fp)
  {
  }
}
