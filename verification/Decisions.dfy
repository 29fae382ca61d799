/** Which chunks the filter thread writes, and what every other chunk points to. */
module Decisions {
  import opened Common
  import opened Containers
  import opened Machine
  import opened InFlight
  import opened StoreInvariant
  import opened FilterInvariant
  import opened Safety
  import R = Recipes

  // ---------------------------------------------------------------- one chunk

  /** Sparse, or out of order while rewriting is on and the container is not in the restore-aware cache. */
  predicate Fragmented(m: Mark, cached: bool) {
    m.sparse || (m.enabled && m.outOfOrder && !cached)
  }

  lemma {:induction false} WriteOpens(cfg: Config, f: Filter, c: Chunk)
    requires cfg.ratio > 0 && c.Normal() && WriteChunk(cfg, f, c).Done?
    ensures var (g, d) := WriteChunk(cfg, f, c).value;
            g.store.open.Some? && d == c.(id := g.store.open.value.id) && c.item.fp in g.store.open.value.entries
  {
    hide Overflow, CloseOpen;
  }

  /**
   * A unique chunk, or a fragmented duplicate that is neither denied nor already rewritten in this segment, ends in the
   * container that is open afterwards. Any other duplicate changes neither containers nor index; it points to the copy
   * rewritten in this segment if there is one, else keeps its id, and a temporary id becomes that of the unique copy.
   */
  lemma {:induction false} FilterDecides(cfg: Config, f: Filter, c: Chunk, m: Mark)
    requires cfg.ratio > 0 && c.Normal() && FilterChunk(cfg, f, c, m).Done?
    ensures var (g, d) := FilterChunk(cfg, f, c, m).value;
            var fp := c.item.fp;
            if !c.dup || (!c.denied && fp !in f.rewritten && Fragmented(m, m.inCache && c.id in f.seen)) then
              g.store.open.Some? && d.id == g.store.open.value.id && fp in g.store.open.value.entries
            else
              && g.store == f.store && g.kv == f.kv && g.unique == f.unique && g.rewritten == f.rewritten
              && (fp in f.rewritten ==> d.id == f.rewritten[fp])
              && (fp !in f.rewritten && c.id != TEMPORARY_ID ==> d.id == c.id)
              && (fp !in f.rewritten && c.id == TEMPORARY_ID ==> fp in f.unique && d.id == f.unique[fp])
  {
    var c1 := Resolve(f, c).value;
    if WriteChunk(cfg, f, c1).Done? {
      WriteOpens(cfg, f, c1);
    }
    hide WriteChunk;
  }

  lemma {:induction false} RoomEffect(cfg: Config, s: Store, kv: map<Key, int>, size: int)
    requires cfg.ratio > 0
    ensures var (t, kv') := MakeRoom(cfg, s, kv, size);
            && t.open.Some?
            && (if s.open.Some? && !Overflow(s.open.value, size) then t == s && kv' == kv
                else t.open.value.entries == map[] && t.open.value.order == [])
  {
    hide Overflow, CloseOpen;
  }

  lemma {:induction false} WriteEffect(cfg: Config, f: Filter, c: Chunk)
    requires cfg.ratio > 0 && c.Normal() && WriteChunk(cfg, f, c).Done?
    ensures var (g, d) := WriteChunk(cfg, f, c).value;
            var fp, data := c.item.fp, c.item.data;
            if f.store.open.Some? && !Overflow(f.store.open.value, |data|) && fp in f.store.open.value.entries then
              && g.store == f.store && g.kv == f.kv && g.unique == f.unique && g.rewritten == f.rewritten
              && (g.tripped <==> f.tripped || (cfg.exact && cfg.rewriteOff))
            else
              && g.tripped == f.tripped
              && g.store.open.Some? && g.store.open.value.id == d.id && EndsWith(g.store.open.value, fp, data)
              && g.unique == (if c.dup then f.unique else f.unique[fp := d.id])
              && g.rewritten == (if c.dup then f.rewritten[fp := d.id] else f.rewritten)
  {
    hide Overflow, MakeRoom;
    RoomEffect(cfg, f.store, f.kv, |c.item.data|);
  }

  /** The chunk was the last to be added to the container. */
  ghost predicate EndsWith(o: Container, fp: Fp, data: Bytes) {
    o.order != [] && o.order[|o.order| - 1] == fp && fp in o.entries && o.entries[fp] == data
  }

  /**
   * A chunk to be written is added to the open container, and remembered in the table for unique or for rewritten
   * chunks, unless the container it would go to already has it: there an exact index without rewriting fails the
   * assert at line 186. Then, and for a chunk not to be written, containers, index and tables stay as they are.
   */
  lemma {:induction false} WritesOnce(cfg: Config, f: Filter, c: Chunk, m: Mark)
    requires cfg.ratio > 0 && c.Normal() && FilterChunk(cfg, f, c, m).Done?
    ensures var (g, d) := FilterChunk(cfg, f, c, m).value;
            var fp, data := c.item.fp, c.item.data;
            var writes := !c.dup || (!c.denied && fp !in f.rewritten && Fragmented(m, m.inCache && c.id in f.seen));
            var present := f.store.open.Some? && !Overflow(f.store.open.value, |data|) && fp in f.store.open.value.entries;
            && (g.tripped <==> f.tripped || (writes && present && cfg.exact && cfg.rewriteOff))
            && if writes && !present then
              && g.store.open.Some? && g.store.open.value.id == d.id && EndsWith(g.store.open.value, fp, data)
              && g.unique == (if c.dup then f.unique else f.unique[fp := d.id])
              && g.rewritten == (if c.dup then f.rewritten[fp := d.id] else f.rewritten)
            else
              g.store == f.store && g.kv == f.kv && g.unique == f.unique && g.rewritten == f.rewritten
  {
    hide Overflow, WriteChunk, EndsWith;
    var c1 := Resolve(f, c).value;
    if WriteChunk(cfg, f, c1).Done? {
      WriteEffect(cfg, f, c1);
    }
  }

  lemma {:induction false} RoomRolls(cfg: Config, s: Store, kv: map<Key, int>, size: int)
    requires cfg.ratio > 0 && s.open.Some? && Overflow(s.open.value, size)
    ensures var t := MakeRoom(cfg, s, kv, size).0;
            && t.open == Some(NewContainer(s.nextId)) && t.nextId == s.nextId + 1 && t.pending == s.pending + [s.open.value]
  {
    hide Overflow, Features;
  }

  lemma {:induction false} WriteRolls(cfg: Config, f: Filter, c: Chunk)
    requires cfg.ratio > 0 && c.Normal() && f.store.open.Some? && WriteChunk(cfg, f, c).Done?
    ensures var g, open := WriteChunk(cfg, f, c).value.0, f.store.open.value;
            if Overflow(open, |c.item.data|) then
              && g.store.pending == f.store.pending + [open] && g.store.nextId == f.store.nextId + 1
              && g.store.open == Some(Add(NewContainer(f.store.nextId), c.item.fp, c.item.data))
            else
              && g.store.open.Some? && g.store.open.value.id == open.id
              && g.store.pending == f.store.pending && g.store.nextId == f.store.nextId && g.kv == f.kv
  {
    hide Overflow, MakeRoom;
    RoomEffect(cfg, f.store, f.kv, |c.item.data|);
    if Overflow(f.store.open.value, |c.item.data|) {
      RoomRolls(cfg, f.store, f.kv, |c.item.data|);
    }
  }

  /**
   * The open container is handed to the append thread only by a chunk that must be written and does not fit: while the
   * chunk fits, the same container stays open, the queue and the index are as before, and no id is used up. When it
   * does not fit and is written, the container goes to the end of the queue as it was and the next id is opened.
   */
  lemma {:induction false} RollsWhenFull(cfg: Config, f: Filter, c: Chunk, m: Mark)
    requires cfg.ratio > 0 && c.Normal() && f.store.open.Some? && FilterChunk(cfg, f, c, m).Done?
    ensures var g, open := FilterChunk(cfg, f, c, m).value.0, f.store.open.value;
            && (!Overflow(open, |c.item.data|) ==>
                  && g.store.open.Some? && g.store.open.value.id == open.id
                  && g.store.pending == f.store.pending && g.store.nextId == f.store.nextId && g.kv == f.kv)
            && (Overflow(open, |c.item.data|) && g.store != f.store ==>
                  && g.store.pending == f.store.pending + [open] && g.store.nextId == f.store.nextId + 1
                  && g.store.open == Some(Add(NewContainer(f.store.nextId), c.item.fp, c.item.data)))
  {
    hide Overflow, WriteChunk;
    var c1 := Resolve(f, c).value;
    if WriteChunk(cfg, f, c1).Done? {
      WriteRolls(cfg, f, c1);
    }
  }

  // ---------------------------------------------------------------- a segment

  /** The first container that this backup can still write to: the open one, or the next one created. */
  function Frontier(s: Store): int {
    if s.open.Some? then s.open.value.id else s.nextId
  }

  lemma {:induction false} RoomFrontier(cfg: Config, s: Store, kv: map<Key, int>, size: int)
    requires cfg.ratio > 0 && (s.open.Some? ==> s.open.value.id < s.nextId)
    ensures var t := MakeRoom(cfg, s, kv, size).0;
            t.open.Some? && t.open.value.id < t.nextId && Frontier(s) <= Frontier(t)
  {
    hide Overflow, Features;
  }

  ghost predicate Tables(base: int, f: Filter) {
    && (f.store.open.Some? ==> f.store.open.value.id < f.store.nextId) && base <= Frontier(f.store)
    && (forall fp | fp in f.rewritten :: f.rewritten[fp] >= base)
  }

  lemma {:induction false} WriteTables(cfg: Config, base: int, f: Filter, c: Chunk)
    requires cfg.ratio > 0 && c.Normal() && Tables(base, f) && WriteChunk(cfg, f, c).Done?
    ensures Tables(base, WriteChunk(cfg, f, c).value.0) && WriteChunk(cfg, f, c).value.1.id >= base
    ensures WriteChunk(cfg, f, c).value.0.rewritten.Keys <= f.rewritten.Keys + (if c.dup then {c.item.fp} else {})
  {
    hide MakeRoom, Overflow;
    RoomFrontier(cfg, f.store, f.kv, |c.item.data|);
  }

  lemma {:induction false} ChunkTables(cfg: Config, base: int, f: Filter, c: Chunk, m: Mark)
    requires cfg.ratio > 0 && Tables(base, f) && FilterChunk(cfg, f, c, m).Done?
    ensures var (g, d) := FilterChunk(cfg, f, c, m).value;
            && Tables(base, g)
            && (c.Normal() && c.dup && !c.denied && Fragmented(m, m.inCache && c.id in f.seen) ==> d.id >= base)
            && g.rewritten.Keys <= f.rewritten.Keys +
                 (if c.Normal() && c.dup && !c.denied && (m.sparse || m.outOfOrder) then {c.item.fp} else {})
  {
    if c.Normal() {
      var c1 := Resolve(f, c).value;
      if WriteChunk(cfg, f, c1).Done? {
        WriteTables(cfg, base, f, c1);
      }
    }
    hide WriteChunk;
  }

  /** The fingerprints of the marked duplicates among the first `n` chunks. */
  function Marked(cs: seq<Chunk>, marks: seq<Mark>, n: nat): set<Fp>
    requires n <= |cs| == |marks|
  {
    set i | 0 <= i < n && cs[i].Normal() && cs[i].dup && !cs[i].denied && (marks[i].sparse || marks[i].outOfOrder) :: cs[i].item.fp
  }

  lemma {:induction false} MarkedNext(cs: seq<Chunk>, marks: seq<Mark>, n: nat)
    requires n < |cs| == |marks|
    ensures Marked(cs, marks, n + 1) == Marked(cs, marks, n) +
              (if cs[n].Normal() && cs[n].dup && !cs[n].denied && (marks[n].sparse || marks[n].outOfOrder) then {cs[n].item.fp} else {})
  {
  }

  lemma {:induction false} PrefixTables(cfg: Config, base: int, f: Filter, cs: seq<Chunk>, marks: seq<Mark>, n: nat)
    requires cfg.ratio > 0 && n <= |cs| == |marks| && FilterPrefix(cfg, f, cs, marks, n).Done?
    requires Tables(base, f) && f.rewritten == map[]
    ensures var g := FilterPrefix(cfg, f, cs, marks, n).value.0;
            Tables(base, g) && g.rewritten.Keys <= Marked(cs, marks, n)
  {
    hide FilterChunk, Tables, Marked, Fragmented;
    if n > 0 {
      PrefixTables(cfg, base, f, cs, marks, n - 1);
      ChunkTables(cfg, base, FilterPrefix(cfg, f, cs, marks, n - 1).value.0, cs[n - 1], marks[n - 1]);
      MarkedNext(cs, marks, n - 1);
    }
  }

  lemma {:induction false} PrefixAt(cfg: Config, f: Filter, cs: seq<Chunk>, marks: seq<Mark>, n: nat, i: nat)
    requires cfg.ratio > 0 && i < n <= |cs| == |marks| && FilterPrefix(cfg, f, cs, marks, n).Done?
    ensures FilterPrefix(cfg, f, cs, marks, i).Done?
    ensures var g := FilterPrefix(cfg, f, cs, marks, i).value.0;
            && FilterChunk(cfg, g, cs[i], marks[i]).Done?
            && FilterPrefix(cfg, f, cs, marks, n).value.1[i] == FilterChunk(cfg, g, cs[i], marks[i]).value.1
  {
    hide FilterChunk;
    if i < n - 1 {
      PrefixAt(cfg, f, cs, marks, n - 1, i);
    }
  }

  /**
   * Over a whole segment. A fragmented duplicate that is not denied is given a container that was open, or was opened,
   * while the segment was filtered. A duplicate with a real id that is not fragmented keeps it, unless an earlier copy in
   * the segment was marked.
   */
  lemma {:induction false} SegmentDecides(cfg: Config, f: Filter, cs: seq<Chunk>, marks: seq<Mark>, i: nat)
    requires cfg.ratio > 0 && i < |cs| == |marks| && FilterPrefix(cfg, f, cs, marks, |cs|).Done?
    requires f.rewritten == map[] && (f.store.open.Some? ==> f.store.open.value.id < f.store.nextId)
    requires cs[i].Normal() && cs[i].dup
    ensures FilterPrefix(cfg, f, cs, marks, i).Done?
    ensures var seen := FilterPrefix(cfg, f, cs, marks, i).value.0.seen;
            var fragmented := Fragmented(marks[i], marks[i].inCache && cs[i].id in seen);
            var d := FilterPrefix(cfg, f, cs, marks, |cs|).value.1[i];
            && (!cs[i].denied && fragmented ==> d.id >= Frontier(f.store))
            && ((cs[i].denied || !fragmented) && cs[i].id != TEMPORARY_ID && cs[i].item.fp !in Marked(cs, marks, i) ==>
                  d.id == cs[i].id)
  {
    var base := Frontier(f.store);
    PrefixAt(cfg, f, cs, marks, |cs|, i);
    PrefixTables(cfg, base, f, cs, marks, i);
    hide FilterPrefix, FilterChunk, Tables, Marked, Fragmented;
    var g := FilterPrefix(cfg, f, cs, marks, i).value.0;
    ChunkTables(cfg, base, g, cs[i], marks[i]);
    FilterDecides(cfg, g, cs[i], marks[i]);
  }

  lemma {:induction false} RewrittenStays(cfg: Config, f: Filter, cs: seq<Chunk>, marks: seq<Mark>, i: nat, j: nat,
                                          fp: Fp)
    requires cfg.ratio > 0 && i <= j <= |cs| == |marks| && FilterPrefix(cfg, f, cs, marks, j).Done?
    requires FilterPrefix(cfg, f, cs, marks, i).Done? && fp in FilterPrefix(cfg, f, cs, marks, i).value.0.rewritten
    ensures var g, h := FilterPrefix(cfg, f, cs, marks, i).value.0, FilterPrefix(cfg, f, cs, marks, j).value.0;
            fp in h.rewritten && h.rewritten[fp] == g.rewritten[fp]
  {
    hide FilterChunk;
    if i < j {
      RewrittenStays(cfg, f, cs, marks, i, j - 1, fp);
      var h := FilterPrefix(cfg, f, cs, marks, j - 1).value.0;
      if cs[j - 1].Normal() {
        WritesOnce(cfg, h, cs[j - 1], marks[j - 1]);
      } else {
        MarkPasses(cfg, h, cs[j - 1], marks[j - 1]);
      }
    }
  }

  lemma {:induction false} MarkPasses(cfg: Config, f: Filter, c: Chunk, m: Mark)
    requires cfg.ratio > 0 && !c.Normal()
    ensures FilterChunk(cfg, f, c, m) == Done((f, c))
  {
  }

  /** A fingerprint is rewritten at most once in a segment: later duplicates point to the copy and write nothing. */
  lemma {:induction false} OneRewritePerSegment(cfg: Config, f: Filter, cs: seq<Chunk>, marks: seq<Mark>, i: nat,
                                                j: nat)
    requires cfg.ratio > 0 && i < j < |cs| == |marks| && FilterPrefix(cfg, f, cs, marks, |cs|).Done?
    requires cs[i].Normal() && cs[i].dup && cs[j].Normal() && cs[j].dup && cs[i].item.fp == cs[j].item.fp
    ensures forall n | n in {i, i + 1, j, j + 1} :: FilterPrefix(cfg, f, cs, marks, n).Done?
    ensures var g, g', h, h' := FilterPrefix(cfg, f, cs, marks, i).value.0, FilterPrefix(cfg, f, cs, marks, i + 1).value.0,
                FilterPrefix(cfg, f, cs, marks, j).value.0, FilterPrefix(cfg, f, cs, marks, j + 1).value.0;
            var out := FilterPrefix(cfg, f, cs, marks, |cs|).value.1;
            g'.store != g.store ==> out[j].id == out[i].id && h'.store == h.store && h'.kv == h.kv
  {
    hide FilterChunk, Fragmented;
    PrefixAt(cfg, f, cs, marks, |cs|, i);
    PrefixAt(cfg, f, cs, marks, |cs|, j);
    var g, h := FilterPrefix(cfg, f, cs, marks, i).value.0, FilterPrefix(cfg, f, cs, marks, j).value.0;
    PrefixNext(cfg, f, cs, marks, i);
    PrefixNext(cfg, f, cs, marks, j);
    hide FilterPrefix;
    WritesOnce(cfg, g, cs[i], marks[i]);
    if FilterPrefix(cfg, f, cs, marks, i + 1).value.0.store != g.store {
      RewrittenStays(cfg, f, cs, marks, i + 1, j, cs[i].item.fp);
      WritesOnce(cfg, h, cs[j], marks[j]);
      FilterDecides(cfg, h, cs[j], marks[j]);
    }
  }

  lemma {:induction false} PrefixNext(cfg: Config, f: Filter, cs: seq<Chunk>, marks: seq<Mark>, n: nat)
    requires cfg.ratio > 0 && n < |cs| == |marks| && FilterPrefix(cfg, f, cs, marks, n).Done?
    requires FilterChunk(cfg, FilterPrefix(cfg, f, cs, marks, n).value.0, cs[n], marks[n]).Done?
    ensures FilterPrefix(cfg, f, cs, marks, n + 1).Done?
    ensures FilterPrefix(cfg, f, cs, marks, n + 1).value.0
         == FilterChunk(cfg, FilterPrefix(cfg, f, cs, marks, n).value.0, cs[n], marks[n]).value.0
  {
    hide FilterChunk;
  }

  // ---------------------------------------------------------------- the filter step

  /** index_check_buffer on a marked duplicate: it is left alone, or denied and given the later id at its queue's head. */
  lemma {:induction false} CheckMarked(buffer: map<Fp, seq<int>>, s: Chunk, m: Mark)
    requires s.Normal() && s.dup && s.id != TEMPORARY_ID && CheckChunk(buffer, s, m).Done?
    ensures var c := CheckChunk(buffer, s, m).value;
            && c.item == s.item && c.dup
            && (c == s || (c.denied && c.id > s.id && (m.sparse || m.outOfOrder)))
            && (!m.sparse && !m.outOfOrder ==> c == s)
  {
  }

  lemma {:induction false} FrontierOk(cfg: Config, content: Content, st: State)
    requires Inv(cfg, content, st)
    ensures st.store.open.Some? ==> st.store.open.value.id < st.store.nextId
  {
    InvStore(cfg, content, st);
  }

  /**
   * One filter step, whatever else is marked. A duplicate in a container that is no longer written to, not denied at
   * lookup: if it is sparse, or out of order with rewriting on and no cached container, its pointer moves to a later
   * container. If it is not marked, and no copy before it in the segment is, its pointer stays.
   */
  lemma {:induction false} MarkedMovesOn(cfg: Config, content: Content, st: State, marks: seq<Mark>, i: nat)
    requires cfg.ratio > 0 && Inv(cfg, content, st)
    requires st.running && st.inflight != [] && i < |marks| == |st.inflight[0]|
    requires var s := st.inflight[0][i]; s.Normal() && s.dup && 0 <= s.id < Frontier(st.store)
    ensures FilterOldest(cfg, st, marks).Done?
    ensures var t := FilterOldest(cfg, st, marks).value;
            var s, k, m := st.inflight[0][i], |st.filtered| + i, marks[i];
            && |t.filtered| == |st.filtered| + |marks| && t.filtered[k].item == s.item
            && (!s.denied && (m.sparse || (m.enabled && m.outOfOrder && !m.inCache)) ==> t.filtered[k].id > s.id)
            && (!m.sparse && !m.outOfOrder && s.item.fp !in Marked(st.inflight[0], marks, i) ==> t.filtered[k].id == s.id)
  {
    hide Inv, CheckPrefix, FilterPrefix, UpdatePrefix, R.RecordPrefix, Held, Settled, FilterOldest, Marked, Fragmented, Frontier;
    var seg := st.inflight[0];
    var cs, g, out := FilterParts(cfg, content, st, marks);
    SettledShape(Held(g.store), seg, out);
    FrontierOk(cfg, content, st);
    CheckAt(st.index.buffer, seg, marks, |seg|, i);
    CheckMarked(st.index.buffer, seg[i], marks[i]);
    SegmentDecides(cfg, StartFilter(st), cs, marks, i);
    MarkedSubset(st.index.buffer, seg, cs, marks, i);
    CachedMark(marks[i], cs[i].id in FilterPrefix(cfg, StartFilter(st), cs, marks, i).value.0.seen);
    if cs[i].denied && cs[i] != seg[i] {
      DeniedKeeps(cfg, StartFilter(st), cs, marks, i);
    }
  }

  lemma {:induction false} CachedMark(m: Mark, seen: bool)
    ensures m.sparse || (m.enabled && m.outOfOrder && !m.inCache) ==> Fragmented(m, m.inCache && seen)
    ensures !m.sparse && !m.outOfOrder ==> !Fragmented(m, m.inCache && seen)
  {
  }

  /** Checking may deny more chunks, never fewer. */
  lemma {:induction false} MarkedSubset(buffer: map<Fp, seq<int>>, seg: seq<Chunk>, cs: seq<Chunk>, marks: seq<Mark>,
                                        n: nat)
    requires n <= |seg| == |marks| == |cs| && CheckPrefix(buffer, seg, marks, |seg|) == Done(cs)
    ensures Marked(cs, marks, n) <= Marked(seg, marks, n)
  {
    forall i | 0 <= i < n
      ensures cs[i].item == seg[i].item && cs[i].dup == seg[i].dup && (!cs[i].denied ==> !seg[i].denied)
    {
      CheckAt(buffer, seg, marks, |seg|, i);
    }
  }

  /** A denied duplicate keeps the id it was given, or takes that of a copy rewritten in this segment. */
  lemma {:induction false} DeniedKeeps(cfg: Config, f: Filter, cs: seq<Chunk>, marks: seq<Mark>, i: nat)
    requires cfg.ratio > 0 && i < |cs| == |marks| && FilterPrefix(cfg, f, cs, marks, |cs|).Done?
    requires f.rewritten == map[] && (f.store.open.Some? ==> f.store.open.value.id < f.store.nextId)
    requires cs[i].Normal() && cs[i].dup && cs[i].denied && cs[i].id != TEMPORARY_ID
    ensures var d := FilterPrefix(cfg, f, cs, marks, |cs|).value.1[i];
            d.id == cs[i].id || d.id >= Frontier(f.store)
  {
    var base := Frontier(f.store);
    PrefixAt(cfg, f, cs, marks, |cs|, i);
    PrefixTables(cfg, base, f, cs, marks, i);
    hide FilterPrefix, FilterChunk, Marked, Fragmented, Frontier;
    var g := FilterPrefix(cfg, f, cs, marks, i).value.0;
    FilterDecides(cfg, g, cs[i], marks[i]);
  }

  // ---------------------------------------------------------------- sampling

  /** The key of a fingerprint: its first keySize bytes. */
  lemma {:induction false} KeyIsPrefix(fp: Fp, keySize: nat)
    ensures keySize <= |fp| ==> KeyOf(fp, keySize) == fp[..keySize]
    ensures keySize >= |fp| ==> KeyOf(fp, keySize) == fp
  {
  }

  /**
   * Closing a container: the key of every ratio-th chunk, in the order they were added, now names it; every other key
   * names what it named before.
   */
  lemma {:induction false} ClosingSamples(cfg: Config, s: Store, kv: map<Key, int>, keys: set<Key>)
    requires cfg.ratio > 0 && s.open.Some?
    requires forall k :: k in keys <==>
               exists j: nat :: j * cfg.ratio < |s.open.value.order| && KeyOf(s.open.value.order[j * cfg.ratio], cfg.keySize) == k
    ensures var kv' := CloseOpen(cfg, s, kv).1;
            && (forall k | k in keys :: k in kv' && kv'[k] == s.open.value.id)
            && (forall k | k !in keys :: (k in kv' <==> k in kv) && (k in kv ==> kv'[k] == kv[k]))
  {
    var order := s.open.value.order;
    forall k
      ensures k in keys <==> k in Features(order, cfg)
    {
      Sampled(order, cfg, k);
    }
    hide Features, KeyOf;
  }

  lemma {:induction false} Sampled(order: seq<Fp>, cfg: Config, k: Key)
    requires cfg.ratio > 0
    ensures k in Features(order, cfg) <==>
              exists j: nat :: j * cfg.ratio < |order| && KeyOf(order[j * cfg.ratio], cfg.keySize) == k
  {
    hide KeyOf;
    if j: nat :| j * cfg.ratio < |order| && KeyOf(order[j * cfg.ratio], cfg.keySize) == k {
      ModUnique(j * cfg.ratio, cfg.ratio, j, 0);
      SampledAt(order, cfg, j * cfg.ratio);
    }
    if k in Features(order, cfg) {
      var i :| 0 <= i < |order| && i % cfg.ratio == 0 && KeyOf(order[i], cfg.keySize) == k;
      var j: nat := i / cfg.ratio;
      assert i == j * cfg.ratio;
    }
  }

  lemma {:induction false} SampledAt(order: seq<Fp>, cfg: Config, i: nat)
    requires cfg.ratio > 0 && i < |order| && i % cfg.ratio == 0
    ensures KeyOf(order[i], cfg.keySize) in Features(order, cfg)
  {
    hide KeyOf;
  }

  /** The container that is open when a backup ends is sampled as well. */
  lemma {:induction false} FinishSamples(cfg: Config, st: State, keys: set<Key>)
    requires cfg.ratio > 0 && st.running && st.inflight == [] && R.Scan(Items(st.filtered)) == R.Outside
    requires st.store.open.Some? && st.store.open.value.entries != map[]
    requires forall k :: k in keys <==>
               exists j: nat :: j * cfg.ratio < |st.store.open.value.order|
                                && KeyOf(st.store.open.value.order[j * cfg.ratio], cfg.keySize) == k
    ensures var kv, kv' := st.index.kv, Finish(cfg, st).index.kv;
            && (forall k | k in keys :: k in kv' && kv'[k] == st.store.open.value.id)
            && (forall k | k !in keys :: (k in kv' <==> k in kv) && (k in kv ==> kv'[k] == kv[k]))
  {
    ClosingSamples(cfg, st.store, st.index.kv, keys);
    hide CloseOpen, Closed, R.Scan, Items, KeyOf;
  }

  /** A container that has no room for the next chunk is sampled and closed; otherwise nothing is sampled. */
  lemma {:induction false} RollOverSamples(cfg: Config, s: Store, kv: map<Key, int>, size: int, keys: set<Key>)
    requires cfg.ratio > 0 && s.open.Some?
    requires forall k :: k in keys <==>
               exists j: nat :: j * cfg.ratio < |s.open.value.order| && KeyOf(s.open.value.order[j * cfg.ratio], cfg.keySize) == k
    ensures var c := s.open.value;
            var full := c.dataSize + size > CONTAINER_SIZE - CONTAINER_META_SIZE
                        || (|c.entries| + 1) * 28 + 16 > CONTAINER_META_SIZE;
            var (t, kv') := MakeRoom(cfg, s, kv, size);
            && (full ==> t.open == Some(NewContainer(s.nextId)) && t.pending == s.pending + [c])
            && (full ==> forall k | k in keys :: k in kv' && kv'[k] == c.id)
            && (full ==> forall k | k !in keys :: (k in kv' <==> k in kv) && (k in kv ==> kv'[k] == kv[k]))
            && (!full ==> t == s && kv' == kv)
  {
    ClosingSamples(cfg, s, kv, keys);
    hide Features, KeyOf;
  }
}
