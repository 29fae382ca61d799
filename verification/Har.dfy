/**
 * History-aware rewriting with an exact index and rewriting otherwise off: a sparse mark asks for a chunk to be written
 * again, and yet no chunk is ever written into a container that already holds it. This is the assert at filter_phase.c:186.
 */
module Har {
  import opened Common
  import opened Containers
  import opened Machine
  import opened InFlight
  import opened StoreInvariant
  import opened FilterInvariant
  import opened Safety
  import R = Recipes

  /** Containers below `base` are older than the running backup; `sparse` are the inherited sparse ones among them. */
  datatype Era = Era(base: int, sparse: set<int>) {
    predicate Valid() {
      base >= 0 && forall id | id in sparse :: 0 <= id < base
    }

    predicate Old(id: int) {
      id != TEMPORARY_ID && id < base
    }
  }

  /** har_check, and no other mark: a duplicate is sparse exactly when its container is an inherited sparse one. */
  predicate HarMark(sparse: set<int>, c: Chunk, m: Mark) {
    !m.outOfOrder && (m.sparse <==> c.Normal() && c.dup && c.id in sparse)
  }

  // ---------------------------------------------------------------- the copies of one fingerprint in flight

  function Head(buffer: map<Fp, seq<int>>, fp: Fp): int {
    if fp in buffer && buffer[fp] != [] then buffer[fp][0] else TEMPORARY_ID
  }

  /** What the id at the head of the queue says about a copy in flight. */
  predicate CopyOk(e: Era, head: int, id: int) {
    if head == TEMPORARY_ID then id == TEMPORARY_ID
    else if head < e.base then id == head
    else id == TEMPORARY_ID || id >= e.base || id in e.sparse
  }

  /**
   * Behind a temporary head all copies are temporary. Behind an old head all copies have its id and none has been
   * written by this backup. Behind a new head no copy has an old id, unless it is a sparse one.
   */
  ghost predicate CopiesOk(e: Era, buffer: map<Fp, seq<int>>, open: set<Fp>, flat: seq<Chunk>, fp: Fp) {
    fp in buffer ==>
      && (e.Old(Head(buffer, fp)) ==> fp !in open)
      && forall c | c in flat && c.Has(fp) :: CopyOk(e, Head(buffer, fp), c.id)
  }

  ghost predicate HarFlight(e: Era, buffer: map<Fp, seq<int>>, open: set<Fp>, flat: seq<Chunk>) {
    forall fp :: CopiesOk(e, buffer, open, flat, fp)
  }

  /** What this backup creates is new. */
  predicate StoreNew(e: Era, s: Store) {
    e.base <= s.nextId && (s.open.Some? ==> s.open.value.id >= e.base)
  }

  // ---------------------------------------------------------------- lookup

  lemma {:induction false} FreshIsUnique(cs: seq<Chunk>, fp: Fp)
    requires Fresh(cs, fp)
    ensures fp in UniqueFps(cs)
  {
    if cs[0].Has(fp) {
      assert cs[0] in cs;
    } else {
      FreshIsUnique(cs[1..], fp);
      assert cs == [cs[0]] + cs[1..];
      FpSetConcat([cs[0]], cs[1..]);
    }
  }

  /** A fingerprint in the open container takes its id; otherwise one in flight takes the head's. */
  lemma {:induction false} FoundWhere(cfg: Config, s: Store, ix: Index, fp: Fp)
    requires FindDuplicate(cfg, s, ix, fp).Done?
    ensures var f := FindDuplicate(cfg, s, ix, fp).value;
            && (fp in OpenFps(s) ==> f.id == s.open.value.id)
            && (fp !in OpenFps(s) && fp in ix.buffer ==> f.id == Head(ix.buffer, fp))
  {
    hide CacheLookup, Retrieve, KeyOf;
  }

  lemma {:induction false} PushCopies(e: Era, buffer: map<Fp, seq<int>>, open: set<Fp>, flat: seq<Chunk>, c: Chunk, fp: Fp)
    requires CopiesOk(e, buffer, open, flat, fp) && c.Normal()
    requires var x := c.item.fp;
             && (x in open ==> c.id >= e.base >= 0)
             && (x !in open && x in buffer ==> c.id == Head(buffer, x))
             && (x in open && x in buffer ==> Head(buffer, x) != TEMPORARY_ID)
             && (x in buffer ==> buffer[x] != [])
             && (x !in buffer ==> forall d | d in flat :: !d.Has(x))
    ensures CopiesOk(e, Push(buffer, c.item.fp, c.id), open, flat + [c], fp)
  {
    var x, buffer' := c.item.fp, Push(buffer, c.item.fp, c.id);
    if fp == x {
      assert Head(buffer', x) == if x in buffer then Head(buffer, x) else c.id;
    } else {
      assert Head(buffer', fp) == Head(buffer, fp);
    }
  }

  lemma {:induction false} FlightFacts(cfg: Config, content: Content, s: Store, ix: Index, flat: seq<Chunk>, fp: Fp)
    requires IndexOk(cfg, content, s, ix, flat)
    ensures fp in ix.buffer ==> ix.buffer[fp] != []
    ensures fp in ix.buffer && Head(ix.buffer, fp) == TEMPORARY_ID ==> fp !in OpenFps(s)
    ensures fp !in ix.buffer ==> forall d | d in flat :: !d.Has(fp)
  {
    hide StoreOk, KvOk, CacheOk, Held;
    assert QueueOf(Held(s), ix.buffer, flat, fp);
    if fp in ix.buffer && Head(ix.buffer, fp) == TEMPORARY_ID {
      FreshIsUnique(flat, fp);
    }
  }

  lemma {:induction false} LookupChunkHar(cfg: Config, content: Content, e: Era, s: Store, ix: Index, flat: seq<Chunk>, item: Item)
    requires IndexOk(cfg, content, s, ix, flat) && e.Valid() && StoreNew(e, s)
    requires HarFlight(e, ix.buffer, OpenFps(s), flat)
    ensures LookupChunk(cfg, s, ix, item).Done?
    ensures var (jx, c) := LookupChunk(cfg, s, ix, item).value; HarFlight(e, jx.buffer, OpenFps(s), flat + [c])
  {
    hide IndexOk, FindDuplicate, Push, CopiesOk, Head;
    LookupChunkOk(cfg, content, s, ix, flat, item);
    var (jx, c) := LookupChunk(cfg, s, ix, item).value;
    if item.Piece? {
      FoundWhere(cfg, s, ix, item.fp);
      FlightFacts(cfg, content, s, ix, flat, item.fp);
      forall fp
        ensures CopiesOk(e, jx.buffer, OpenFps(s), flat + [c], fp)
      {
        PushCopies(e, ix.buffer, OpenFps(s), flat, c, fp);
      }
    } else {
      forall fp
        ensures CopiesOk(e, jx.buffer, OpenFps(s), flat + [c], fp)
      {
        MarkCopies(e, ix.buffer, OpenFps(s), flat, c, fp);
      }
    }
  }

  lemma {:induction false} MarkCopies(e: Era, buffer: map<Fp, seq<int>>, open: set<Fp>, flat: seq<Chunk>, c: Chunk, fp: Fp)
    requires CopiesOk(e, buffer, open, flat, fp) && !c.Normal()
    ensures CopiesOk(e, buffer, open, flat + [c], fp)
  {
  }

  lemma {:induction false} LookupPrefixHar(cfg: Config, content: Content, e: Era, s: Store, ix: Index, flat: seq<Chunk>,
                                           items: seq<Item>, n: nat)
    requires n <= |items| && IndexOk(cfg, content, s, ix, flat) && e.Valid() && StoreNew(e, s)
    requires HarFlight(e, ix.buffer, OpenFps(s), flat)
    ensures LookupPrefix(cfg, s, ix, items, n).Done?
    ensures var (jx, cs) := LookupPrefix(cfg, s, ix, items, n).value; HarFlight(e, jx.buffer, OpenFps(s), flat + cs)
  {
    hide IndexOk, LookupChunk, HarFlight;
    if n == 0 {
      assert flat + [] == flat;
    } else {
      LookupPrefixHar(cfg, content, e, s, ix, flat, items, n - 1);
      LookupPrefixOk(cfg, content, s, ix, flat, items, n - 1);
      var (jx, cs) := LookupPrefix(cfg, s, ix, items, n - 1).value;
      LookupChunkHar(cfg, content, e, s, jx, flat + cs, items[n - 1]);
      var c := LookupChunk(cfg, s, jx, items[n - 1]).value.1;
      assert flat + (cs + [c]) == (flat + cs) + [c];
    }
  }

  // ---------------------------------------------------------------- the filter loop, one chunk

  ghost predicate TablesNew(e: Era, f: Filter) {
    && (forall fp | fp in f.unique :: f.unique[fp] >= e.base)
    && (forall fp | fp in f.rewritten :: f.rewritten[fp] >= e.base)
  }

  /** The loop rewrites only copies behind an old sparse head, and what it stores of an old fingerprint it remembers. */
  ghost predicate LoopOk(e: Era, buffer: map<Fp, seq<int>>, g: Filter) {
    && StoreNew(e, g.store) && TablesNew(e, g)
    && (forall fp | fp in g.rewritten :: e.Old(Head(buffer, fp)) && Head(buffer, fp) in e.sparse)
    && (forall fp | fp in OpenFps(g.store) && e.Old(Head(buffer, fp)) :: fp in g.rewritten)
  }

  /** The id a copy leaves the loop with: new, or the old one it came with if nothing was rewritten. */
  predicate IdAfter(e: Era, head: int, rewritten: bool, id: int) {
    || (id >= e.base && (e.Old(head) ==> head in e.sparse))
    || (e.Old(head) && id == head && !rewritten)
  }

  /** What the loop decides about a duplicate `c`, which came from `s` in flight. */
  lemma {:induction false} DuplicateHar(e: Era, buffer: map<Fp, seq<int>>, g: Filter, s: Chunk, c: Chunk, m: Mark, m': Mark)
    requires e.Valid() && LoopOk(e, buffer, g) && s.Normal() && s.dup && HarMark(e.sparse, s, m)
    requires m' == m.(inCache := m'.inCache) && CopyOk(e, Head(buffer, s.item.fp), s.id)
    requires CheckChunk(buffer, s, m) == Done(c) && Resolve(g, c).Done?
    requires c.id == TEMPORARY_ID ==> s.item.fp in g.unique
    ensures var c1 := Resolve(g, c).value;
            var h, done := Head(buffer, s.item.fp), s.item.fp in g.rewritten;
            && c1.dup && c1.item == s.item
            && (MustWrite(c1, m') ==> e.Old(h) && h in e.sparse && !done)
            && (!MustWrite(c1, m') ==> IdAfter(e, h, done, c1.id))
  {
    hide StoreNew, OpenFps;
  }

  lemma {:induction false} RoomNew(cfg: Config, e: Era, s: Store, kv: map<Key, int>, size: int)
    requires cfg.ratio > 0 && StoreNew(e, s)
    ensures var (t, kv') := MakeRoom(cfg, s, kv, size);
            StoreNew(e, t) && t.open.Some? && OpenFps(t) <= OpenFps(s)
  {
    hide Overflow, Features;
  }

  /** Writing a chunk the open container does not hold: a new id, remembered, and line 186 is not reached. */
  lemma {:induction false} WriteHar(cfg: Config, e: Era, g: Filter, c: Chunk)
    requires cfg.ratio > 0 && StoreNew(e, g.store) && TablesNew(e, g)
    requires c.Normal() && c.item.fp !in OpenFps(g.store) && WriteChunk(cfg, g, c).Done?
    ensures var (h, d) := WriteChunk(cfg, g, c).value;
            && StoreNew(e, h.store) && TablesNew(e, h) && d.id >= e.base && h.tripped == g.tripped
            && OpenFps(h.store) <= OpenFps(g.store) + {c.item.fp}
            && h.rewritten.Keys == g.rewritten.Keys + (if c.dup then {c.item.fp} else {})
  {
    hide MakeRoom, Overflow;
    RoomNew(cfg, e, g.store, g.kv, |c.item.data|);
  }

  lemma {:induction false} WrittenLoop(e: Era, buffer: map<Fp, seq<int>>, g: Filter, h: Filter, c: Chunk)
    requires LoopOk(e, buffer, g) && StoreNew(e, h.store) && TablesNew(e, h) && c.Normal()
    requires OpenFps(h.store) <= OpenFps(g.store) + {c.item.fp}
    requires h.rewritten.Keys == g.rewritten.Keys + (if c.dup then {c.item.fp} else {})
    requires c.dup <==> e.Old(Head(buffer, c.item.fp))
    requires c.dup ==> Head(buffer, c.item.fp) in e.sparse
    ensures LoopOk(e, buffer, h)
  {
    hide StoreNew, TablesNew, OpenFps, Head;
  }

  /** One normal chunk of the loop. */
  lemma {:induction false} FilterChunkHar(cfg: Config, content: Content, e: Era, buffer: map<Fp, seq<int>>, g: Filter,
                                          s: Chunk, c: Chunk, m: Mark)
    requires cfg.ratio > 0 && FilterOk(cfg, content, g) && e.Valid() && LoopOk(e, buffer, g)
    requires s.Normal() && Genuine(s.item, content) && HarMark(e.sparse, s, m)
    requires CopyOk(e, Head(buffer, s.item.fp), s.id) && (!s.dup ==> s.id == TEMPORARY_ID)
    requires CheckChunk(buffer, s, m) == Done(c) && c.item == s.item && c.dup == s.dup
    requires Ready(Held(g.store), OpenFps(g.store), g.unique.Keys, c)
    ensures FilterChunk(cfg, g, c, m).Done?
    ensures var (h, d) := FilterChunk(cfg, g, c, m).value;
            && LoopOk(e, buffer, h) && h.tripped == g.tripped && h.rewritten.Keys <= g.rewritten.Keys + {s.item.fp}
            && IdAfter(e, Head(buffer, s.item.fp), s.item.fp in h.rewritten, d.id)
  {
    hide FilterOk, Held, Closed, WriteChunk, Resolve, MustWrite, CheckChunk, OpenFps, Head, StoreNew, TablesNew, LoopOk,
      Ready, FilterChunk, IdAfter, CopyOk, HarMark, Wrote, Stored;
    FilterChunkOk(cfg, content, g, c, m);
    FilterChunkShape(cfg, g, c, m);
    var fp := s.item.fp;
    var m' := m.(inCache := m.inCache && c.id in g.seen);
    var c1 := Resolve(g, c).value;
    LoopParts(e, buffer, g, fp);
    ResolveOk(cfg, content, g, c);
    if s.dup {
      ReadyTable(g, c);
      DuplicateHar(e, buffer, g, s, c, m, m');
      if MustWrite(c1, m') {
        WrittenHar(cfg, content, e, buffer, g, c1);
      } else {
        SeenLoop(e, buffer, g, c1.id);
      }
    } else {
      WritesUnique(c1, m');
      UniqueHead(e, Head(buffer, fp), s.id);
      WrittenHar(cfg, content, e, buffer, g, c1);
    }
  }

  /** FilterChunk unfolded, with its parts by name. */
  lemma {:induction false} FilterChunkShape(cfg: Config, f: Filter, c: Chunk, m: Mark)
    requires cfg.ratio > 0 && c.Normal() && FilterChunk(cfg, f, c, m).Done?
    ensures Resolve(f, c).Done?
    ensures var c1 := Resolve(f, c).value;
            var m' := m.(inCache := m.inCache && c.id in f.seen);
            if MustWrite(c1, m') then
              && WriteChunk(cfg, f, c1).Done?
              && var (h, d) := WriteChunk(cfg, f, c1).value;
                 FilterChunk(cfg, f, c, m).value == (h.(seen := h.seen + {d.id}), d)
            else FilterChunk(cfg, f, c, m).value == (f.(seen := f.seen + {c1.id}), c1)
  {
    hide Resolve, MustWrite, WriteChunk;
  }

  /** For any marks: line 186 fails on a chunk exactly when it is to be written and the container with room for it holds it. */
  lemma {:induction false} TripsExactly(cfg: Config, f: Filter, c: Chunk, m: Mark)
    requires cfg.ratio > 0 && c.Normal() && FilterChunk(cfg, f, c, m).Done? && Resolve(f, c).Done?
    ensures FilterChunk(cfg, f, c, m).value.0.tripped <==>
              || f.tripped
              || (cfg.exact && cfg.rewriteOff && MustWrite(Resolve(f, c).value, m.(inCache := m.inCache && c.id in f.seen))
                  && c.item.fp in OpenFps(MakeRoom(cfg, f.store, f.kv, |c.item.data|).0))
  {
    FilterChunkShape(cfg, f, c, m);
    hide MustWrite, FilterChunk, Overflow, Features, Add;
  }

  lemma {:induction false} ReadyTable(g: Filter, c: Chunk)
    requires c.Normal() && c.dup && Ready(Held(g.store), OpenFps(g.store), g.unique.Keys, c)
    ensures c.id == TEMPORARY_ID ==> c.item.fp in g.unique
  {
    hide Held;
  }

  lemma {:induction false} UniqueHead(e: Era, head: int, id: int)
    requires CopyOk(e, head, id) && id == TEMPORARY_ID && e.Valid()
    ensures !e.Old(head)
  {
  }

  /** The chunk is written: a unique one, or the first copy behind an old sparse head. */
  lemma {:induction false} WrittenHar(cfg: Config, content: Content, e: Era, buffer: map<Fp, seq<int>>, g: Filter, c: Chunk)
    requires cfg.ratio > 0 && LoopOk(e, buffer, g) && c.Normal()
    requires c.item.fp !in OpenFps(g.store) && WriteChunk(cfg, g, c).Done?
    requires c.dup <==> e.Old(Head(buffer, c.item.fp))
    requires c.dup ==> Head(buffer, c.item.fp) in e.sparse
    ensures var (h, d) := WriteChunk(cfg, g, c).value;
            && LoopOk(e, buffer, h.(seen := h.seen + {d.id})) && h.tripped == g.tripped
            && h.rewritten.Keys <= g.rewritten.Keys + {c.item.fp}
            && IdAfter(e, Head(buffer, c.item.fp), c.item.fp in h.rewritten, d.id)
  {
    hide WriteChunk, OpenFps, Head, StoreNew, TablesNew, LoopOk;
    LoopParts(e, buffer, g, c.item.fp);
    WriteHar(cfg, e, g, c);
    var (h, d) := WriteChunk(cfg, g, c).value;
    WrittenLoop(e, buffer, g, h, c);
    SeenLoop(e, buffer, h, d.id);
  }

  lemma {:induction false} LoopParts(e: Era, buffer: map<Fp, seq<int>>, g: Filter, fp: Fp)
    requires LoopOk(e, buffer, g)
    ensures StoreNew(e, g.store) && TablesNew(e, g)
    ensures e.Old(Head(buffer, fp)) && fp !in g.rewritten ==> fp !in OpenFps(g.store)
  {
  }

  lemma {:induction false} SeenLoop(e: Era, buffer: map<Fp, seq<int>>, g: Filter, id: int)
    requires LoopOk(e, buffer, g)
    ensures LoopOk(e, buffer, g.(seen := g.seen + {id}))
  {
  }

  // ---------------------------------------------------------------- the filter loop, a whole segment

  /** The id of the last copy of `fp`. */
  function LastId(out: seq<Chunk>, fp: Fp): int {
    if out == [] then TEMPORARY_ID
    else if out[|out| - 1].Has(fp) then out[|out| - 1].id
    else LastId(out[..|out| - 1], fp)
  }

  lemma {:induction false} LastIdSnoc(out: seq<Chunk>, d: Chunk, fp: Fp)
    ensures LastId(out + [d], fp) == if d.Has(fp) then d.id else LastId(out, fp)
  {
    assert (out + [d])[..|out|] == out;
  }

  ghost predicate HarProgress(e: Era, buffer: map<Fp, seq<int>>, f: Filter, g: Filter, out: seq<Chunk>) {
    && LoopOk(e, buffer, g) && g.tripped == f.tripped
    && forall fp | fp in FpSet(out) :: IdAfter(e, Head(buffer, fp), fp in g.rewritten, LastId(out, fp))
  }

  lemma {:induction false} HarProgressSnoc(e: Era, buffer: map<Fp, seq<int>>, f: Filter, g: Filter, h: Filter,
                                           out: seq<Chunk>, d: Chunk)
    requires HarProgress(e, buffer, f, g, out) && LoopOk(e, buffer, h) && h.tripped == g.tripped
    requires d.Normal() ==> h.rewritten.Keys <= g.rewritten.Keys + {d.item.fp}
                            && IdAfter(e, Head(buffer, d.item.fp), d.item.fp in h.rewritten, d.id)
    requires !d.Normal() ==> h == g
    ensures HarProgress(e, buffer, f, h, out + [d])
  {
    hide LoopOk, FpSet, Head;
    FpSetConcat(out, [d]);
    SingleFps(d);
    forall fp | fp in FpSet(out + [d])
      ensures IdAfter(e, Head(buffer, fp), fp in h.rewritten, LastId(out + [d], fp))
    {
      LastIdSnoc(out, d, fp);
    }
  }

  /** The segment `seg` as the loop finds it: its copies fit the heads, and its marks are HAR's. */
  ghost predicate Inherits(e: Era, buffer: map<Fp, seq<int>>, seg: seq<Chunk>, marks: seq<Mark>)
    requires |marks| == |seg|
  {
    forall i | 0 <= i < |seg| ::
      && HarMark(e.sparse, seg[i], marks[i])
      && (seg[i].Normal() ==> CopyOk(e, Head(buffer, seg[i].item.fp), seg[i].id))
      && (seg[i].Normal() && !seg[i].dup ==> seg[i].id == TEMPORARY_ID)
  }

  lemma {:induction false} InheritsAt(e: Era, buffer: map<Fp, seq<int>>, seg: seq<Chunk>, marks: seq<Mark>, i: nat)
    requires i < |seg| == |marks| && Inherits(e, buffer, seg, marks)
    ensures HarMark(e.sparse, seg[i], marks[i])
    ensures seg[i].Normal() ==> CopyOk(e, Head(buffer, seg[i].item.fp), seg[i].id)
    ensures seg[i].Normal() && !seg[i].dup ==> seg[i].id == TEMPORARY_ID
  {
  }

  lemma {:induction false} HarProgressStart(e: Era, buffer: map<Fp, seq<int>>, f: Filter)
    requires LoopOk(e, buffer, f)
    ensures HarProgress(e, buffer, f, f, [])
  {
    assert FpSet([]) == {};
  }

  lemma {:induction false} FilterPrefixHar(cfg: Config, content: Content, e: Era, buffer: map<Fp, seq<int>>, f: Filter,
                                           seg: seq<Chunk>, cs: seq<Chunk>, marks: seq<Mark>, n: nat)
    requires cfg.ratio > 0 && n <= |cs| == |marks| == |seg| && e.Valid()
    requires FilterOk(cfg, content, f) && f.unique == map[] && f.rewritten == map[] && LoopOk(e, buffer, f)
    requires CheckPrefix(buffer, seg, marks, |seg|) == Done(cs) && SameChunks(seg, cs)
    requires Checked(Held(f.store), OpenFps(f.store), cs) && Inherits(e, buffer, seg, marks)
    requires forall i | 0 <= i < |cs| :: Genuine(cs[i].item, content)
    ensures FilterPrefix(cfg, f, cs, marks, n).Done?
    ensures var (g, out) := FilterPrefix(cfg, f, cs, marks, n).value; HarProgress(e, buffer, f, g, out)
  {
    hide FilterOk, Progress, Held, Closed, FilterChunk, LoopOk, CheckPrefix, CheckChunk, Checked, Genuine, CopyOk, Head, HarMark,
      IdAfter, OpenFps, HarProgress, Inherits, Wrote, Stored;
    if n == 0 {
      HarProgressStart(e, buffer, f);
    } else {
      FilterPrefixHar(cfg, content, e, buffer, f, seg, cs, marks, n - 1);
      FilterPrefixOk(cfg, content, f, cs, marks, n - 1);
      CheckAt(buffer, seg, marks, |seg|, n - 1);
      var (g, out) := FilterPrefix(cfg, f, cs, marks, n - 1).value;
      ReadyNext(f, g, cs, out, n - 1);
      var c, m := cs[n - 1], marks[n - 1];
      FilterChunkOk(cfg, content, g, c, m);
      var (h, d) := FilterChunk(cfg, g, c, m).value;
      ProgressLoop(e, buffer, f, g, out);
      InheritsAt(e, buffer, seg, marks, n - 1);
      if c.Normal() {
        FilterChunkHar(cfg, content, e, buffer, g, seg[n - 1], c, m);
      }
      HarProgressSnoc(e, buffer, f, g, h, out, d);
    }
  }

  lemma {:induction false} ProgressLoop(e: Era, buffer: map<Fp, seq<int>>, f: Filter, g: Filter, out: seq<Chunk>)
    requires HarProgress(e, buffer, f, g, out)
    ensures LoopOk(e, buffer, g) && g.tripped == f.tripped
  {
  }

  // ---------------------------------------------------------------- after the segment

  /** index_update_buffer: the head of a queue that remains is the id of the last copy popped. */
  lemma {:induction false} UpdatedHead(buffer: map<Fp, seq<int>>, out: seq<Chunk>, n: nat, fp: Fp)
    requires n <= |out| && UpdatePrefix(buffer, out, n).Done?
    ensures var b := UpdatePrefix(buffer, out, n).value;
            fp in b ==> fp in buffer && Head(b, fp) == if fp in FpSet(out[..n]) then LastId(out[..n], fp) else Head(buffer, fp)
  {
    if n == 0 {
      assert FpSet(out[..0]) == {};
    } else {
      UpdatedHead(buffer, out, n - 1, fp);
      assert out[..n] == out[..n - 1] + [out[n - 1]];
      FpSetConcat(out[..n - 1], [out[n - 1]]);
      SingleFps(out[n - 1]);
      LastIdSnoc(out[..n - 1], out[n - 1], fp);
      hide FpSet, LastId, UpdatePrefix;
      UpdateOne(buffer, out, n, fp);
    }
  }

  lemma {:induction false} UpdateOne(buffer: map<Fp, seq<int>>, out: seq<Chunk>, n: nat, fp: Fp)
    requires 0 < n <= |out| && UpdatePrefix(buffer, out, n).Done?
    ensures UpdatePrefix(buffer, out, n - 1).Done?
    ensures var a, b := UpdatePrefix(buffer, out, n - 1).value, UpdatePrefix(buffer, out, n).value;
            fp in b ==> fp in a && Head(b, fp) == if out[n - 1].Has(fp) then out[n - 1].id else Head(a, fp)
  {
  }

  /** The copies behind the segment fit the heads they find. */
  lemma {:induction false} CopiesAfter(e: Era, buffer: map<Fp, seq<int>>, open: set<Fp>, f: Filter, g: Filter,
                                       seg: seq<Chunk>, rest: seq<Chunk>, out: seq<Chunk>, fp: Fp)
    requires e.Valid() && HarProgress(e, buffer, f, g, out) && FpSet(out) == FpSet(seg)
    requires CopiesOk(e, buffer, open, seg + rest, fp) && OpenFps(g.store) <= open + FpSet(seg)
    requires UpdatePrefix(buffer, out, |out|).Done?
    ensures CopiesOk(e, UpdatePrefix(buffer, out, |out|).value, OpenFps(g.store), rest, fp)
  {
    UpdatedHead(buffer, out, |out|, fp);
    assert out[..|out|] == out;
    assert forall c | c in rest :: c in seg + rest;
    hide UpdatePrefix, FpSet, LastId, StoreNew, TablesNew, Head, OpenFps;
  }

  lemma {:induction false} SettledFps(held: Holdings, seg: seq<Chunk>, out: seq<Chunk>)
    requires Settled(held, seg, out)
    ensures FpSet(out) == FpSet(seg)
  {
    forall fp | fp in FpSet(seg)
      ensures fp in FpSet(out)
    {
      var i :| 0 <= i < |seg| && seg[i].Has(fp);
      assert out[i] in out;
    }
    forall fp | fp in FpSet(out)
      ensures fp in FpSet(seg)
    {
      var i :| 0 <= i < |out| && out[i].Has(fp);
      assert seg[i] in seg;
    }
  }

  // ---------------------------------------------------------------- the machine

  ghost predicate HarRunning(e: Era, st: State) {
    e.Valid() && StoreNew(e, st.store) && HarFlight(e, st.index.buffer, OpenFps(st.store), Flat(st.inflight))
  }

  /** What the program does under HAR alone; `sparse(j)` are the sparse containers that backup `j` inherits. */
  predicate HarStep(sparse: int -> set<int>, st: State, a: Action) {
    match a
    case DoBegin => !st.running ==> forall id | id in sparse(st.nextJob) :: 0 <= id < st.store.nextId
    case DoFilter(marks) =>
      st.running && st.inflight != [] && |marks| == |st.inflight[0]| ==>
        forall i | 0 <= i < |marks| :: HarMark(sparse(st.nextJob), st.inflight[0][i], marks[i])
    case _ => true
  }

  ghost predicate HarInv(sparse: int -> set<int>, st: State) {
    !st.tripped && (st.running ==> exists e: Era :: e.sparse == sparse(st.nextJob) && HarRunning(e, st))
  }

  lemma {:induction false} LookupHar(cfg: Config, content: Content, e: Era, st: State, items: seq<Item>)
    requires Inv(cfg, content, st) && st.running && HarRunning(e, st) && Lookup(cfg, st, items).Done?
    ensures HarRunning(e, Lookup(cfg, st, items).value)
    ensures Lookup(cfg, st, items).value.nextJob == st.nextJob && Lookup(cfg, st, items).value.running
    ensures Lookup(cfg, st, items).value.tripped == st.tripped
  {
    RunningParts(cfg, content, st);
    hide Inv, IndexOk, LookupPrefix, HasPiece, Flat, HarFlight, StoreNew, OpenFps, Genuine, R.Records, R.Scan, Source;
    LookupPrefixHar(cfg, content, e, st.store, st.index, Flat(st.inflight), items, |items|);
    FlatSnoc(st.inflight, LookupPrefix(cfg, st.store, st.index, items, |items|).value.1);
  }

  lemma {:induction false} SegmentInherits(cfg: Config, content: Content, e: Era, st: State, seg: seq<Chunk>, rest: seq<Chunk>,
                                           marks: seq<Mark>)
    requires IndexOk(cfg, content, st.store, st.index, seg + rest) && |marks| == |seg|
    requires HarFlight(e, st.index.buffer, OpenFps(st.store), seg + rest)
    requires forall i | 0 <= i < |marks| :: HarMark(e.sparse, seg[i], marks[i])
    ensures Inherits(e, st.index.buffer, seg, marks)
  {
    hide StoreOk, KvOk, CacheOk, Held, CopyOk, Head, HarMark;
    var flat, buffer := seg + rest, st.index.buffer;
    forall i | 0 <= i < |seg| && seg[i].Normal()
      ensures CopyOk(e, Head(buffer, seg[i].item.fp), seg[i].id) && (!seg[i].dup ==> seg[i].id == TEMPORARY_ID)
    {
      assert flat[i] == seg[i] && ChunkOk(Held(st.store), flat, i);
      var fp := seg[i].item.fp;
      assert seg[i] in flat && fp in FpSet(flat);
      assert QueueOf(Held(st.store), buffer, flat, fp) && CopiesOk(e, buffer, OpenFps(st.store), flat, fp);
    }
  }

  lemma {:induction false} StartLoop(e: Era, st: State, flat: seq<Chunk>)
    requires StoreNew(e, st.store) && HarFlight(e, st.index.buffer, OpenFps(st.store), flat)
    ensures LoopOk(e, st.index.buffer, StartFilter(st))
  {
    hide StoreNew, OpenFps;
    forall fp | fp in OpenFps(st.store)
      ensures !e.Old(Head(st.index.buffer, fp))
    {
      assert CopiesOk(e, st.index.buffer, OpenFps(st.store), flat, fp);
    }
  }

  lemma {:induction false} FilterHar(cfg: Config, content: Content, e: Era, st: State, marks: seq<Mark>)
    requires cfg.ratio > 0 && Inv(cfg, content, st) && HarRunning(e, st)
    requires st.running && st.inflight != [] && |marks| == |st.inflight[0]|
    requires forall i | 0 <= i < |marks| :: HarMark(e.sparse, st.inflight[0][i], marks[i])
    ensures FilterOldest(cfg, st, marks).Done?
    ensures var t := FilterOldest(cfg, st, marks).value;
            HarRunning(e, t) && t.running && t.nextJob == st.nextJob && t.tripped == st.tripped
  {
    hide Inv, IndexOk, CheckPrefix, FilterPrefix, UpdatePrefix, R.RecordPrefix, Held, FilterOldest, Genuine, Flat, FpSet, Settled,
      R.Records, R.Scan, NormalCount, OpenFps, StoreNew, HarFlight, HarMark, Source, Inherits, HarProgress;
    var seg, rest := st.inflight[0], Flat(st.inflight[1..]);
    FlatHead(st.inflight);
    RunningParts(cfg, content, st);
    var cs, g, out := FilterParts(cfg, content, st, marks);
    SegmentHar(cfg, content, e, st, seg, rest, marks, cs, g, out);
  }

  lemma {:induction false} SegmentHar(cfg: Config, content: Content, e: Era, st: State, seg: seq<Chunk>, rest: seq<Chunk>,
                                      marks: seq<Mark>, cs: seq<Chunk>, g: Filter, out: seq<Chunk>)
    requires cfg.ratio > 0 && IndexOk(cfg, content, st.store, st.index, seg + rest) && |marks| == |seg| == |cs|
    requires (forall c | c in seg + rest :: Genuine(c.item, content)) && TEMPORARY_ID !in st.monitor
    requires e.Valid() && StoreNew(e, st.store) && HarFlight(e, st.index.buffer, OpenFps(st.store), seg + rest)
    requires forall i | 0 <= i < |marks| :: HarMark(e.sparse, seg[i], marks[i])
    requires CheckPrefix(st.index.buffer, seg, marks, |seg|) == Done(cs)
    requires FilterPrefix(cfg, StartFilter(st), cs, marks, |cs|) == Done((g, out))
    requires Settled(Held(g.store), seg, out) && UpdatePrefix(st.index.buffer, out, |out|).Done?
    ensures StoreNew(e, g.store) && g.tripped == st.tripped
    ensures HarFlight(e, UpdatePrefix(st.index.buffer, out, |out|).value, OpenFps(g.store), rest)
  {
    hide IndexOk, CheckPrefix, FilterPrefix, UpdatePrefix, Held, Genuine, FpSet, Settled, OpenFps, StoreNew, HarMark, Inherits,
      HarProgress, CopiesOk, FilterOk, Checked, LoopOk, Progress;
    var f, buffer := StartFilter(st), st.index.buffer;
    var cs' := FilterChecked(cfg, content, st, seg, rest, marks);
    SegmentInherits(cfg, content, e, st, seg, rest, marks);
    StartLoop(e, st, seg + rest);
    FilterPrefixHar(cfg, content, e, buffer, f, seg, cs, marks, |cs|);
    FilterPrefixOk(cfg, content, f, cs, marks, |cs|);
    assert cs[..|cs|] == cs;
    ProgressOpen(f, g, cs, out);
    SameFps(seg, cs);
    SettledFps(Held(g.store), seg, out);
    ProgressLoop(e, buffer, f, g, out);
    LoopParts(e, buffer, g, []);
    forall fp
      ensures CopiesOk(e, UpdatePrefix(buffer, out, |out|).value, OpenFps(g.store), rest, fp)
    {
      CopiesAfter(e, buffer, OpenFps(st.store), f, g, seg, rest, out, fp);
    }
  }

  lemma {:induction false} ProgressOpen(f: Filter, g: Filter, cs: seq<Chunk>, out: seq<Chunk>)
    requires Progress(f, g, cs, out)
    ensures OpenFps(g.store) <= OpenFps(f.store) + FpSet(cs)
  {
  }

  lemma {:induction false} BeginHar(cfg: Config, content: Content, sparse: int -> set<int>, st: State)
    requires Inv(cfg, content, st) && HarInv(sparse, st) && HarStep(sparse, st, DoBegin)
    ensures HarInv(sparse, Begin(st))
  {
    if !st.running {
      var e := Era(st.store.nextId, sparse(st.nextJob));
      assert st.store.open.None?;
      assert HarRunning(e, Begin(st));
    }
  }

  lemma {:induction false} AppendHar(e: Era, st: State, t: Store)
    requires HarRunning(e, st) && (t == AppendWrite(st.store) || t == AppendPop(st.store))
    ensures HarRunning(e, st.(store := t))
  {
    hide HarFlight;
  }

  /** One step under HAR keeps the invariant, and the assert at filter_phase.c:186 holds. */
  lemma {:induction false} NextHar(cfg: Config, content: Content, sparse: int -> set<int>, st: State, a: Action)
    requires cfg.ratio > 0 && Inv(cfg, content, st) && HarInv(sparse, st) && HarStep(sparse, st, a) && Next(cfg, st, a).Done?
    ensures HarInv(sparse, Next(cfg, st, a).value)
  {
    hide Inv, HarRunning, Begin, Lookup, AppendWrite, AppendPop;
    match a {
      case DoBegin => BeginHar(cfg, content, sparse, st);
      case DoLookup(items) =>
        if st.running {
          var e: Era :| e.sparse == sparse(st.nextJob) && HarRunning(e, st);
          LookupHar(cfg, content, e, st, items);
        } else {
          LookupIdle(cfg, st, items);
        }
      case DoFilter(marks) =>
        if st.running && st.inflight != [] && |marks| == |st.inflight[0]| {
          var e: Era :| e.sparse == sparse(st.nextJob) && HarRunning(e, st);
          FilterHar(cfg, content, e, st, marks);
        }
      case DoAppendWrite =>
        if st.running {
          var e: Era :| e.sparse == sparse(st.nextJob) && HarRunning(e, st);
          AppendHar(e, st, AppendWrite(st.store));
        }
      case DoAppendPop =>
        if st.running {
          var e: Era :| e.sparse == sparse(st.nextJob) && HarRunning(e, st);
          AppendHar(e, st, AppendPop(st.store));
        }
      case DoFinish => FinishIdle(cfg, st);
      case DoDelete(jobid) =>
    }
  }

  lemma {:induction false} LookupIdle(cfg: Config, st: State, items: seq<Item>)
    requires !st.running
    ensures Lookup(cfg, st, items) == Done(st)
  {
  }

  lemma {:induction false} FinishIdle(cfg: Config, st: State)
    requires cfg.ratio > 0
    ensures Finish(cfg, st) == st || (!Finish(cfg, st).running && Finish(cfg, st).tripped == st.tripped)
  {
    hide CloseOpen, Closed, R.Scan, Items;
  }

  /** Every step of the run is one the program takes under HAR. */
  ghost predicate HarRun(cfg: Config, sparse: int -> set<int>, actions: seq<Action>)
    requires cfg.ratio > 0
  {
    actions == [] ||
    var n := |actions| - 1;
    && HarRun(cfg, sparse, actions[..n])
    && (Run(cfg, INITIAL, actions[..n]).Done? ==> HarStep(sparse, Run(cfg, INITIAL, actions[..n]).value, actions[n]))
  }

  /**
   * Over every legal run in which the only marks are those of history-aware rewriting, whatever the inherited sparse
   * containers: the assert at filter_phase.c:186 never fails.
   */
  lemma {:induction false} HarNeverRepeats(cfg: Config, content: Content, sparse: int -> set<int>, actions: seq<Action>)
    requires cfg.ratio > 0 && LegalRun(cfg, content, actions) && HarRun(cfg, sparse, actions)
    ensures Run(cfg, INITIAL, actions).Done? && HarInv(sparse, Run(cfg, INITIAL, actions).value)
    ensures !Run(cfg, INITIAL, actions).value.tripped
  {
    EveryRunIsSafe(cfg, content, actions);
    hide Inv, Legal, Next, HarStep;
    if actions != [] {
      var n := |actions| - 1;
      EveryRunIsSafe(cfg, content, actions[..n]);
      HarNeverRepeats(cfg, content, sparse, actions[..n]);
      NextHar(cfg, content, sparse, Run(cfg, INITIAL, actions[..n]).value, actions[n]);
    }
  }
}
