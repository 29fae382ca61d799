/** The filter loop: every chunk leaves it with the id of a container that holds it. */
module FilterInvariant {
  import opened Common
  import opened Containers
  import opened Machine
  import opened InFlight
  import opened StoreInvariant

  /** Every id that a per-segment table remembers is the id of a container with that chunk. */
  ghost predicate TableOk(held: Holdings, t: map<Fp, int>) {
    forall fp | fp in t :: t[fp] != TEMPORARY_ID && Stored(held, t[fp], fp)
  }

  ghost predicate FilterOk(cfg: Config, content: Content, f: Filter) {
    && StoreOk(f.store, content)
    && KvOk(cfg, ClosedOf(f.store), f.kv)
    && TableOk(Held(f.store), f.unique)
    && TableOk(Held(f.store), f.rewritten)
    && TEMPORARY_ID !in f.seen
  }

  /** The chunk's bytes are what its fingerprint stands for, and they fit into a container. */
  predicate Genuine(item: Item, content: Content) {
    item.Piece? ==>
      && item.data == content(item.fp)
      && |item.data| <= CONTAINER_SIZE - CONTAINER_META_SIZE
      && |item.fp| == FP_SIZE
  }

  /** What the loop may rely on when it reaches `c`. */
  ghost predicate Ready(held: Holdings, open: set<Fp>, unique: set<Fp>, c: Chunk) {
    c.Normal() ==>
      if c.dup then IdOk(held, c.id, c.item.fp) && (c.id == TEMPORARY_ID ==> c.item.fp in unique)
      else c.item.fp !in open
  }

  /** From `s` to `t` only the chunk `fp` may have been stored, and only in container `id`. */
  ghost predicate Wrote(s: Store, t: Store, id: int, fp: Fp) {
    && Extends(s, t)
    && OpenFps(t) <= OpenFps(s) + {fp}
    && Held(t).Keys <= Held(s).Keys + {id}
    && (forall i, h | Stored(Held(t), i, h) :: Stored(Held(s), i, h) || (i == id && h == fp))
  }

  lemma {:induction false} TableGrows(held: Holdings, held': Holdings, t: map<Fp, int>)
    requires TableOk(held, t) && forall id, fp | Stored(held, id, fp) :: Stored(held', id, fp)
    ensures TableOk(held', t)
  {
  }

  /** Making room and adding the chunk, seen from the containers alone. */
  lemma {:induction false} StoreChunk(cfg: Config, content: Content, s: Store, kv: map<Key, int>, item: Item)
    requires cfg.ratio > 0 && StoreOk(s, content) && KvOk(cfg, ClosedOf(s), kv)
    requires item.Piece? && Genuine(item, content)
    ensures var (r, kv') := MakeRoom(cfg, s, kv, |item.data|);
            && r.open.Some? && !Overflow(r.open.value, |item.data|) && r.open.value.id >= 0
            && OpenFps(r) <= OpenFps(s)
            && var t := if item.fp in OpenFps(r) then r else r.(open := Some(Add(r.open.value, item.fp, item.data)));
            && StoreOk(t, content) && KvOk(cfg, ClosedOf(t), kv')
            && Wrote(s, t, r.open.value.id, item.fp)
            && Stored(Held(t), r.open.value.id, item.fp)
  {
    hide StoreOk, KvOk, Held, Closed, MakeRoom, Add;
    var r := MakeRoom(cfg, s, kv, |item.data|).0;
    MakeRoomOk(cfg, s, kv, |item.data|, content);
    OpenId(r, content);
    if item.fp in OpenFps(r) {
      OpenStored(r, content, item.fp);
    } else {
      AddOk(r, item.fp, item.data, content);
    }
  }

  lemma {:induction false} WriteChunkOk(cfg: Config, content: Content, f: Filter, c: Chunk)
    requires cfg.ratio > 0 && FilterOk(cfg, content, f) && c.Normal() && Genuine(c.item, content)
    ensures WriteChunk(cfg, f, c).Done?
    ensures var (g, d) := WriteChunk(cfg, f, c).value;
            && d == c.(id := d.id) && d.id >= 0
            && FilterOk(cfg, content, g)
            && Wrote(f.store, g.store, d.id, c.item.fp)
            && Stored(Held(g.store), d.id, c.item.fp)
            && (c.item.fp !in OpenFps(f.store) ==>
                  g.unique.Keys == f.unique.Keys + if c.dup then {} else {c.item.fp})
            && (c.dup ==> g.unique == f.unique)
            && g.seen == f.seen && (c.item.fp !in OpenFps(f.store) ==> g.tripped == f.tripped)
  {
    hide StoreOk, KvOk, Held, Closed, MakeRoom, TableOk, Add, Overflow, Wrote, Stored;
    StoreChunk(cfg, content, f.store, f.kv, c.item);
    var (g, d) := WriteChunk(cfg, f, c).value;
    WroteGrows(f.store, g.store, d.id, c.item.fp);
    TableGrows(Held(f.store), Held(g.store), f.unique);
    TableGrows(Held(f.store), Held(g.store), f.rewritten);
    TableAdd(Held(g.store), f.unique, c.item.fp, d.id);
    TableAdd(Held(g.store), f.rewritten, c.item.fp, d.id);
  }

  lemma {:induction false} WroteGrows(s: Store, t: Store, id: int, fp: Fp)
    requires Wrote(s, t, id, fp)
    ensures forall i, h | Stored(Held(s), i, h) :: Stored(Held(t), i, h)
  {
  }

  lemma {:induction false} OpenId(s: Store, content: Content)
    requires StoreOk(s, content) && s.open.Some?
    ensures s.open.value.id >= 0
  {
  }

  lemma {:induction false} TableAdd(held: Holdings, t: map<Fp, int>, fp: Fp, id: int)
    requires TableOk(held, t) && id != TEMPORARY_ID && Stored(held, id, fp)
    ensures TableOk(held, t[fp := id])
  {
  }

  /** The asserts of the filter loop hold (lines 91, 112 and 199), and the chunk comes out with a right id. */
  lemma {:induction false} FilterChunkOk(cfg: Config, content: Content, f: Filter, c: Chunk, m: Mark)
    requires cfg.ratio > 0 && FilterOk(cfg, content, f)
    requires Genuine(c.item, content)
    requires Ready(Held(f.store), OpenFps(f.store), f.unique.Keys, c)
    ensures FilterChunk(cfg, f, c, m).Done?
    ensures var (g, d) := FilterChunk(cfg, f, c, m).value;
            && d.item == c.item
            && FilterOk(cfg, content, g)
            && (c.Normal() ==>
                  && d.id != TEMPORARY_ID && Stored(Held(g.store), d.id, c.item.fp)
                  && Wrote(f.store, g.store, d.id, c.item.fp)
                  && g.seen == f.seen + {d.id})
            && (!c.Normal() ==> g == f)
            && g.unique.Keys == f.unique.Keys + (if c.Normal() && !c.dup then {c.item.fp} else {})
  {
    hide FilterOk, Held, Closed, WriteChunk, Wrote, Stored, Resolve, MustWrite, OpenFps;
    if c.Normal() {
      ResolveOk(cfg, content, f, c);
      var c1 := Resolve(f, c).value;
      var m' := m.(inCache := m.inCache && c.id in f.seen);
      WritesUnique(c1, m');
      if MustWrite(c1, m') {
        WriteChunkOk(cfg, content, f, c1);
        var (g, d) := WriteChunk(cfg, f, c1).value;
        SeenOk(cfg, content, g, d.id);
      } else {
        WroteNothing(f.store, c1.id, c.item.fp);
        SeenOk(cfg, content, f, c1.id);
      }
    }
  }

  lemma {:induction false} ResolveOk(cfg: Config, content: Content, f: Filter, c: Chunk)
    requires FilterOk(cfg, content, f) && c.Normal() && Ready(Held(f.store), OpenFps(f.store), f.unique.Keys, c)
    ensures TEMPORARY_ID !in f.seen && Resolve(f, c).Done?
    ensures var c1 := Resolve(f, c).value;
            && c1.item == c.item && c1.dup == c.dup
            && (c.dup ==> c1.id != TEMPORARY_ID && Stored(Held(f.store), c1.id, c.item.fp))
            && (!c.dup ==> c.item.fp !in OpenFps(f.store))
  {
    hide Held, StoreOk, KvOk, TableOk;
    TableStored(Held(f.store), f.unique, c.item.fp);
    TableStored(Held(f.store), f.rewritten, c.item.fp);
  }

  lemma {:induction false} WritesUnique(c: Chunk, m: Mark)
    ensures !c.dup ==> MustWrite(c, m)
  {
  }

  lemma {:induction false} SeenOk(cfg: Config, content: Content, f: Filter, id: int)
    requires FilterOk(cfg, content, f) && id != TEMPORARY_ID
    ensures FilterOk(cfg, content, f.(seen := f.seen + {id}))
  {
  }

  lemma {:induction false} WroteNothing(s: Store, id: int, fp: Fp)
    ensures Wrote(s, s, id, fp)
  {
  }

  lemma {:induction false} TableStored(held: Holdings, t: map<Fp, int>, fp: Fp)
    requires TableOk(held, t)
    ensures fp in t ==> t[fp] != TEMPORARY_ID && Stored(held, t[fp], fp)
  {
  }

  // ---------------------------------------------------------------- whole segments

  /** The segment as index_check_buffer hands it to the loop. */
  ghost predicate Checked(held: Holdings, open: set<Fp>, cs: seq<Chunk>) {
    forall i | 0 <= i < |cs| && cs[i].Normal() :: CheckedAt(held, open, cs, i)
  }

  ghost predicate CheckedAt(held: Holdings, open: set<Fp>, cs: seq<Chunk>, i: nat)
    requires i < |cs| && cs[i].Normal()
  {
    var c := cs[i];
    if c.dup then IdOk(held, c.id, c.item.fp) && (c.id == TEMPORARY_ID ==> c.item.fp in UniqueFps(cs[..i]))
    else c.item.fp !in FpSet(cs[..i]) && c.item.fp !in open
  }

  /** index_check_buffer touches only ids and denials. */
  ghost predicate SameChunks(seg: seq<Chunk>, cs: seq<Chunk>) {
    |cs| == |seg| && forall i | 0 <= i < |seg| :: cs[i].item == seg[i].item && cs[i].dup == seg[i].dup
  }

  lemma {:induction false} SameFps(seg: seq<Chunk>, cs: seq<Chunk>)
    requires SameChunks(seg, cs)
    ensures FpSet(seg) == FpSet(cs) && UniqueFps(seg) == UniqueFps(cs)
  {
    forall fp | fp in FpSet(seg)
      ensures fp in FpSet(cs)
    {
      var i :| 0 <= i < |seg| && seg[i].Has(fp);
      assert cs[i] in cs;
    }
    forall fp | fp in FpSet(cs)
      ensures fp in FpSet(seg)
    {
      var i :| 0 <= i < |cs| && cs[i].Has(fp);
      assert seg[i] in seg;
    }
    forall fp | fp in UniqueFps(seg)
      ensures fp in UniqueFps(cs)
    {
      var i :| 0 <= i < |seg| && seg[i].Has(fp) && !seg[i].dup;
      assert cs[i] in cs;
    }
    forall fp | fp in UniqueFps(cs)
      ensures fp in UniqueFps(seg)
    {
      var i :| 0 <= i < |cs| && cs[i].Has(fp) && !cs[i].dup;
      assert seg[i] in seg;
    }
  }

  /** The lookup at index.c:300 never misses, and a temporary id survives only behind its unique. */
  lemma {:induction false} CheckChunkOk(held: Holdings, buffer: map<Fp, seq<int>>, flat: seq<Chunk>, i: nat, m: Mark)
    requires FlightOk(held, buffer, flat) && i < |flat| && forall id | id in held :: id >= 0
    ensures CheckChunk(buffer, flat[i], m).Done?
    ensures var d := CheckChunk(buffer, flat[i], m).value;
            && d.item == flat[i].item && d.dup == flat[i].dup
            && (d.Normal() && d.dup ==>
                  IdOk(held, d.id, d.item.fp) && (d.id == TEMPORARY_ID ==> d.item.fp in UniqueFps(flat[..i])))
  {
    var c := flat[i];
    assert ChunkOk(held, flat, i);
    if c.Normal() {
      assert QueueOf(held, buffer, flat, c.item.fp);
      assert c.item.fp in FpSet(flat);
      if c.dup && c.id == TEMPORARY_ID && buffer[c.item.fp][0] == TEMPORARY_ID {
        FreshAhead(flat, i);
      }
    }
  }

  lemma {:induction false} CheckPrefixOk(held: Holdings, buffer: map<Fp, seq<int>>, seg: seq<Chunk>, rest: seq<Chunk>,
                                         marks: seq<Mark>, n: nat)
    requires n <= |seg| == |marks|
    requires FlightOk(held, buffer, seg + rest) && forall id | id in held :: id >= 0
    ensures CheckPrefix(buffer, seg, marks, n).Done?
    ensures var cs := CheckPrefix(buffer, seg, marks, n).value;
            && SameChunks(seg[..n], cs)
            && forall i | 0 <= i < n && cs[i].Normal() && cs[i].dup ::
                 IdOk(held, cs[i].id, cs[i].item.fp) && (cs[i].id == TEMPORARY_ID ==> cs[i].item.fp in UniqueFps(seg[..i]))
  {
    hide FlightOk, CheckChunk, IdOk;
    if n > 0 {
      CheckPrefixOk(held, buffer, seg, rest, marks, n - 1);
      CheckChunkOk(held, buffer, seg + rest, n - 1, marks[n - 1]);
      assert (seg + rest)[..n - 1] == seg[..n - 1];
    }
  }

  lemma {:induction false} CheckAt(buffer: map<Fp, seq<int>>, seg: seq<Chunk>, marks: seq<Mark>, n: nat, i: nat)
    requires i < n <= |seg| == |marks| && CheckPrefix(buffer, seg, marks, n).Done?
    ensures CheckChunk(buffer, seg[i], marks[i]) == Done(CheckPrefix(buffer, seg, marks, n).value[i])
  {
    hide CheckChunk;
    if i < n - 1 {
      CheckAt(buffer, seg, marks, n - 1, i);
    }
  }

  lemma {:induction false} CheckedSegment(held: Holdings, open: set<Fp>, buffer: map<Fp, seq<int>>, seg: seq<Chunk>,
                                          rest: seq<Chunk>, marks: seq<Mark>)
    requires |seg| == |marks|
    requires FlightOk(held, buffer, seg + rest) && Unwritten(open, seg + rest) && forall id | id in held :: id >= 0
    ensures CheckPrefix(buffer, seg, marks, |seg|).Done?
    ensures var cs := CheckPrefix(buffer, seg, marks, |seg|).value;
            SameChunks(seg, cs) && Checked(held, open, cs)
  {
    hide IdOk, QueueOf;
    CheckPrefixOk(held, buffer, seg, rest, marks, |seg|);
    var cs := CheckPrefix(buffer, seg, marks, |seg|).value;
    assert seg[..|seg|] == seg;
    forall i | 0 <= i < |cs| && cs[i].Normal()
      ensures CheckedAt(held, open, cs, i)
    {
      SameFps(seg[..i], cs[..i]);
      assert ChunkOk(held, seg + rest, i);
      assert (seg + rest)[..i] == seg[..i];
      if !seg[i].dup {
        assert seg[i] in seg + rest;
      }
    }
  }

  /** What the loop has achieved after `cs`, given what it started from. */
  ghost predicate Progress(f: Filter, g: Filter, cs: seq<Chunk>, out: seq<Chunk>) {
    && Settled(Held(g.store), cs, out)
    && Extends(f.store, g.store)
    && OpenFps(g.store) <= OpenFps(f.store) + FpSet(cs)
    && Held(g.store).Keys <= Held(f.store).Keys + Ids(out)
    && g.unique.Keys == UniqueFps(cs)
    && g.seen == f.seen + Ids(out)
  }

  lemma {:induction false} ProgressSnoc(f: Filter, g: Filter, h: Filter, cs: seq<Chunk>, out: seq<Chunk>, c: Chunk, d: Chunk)
    requires Progress(f, g, cs, out) && d.item == c.item
    requires c.Normal() ==> d.id != TEMPORARY_ID && Stored(Held(h.store), d.id, c.item.fp) && Wrote(g.store, h.store, d.id, c.item.fp)
    requires h.seen == g.seen + (if c.Normal() then {d.id} else {})
    requires !c.Normal() ==> h == g
    requires h.unique.Keys == g.unique.Keys + (if c.Normal() && !c.dup then {c.item.fp} else {})
    ensures Progress(f, h, cs + [c], out + [d])
  {
    hide Held, Closed, Extends, Settled, FpSet, UniqueFps, Ids, Wrote;
    FpSetConcat(cs, [c]);
    IdsSnoc(out, d);
    SingleFps(c);
    if c.Normal() {
      WroteParts(g.store, h.store, d.id, c.item.fp);
      ExtendsTrans(f.store, g.store, h.store);
      SettledSnoc(Held(g.store), Held(h.store), cs, out, c, d);
    } else {
      SettledSnoc(Held(g.store), Held(h.store), cs, out, c, d);
    }
  }

  lemma {:induction false} WroteParts(s: Store, t: Store, id: int, fp: Fp)
    requires Wrote(s, t, id, fp)
    ensures Extends(s, t) && OpenFps(t) <= OpenFps(s) + {fp} && Held(t).Keys <= Held(s).Keys + {id}
    ensures forall i, h | Stored(Held(s), i, h) :: Stored(Held(t), i, h)
  {
  }

  lemma {:induction false} ExtendsTrans(r: Store, s: Store, t: Store)
    requires Extends(r, s) && Extends(s, t)
    ensures Extends(r, t)
  {
    hide Held, Closed;
  }

  lemma {:induction false} SettledSnoc(held: Holdings, held': Holdings, cs: seq<Chunk>, out: seq<Chunk>, c: Chunk, d: Chunk)
    requires Settled(held, cs, out) && d.item == c.item
    requires forall id, fp | Stored(held, id, fp) :: Stored(held', id, fp)
    requires c.Normal() ==> d.id != TEMPORARY_ID && Stored(held', d.id, c.item.fp)
    ensures Settled(held', cs + [c], out + [d])
  {
  }

  lemma {:induction false} IdsSnoc(out: seq<Chunk>, d: Chunk)
    ensures Ids(out + [d]) == Ids(out) + if d.Normal() then {d.id} else {}
  {
  }

  lemma {:induction false} SingleFps(c: Chunk)
    ensures FpSet([c]) == if c.Normal() then {c.item.fp} else {}
    ensures UniqueFps([c]) == if c.Normal() && !c.dup then {c.item.fp} else {}
  {
  }

  /** The filter loop over a checked segment: all three asserts hold at every chunk. */
  lemma {:induction false} FilterPrefixOk(cfg: Config, content: Content, f: Filter, cs: seq<Chunk>, marks: seq<Mark>, n: nat)
    requires cfg.ratio > 0 && n <= |cs| == |marks|
    requires FilterOk(cfg, content, f) && f.unique == map[] && f.rewritten == map[]
    requires Checked(Held(f.store), OpenFps(f.store), cs)
    requires forall i | 0 <= i < |cs| :: Genuine(cs[i].item, content)
    ensures FilterPrefix(cfg, f, cs, marks, n).Done?
    ensures var (g, out) := FilterPrefix(cfg, f, cs, marks, n).value;
            FilterOk(cfg, content, g) && Progress(f, g, cs[..n], out)
  {
    hide FilterOk, Progress, Held, Closed, FilterChunk;
    if n == 0 {
      ProgressEmpty(f);
    } else {
      FilterPrefixOk(cfg, content, f, cs, marks, n - 1);
      var (g, out) := FilterPrefix(cfg, f, cs, marks, n - 1).value;
      ReadyNext(f, g, cs, out, n - 1);
      FilterChunkOk(cfg, content, g, cs[n - 1], marks[n - 1]);
      var (h, d) := FilterChunk(cfg, g, cs[n - 1], marks[n - 1]).value;
      ProgressSnoc(f, g, h, cs[..n - 1], out, cs[n - 1], d);
      assert cs[..n] == cs[..n - 1] + [cs[n - 1]];
    }
  }

  lemma {:induction false} ProgressEmpty(f: Filter)
    requires f.unique == map[]
    ensures Progress(f, f, [], [])
  {
  }

  lemma {:induction false} ReadyNext(f: Filter, g: Filter, cs: seq<Chunk>, out: seq<Chunk>, i: nat)
    requires i < |cs| && Progress(f, g, cs[..i], out)
    requires Checked(Held(f.store), OpenFps(f.store), cs)
    ensures Ready(Held(g.store), OpenFps(g.store), g.unique.Keys, cs[i])
  {
    hide Held, Closed;
    if cs[i].Normal() {
      assert CheckedAt(Held(f.store), OpenFps(f.store), cs, i);
    }
  }
}
