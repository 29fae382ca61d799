/** What every storing step of the filter phase keeps true of the containers and the index. */
module StoreInvariant {
  import opened Common
  import opened Containers
  import opened Lru
  import opened Machine
  import opened InFlight

  /** The fingerprint function, inverted: collisions are excluded for the chunks seen. */
  type Content = Fp -> Bytes

  ghost predicate ContainerOk(c: Container, content: Content) {
    && (forall fp :: fp in c.entries <==> fp in c.order)
    && (forall fp | fp in c.entries :: c.entries[fp] == content(fp))
  }

  function ClosedOf(s: Store): map<int, Container> {
    Closed(s.disk, s.pending)
  }

  function OpenFps(s: Store): set<Fp> {
    if s.open.None? then {} else s.open.value.entries.Keys
  }

  ghost predicate StoreOk(s: Store, content: Content) {
    && QueueOk(s)
    && (forall id | id in ClosedOf(s) ::
          0 <= id < s.nextId && ClosedOf(s)[id].id == id && ContainerOk(ClosedOf(s)[id], content))
    && (s.open.Some? ==>
          && s.open.value.id == s.nextId - 1 >= 0
          && s.open.value.id !in ClosedOf(s)
          && ContainerOk(s.open.value, content))
  }

  /** Every index entry names a closed container that holds a fingerprint with that key. */
  ghost predicate KvOk(cfg: Config, closed: map<int, Container>, kv: map<Key, int>) {
    forall k | k in kv :: kv[k] in closed && exists fp :: fp in closed[kv[k]].entries && KeyOf(fp, cfg.keySize) == k
  }

  ghost predicate CacheOk(closed: map<int, Container>, cache: seq<Meta>) {
    forall i | 0 <= i < |cache| :: cache[i].id in closed && cache[i].fps == closed[cache[i].id].entries.Keys
  }

  /** Containers are only ever added, and closed ones never change. */
  ghost predicate Extends(s: Store, t: Store) {
    && (forall id | id in ClosedOf(s) :: id in ClosedOf(t) && ClosedOf(t)[id] == ClosedOf(s)[id])
    && (forall id, fp | Stored(Held(s), id, fp) :: Stored(Held(t), id, fp))
  }

  lemma {:induction false} HeldClosed(s: Store, id: int)
    requires id in ClosedOf(s) && (s.open.Some? ==> s.open.value.id !in ClosedOf(s))
    ensures id in Held(s) && Held(s)[id] == ClosedOf(s)[id].entries
  {
  }

  /** A cache hit names a container holding the fingerprint. */
  lemma {:induction false} CacheHit(s: Store, content: Content, cache: seq<Meta>, fp: Fp)
    requires StoreOk(s, content) && CacheOk(ClosedOf(s), cache)
    ensures CacheOk(ClosedOf(s), CacheLookup(cache, fp).cache)
    ensures var f := CacheLookup(cache, fp);
            if f.dup then f.id != TEMPORARY_ID && f.id in ClosedOf(s) && Stored(Held(s), f.id, fp)
            else f.id == TEMPORARY_ID && forall i | 0 <= i < |cache| :: fp !in cache[i].fps
  {
    var i := Find(cache, fp);
    if i < |cache| {
      HeldClosed(s, cache[i].id);
    }
  }

  lemma {:induction false} PrefetchOk(s: Store, content: Content, cache: seq<Meta>, id: int, max: int)
    requires StoreOk(s, content) && CacheOk(ClosedOf(s), cache) && id in ClosedOf(s)
    ensures CacheOk(ClosedOf(s), Insert(cache, Meta(id, ClosedOf(s)[id].entries.Keys), max))
  {
  }

  /** index_lookup_base never fails, and what it finds is right. */
  lemma {:induction false} FindDuplicateOk(cfg: Config, content: Content, s: Store, ix: Index, flat: seq<Chunk>, fp: Fp)
    requires StoreOk(s, content) && KvOk(cfg, ClosedOf(s), ix.kv) && CacheOk(ClosedOf(s), ix.cache)
    requires FlightOk(Held(s), ix.buffer, flat)
    ensures FindDuplicate(cfg, s, ix, fp).Done?
    ensures var f := FindDuplicate(cfg, s, ix, fp).value;
            && CacheOk(ClosedOf(s), f.cache)
            && IdOk(Held(s), f.id, fp)
            && (f.dup && f.id == TEMPORARY_ID ==> fp in ix.buffer)
            && (!f.dup ==> f.id == TEMPORARY_ID && fp !in ix.buffer && fp !in OpenFps(s))
  {
    hide StoreOk, FlightOk, CacheOk, KvOk, Held, CacheLookup, Closed, Insert, Find;
    assert QueueOf(Held(s), ix.buffer, flat, fp) by { FlightQueue(Held(s), ix.buffer, flat, fp); }
    if s.open.Some? && fp in s.open.value.entries {
      OpenStored(s, content, fp);
    } else if fp !in ix.buffer {
      CacheHit(s, content, ix.cache, fp);
      var key := KeyOf(fp, cfg.keySize);
      if !CacheLookup(ix.cache, fp).dup && key in ix.kv {
        var id := ix.kv[key];
        assert id in ClosedOf(s) by { KvClosed(cfg, ClosedOf(s), ix.kv, key); }
        StoreQueue(s, content);
        RetrieveIsClosed(s, id);
        PrefetchOk(s, content, ix.cache, id, cfg.cacheSize);
        CacheHit(s, content, Insert(ix.cache, Meta(id, ClosedOf(s)[id].entries.Keys), cfg.cacheSize), fp);
      }
    }
  }

  /** The cached containers that hold `fp`, if any: the first of them is the one found. */
  lemma {:induction false} CacheFirst(cache: seq<Meta>, fp: Fp)
    ensures (exists i :: 0 <= i < |cache| && fp in cache[i].fps) ==>
              exists i :: 0 <= i < |cache| && fp in cache[i].fps && (forall j | 0 <= j < i :: fp !in cache[j].fps)
                          && CacheLookup(cache, fp).dup && !CacheLookup(cache, fp).denied && CacheLookup(cache, fp).id == cache[i].id
    ensures (forall i | 0 <= i < |cache| :: fp !in cache[i].fps) ==>
              CacheLookup(cache, fp) == Found(TEMPORARY_ID, false, false, cache)
  {
    var i := Find(cache, fp);
    if i < |cache| {
      assert fp in cache[i].fps;
    }
  }

  /** Prefetching a container and searching again finds it exactly if it holds the fingerprint. */
  lemma {:induction false} PrefetchFinds(cache: seq<Meta>, m: Meta, max: int, fp: Fp)
    requires forall i | 0 <= i < |cache| :: fp !in cache[i].fps
    ensures var f := CacheLookup(Insert(cache, m, max), fp);
            if fp in m.fps then f.dup && !f.denied && f.id == m.id else !f.dup && f.id == TEMPORARY_ID
  {
    var q := Insert(cache, m, max);
    assert q[0] == m && forall i | 0 < i < |q| :: q[i] == cache[i - 1];
  }

  /**
   * Where a fingerprint is found: the open container, else the copies in flight, else the first cached container that
   * holds it, else the container its key names, if that holds it; else it is unique. Said without the search itself.
   */
  lemma {:induction false} FoundFirst(cfg: Config, content: Content, s: Store, ix: Index, flat: seq<Chunk>, fp: Fp)
    requires IndexOk(cfg, content, s, ix, flat)
    ensures FindDuplicate(cfg, s, ix, fp).Done?
    ensures var f := FindDuplicate(cfg, s, ix, fp).value;
            var key := KeyOf(fp, cfg.keySize);
            if fp in OpenFps(s) then f.dup && f.denied && f.id == s.open.value.id
            else if fp in FpSet(flat) then f.dup && !f.denied && fp in ix.buffer && ix.buffer[fp] != [] && f.id == ix.buffer[fp][0]
            else if exists i :: 0 <= i < |ix.cache| && fp in ix.cache[i].fps then
              f.dup && !f.denied
              && exists i :: 0 <= i < |ix.cache| && fp in ix.cache[i].fps && (forall j | 0 <= j < i :: fp !in ix.cache[j].fps)
                             && f.id == ix.cache[i].id
            else if key in ix.kv && ix.kv[key] in ClosedOf(s) && fp in ClosedOf(s)[ix.kv[key]].entries then
              f.dup && !f.denied && f.id == ix.kv[key]
            else !f.dup && !f.denied && f.id == TEMPORARY_ID
    ensures forall k | k in ix.kv :: ix.kv[k] in ClosedOf(s)
  {
    FindDuplicateOk(cfg, content, s, ix, flat, fp);
    FlightQueue(Held(s), ix.buffer, flat, fp);
    StoreQueue(s, content);
    var key := KeyOf(fp, cfg.keySize);
    forall k | k in ix.kv
      ensures ix.kv[k] in ClosedOf(s)
    {
      KvClosed(cfg, ClosedOf(s), ix.kv, k);
    }
    CacheFirst(ix.cache, fp);
    if key in ix.kv {
      RetrieveIsClosed(s, ix.kv[key]);
      if forall i | 0 <= i < |ix.cache| :: fp !in ix.cache[i].fps {
        PrefetchFinds(ix.cache, Meta(ix.kv[key], ClosedOf(s)[ix.kv[key]].entries.Keys), cfg.cacheSize, fp);
      }
    }
    hide IndexOk, Held, Closed, Retrieve, Insert, KeyOf, CacheLookup, QueueOk;
  }

  /**
   * What a lookup does to the fingerprint cache: nothing if the open container or a copy in flight has the fingerprint; a
   * hit moves in front; a container fetched because its key matched goes in front, and the last one leaves if the cache
   * was full.
   */
  lemma {:induction false} CacheAfter(cfg: Config, content: Content, s: Store, ix: Index, flat: seq<Chunk>, fp: Fp)
    requires IndexOk(cfg, content, s, ix, flat)
    ensures FindDuplicate(cfg, s, ix, fp).Done?
    ensures var after := FindDuplicate(cfg, s, ix, fp).value.cache;
            var cache, key, max := ix.cache, KeyOf(fp, cfg.keySize), cfg.cacheSize;
            && (fp in OpenFps(s) || fp in FpSet(flat) ==> after == cache)
            && (fp !in OpenFps(s) && fp !in FpSet(flat) ==>
                  && (forall i | 0 <= i < |cache| && fp in cache[i].fps && (forall j | 0 <= j < i :: fp !in cache[j].fps) ::
                        after == [cache[i]] + cache[..i] + cache[i + 1..])
                  && ((forall i | 0 <= i < |cache| :: fp !in cache[i].fps) && key !in ix.kv ==> after == cache)
                  && ((forall i | 0 <= i < |cache| :: fp !in cache[i].fps) && key in ix.kv && ix.kv[key] in ClosedOf(s) ==>
                        after == [Meta(ix.kv[key], ClosedOf(s)[ix.kv[key]].entries.Keys)]
                                 + if max > 0 && |cache| == max then cache[..max - 1] else cache))
  {
    FindDuplicateOk(cfg, content, s, ix, flat, fp);
    FlightQueue(Held(s), ix.buffer, flat, fp);
    StoreQueue(s, content);
    var key := KeyOf(fp, cfg.keySize);
    CacheMoves(ix.cache, fp);
    if key in ix.kv {
      KvClosed(cfg, ClosedOf(s), ix.kv, key);
      RetrieveIsClosed(s, ix.kv[key]);
      if forall i | 0 <= i < |ix.cache| :: fp !in ix.cache[i].fps {
        FetchedInFront(ix.cache, Meta(ix.kv[key], ClosedOf(s)[ix.kv[key]].entries.Keys), cfg.cacheSize, fp);
      }
    }
    hide IndexOk, Held, Closed, Retrieve, Insert, KeyOf, CacheLookup, QueueOk;
  }

  lemma {:induction false} CacheMoves(cache: seq<Meta>, fp: Fp)
    ensures CacheLookup(cache, fp).dup <==> exists i :: 0 <= i < |cache| && fp in cache[i].fps
    ensures !CacheLookup(cache, fp).dup ==> CacheLookup(cache, fp).cache == cache
    ensures forall i | 0 <= i < |cache| && fp in cache[i].fps && (forall j | 0 <= j < i :: fp !in cache[j].fps) ::
              CacheLookup(cache, fp).cache == [cache[i]] + cache[..i] + cache[i + 1..]
  {
    hide Find;
    var k := Find(cache, fp);
    forall i | 0 <= i < |cache| && fp in cache[i].fps && (forall j | 0 <= j < i :: fp !in cache[j].fps)
      ensures CacheLookup(cache, fp).cache == [cache[i]] + cache[..i] + cache[i + 1..]
    {
      assert i == k;
    }
  }

  lemma {:induction false} FetchedInFront(cache: seq<Meta>, m: Meta, max: int, fp: Fp)
    requires forall i | 0 <= i < |cache| :: fp !in cache[i].fps
    ensures CacheLookup(Insert(cache, m, max), fp).cache
         == [m] + if max > 0 && |cache| == max then cache[..max - 1] else cache
  {
    var q := Insert(cache, m, max);
    assert q[0] == m && forall i | 0 < i < |q| :: q[i] == cache[i - 1];
    CacheMoves(q, fp);
    if fp in m.fps {
      assert [q[0]] + q[..0] + q[1..] == q;
    }
  }

  lemma {:induction false} FlightQueue(held: Holdings, buffer: map<Fp, seq<int>>, flat: seq<Chunk>, fp: Fp)
    requires FlightOk(held, buffer, flat)
    ensures QueueOf(held, buffer, flat, fp)
  {
  }

  lemma {:induction false} KvClosed(cfg: Config, closed: map<int, Container>, kv: map<Key, int>, key: Key)
    requires KvOk(cfg, closed, kv) && key in kv
    ensures kv[key] in closed
  {
  }

  lemma {:induction false} StoreQueue(s: Store, content: Content)
    requires StoreOk(s, content)
    ensures QueueOk(s)
  {
  }

  lemma {:induction false} OpenStored(s: Store, content: Content, fp: Fp)
    requires StoreOk(s, content) && fp in OpenFps(s)
    ensures s.open.value.id >= 0 && Stored(Held(s), s.open.value.id, fp)
  {
  }

  /** What holds between lookups and filters of a running backup. */
  ghost predicate IndexOk(cfg: Config, content: Content, s: Store, ix: Index, flat: seq<Chunk>) {
    && StoreOk(s, content)
    && KvOk(cfg, ClosedOf(s), ix.kv)
    && CacheOk(ClosedOf(s), ix.cache)
    && FlightOk(Held(s), ix.buffer, flat)
    && Unwritten(OpenFps(s), flat)
    && ix.chunkNum == NormalCount(flat)
  }

  lemma {:induction false} LookupChunkOk(cfg: Config, content: Content, s: Store, ix: Index, flat: seq<Chunk>,
                                         item: Item)
    requires IndexOk(cfg, content, s, ix, flat)
    ensures LookupChunk(cfg, s, ix, item).Done?
    ensures var (jx, c) := LookupChunk(cfg, s, ix, item).value;
            && c.item == item
            && jx.kv == ix.kv
            && IndexOk(cfg, content, s, jx, flat + [c])
  {
    hide StoreOk, FlightOk, CacheOk, KvOk, Held, FindDuplicate, Closed, Push;
    var (jx, c) := if item.Piece? then (FindDuplicateOk(cfg, content, s, ix, flat, item.fp); LookupChunk(cfg, s, ix, item).value)
                   else (ix, NewChunk(item));
    if item.Piece? {
      PushFlight(Held(s), ix.buffer, flat, c);
    } else {
      MarkFlight(Held(s), ix.buffer, flat, c);
    }
    FpSetConcat(flat, [c]);
    assert (flat + [c])[..|flat|] == flat;
  }

  /** A whole segment: no assertion fails and the invariant holds with the segment in flight. */
  lemma {:induction false} LookupPrefixOk(cfg: Config, content: Content, s: Store, ix: Index, flat: seq<Chunk>,
                                          items: seq<Item>, n: nat)
    requires n <= |items| && IndexOk(cfg, content, s, ix, flat)
    ensures LookupPrefix(cfg, s, ix, items, n).Done?
    ensures var (jx, cs) := LookupPrefix(cfg, s, ix, items, n).value;
            && Items(cs) == items[..n]
            && jx.kv == ix.kv
            && IndexOk(cfg, content, s, jx, flat + cs)
  {
    hide IndexOk, LookupChunk;
    if n == 0 {
      assert flat + [] == flat;
    } else {
      LookupPrefixOk(cfg, content, s, ix, flat, items, n - 1);
      var (jx, cs) := LookupPrefix(cfg, s, ix, items, n - 1).value;
      LookupChunkOk(cfg, content, s, jx, flat + cs, items[n - 1]);
      var (kx, c) := LookupChunk(cfg, s, jx, items[n - 1]).value;
      assert flat + (cs + [c]) == (flat + cs) + [c];
      assert (cs + [c])[..|cs + [c]| - 1] == cs;
    }
  }

  // ---------------------------------------------------------------- storing chunks

  lemma {:induction false} DiskInClosed(disk: map<int, Container>, pending: seq<Container>)
    ensures forall id | id in disk :: id in Closed(disk, pending)
    ensures forall i | 0 <= i < |pending| :: pending[i].id in Closed(disk, pending)
    decreases |pending|
  {
    if pending != [] {
      DiskInClosed(disk, pending[..|pending| - 1]);
      assert forall i | 0 <= i < |pending| - 1 :: pending[..|pending| - 1][i] == pending[i];
    }
  }

  lemma {:induction false} CreateOk(s: Store, content: Content)
    requires StoreOk(s, content) && s.open.None?
    ensures StoreOk(Create(s), content)
    ensures Held(Create(s)) == Held(s)[s.nextId := map[]]
    ensures s.nextId !in Held(s)
  {
    assert ClosedOf(Create(s)) == ClosedOf(s);
  }

  lemma {:induction false} CloseQueue(cfg: Config, s: Store, kv: map<Key, int>)
    requires cfg.ratio > 0 && s.open.Some? && QueueOk(s) && s.open.value.id !in ClosedOf(s)
    requires forall id | id in s.disk :: id in ClosedOf(s)
    ensures QueueOk(CloseOpen(cfg, s, kv).0)
  {
    forall i | 0 <= i < |s.pending|
      ensures s.pending[i].id != s.open.value.id
    {
      PendingIsClosed(s.disk, s.pending, i);
    }
    hide Features, Closed;
  }

  lemma {:induction false} PendingIsClosed(disk: map<int, Container>, pending: seq<Container>, i: nat)
    requires i < |pending|
    ensures pending[i].id in Closed(disk, pending)
  {
    if i < |pending| - 1 {
      PendingIsClosed(disk, pending[..|pending| - 1], i);
    }
  }

  /** Closing the open container changes nothing but its place. */
  lemma {:induction false} CloseOk(cfg: Config, s: Store, kv: map<Key, int>, content: Content)
    requires cfg.ratio > 0 && StoreOk(s, content) && s.open.Some?
    ensures var (t, kv') := CloseOpen(cfg, s, kv);
            && StoreOk(t, content)
            && ClosedOf(t) == ClosedOf(s)[s.open.value.id := s.open.value]
            && Held(t) == Held(s)
  {
    var c := s.open.value;
    DiskInClosed(s.disk, s.pending);
    ClosedSnoc(s.disk, s.pending, c);
    var t := CloseOpen(cfg, s, kv).0;
    CloseQueue(cfg, s, kv);
    hide Closed, ContainerOk, QueueOk, Features;
  }

  lemma {:induction false} CloseKv(cfg: Config, s: Store, kv: map<Key, int>, content: Content)
    requires cfg.ratio > 0 && StoreOk(s, content) && s.open.Some? && KvOk(cfg, ClosedOf(s), kv)
    ensures KvOk(cfg, ClosedOf(s)[s.open.value.id := s.open.value], CloseOpen(cfg, s, kv).1)
  {
    var c := s.open.value;
    var closed' := ClosedOf(s)[c.id := c];
    var kv' := CloseOpen(cfg, s, kv).1;
    forall k | k in kv'
      ensures kv'[k] in closed' && exists fp :: fp in closed'[kv'[k]].entries && KeyOf(fp, cfg.keySize) == k
    {
      if k in Features(c.order, cfg) {
        var i :| 0 <= i < |c.order| && i % cfg.ratio == 0 && KeyOf(c.order[i], cfg.keySize) == k;
        assert c.order[i] in c.entries;
      } else {
        var fp :| fp in ClosedOf(s)[kv[k]].entries && KeyOf(fp, cfg.keySize) == k;
        assert fp in closed'[kv'[k]].entries;
      }
    }
  }

  /** After making room the open container has room, and nothing stored was lost or added. */
  lemma {:induction false} MakeRoomOk(cfg: Config, s: Store, kv: map<Key, int>, size: int, content: Content)
    requires cfg.ratio > 0 && StoreOk(s, content) && KvOk(cfg, ClosedOf(s), kv)
    requires 0 <= size <= CONTAINER_SIZE - CONTAINER_META_SIZE
    ensures var (t, kv') := MakeRoom(cfg, s, kv, size);
            && StoreOk(t, content) && KvOk(cfg, ClosedOf(t), kv')
            && t.open.Some? && !Overflow(t.open.value, size)
            && OpenFps(t) <= OpenFps(s)
            && (forall id | id in ClosedOf(s) :: id in ClosedOf(t) && ClosedOf(t)[id] == ClosedOf(s)[id])
            && (forall id, fp :: Stored(Held(t), id, fp) <==> Stored(Held(s), id, fp))
            && Held(t).Keys == Held(s).Keys + {t.open.value.id}
  {
    hide StoreOk, KvOk, Held, Closed, CloseOpen, Overflow;
    EmptyHasRoom(s.nextId, size);
    var s1 := if s.open.None? then Create(s) else s;
    if s.open.None? {
      CreateOk(s, content);
    } else {
      OpenHeld(s);
    }
    if Overflow(s1.open.value, size) {
      CloseOk(cfg, s1, kv, content);
      CloseKv(cfg, s1, kv, content);
      OpenNotClosed(s1, content);
      var (s2, kv2) := CloseOpen(cfg, s1, kv);
      CloseShape(cfg, s1, kv);
      EmptyHasRoom(s2.nextId, size);
      CreateOk(s2, content);
    }
  }

  lemma {:induction false} EmptyHasRoom(id: int, size: int)
    requires size <= CONTAINER_SIZE - CONTAINER_META_SIZE
    ensures !Overflow(NewContainer(id), size)
  {
  }

  lemma {:induction false} OpenHeld(s: Store)
    requires s.open.Some?
    ensures s.open.value.id in Held(s)
  {
  }

  lemma {:induction false} OpenNotClosed(s: Store, content: Content)
    requires StoreOk(s, content) && s.open.Some?
    ensures s.open.value.id !in ClosedOf(s)
  {
  }

  lemma {:induction false} CloseShape(cfg: Config, s: Store, kv: map<Key, int>)
    requires cfg.ratio > 0 && s.open.Some?
    ensures CloseOpen(cfg, s, kv).0.open.None?
  {
  }

  lemma {:induction false} AddOk(s: Store, fp: Fp, data: Bytes, content: Content)
    requires StoreOk(s, content) && s.open.Some? && fp !in OpenFps(s) && data == content(fp)
    ensures var t := s.(open := Some(Add(s.open.value, fp, data)));
            && StoreOk(t, content)
            && ClosedOf(t) == ClosedOf(s)
            && OpenFps(t) == OpenFps(s) + {fp}
            && Held(t).Keys == Held(s).Keys
            && (forall id, g :: Stored(Held(t), id, g) <==> Stored(Held(s), id, g) || (id == s.open.value.id && g == fp))
  {
    var c := s.open.value;
    var d := Add(c, fp, data);
    assert forall g :: g in d.order <==> g in c.order || g == fp;
  }
}
