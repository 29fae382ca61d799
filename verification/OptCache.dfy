/** The optimal cache object and the restore thread that drives it. */
module OptCache {
  import opened Common
  import opened InFlight
  import opened RestoreSpec
  import opened RestoreThreads
  import opened AccessRecords
  import opened OptimalRestore
  import B = Belady
  import Lru
  import R = Recipes

  class OptimalCache {
    const held: Holdings
    const file: seq<int>
    const window: int
    const max: int
    var pos: nat
    var ended: bool
    var table: Table
    var nextSeq: int
    var buffered: int
    var sorted: seq<int>
    var lru: seq<Cached>
    var lastId: int
    var readNum: nat
    /** How many records have been served. */
    ghost var used: nat

    ghost predicate WindowOk()
      reads this
    {
      && FileOk(file) && window >= 1 && max != 0
      && TableOk(table, file, used, pos)
      && nextSeq == pos && buffered == pos - used <= window
      && (ended <==> pos == |file|)
    }

    ghost predicate Valid()
      reads this
    {
      WindowOk() && ListsOk(held, lru, sorted, table) && (max > 0 ==> |lru| <= max)
    }

    constructor (held: Holdings, file: seq<int>, window: int, max: int)
      requires FileOk(file) && window >= 1 && max != 0
      ensures Valid() && lru == [] && used == 0 && lastId == TEMPORARY_ID && readNum == 0
      ensures this.held == held && this.file == file && this.window == window && this.max == max
      ensures window >= |file| - 1 ==> pos >= |file| - 1
    {
      this.held, this.file, this.window, this.max := held, file, window, max;
      pos, ended, table, nextSeq, buffered := 0, false, map[], 0, 0;
      sorted, lru, lastId, readNum, used := [], [], TEMPORARY_ID, 0, 0;
      new;
      WindowFill();
    }

    /** optimal_cache_window_fill: read as many records as the window has room for. */
    method WindowFill()
      requires WindowOk() && ListsOk(held, lru, sorted, table)
      modifies this`pos, this`ended, this`table, this`nextSeq, this`buffered
      ensures WindowOk() && ListsOk(held, lru, sorted, table)
      ensures pos == Min(old(pos) + window - old(buffered), |file|)
    {
      hide TableOk, ListsOk;
      TableBounds(table, file, used, pos);
      if ended {
        return;
      }
      var n := window - buffered;
      var k := Min(n, |file| - pos);
      ghost var pos0 := pos;
      var i := 0;
      while i < k
        invariant 0 <= i <= k && pos == pos0 + i && nextSeq == pos && buffered == old(buffered) && !ended
        invariant TableOk(table, file, used, pos) && ListsOk(held, lru, sorted, table)
      {
        TablePush(table, file, used, pos);
        var id := file[pos];
        ListsGrow(held, lru, sorted, table, id, Queue(table, id) + [nextSeq]);
        table := table[id := Queue(table, id) + [nextSeq]];
        nextSeq, pos, i := nextSeq + 1, pos + 1, i + 1;
      }
      buffered := buffered + k;
      if k > 0 && file[pos - 1] == TEMPORARY_ID {
        ended := true;
      }
    }

    /** optimal_cache_window_slides: the popped number is the smallest outstanding one. */
    method WindowSlide(id: int)
      requires Valid() && used < |file| - 1 && file[used] == id
      modifies this`pos, this`ended, this`table, this`nextSeq, this`buffered, this`used
      ensures Valid() && used == old(used) + 1 && id in table
      ensures old(pos) >= |file| - 1 ==> pos >= |file| - 1
    {
      hide TableOk, ListsOk;
      TableBounds(table, file, used, pos);
      if buffered * 2 <= window {
        WindowFill();
        TableBounds(table, file, used, pos);
      }
      TablePop(table, file, used, pos);
      var q := table[id];
      ListsGrow(held, lru, sorted, table, id, q[1..]);
      table := table[id := q[1..]];
      buffered := buffered - 1;
      used := used + 1;
    }

    /** optimal_cache_hits. */
    method Hits(id: int) returns (hit: bool)
      requires Valid() && (lastId != id ==> used < |file| - 1 && file[used] == id)
      modifies this
      ensures Valid() && lastId == id && readNum == old(readNum)
      ensures used == old(used) + if old(lastId) == id then 0 else 1
      ensures CachedIds(lru) == old(CachedIds(lru)) && |lru| == |old(lru)|
      ensures hit <==> id in CachedIds(lru)
      ensures hit ==> lru != [] && lru[0].id == id
      ensures old(lastId) != id ==> id in table
      ensures old(pos) >= |file| - 1 ==> pos >= |file| - 1
    {
      hide TableOk, ListsOk;
      if lastId != id {
        WindowSlide(id);
        lastId := id;
      }
      var i := Lru.FirstHit(lru, (c: Cached) => c.id == id);
      hit := i < |lru|;
      HitIsCached(lru, id);
      if hit {
        FrontOk(held, lru, sorted, table, i);
        lru := Lru.ToFront(lru, i);
      }
    }

    /** The eviction of optimal_cache_insert: no cached container is known to be needed later than the victim. */
    method Evict() returns (victim: int)
      requires Valid() && lru != [] && |lru| == max
      modifies this`table, this`sorted, this`lru
      ensures Valid() && |lru| < max
      ensures victim in old(CachedIds(lru)) && CachedIds(lru) == old(CachedIds(lru)) - {victim}
      ensures forall x | x in old(CachedIds(lru)) :: NoLater(Positions(file, x, used, pos), Positions(file, victim, used, pos))
      ensures forall x | x in old(table) && x !in old(CachedIds(lru)) :: x in table
    {
      hide TableOk, FileOk, Positions, NoLater, CachedIds, ListsOk;
      sorted := Resort(held, lru, sorted, table);
      var i, k := ChooseVictim(held, lru, sorted, table, file, used, pos);
      victim := sorted[k];
      KickOk(held, lru, sorted, table, i, k);
      lru, sorted := Lru.Drop(lru, i), Lru.Drop(sorted, k);
      if Queue(table, victim) == [] {
        TableForget(table, file, used, pos, victim);
        ForgetOk(held, lru, sorted, table, victim);
        table := table - {victim};
      }
    }

    /** optimal_cache_insert. */
    method Add(id: int) returns (ghost victim: Option<int>)
      requires Valid() && id !in CachedIds(lru) && id in held && id in table
      modifies this`table, this`sorted, this`lru, this`readNum
      ensures Valid() && readNum == old(readNum) + 1
      ensures lru != [] && lru[0] == Cached(id, held[id])
      ensures victim.None? ==> (max > 0 ==> |old(lru)| < max) && CachedIds(lru) == old(CachedIds(lru)) + {id}
      ensures victim.Some? ==> max > 0 && |old(lru)| == max && victim.value in old(CachedIds(lru))
      ensures victim.Some? ==> CachedIds(lru) == old(CachedIds(lru)) - {victim.value} + {id}
      ensures victim.Some? ==> forall x | x in old(CachedIds(lru)) ::
                NoLater(Positions(file, x, used, pos), Positions(file, victim.value, used, pos))
    {
      hide TableOk, FileOk, InsertSorted, NoLater;
      victim := None;
      if max > 0 && |lru| >= max {
        var v := Evict();
        victim := Some(v);
      }
      readNum := readNum + 1;
      AddOk(held, lru, sorted, table, id);
      lru := [Cached(id, held[id])] + lru;
      sorted := InsertSorted(table, sorted, id);
    }

    /** One recipe pointer: hit, or read the container. */
    method Serve(id: int)
      requires Valid() && id in held
      requires lastId != id ==> used < |file| - 1 && file[used] == id
      requires lastId == id ==> id in CachedIds(lru)
      modifies this
      ensures Valid() && lastId == id && lru != [] && lru[0] == Cached(id, held[id])
      ensures used == old(used) + if old(lastId) == id then 0 else 1
      ensures readNum == old(readNum) + if id in old(CachedIds(lru)) then 0 else 1
      ensures id in CachedIds(lru)
      ensures old(lastId) == id ==> CachedIds(lru) == old(CachedIds(lru))
      ensures old(pos) >= |file| - 1 ==> pos >= |file| - 1
      ensures old(pos) >= |file| - 1 && max > 0 && old(lastId) != id ==>
                B.BeladyStep(max, old(CachedIds(lru)), id, file[used..|file| - 1], CachedIds(lru))
    {
      hide TableOk, ListsOk, NoLater, Positions, B.Farthest, FileOk, B.BeladyStep, CachedIds;
      ghost var before := CachedIds(lru);
      TableBounds(table, file, used, pos);
      var hit := Hits(id);
      if !hit {
        CardCached(held, lru, sorted, table);
        ghost var v := Add(id);
        if pos >= |file| - 1 && used < |file| && max > 0 {
          TableBounds(table, file, used, pos);
          if v.Some? {
            KnownIsFarthest(before, v.value, file, used, pos);
          }
          EvictionStep(max, before, id, file[used..|file| - 1], CachedIds(lru), v);
        }
        FrontIsCached(lru);
      } else {
        FaithfulFront(held, lru, sorted, table);
        if max > 0 && used < |file| {
          HitStep(max, before, id, file[used..|file| - 1]);
        }
      }
    }
  }

  lemma {:induction false} FrontIsCached(lru: seq<Cached>)
    requires lru != []
    ensures lru[0].id in CachedIds(lru)
  {
    assert lru[0] in lru;
  }

  lemma {:induction false} HitStep(k: nat, cache: set<int>, p: int, future: seq<int>)
    ensures p in cache ==> B.BeladyStep(k, cache, p, future, cache)
  {
  }

  lemma {:induction false} EvictionStep(k: nat, cache: set<int>, p: int, future: seq<int>, after: set<int>,
                                        victim: Option<int>)
    requires p !in cache
    requires victim.None? ==> |cache| < k && after == cache + {p}
    requires victim.Some? ==> |cache| == k && victim.value in cache && after == cache - {victim.value} + {p}
    requires victim.Some? ==> B.Farthest(cache, victim.value, future)
    ensures B.BeladyStep(k, cache, p, future, after)
  {
  }

  lemma {:induction false} FaithfulFront(held: Holdings, lru: seq<Cached>, records: seq<int>, t: Table)
    requires ListsOk(held, lru, records, t) && lru != []
    ensures lru[0].id in held && lru[0] == Cached(lru[0].id, held[lru[0].id])
  {
  }

  /** What the thread has done after the first `n` references. */
  ghost predicate Served(c: OptimalCache, refs: seq<R.Ref>, n: nat, caches: seq<set<int>>)
    requires n <= |refs|
    reads c
  {
    && c.Valid() && c.file == Requests(refs) + [TEMPORARY_ID]
    && c.lastId == Last(FetchIds(refs[..n]), TEMPORARY_ID)
    && c.used == |Requests(refs[..n])| == |caches|
    && (c.lastId != TEMPORARY_ID ==> c.lastId in CachedIds(c.lru))
    && CachedIds(c.lru) == (if caches == [] then {} else caches[|caches| - 1])
    && c.readNum == B.Misses({}, Requests(refs[..n]), caches)
  }

  /** With every access record in the window, every choice so far was Belady's. */
  ghost predicate Foresighted(c: OptimalCache, refs: seq<R.Ref>, caches: seq<set<int>>)
    reads c
  {
    c.max > 0 && c.window >= |c.file| - 1 ==>
      && c.pos >= |c.file| - 1 && |caches| <= |Requests(refs)|
      && forall i | 0 <= i < |caches| :: B.BeladyAt(c.max, {}, Requests(refs), caches, i)
  }

  /** One chunk of the recipe; `caches'` extends the history of cached sets. */
  method ServeRef(c: OptimalCache, ghost refs: seq<R.Ref>, ghost n: nat, p: R.Pointer, ghost caches: seq<set<int>>)
    returns (data: Bytes, ghost caches': seq<set<int>>)
    requires n < |refs| && refs[n] == R.Fetch(p) && p.id >= 0 && Stored(c.held, p.id, p.fp)
    requires Served(c, refs, n, caches) && Foresighted(c, refs, caches)
    modifies c
    ensures Served(c, refs, n + 1, caches') && Foresighted(c, refs, caches')
    ensures data == c.held[p.id][p.fp]
  {
    hide TableOk, ListsOk, B.BeladyStep, Requests, FetchIds, B.Misses, FileOk;
    NextRecord(refs, n);
    UsedRequests(refs, n);
    ghost var changes := c.lastId != p.id;
    c.Serve(p.id);
    caches' := caches;
    if changes {
      caches' := caches + [CachedIds(c.lru)];
      B.MissesSnoc({}, Requests(refs[..n]), caches, p.id, CachedIds(c.lru));
      ghost var u := |caches|;
      assert c.file[u + 1..|c.file| - 1] == Requests(refs)[u + 1..];
      assert c.max > 0 && c.window >= |c.file| - 1 ==> B.BeladyAt(c.max, {}, Requests(refs), caches', u);
      assert c.max > 0 ==> forall i | 0 <= i < u && u < |Requests(refs)| ::
          B.BeladyAt(c.max, {}, Requests(refs), caches, i) == B.BeladyAt(c.max, {}, Requests(refs), caches', i);
    }
    data := c.lru[0].entries[p.fp];
  }

  lemma {:induction false} UsedRequests(refs: seq<R.Ref>, n: nat)
    requires n <= |refs|
    ensures Requests(refs[..n]) == Collapse(FetchIds(refs[..n]), TEMPORARY_ID)
  {
  }

  lemma {:induction false} SkipMark(refs: seq<R.Ref>, n: nat)
    requires n < |refs| && !refs[n].Fetch?
    ensures FetchIds(refs[..n + 1]) == FetchIds(refs[..n]) && Requests(refs[..n + 1]) == Requests(refs[..n])
  {
    assert refs[..n + 1][..n] == refs[..n];
  }

  lemma {:induction false} FileIsOk(refs: seq<R.Ref>, held: Holdings)
    requires GoodRefs(held, refs) && forall id | id in held :: id >= 0
    ensures FileOk(Requests(refs) + [TEMPORARY_ID])
  {
    FetchIdsReal(refs, held);
    var ids := FetchIds(refs);
    CollapseHead(ids, TEMPORARY_ID);
    forall i | 0 <= i < |Requests(refs)|
      ensures Requests(refs)[i] >= 0
    {
      assert Requests(refs)[i] in Collapse(ids, TEMPORARY_ID);
    }
  }

  /** optimal_restore_thread: the right stream, and no policy of the same capacity reads fewer containers. */
  method OptimalRestoreThread(held: Holdings, refs: seq<R.Ref>, cacheSize: int, window: int)
    returns (out: seq<Output>, readNum: nat)
    requires GoodRefs(held, refs) && (forall id | id in held :: id >= 0) && cacheSize != 0 && window >= 1
    ensures Restore(held, refs) == Done(out)
    ensures cacheSize > 0 && window >= |Requests(refs)| ==>
              forall any | B.Schedule(cacheSize, {}, Requests(refs), any) :: readNum <= B.Misses({}, Requests(refs), any)
  {
    hide TableOk, ListsOk, B.BeladyStep, FileOk, B.BeladyAt;
    FetchIdsReal(refs, held);
    FileIsOk(refs, held);
    var file := WriteRecords(FetchIds(refs));
    var cache := new OptimalCache(held, file, window, cacheSize);
    out := [];
    ghost var caches: seq<set<int>> := [];
    assert refs[..0] == [];
    assert Served(cache, refs, 0, caches);
    hide Requests, Served, Foresighted;
    for n := 0 to |refs|
      invariant fresh(cache) && cache.held == held && Served(cache, refs, n, caches) && Foresighted(cache, refs, caches)
      invariant Restore(held, refs[..n]) == Done(out)
    {
      assert refs[..n + 1] == refs[..n] + [refs[n]];
      var o := if refs[n].Open? then Start(refs[n].name) else End;
      if refs[n].Fetch? {
        var data;
        data, caches := ServeRef(cache, refs, n, refs[n].ptr, caches);
        o := Data(data);
      } else {
        ServedMark(cache, refs, n, caches);
      }
      RestoreSnoc(held, refs[..n], refs[n], out, o);
      out := out + [o];
    }
    assert refs[..|refs|] == refs;
    readNum := cache.readNum;
    if cacheSize > 0 && window >= |Requests(refs)| {
      forall any | B.Schedule(cacheSize, {}, Requests(refs), any)
        ensures readNum <= B.Misses({}, Requests(refs), any)
      {
        ForesightIsOptimal(cache, refs, caches, any);
      }
    }
  }

  lemma {:induction false} ServedMark(c: OptimalCache, refs: seq<R.Ref>, n: nat, caches: seq<set<int>>)
    requires n < |refs| && !refs[n].Fetch? && Served(c, refs, n, caches)
    ensures Served(c, refs, n + 1, caches)
  {
    SkipMark(refs, n);
  }

  lemma {:induction false} ForesightIsOptimal(c: OptimalCache, refs: seq<R.Ref>, caches: seq<set<int>>, any: seq<set<int>>)
    requires Served(c, refs, |refs|, caches) && Foresighted(c, refs, caches)
    requires c.max > 0 && c.window >= |Requests(refs)| && B.Schedule(c.max, {}, Requests(refs), any)
    ensures c.readNum <= B.Misses({}, Requests(refs), any)
  {
    assert refs[..|refs|] == refs;
    B.BeladyPointwise(c.max, {}, Requests(refs), caches);
    B.BeladyIsOptimal(c.max, Requests(refs), caches, any);
  }

  /** The containers the recipe reader asks for, in order. */
  function FetchIds(refs: seq<R.Ref>): seq<int> {
    if refs == [] then []
    else
      var ref := refs[|refs| - 1];
      FetchIds(refs[..|refs| - 1]) + if ref.Fetch? then [ref.ptr.id] else []
  }

  function Requests(refs: seq<R.Ref>): seq<int> {
    Collapse(FetchIds(refs), TEMPORARY_ID)
  }

  lemma {:induction false} FetchIdsPrefix(refs: seq<R.Ref>, n: nat)
    requires n <= |refs|
    ensures FetchIds(refs[..n]) <= FetchIds(refs)
    decreases |refs|
  {
    if n < |refs| {
      FetchIdsPrefix(refs[..|refs| - 1], n);
      assert refs[..|refs| - 1][..n] == refs[..n];
    } else {
      assert refs[..n] == refs;
    }
  }

  lemma {:induction false} FetchIdsReal(refs: seq<R.Ref>, held: Holdings)
    requires GoodRefs(held, refs) && forall id | id in held :: id >= 0
    ensures forall i | 0 <= i < |FetchIds(refs)| :: FetchIds(refs)[i] >= 0
  {
    if refs != [] {
      FetchIdsReal(refs[..|refs| - 1], held);
    }
  }

  /** The next pointer either repeats the last container or asks for the next record. */
  lemma {:induction false} NextRecord(refs: seq<R.Ref>, n: nat)
    requires n < |refs| && refs[n].Fetch?
    ensures var ids, id := FetchIds(refs[..n]), refs[n].ptr.id;
            var used := |Collapse(ids, TEMPORARY_ID)|;
            && FetchIds(refs[..n + 1]) == ids + [id]
            && (id == Last(ids, TEMPORARY_ID) ==> Requests(refs[..n + 1]) == Requests(refs[..n]))
            && (id != Last(ids, TEMPORARY_ID) ==>
                  used < |Requests(refs)| && Requests(refs)[used] == id && Requests(refs[..n + 1]) == Requests(refs[..n]) + [id])
  {
    var ids, id := FetchIds(refs[..n]), refs[n].ptr.id;
    assert refs[..n + 1][..n] == refs[..n];
    CollapseSnoc(ids, TEMPORARY_ID, id);
    FetchIdsPrefix(refs, n + 1);
    var all := FetchIds(refs);
    assert all[..|ids| + 1] == ids + [id];
    CollapsePrefix(all, TEMPORARY_ID, |ids| + 1);
  }

  lemma {:induction false} CardIds(lru: seq<Cached>)
    requires Distinct(IdsOf(lru))
    ensures |CachedIds(lru)| == |lru|
  {
    if lru != [] {
      var n := |lru| - 1;
      assert IdsOf(lru[..n]) == IdsOf(lru)[..n];
      CardIds(lru[..n]);
      assert lru == lru[..n] + [lru[n]];
      assert CachedIds(lru) == CachedIds(lru[..n]) + {lru[n].id};
      assert lru[n].id !in CachedIds(lru[..n]) by {
        IdsMember(lru[..n], lru[n].id);
      }
    }
  }

  lemma {:induction false} CardCached(held: Holdings, lru: seq<Cached>, records: seq<int>, t: Table)
    requires ListsOk(held, lru, records, t)
    ensures |CachedIds(lru)| == |lru|
  {
    DistinctMultiset(records, IdsOf(lru));
    CardIds(lru);
  }

  /** With every access record in the window, "no known later use" is Belady's choice. */
  lemma {:induction false} KnownIsFarthest(cache: set<int>, v: int, file: seq<int>, lo: nat, hi: nat)
    requires lo < |file| && |file| - 1 <= hi <= |file|
    requires forall x | x in cache :: NoLater(Positions(file, x, lo, hi), Positions(file, v, lo, hi))
    ensures B.Farthest(cache, v, file[lo..|file| - 1])
  {
    var future := file[lo..|file| - 1];
    forall t | 0 <= t <= |future| && v in B.Elems(future[..t])
      ensures cache <= B.Elems(future[..t])
    {
      forall x | x in cache
        ensures x in B.Elems(future[..t])
      {
        UsedBefore(file, lo, hi, x, v, t);
      }
    }
  }

  /** If `v` is used among the next `t` records and `x` no later, so is `x`. */
  lemma {:induction false} UsedBefore(file: seq<int>, lo: nat, hi: nat, x: int, v: int, t: nat)
    requires lo < |file| && |file| - 1 <= hi <= |file| && lo + t < |file|
    requires NoLater(Positions(file, x, lo, hi), Positions(file, v, lo, hi))
    requires v in B.Elems(file[lo..|file| - 1][..t])
    ensures x in B.Elems(file[lo..|file| - 1][..t])
  {
    var near := file[lo..|file| - 1][..t];
    assert forall k | 0 <= k < t :: near[k] == file[lo + k];
    var i :| 0 <= i < t && near[i] == v;
    assert file[lo..hi][i] == v;
    PositionsFirst(file, v, lo, hi);
    PositionsFirst(file, x, lo, hi);
    var p, q := Positions(file, v, lo, hi)[0], Positions(file, x, lo, hi)[0];
    NotBefore(file, v, lo, p, lo + i);
    assert near[q - lo] == x;
  }

  lemma {:induction false} NotBefore(file: seq<int>, v: int, lo: nat, p: int, k: nat)
    requires lo <= p <= |file| && lo <= k < |file| && file[k] == v && v !in file[lo..p]
    ensures p <= k
  {
    assert forall i | lo <= i < p :: file[lo..p][i - lo] == file[i];
  }

  lemma {:induction false} TableBounds(t: Table, file: seq<int>, lo: nat, hi: nat)
    requires TableOk(t, file, lo, hi)
    ensures lo <= hi <= |file|
  {
  }

  lemma {:induction false} ListsGrow(held: Holdings, lru: seq<Cached>, records: seq<int>, t: Table, id: int, q: seq<int>)
    requires ListsOk(held, lru, records, t)
    ensures ListsOk(held, lru, records, t[id := q])
  {
  }

  lemma {:induction false} HitIsCached(lru: seq<Cached>, id: int)
    ensures Lru.FirstHit(lru, (c: Cached) => c.id == id) < |lru| <==> id in CachedIds(lru)
    ensures var i := Lru.FirstHit(lru, (c: Cached) => c.id == id); i < |lru| ==> lru[i].id == id
  {
    var hit := (c: Cached) => c.id == id;
    var i := Lru.FirstHit(lru, hit);
    assert forall j | 0 <= j < i :: !hit(lru[j]);
    if i < |lru| {
      assert hit(lru[i]) && lru[i] in lru;
    }
  }

  /** Which cached container goes, by its places in both lists: of the candidates, the one used least recently. */
  method ChooseVictim(ghost held: Holdings, lru: seq<Cached>, sorted: seq<int>, t: Table, ghost file: seq<int>,
                      ghost lo: nat, ghost hi: nat) returns (i: nat, k: nat)
    requires ListsOk(held, lru, sorted, t) && Sorted(t, sorted) && TableOk(t, file, lo, hi) && lru != []
    ensures i < |lru| && k < |sorted| && lru[i].id == sorted[k] && sorted[k] in CachedIds(lru)
    ensures forall x | x in CachedIds(lru) :: NoLater(Positions(file, x, lo, hi), Positions(file, sorted[k], lo, hi))
    ensures exists n :: 0 <= n < |sorted| && IsCandidate(t, sorted, n) && sorted[n] == lru[i].id
    ensures forall j, n | i < j < |lru| && 0 <= n < |sorted| && IsCandidate(t, sorted, n) :: lru[j].id != sorted[n]
  {
    hide TableOk, NoLater, Sorted, Positions, Distinct;
    ListLength(held, lru, sorted, t);
    var ht := Candidates(t, sorted);
    var last := sorted[|sorted| - 1];
    ListMembers(held, lru, sorted, t, last);
    ghost var some := CandidateIsCached(lru, ht, last);
    var found := Lru.LastHit(lru, (c: Cached) => c.id in ht);
    i := found;
    var victim := lru[i].id;
    CandidateIsFarthest(t, sorted, victim);
    FarthestKnown(held, lru, sorted, t, file, lo, hi, victim);
    k := |sorted| - 1;
    while sorted[k] != victim
      invariant 0 <= k < |sorted| && victim in sorted[..k + 1]
      decreases k
    {
      k := k - 1;
    }
    assert lru[i] in lru;
  }

  /** g_sequence_sort with the comparison by first sequence number. */
  method Resort(ghost held: Holdings, ghost lru: seq<Cached>, q: seq<int>, t: Table) returns (s: seq<int>)
    requires ListsOk(held, lru, q, t)
    ensures ListsOk(held, lru, s, t) && Sorted(t, s)
  {
    s := Sort(t, q);
    SortKeeps(t, q);
    DistinctMultiset(q, s);
    forall i | 0 <= i < |s|
      ensures s[i] in t
    {
      assert s[i] in multiset(s);
      assert s[i] in q;
    }
  }

  lemma {:induction false} ListLength(held: Holdings, lru: seq<Cached>, records: seq<int>, t: Table)
    requires ListsOk(held, lru, records, t)
    ensures |records| == |lru|
  {
    assert |multiset(records)| == |records| && |multiset(IdsOf(lru))| == |lru|;
  }

  lemma {:induction false} ForgetOk(held: Holdings, lru: seq<Cached>, records: seq<int>, t: Table, id: int)
    requires ListsOk(held, lru, records, t) && id !in records
    ensures ListsOk(held, lru, records, t - {id})
  {
  }

  lemma {:induction false} CandidateIsCached(lru: seq<Cached>, ht: set<int>, member: int) returns (i: nat)
    requires member in ht && member in CachedIds(lru)
    ensures i < |lru| && lru[i].id in ht
  {
    var c :| c in lru && c.id == member;
    i :| 0 <= i < |lru| && lru[i] == c;
  }

  lemma {:induction false} FarthestKnown(held: Holdings, lru: seq<Cached>, sorted: seq<int>, t: Table, file: seq<int>,
                                         lo: nat, hi: nat, v: int)
    requires ListsOk(held, lru, sorted, t) && TableOk(t, file, lo, hi)
    requires forall x | x in sorted :: NoLater(Queue(t, x), Queue(t, v))
    ensures forall x | x in CachedIds(lru) :: NoLater(Positions(file, x, lo, hi), Positions(file, v, lo, hi))
  {
    forall x | x in CachedIds(lru)
      ensures NoLater(Positions(file, x, lo, hi), Positions(file, v, lo, hi))
    {
      ListMembers(held, lru, sorted, t, x);
      assert Queue(t, x) == Positions(file, x, lo, hi) && Queue(t, v) == Positions(file, v, lo, hi);
    }
  }
}
