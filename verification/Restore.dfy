/** The LRU and forward-assembly restore threads, each against the one-line restore. */
module RestoreThreads {
  import opened Common
  import opened InFlight
  import opened RestoreSpec
  import Lru
  import R = Recipes

  datatype Cached = Cached(id: int, entries: map<Fp, Bytes>)

  /** Every pointer resolves, and its size is the stored size. */
  ghost predicate GoodRefs(held: Holdings, refs: seq<R.Ref>) {
    forall i | 0 <= i < |refs| && refs[i].Fetch? ::
      Stored(held, refs[i].ptr.id, refs[i].ptr.fp) && refs[i].ptr.size == |held[refs[i].ptr.id][refs[i].ptr.fp]|
  }

  /** Copies of a chunk in different containers are the same bytes. */
  ghost predicate Coherent(held: Holdings) {
    forall i, j, fp | Stored(held, i, fp) && Stored(held, j, fp) :: held[i][fp] == held[j][fp]
  }

  ghost predicate CacheFaithful(held: Holdings, elems: seq<Cached>) {
    forall i | 0 <= i < |elems| :: elems[i].id in held && elems[i].entries == held[elems[i].id]
  }

  lemma {:induction false} FrontFaithful(held: Holdings, elems: seq<Cached>, i: nat)
    requires CacheFaithful(held, elems) && i < |elems|
    ensures CacheFaithful(held, Lru.ToFront(elems, i))
  {
  }

  lemma {:induction false} InsertFaithful(held: Holdings, elems: seq<Cached>, c: Cached, max: int)
    requires CacheFaithful(held, elems) && c.id in held && c.entries == held[c.id]
    ensures CacheFaithful(held, Lru.Insert(elems, c, max))
  {
  }

  lemma {:induction false} FaithfulAt(held: Holdings, elems: seq<Cached>)
    requires CacheFaithful(held, elems) && elems != []
    ensures elems[0].id in held && elems[0].entries == held[elems[0].id]
  {
  }

  /** One chunk: a hit may come from another container than the pointer's, with equal bytes. */
  method LruFetch(cache: Lru.Cache<Cached>, held: Holdings, p: R.Pointer) returns (data: Bytes, missed: bool)
    requires cache.Valid() && CacheFaithful(held, cache.elems)
    requires Stored(held, p.id, p.fp) && Coherent(held)
    modifies cache
    ensures cache.Valid() && CacheFaithful(held, cache.elems)
    ensures data == held[p.id][p.fp]
    ensures missed <==> forall i | 0 <= i < |old(cache.elems)| :: p.fp !in old(cache.elems)[i].entries
    ensures cache.elems == if missed then Lru.Insert(old(cache.elems), Cached(p.id, held[p.id]), cache.max)
                           else Lru.ToFront(old(cache.elems), Lru.FirstHit(old(cache.elems), (c: Cached) => p.fp in c.entries))
  {
    hide CacheFaithful;
    var hit := (c: Cached) => p.fp in c.entries;
    ghost var before := cache.elems;
    var found, k := cache.Lookup(hit);
    assert forall j | 0 <= j < k :: !hit(before[j]);
    if found {
      FrontFaithful(held, before, k);
    } else {
      InsertFaithful(held, before, Cached(p.id, held[p.id]), cache.max);
      cache.Add(Cached(p.id, held[p.id]));
    }
    var con := cache.elems[0];
    FaithfulAt(held, cache.elems);
    assert Stored(held, con.id, p.fp);
    return con.entries[p.fp], !found;
  }

  function IdsOf(elems: seq<Cached>): (r: seq<int>)
    ensures |r| == |elems| && forall i | 0 <= i < |elems| :: r[i] == elems[i].id
  {
    seq(|elems|, i requires 0 <= i < |elems| => elems[i].id)
  }

  /** The first of the containers `ids`, by latest use, that holds the fingerprint. */
  ghost function Answers(held: Holdings, ids: seq<int>, fp: Fp): nat {
    Lru.FirstHit(ids, id => Stored(held, id, fp))
  }

  /** The container that serves each chunk: one of the `max` used most recently if any has it, else the pointer's. */
  ghost function LruUses(held: Holdings, refs: seq<R.Ref>, max: int): seq<int> {
    if refs == [] then []
    else
      var n := |refs| - 1;
      var uses := LruUses(held, refs[..n], max);
      if !refs[n].Fetch? then uses
      else
        var ids := Lru.Top(Lru.Recent(uses), max);
        var i := Answers(held, ids, refs[n].ptr.fp);
        uses + [if i < |ids| then ids[i] else refs[n].ptr.id]
  }

  /** The container reads of an LRU cache: the chunks that none of the `max` containers used most recently has. */
  ghost function LruReads(held: Holdings, refs: seq<R.Ref>, max: int): nat {
    if refs == [] then 0
    else
      var n := |refs| - 1;
      var ids := Lru.Top(Lru.Recent(LruUses(held, refs[..n], max)), max);
      LruReads(held, refs[..n], max)
        + if refs[n].Fetch? && forall id | id in ids :: !Stored(held, id, refs[n].ptr.fp) then 1 else 0
  }

  lemma {:induction false} NothingUsed(held: Holdings, max: int)
    ensures LruReads(held, [], max) == 0
    ensures IdsOf([]) == Lru.Top(Lru.Recent(LruUses(held, [], max)), max)
  {
  }

  lemma {:induction false} SameAnswer(held: Holdings, elems: seq<Cached>, fp: Fp)
    requires CacheFaithful(held, elems)
    ensures Lru.FirstHit(elems, (c: Cached) => fp in c.entries) == Answers(held, IdsOf(elems), fp)
    ensures (forall i | 0 <= i < |elems| :: fp !in elems[i].entries)
            <==> (forall id | id in IdsOf(elems) :: !Stored(held, id, fp))
  {
    var hit, stored := (c: Cached) => fp in c.entries, id => Stored(held, id, fp);
    var ids := IdsOf(elems);
    assert forall i | 0 <= i < |elems| :: hit(elems[i]) <==> stored(ids[i]);
    var a, b := Lru.FirstHit(elems, hit), Lru.FirstHit(ids, stored);
    assert !(a < b) && !(b < a);
    forall i | 0 <= i < |elems| && fp in elems[i].entries
      ensures exists id :: id in ids && Stored(held, id, fp)
    {
      assert stored(ids[i]) && ids[i] in ids;
    }
  }

  lemma {:induction false} IdsMoved(elems: seq<Cached>, i: nat)
    requires i < |elems|
    ensures IdsOf(Lru.ToFront(elems, i)) == Lru.ToFront(IdsOf(elems), i)
  {
  }

  lemma {:induction false} IdsInserted(elems: seq<Cached>, c: Cached, max: int)
    ensures IdsOf(Lru.Insert(elems, c, max)) == Lru.Insert(IdsOf(elems), c.id, max)
  {
    var ids, out := IdsOf(elems), Lru.Insert(elems, c, max);
    var want := Lru.Insert(ids, c.id, max);
    assert |out| == |want|;
    forall i | 0 <= i < |out|
      ensures IdsOf(out)[i] == want[i]
    {
      assert i > 0 ==> out[i] == elems[i - 1] && want[i] == ids[i - 1];
    }
  }

  /** One chunk through a cache that holds the most recently used containers. */
  lemma {:induction false} LruStep(held: Holdings, refs: seq<R.Ref>, ref: R.Ref, elems: seq<Cached>, max: int)
    requires CacheFaithful(held, elems) && (ref.Fetch? ==> Stored(held, ref.ptr.id, ref.ptr.fp))
    requires IdsOf(elems) == Lru.Top(Lru.Recent(LruUses(held, refs, max)), max)
    ensures !ref.Fetch? ==> LruUses(held, refs + [ref], max) == LruUses(held, refs, max)
                            && LruReads(held, refs + [ref], max) == LruReads(held, refs, max)
    ensures ref.Fetch? ==>
              var missed := forall i | 0 <= i < |elems| :: ref.ptr.fp !in elems[i].entries;
              var now := if missed then Lru.Insert(elems, Cached(ref.ptr.id, held[ref.ptr.id]), max)
                         else Lru.ToFront(elems, Lru.FirstHit(elems, (c: Cached) => ref.ptr.fp in c.entries));
              && LruReads(held, refs + [ref], max) == LruReads(held, refs, max) + (if missed then 1 else 0)
              && IdsOf(now) == Lru.Top(Lru.Recent(LruUses(held, refs + [ref], max)), max)
  {
    hide Lru.Recent, IdsOf, CacheFaithful, Lru.Insert, Lru.ToFront, Lru.Top;
    assert (refs + [ref])[..|refs|] == refs;
    var uses := LruUses(held, refs, max);
    if ref.Fetch? {
      SameAnswer(held, elems, ref.ptr.fp);
      var i := Answers(held, IdsOf(elems), ref.ptr.fp);
      if i < |elems| {
        Lru.HitStaysRecent(uses, i, max);
        IdsMoved(elems, i);
      } else {
        Lru.MissStaysRecent(uses, ref.ptr.id, max);
        IdsInserted(elems, Cached(ref.ptr.id, held[ref.ptr.id]), max);
      }
    }
  }

  /** lru_restore_thread. */
  method LruRestore(held: Holdings, refs: seq<R.Ref>, cacheSize: int) returns (out: seq<Output>, readNum: nat)
    requires GoodRefs(held, refs) && Coherent(held)
    ensures Restore(held, refs) == Done(out)
    ensures readNum == LruReads(held, refs, cacheSize)
  {
    hide CacheFaithful, Coherent, Restore, GoodRefs, LruReads, LruUses, Lru.Recent, IdsOf, Stored;
    RestoreNothing(held);
    var cache := new Lru.Cache<Cached>(cacheSize);
    out, readNum := [], 0;
    assert CacheFaithful(held, cache.elems) by { EmptyFaithful(held); }
    NothingUsed(held, cacheSize);
    for n := 0 to |refs|
      invariant fresh(cache) && cache.Valid() && CacheFaithful(held, cache.elems)
      invariant Restore(held, refs[..n]) == Done(out)
      invariant cache.max == cacheSize && readNum == LruReads(held, refs[..n], cacheSize)
      invariant IdsOf(cache.elems) == Lru.Top(Lru.Recent(LruUses(held, refs[..n], cacheSize)), cacheSize)
    {
      assert refs[..n + 1] == refs[..n] + [refs[n]];
      GoodRef(held, refs, n);
      LruStep(held, refs[..n], refs[n], cache.elems, cacheSize);
      var o := if refs[n].Open? then Start(refs[n].name) else End;
      if refs[n].Fetch? {
        var data, missed := LruFetch(cache, held, refs[n].ptr);
        o := Data(data);
        if missed {
          readNum := readNum + 1;
        }
      }
      RestoreSnoc(held, refs[..n], refs[n], out, o);
      out := out + [o];
    }
    assert refs[..|refs|] == refs;
  }

  lemma {:induction false} RestoreNothing(held: Holdings)
    ensures Restore(held, []) == Done([])
  {
  }

  lemma {:induction false} GoodRef(held: Holdings, refs: seq<R.Ref>, n: nat)
    requires GoodRefs(held, refs) && n < |refs|
    ensures GoodRefs(held, [refs[n]])
    ensures refs[n].Fetch? ==> Stored(held, refs[n].ptr.id, refs[n].ptr.fp)
  {
    assert [refs[n]][0] == refs[n];
  }

  lemma {:induction false} EmptyFaithful(held: Holdings)
    ensures CacheFaithful(held, [])
  {
  }

  // ---------------------------------------------------------------- forward assembly

  /** A chunk waiting in the assembly area. */
  datatype Slot = Slot(ref: R.Ref, ready: bool, data: Bytes)

  function SizeOf(ref: R.Ref): int {
    if ref.Fetch? then ref.ptr.size else 0
  }

  function Total(area: seq<Slot>): int {
    if area == [] then 0 else Total(area[..|area| - 1]) + SizeOf(area[|area| - 1].ref)
  }

  predicate Same(a: Slot, b: Slot) {
    a.ref.Fetch? && b.ref.Fetch? && a.ref.ptr.id == b.ref.ptr.id
  }

  /** The slots are the references not yet issued; a ready slot has its bytes; in each container the ready come first. */
  ghost predicate AreaOk(held: Holdings, area: seq<Slot>, refs: seq<R.Ref>) {
    && |area| == |refs|
    && (forall i | 0 <= i < |area| :: area[i].ref == refs[i])
    && (forall i | 0 <= i < |area| && area[i].ready ::
          refs[i].Fetch? && Stored(held, refs[i].ptr.id, refs[i].ptr.fp)
          && area[i].data == held[refs[i].ptr.id][refs[i].ptr.fp])
    && (forall i, j | 0 <= i < j < |area| && Same(area[i], area[j]) && area[j].ready :: area[i].ready)
  }

  /** A slot can leave: a file mark, or a chunk whose bytes are there. */
  predicate Issuable(s: Slot) {
    !s.ref.Fetch? || s.ready
  }

  function OutputOfSlot(s: Slot): Output {
    match s.ref
    case Open(name) => Start(name)
    case Close => End
    case Fetch(_) => Data(s.data)
  }

  lemma {:induction false} TotalHead(area: seq<Slot>)
    requires area != []
    ensures Total(area) == SizeOf(area[0].ref) + Total(area[1..])
  {
    var n := |area| - 1;
    if n == 0 {
      assert area[..0] == [] && area[1..] == [];
    } else {
      TotalHead(area[..n]);
      assert area[..n][1..] == area[1..][..n - 1];
    }
  }

  lemma {:induction false} TotalSame(a: seq<Slot>, b: seq<Slot>)
    requires |a| == |b| && forall i | 0 <= i < |a| :: a[i].ref == b[i].ref
    ensures Total(a) == Total(b)
  {
    if a != [] {
      TotalSame(a[..|a| - 1], b[..|b| - 1]);
    }
  }

  lemma {:induction false} RestoreSnoc(held: Holdings, refs: seq<R.Ref>, ref: R.Ref, out: seq<Output>, o: Output)
    requires Restore(held, refs) == Done(out) && RestoreRef(held, ref) == Done(o)
    ensures Restore(held, refs + [ref]) == Done(out + [o])
  {
    assert (refs + [ref])[..|refs|] == refs;
  }

  lemma {:induction false} AreaTail(held: Holdings, area: seq<Slot>, refs: seq<R.Ref>)
    requires AreaOk(held, area, refs) && GoodRefs(held, refs) && area != []
    ensures refs != [] && refs == [refs[0]] + refs[1..] && area[0].ref == refs[0]
    ensures AreaOk(held, area[1..], refs[1..]) && GoodRefs(held, refs[1..])
    ensures Issuable(area[0]) ==> RestoreRef(held, refs[0]) == Done(OutputOfSlot(area[0]))
  {
  }

  lemma {:induction false} AreaLength(held: Holdings, area: seq<Slot>, refs: seq<R.Ref>)
    requires AreaOk(held, area, refs)
    ensures |area| == |refs|
  {
  }

  lemma {:induction false} PushedArea(held: Holdings, area: seq<Slot>, refs: seq<R.Ref>, ref: R.Ref)
    requires AreaOk(held, area, refs) && GoodRefs(held, refs) && GoodRefs(held, [ref])
    ensures AreaOk(held, area + [Slot(ref, false, [])], refs + [ref]) && GoodRefs(held, refs + [ref])
    ensures Total(area + [Slot(ref, false, [])]) == Total(area) + SizeOf(ref)
  {
    assert [ref][0] == ref;
    assert (area + [Slot(ref, false, [])])[..|area|] == area;
  }

  class Assembly {
    var area: seq<Slot>
    var size: int
    const areaSize: int
    var readNum: nat
    /** What was pushed and not issued, and what was issued. */
    ghost var waiting: seq<R.Ref>
    ghost var issued: seq<R.Ref>

    ghost predicate Valid(held: Holdings)
      reads this
    {
      AreaOk(held, area, waiting) && size == Total(area) && GoodRefs(held, waiting)
    }

    /** Between calls nothing ready waits at the front. */
    ghost predicate Stalled()
      reads this
    {
      area != [] ==> (area[0].ref.Fetch? && !area[0].ready) || forall i | 0 <= i < |area| :: !area[i].ready
    }

    constructor (limit: int, ghost held: Holdings)
      ensures Valid(held) && Stalled() && waiting == [] && issued == [] && areaSize == limit && readNum == 0
    {
      area, size, readNum, waiting, issued := [], 0, 0, [], [];
      areaSize := limit;
    }

    /** assembly_area_push: true when the area has reached its limit. */
    method Push(ref: R.Ref, ghost held: Holdings) returns (full: bool)
      requires Valid(held) && Stalled() && GoodRefs(held, [ref])
      modifies this
      ensures Valid(held) && Stalled() && waiting == old(waiting) + [ref] && issued == old(issued) && readNum == old(readNum)
      ensures full <==> ref.Fetch? && size >= areaSize
    {
      hide AreaOk, Total, GoodRefs;
      PushedArea(held, area, waiting, ref);
      area := area + [Slot(ref, false, [])];
      waiting := waiting + [ref];
      if !ref.Fetch? {
        return false;
      }
      size := size + ref.ptr.size;
      return size >= areaSize;
    }

    /** Remove the front slot and hand it on. */
    method IssueOne(held: Holdings, out: seq<Output>) returns (o: Output)
      requires Valid(held) && Restore(held, issued) == Done(out) && area != [] && Issuable(area[0])
      modifies this
      ensures Valid(held) && issued + waiting == old(issued + waiting) && readNum == old(readNum)
      ensures Restore(held, issued) == Done(out + [o])
      ensures area == old(area)[1..]
    {
      hide AreaOk, GoodRefs, Restore, RestoreRef, Total, Issuable;
      var s := area[0];
      TotalHead(area);
      AreaTail(held, area, waiting);
      o := OutputOfSlot(s);
      RestoreSnoc(held, issued, waiting[0], out, o);
      issued, waiting := issued + [waiting[0]], waiting[1..];
      area := area[1..];
      size := size - SizeOf(s.ref);
    }

    /** Remove what can leave from the front, in order. */
    method Issue(held: Holdings, marksOnly: bool, out: seq<Output>) returns (q: seq<Output>)
      requires Valid(held) && Restore(held, issued) == Done(out)
      modifies this
      ensures Valid(held) && issued + waiting == old(issued + waiting) && readNum == old(readNum)
      ensures Restore(held, issued) == Done(out + q)
      ensures |area| <= |old(area)| && area == old(area)[|old(area)| - |area|..]
      ensures area != [] ==> area[0].ref.Fetch? && (marksOnly || !area[0].ready)
      ensures marksOnly ==> forall i | 0 <= i < |old(area)| - |area| :: !old(area)[i].ref.Fetch?
    {
      hide Restore, AreaOk, Total, GoodRefs;
      q := [];
      assert out + q == out;
      while area != [] && Issuable(area[0]) && (!marksOnly || !area[0].ref.Fetch?)
        invariant Valid(held) && issued + waiting == old(issued + waiting) && readNum == old(readNum)
        invariant Restore(held, issued) == Done(out + q)
        invariant |area| <= |old(area)| && area == old(area)[|old(area)| - |area|..]
        invariant marksOnly ==> forall i | 0 <= i < |old(area)| - |area| :: !old(area)[i].ref.Fetch?
        decreases |area|
      {
        var o := IssueOne(held, out + q);
        assert (out + q) + [o] == out + (q + [o]);
        q := q + [o];
      }
    }

    /** Fill every waiting chunk of the front chunk's container; none of them was filled before. */
    method Fill(held: Holdings)
      requires Valid(held) && area != [] && area[0].ref.Fetch? && !area[0].ready
      modifies this
      ensures Valid(held) && waiting == old(waiting) && issued == old(issued) && size == old(size)
      ensures |area| == |old(area)| && area[0].ready && readNum == old(readNum) + 1
      ensures forall i | 0 <= i < |area| && Same(old(area)[0], old(area)[i]) :: !old(area)[i].ready && area[i].ready
      ensures forall i | 0 <= i < |area| && !Same(old(area)[0], old(area)[i]) :: area[i] == old(area)[i]
    {
      var id := area[0].ref.ptr.id;
      var con := held[id];
      readNum := readNum + 1;
      var filled := [];
      for i := 0 to |area|
        invariant |filled| == i && area == old(area) && waiting == old(waiting) && issued == old(issued)
        invariant size == old(size) && readNum == old(readNum) + 1
        invariant forall k | 0 <= k < i :: filled[k] ==
                    if Same(area[0], area[k]) then Slot(area[k].ref, true, con[area[k].ref.ptr.fp]) else area[k]
      {
        var s := area[i];
        if s.ref.Fetch? && s.ref.ptr.id == id {
          s := Slot(s.ref, true, con[s.ref.ptr.fp]);
        }
        filled := filled + [s];
      }
      TotalSame(area, filled);
      FilledOk(held, area, filled, waiting);
      area := filled;
    }

    /** assemble_area: leading marks, one container read, then everything that became ready. */
    method AssembleArea(held: Holdings, out: seq<Output>) returns (q: Option<seq<Output>>)
      requires Valid(held) && Stalled() && Restore(held, issued) == Done(out)
      modifies this
      ensures Valid(held) && Stalled() && issued + waiting == old(issued + waiting)
      ensures q.None? <==> old(area) == []
      ensures q.None? ==> area == [] && issued == old(issued)
      ensures q.Some? ==> Restore(held, issued) == Done(out + q.value) && |area| < |old(area)|
      ensures old(readNum) <= readNum <= old(readNum) + 1
    {
      if area == [] {
        return None;
      }
      ghost var a0 := area;
      var q1 := Issue(held, true, out);
      if area == [] {
        return Some(q1);
      }
      assert area[0] == a0[|a0| - |area|];
      Fill(held);
      var q2 := Issue(held, false, out + q1);
      assert out + (q1 + q2) == (out + q1) + q2;
      return Some(q1 + q2);
    }
  }

  /** Filling a whole container keeps its ready chunks in front. */
  lemma {:induction false} FilledOk(held: Holdings, area: seq<Slot>, filled: seq<Slot>, refs: seq<R.Ref>)
    requires AreaOk(held, area, refs) && GoodRefs(held, refs) && area != [] && area[0].ref.Fetch? && !area[0].ready
    requires |filled| == |area| && area[0].ref.ptr.id in held
    requires forall k | 0 <= k < |area| && Same(area[0], area[k]) :: area[k].ref.ptr.fp in held[area[0].ref.ptr.id]
    requires forall k | 0 <= k < |area| :: filled[k] ==
               if Same(area[0], area[k]) then Slot(area[k].ref, true, held[area[0].ref.ptr.id][area[k].ref.ptr.fp]) else area[k]
    ensures AreaOk(held, filled, refs)
    ensures forall k | 0 <= k < |area| && Same(area[0], area[k]) :: !area[k].ready
  {
  }

  /** assembly_restore_thread. */
  method AssemblyRestore(held: Holdings, refs: seq<R.Ref>, areaSize: int) returns (out: seq<Output>, readNum: nat)
    requires GoodRefs(held, refs)
    ensures Restore(held, refs) == Done(out)
  {
    hide Restore, GoodRefs, AreaOk, Total;
    RestoreNothing(held);
    var asm := new Assembly(areaSize, held);
    out := [];
    for n := 0 to |refs|
      invariant fresh(asm) && asm.Valid(held) && asm.Stalled() && asm.issued + asm.waiting == refs[..n]
      invariant Restore(held, asm.issued) == Done(out)
    {
      GoodRef(held, refs, n);
      ghost var waiting := asm.waiting;
      var full := asm.Push(refs[n], held);
      AreaLength(held, asm.area, asm.waiting);
      assert asm.issued + (waiting + [refs[n]]) == (asm.issued + waiting) + [refs[n]];
      assert refs[..n + 1] == refs[..n] + [refs[n]];
      assert asm.issued + asm.waiting == refs[..n + 1];
      if full {
        var q := asm.AssembleArea(held, out);
        out := out + q.value;
      }
    }
    assert refs[..|refs|] == refs;
    while true
      invariant fresh(asm) && asm.Valid(held) && asm.Stalled() && asm.issued + asm.waiting == refs
      invariant Restore(held, asm.issued) == Done(out)
      decreases |asm.area|
    {
      var q := asm.AssembleArea(held, out);
      if q.None? {
        break;
      }
      out := out + q.value;
    }
    AreaLength(held, asm.area, asm.waiting);
    assert asm.issued == refs;
    readNum := asm.readNum;
  }
}
