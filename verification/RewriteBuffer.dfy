/** The rewrite buffer: a queue of pending chunks with one record per container they refer to. */
module RewriteBuffer {
  import opened Common

  type Size = n: int | 1 <= n witness 1

  /** What flows from the dedup thread to the filter thread, seen by the rewriting algorithms. */
  datatype Elem = FileMark | SegStart | SegEnd | Normal(id: int, size: Size, dup: bool, outOfOrder: bool) {
    /** index_lookup gives a container id to duplicates only. */
    predicate WellMarked() {
      Normal? && id != TEMPORARY_ID ==> dup
    }

    predicate InContainer(cid: int) {
      Normal? && id == cid && id != TEMPORARY_ID
    }
  }

  datatype Record = Record(cid: int, size: int, outOfOrder: bool)

  function Normals(q: seq<Elem>): nat {
    if q == [] then 0 else Normals(q[..|q| - 1]) + if q[|q| - 1].Normal? then 1 else 0
  }

  function Volume(q: seq<Elem>): nat {
    if q == [] then 0 else Volume(q[..|q| - 1]) + if q[|q| - 1].Normal? then q[|q| - 1].size else 0
  }

  /** Bytes of the queue that lie in container `cid`. */
  function Share(q: seq<Elem>, cid: int): nat {
    if q == [] then 0 else Share(q[..|q| - 1], cid) + if q[|q| - 1].InContainer(cid) then q[|q| - 1].size else 0
  }

  lemma {:induction false} SumsConcat(a: seq<Elem>, b: seq<Elem>, cid: int)
    ensures Normals(a + b) == Normals(a) + Normals(b)
    ensures Volume(a + b) == Volume(a) + Volume(b)
    ensures Share(a + b, cid) == Share(a, cid) + Share(b, cid)
  {
    if b == [] {
      assert a + b == a;
    } else {
      var m := |b| - 1;
      SumsConcat(a, b[..m], cid);
      assert (a + b)[..|a + b| - 1] == a + b[..m];
    }
  }

  lemma {:induction false} SumsOne(e: Elem, cid: int)
    ensures Normals([e]) == if e.Normal? then 1 else 0
    ensures Volume([e]) == if e.Normal? then e.size else 0
    ensures Share([e], cid) == if e.InContainer(cid) then e.size else 0
  {
    assert [e][..0] == [];
  }

  lemma {:induction false} SumsSnoc(q: seq<Elem>, e: Elem)
    ensures Normals(q + [e]) == Normals(q) + if e.Normal? then 1 else 0
    ensures Volume(q + [e]) == Volume(q) + if e.Normal? then e.size else 0
    ensures forall cid :: Share(q + [e], cid) == Share(q, cid) + if e.InContainer(cid) then e.size else 0
  {
    assert (q + [e])[..|q|] == q;
  }

  lemma {:induction false} SumsTail(q: seq<Elem>)
    requires q != []
    ensures Normals(q) == Normals(q[1..]) + if q[0].Normal? then 1 else 0
    ensures Volume(q) == Volume(q[1..]) + if q[0].Normal? then q[0].size else 0
    ensures forall cid :: Share(q, cid) == Share(q[1..], cid) + if q[0].InContainer(cid) then q[0].size else 0
  {
    assert [q[0]] + q[1..] == q;
    forall cid
      ensures Normals(q) == Normals(q[1..]) + if q[0].Normal? then 1 else 0
      ensures Volume(q) == Volume(q[1..]) + if q[0].Normal? then q[0].size else 0
      ensures Share(q, cid) == Share(q[1..], cid) + if q[0].InContainer(cid) then q[0].size else 0
    {
      SumsConcat([q[0]], q[1..], cid);
      SumsOne(q[0], cid);
    }
  }

  // ---------------------------------------------------------------- the sorted record list

  /** The two comparison functions: by container id, or by size downwards. */
  function Key(r: Record, bySize: bool): int {
    if bySize then -r.size else r.cid
  }

  predicate Sorted(rs: seq<Record>, bySize: bool) {
    forall i, j | 0 <= i < j < |rs| :: Key(rs[i], bySize) <= Key(rs[j], bySize)
  }

  predicate OnePerContainer(rs: seq<Record>) {
    forall i, j | 0 <= i < j < |rs| :: rs[i].cid != rs[j].cid
  }

  /** g_sequence_insert_sorted: behind every element that does not compare greater. */
  method Insert(rs: seq<Record>, r: Record, bySize: bool) returns (k: nat, out: seq<Record>)
    requires Sorted(rs, bySize)
    ensures k <= |rs| && out == rs[..k] + [r] + rs[k..] && Sorted(out, bySize)
  {
    k := |rs|;
    while k > 0 && Key(rs[k - 1], bySize) > Key(r, bySize)
      invariant k <= |rs| && forall i | k <= i < |rs| :: Key(rs[i], bySize) > Key(r, bySize)
    {
      k := k - 1;
    }
    out := rs[..k] + [r] + rs[k..];
  }

  /** g_sequence_lookup; the sequence must be sorted by id. */
  method Lookup(rs: seq<Record>, cid: int) returns (k: nat)
    requires Sorted(rs, false)
    ensures k <= |rs| && (k < |rs| ==> rs[k].cid == cid)
    ensures k == |rs| ==> forall i | 0 <= i < |rs| :: rs[i].cid != cid
  {
    var lo, hi := 0, |rs|;
    while lo < hi
      invariant lo <= hi <= |rs|
      invariant forall i | 0 <= i < lo :: rs[i].cid < cid
      invariant forall i | hi <= i < |rs| :: rs[i].cid > cid
    {
      var mid := (lo + hi) / 2;
      if rs[mid].cid == cid {
        return mid;
      } else if rs[mid].cid < cid {
        SortedSplit(rs, mid);
        lo := mid + 1;
      } else {
        SortedSplit(rs, mid);
        hi := mid;
      }
    }
    return |rs|;
  }

  lemma {:induction false} SortedSplit(rs: seq<Record>, mid: nat)
    requires Sorted(rs, false) && mid < |rs|
    ensures forall i | 0 <= i <= mid :: rs[i].cid <= rs[mid].cid
    ensures forall i | mid <= i < |rs| :: rs[i].cid >= rs[mid].cid
  {
    assert forall i | 0 <= i < mid :: Key(rs[i], false) <= Key(rs[mid], false);
    assert forall i | mid < i < |rs| :: Key(rs[mid], false) <= Key(rs[i], false);
  }

  /** g_sequence_sort. */
  method Sort(rs: seq<Record>, bySize: bool) returns (out: seq<Record>)
    ensures Sorted(out, bySize) && multiset(out) == multiset(rs)
  {
    hide Sorted;
    out := [];
    SortedNothing(bySize);
    for i := 0 to |rs|
      invariant Sorted(out, bySize) && multiset(out) == multiset(rs[..i])
    {
      var before := out;
      var k: nat;
      k, out := Insert(out, rs[i], bySize);
      SplicedMultiset(before, k, rs[i], out);
      assert rs[..i + 1] == rs[..i] + [rs[i]];
    }
    assert rs[..|rs|] == rs;
  }

  lemma {:induction false} SortedNothing(bySize: bool)
    ensures Sorted([], bySize)
  {
  }

  lemma {:induction false} SplicedMultiset(before: seq<Record>, k: nat, r: Record, out: seq<Record>)
    requires k <= |before| && out == before[..k] + [r] + before[k..]
    ensures multiset(out) == multiset(before) + multiset{r}
  {
    assert before == before[..k] + before[k..];
  }

  /** Sorting moves records around; it changes none and duplicates none. */
  lemma {:induction false} PermutedRecords(a: seq<Record>, b: seq<Record>)
    requires multiset(a) == multiset(b) && OnePerContainer(b)
    ensures OnePerContainer(a) && forall r :: r in a <==> r in b
  {
    forall r
      ensures r in a <==> r in b
    {
      assert r in a <==> r in multiset(a);
      assert r in b <==> r in multiset(b);
    }
    forall i, j | 0 <= i < j < |a|
      ensures a[i].cid != a[j].cid
    {
      if a[i].cid == a[j].cid {
        SameCid(b, a[i], a[j]);
        Twice(a, i, j);
        Once(b, a[i]);
        assert false;
      }
    }
  }

  lemma {:induction false} SameCid(b: seq<Record>, r: Record, s: Record)
    requires OnePerContainer(b) && r in b && s in b && r.cid == s.cid
    ensures r == s
  {
    var i :| 0 <= i < |b| && b[i] == r;
    var j :| 0 <= j < |b| && b[j] == s;
    if i < j || j < i {
      assert false;
    }
  }

  lemma {:induction false} Twice(a: seq<Record>, i: nat, j: nat)
    requires i < j < |a| && a[i] == a[j]
    ensures multiset(a)[a[i]] >= 2
  {
    assert a == a[..j] + a[j..];
    assert a[i] in a[..j] && a[i] in a[j..];
    assert multiset(a[..j])[a[i]] >= 1 && multiset(a[j..])[a[i]] >= 1;
  }

  lemma {:induction false} Once(b: seq<Record>, r: Record)
    requires OnePerContainer(b)
    ensures multiset(b)[r] <= 1
  {
    if r in b {
      var i :| 0 <= i < |b| && b[i] == r;
      assert b == b[..i] + [r] + b[i + 1..];
      assert r !in b[..i] && r !in b[i + 1..];
    }
  }

  // ---------------------------------------------------------------- records agree with the queue

  /** One record per container the queue refers to, with the bytes it contributes. */
  ghost predicate Counted(rs: seq<Record>, q: seq<Elem>) {
    && OnePerContainer(rs)
    && (forall i | 0 <= i < |rs| :: rs[i].size == Share(q, rs[i].cid) && rs[i].size > 0)
    && (forall cid | Share(q, cid) > 0 :: Recorded(rs, cid))
  }

  predicate Recorded(rs: seq<Record>, cid: int) {
    exists i :: 0 <= i < |rs| && rs[i].cid == cid
  }

  ghost predicate Agrees(rs: seq<Record>, q: seq<Elem>) {
    Sorted(rs, false) && Counted(rs, q)
  }

  predicate AllMarked(q: seq<Elem>) {
    forall i | 0 <= i < |q| :: q[i].WellMarked()
  }

  lemma {:induction false} CountedPermuted(a: seq<Record>, b: seq<Record>, q: seq<Elem>)
    requires multiset(a) == multiset(b) && Counted(b, q)
    ensures Counted(a, q)
  {
    PermutedRecords(a, b);
    forall cid | Share(q, cid) > 0
      ensures Recorded(a, cid)
    {
      var i :| 0 <= i < |b| && b[i].cid == cid;
      assert b[i] in a;
      var k :| 0 <= k < |a| && a[k] == b[i];
    }
    forall i | 0 <= i < |a|
      ensures a[i].size == Share(q, a[i].cid) && a[i].size > 0
    {
      assert a[i] in b;
    }
  }

  /** Shares of a queue do not depend on chunks outside containers. */
  lemma {:induction false} AgreesSame(rs: seq<Record>, q: seq<Elem>, p: seq<Elem>)
    requires Agrees(rs, q) && forall cid :: Share(p, cid) == Share(q, cid)
    ensures Agrees(rs, p)
  {
  }

  lemma {:induction false} DistinctAfterInsert(rs: seq<Record>, k: nat, r: Record)
    requires OnePerContainer(rs) && k <= |rs| && !Recorded(rs, r.cid)
    ensures OnePerContainer(rs[..k] + [r] + rs[k..])
  {
    var out := rs[..k] + [r] + rs[k..];
    assert forall i | 0 <= i < |rs| :: rs[i].cid != r.cid;
    forall i, j | 0 <= i < j < |out|
      ensures out[i].cid != out[j].cid
    {
      assert out[i] == if i < k then rs[i] else if i == k then r else rs[i - 1];
      assert out[j] == if j < k then rs[j] else if j == k then r else rs[j - 1];
    }
  }

  lemma {:induction false} RecordedAfterInsert(rs: seq<Record>, k: nat, r: Record, cid: int)
    requires k <= |rs| && (cid == r.cid || Recorded(rs, cid))
    ensures Recorded(rs[..k] + [r] + rs[k..], cid)
  {
    var out := rs[..k] + [r] + rs[k..];
    if cid == r.cid {
      assert out[k].cid == cid;
    } else {
      var i :| 0 <= i < |rs| && rs[i].cid == cid;
      assert out[if i < k then i else i + 1] == rs[i];
    }
  }

  lemma {:induction false} AgreesAfterInsert(rs: seq<Record>, q: seq<Elem>, e: Elem, k: nat, r: Record)
    requires Agrees(rs, q) && e.Normal? && e.InContainer(r.cid) && r.size == e.size && !Recorded(rs, r.cid)
    requires k <= |rs| && Sorted(rs[..k] + [r] + rs[k..], false)
    ensures Agrees(rs[..k] + [r] + rs[k..], q + [e])
  {
    hide OnePerContainer, Share, Recorded, Sorted;
    var out := rs[..k] + [r] + rs[k..];
    SumsSnoc(q, e);
    DistinctAfterInsert(rs, k, r);
    assert Share(q, r.cid) == 0;
    forall i | 0 <= i < |out|
      ensures out[i].size == Share(q + [e], out[i].cid) && out[i].size > 0
    {
      assert out[i] == if i < k then rs[i] else if i == k then r else rs[i - 1];
      if i != k {
        OtherCid(rs, if i < k then i else i - 1, r.cid);
      }
    }
    forall cid | Share(q + [e], cid) > 0
      ensures Recorded(out, cid)
    {
      RecordedAfterInsert(rs, k, r, cid);
    }
  }

  lemma {:induction false} OtherCid(rs: seq<Record>, i: nat, cid: int)
    requires i < |rs| && !Recorded(rs, cid)
    ensures rs[i].cid != cid
  {
  }

  lemma {:induction false} ChangedRecords(rs: seq<Record>, k: nat, out: seq<Record>)
    requires Sorted(rs, false) && OnePerContainer(rs) && k < |rs|
    requires |out| == |rs| && forall i | 0 <= i < |rs| :: out[i].cid == rs[i].cid
    ensures Sorted(out, false) && OnePerContainer(out)
    ensures forall cid :: Recorded(rs, cid) <==> Recorded(out, cid)
  {
    assert forall i | 0 <= i < |rs| :: Key(out[i], false) == Key(rs[i], false);
    forall cid
      ensures Recorded(rs, cid) <==> Recorded(out, cid)
    {
      if Recorded(rs, cid) {
        var i :| 0 <= i < |rs| && rs[i].cid == cid;
        assert out[i].cid == cid;
      }
      if Recorded(out, cid) {
        var i :| 0 <= i < |out| && out[i].cid == cid;
        assert rs[i].cid == cid;
      }
    }
  }

  lemma {:induction false} DistinctAt(rs: seq<Record>, i: nat, k: nat)
    requires OnePerContainer(rs) && i < |rs| && k < |rs| && i != k
    ensures rs[i].cid != rs[k].cid
  {
  }

  lemma {:induction false} RecordedAt(rs: seq<Record>, k: nat)
    requires k < |rs|
    ensures Recorded(rs, rs[k].cid)
  {
  }

  lemma {:induction false} AgreesAfterChange(rs: seq<Record>, q: seq<Elem>, p: seq<Elem>, k: nat, size: int)
    requires Agrees(rs, q) && k < |rs| && size > 0 && size == Share(p, rs[k].cid)
    requires forall cid | cid != rs[k].cid :: Share(p, cid) == Share(q, cid)
    ensures Agrees(rs[k := rs[k].(size := size)], p)
  {
    hide Share, OnePerContainer, Sorted, Recorded;
    var out := rs[k := rs[k].(size := size)];
    ChangedRecords(rs, k, out);
    forall i | 0 <= i < |out|
      ensures out[i].size == Share(p, out[i].cid) && out[i].size > 0
    {
      if i != k {
        DistinctAt(rs, i, k);
      }
    }
    forall cid | Share(p, cid) > 0
      ensures Recorded(out, cid)
    {
      if cid == rs[k].cid {
        RecordedAt(rs, k);
      }
    }
  }

  lemma {:induction false} RemovedRecords(rs: seq<Record>, k: nat, out: seq<Record>)
    requires Sorted(rs, false) && OnePerContainer(rs) && k < |rs| && out == rs[..k] + rs[k + 1..]
    ensures Sorted(out, false) && OnePerContainer(out)
    ensures forall i | 0 <= i < |out| :: out[i].cid != rs[k].cid
  {
    forall i, j | 0 <= i < j < |out|
      ensures Key(out[i], false) <= Key(out[j], false) && out[i].cid != out[j].cid
    {
      assert out[i] == rs[if i < k then i else i + 1];
      assert out[j] == rs[if j < k then j else j + 1];
    }
    forall i | 0 <= i < |out|
      ensures out[i].cid != rs[k].cid
    {
      assert out[i] == rs[if i < k then i else i + 1];
    }
  }

  lemma {:induction false} RecordedAfterRemove(rs: seq<Record>, k: nat, cid: int)
    requires k < |rs| && cid != rs[k].cid && Recorded(rs, cid)
    ensures Recorded(rs[..k] + rs[k + 1..], cid)
  {
    var out := rs[..k] + rs[k + 1..];
    var i :| 0 <= i < |rs| && rs[i].cid == cid;
    assert out[if i < k then i else i - 1] == rs[i];
  }

  lemma {:induction false} AgreesAfterRemove(rs: seq<Record>, q: seq<Elem>, p: seq<Elem>, k: nat)
    requires Agrees(rs, q) && k < |rs| && Share(p, rs[k].cid) == 0
    requires forall cid | cid != rs[k].cid :: Share(p, cid) == Share(q, cid)
    ensures Agrees(rs[..k] + rs[k + 1..], p)
  {
    hide Sorted, OnePerContainer, Share, Recorded;
    var out := rs[..k] + rs[k + 1..];
    RemovedRecords(rs, k, out);
    forall i | 0 <= i < |out|
      ensures out[i].size == Share(p, out[i].cid) && out[i].size > 0
    {
      assert out[i] == rs[if i < k then i else i + 1];
    }
    forall cid | Share(p, cid) > 0
      ensures Recorded(out, cid)
    {
      RecordedAfterRemove(rs, k, cid);
    }
  }

  /** The container has a record that is no longer out of order. */
  ghost predicate Kept(rs: seq<Record>, cid: int) {
    exists i :: 0 <= i < |rs| && rs[i].cid == cid && !rs[i].outOfOrder
  }

  lemma {:induction false} KeptShare(rs: seq<Record>, q: seq<Elem>, cid: int)
    requires Agrees(rs, q) && Kept(rs, cid)
    ensures Share(q, cid) > 0
  {
  }

  lemma {:induction false} KeptInsert(rs: seq<Record>, k: nat, r: Record)
    requires k <= |rs| && r.outOfOrder
    ensures forall u :: Kept(rs[..k] + [r] + rs[k..], u) <==> Kept(rs, u)
  {
    var out := rs[..k] + [r] + rs[k..];
    forall u
      ensures Kept(out, u) <==> Kept(rs, u)
    {
      if Kept(rs, u) {
        var i :| 0 <= i < |rs| && rs[i].cid == u && !rs[i].outOfOrder;
        assert out[if i < k then i else i + 1] == rs[i];
      }
      if Kept(out, u) {
        var i :| 0 <= i < |out| && out[i].cid == u && !out[i].outOfOrder;
        assert out[i] == if i < k then rs[i] else if i == k then r else rs[i - 1];
        assert out[i] == rs[if i < k then i else i - 1];
      }
    }
  }

  lemma {:induction false} KeptChange(rs: seq<Record>, k: nat, size: int)
    requires k < |rs|
    ensures forall u :: Kept(rs[k := rs[k].(size := size)], u) <==> Kept(rs, u)
  {
    var out := rs[k := rs[k].(size := size)];
    assert forall i | 0 <= i < |rs| :: out[i].cid == rs[i].cid && out[i].outOfOrder == rs[i].outOfOrder;
    forall u
      ensures Kept(out, u) <==> Kept(rs, u)
    {
      if Kept(rs, u) {
        var i :| 0 <= i < |rs| && rs[i].cid == u && !rs[i].outOfOrder;
        assert out[i].cid == u;
      }
      if Kept(out, u) {
        var i :| 0 <= i < |out| && out[i].cid == u && !out[i].outOfOrder;
        assert rs[i].cid == u;
      }
    }
  }

  lemma {:induction false} KeptRemove(rs: seq<Record>, k: nat)
    requires k < |rs| && OnePerContainer(rs)
    ensures forall u :: Kept(rs[..k] + rs[k + 1..], u) <==> Kept(rs, u) && u != rs[k].cid
  {
    var out := rs[..k] + rs[k + 1..];
    forall u
      ensures Kept(out, u) <==> Kept(rs, u) && u != rs[k].cid
    {
      if Kept(rs, u) && u != rs[k].cid {
        var i :| 0 <= i < |rs| && rs[i].cid == u && !rs[i].outOfOrder;
        assert out[if i < k then i else i - 1] == rs[i];
      }
      if Kept(out, u) {
        var i :| 0 <= i < |out| && out[i].cid == u && !out[i].outOfOrder;
        var j := if i < k then i else i + 1;
        assert out[i] == rs[j];
        DistinctAt(rs, j, k);
      }
    }
  }

  lemma {:induction false} KeptSame(rs: seq<Record>, p: seq<Elem>)
    requires Agrees(rs, p)
    ensures forall u :: Kept(rs, u) <==> Kept(rs, u) && Share(p, u) > 0
  {
    hide Agrees, Kept, Share;
    forall u | Kept(rs, u)
      ensures Share(p, u) > 0
    {
      KeptShare(rs, p, u);
    }
  }

  /** The rewrite buffer; `limit` is rewrite_algorithm[1]. */
  class Buffer {
    const limit: nat
    var queue: seq<Elem>
    var records: seq<Record>
    var num: int
    var size: int

    ghost predicate Valid()
      reads this
    {
      Agrees(records, queue) && AllMarked(queue) && num == Normals(queue) && size == Volume(queue)
    }

    constructor (limit: nat)
      ensures Valid() && this.limit == limit && queue == [] && records == [] && num == 0
    {
      this.limit, queue, records, num, size := limit, [], [], 0, 0;
    }

    /** rewrite_buffer_push; true when the buffer is full. The asserts of the source are asserts here. */
    method Push(c: Elem) returns (full: bool)
      requires Valid() && c.WellMarked() && num < limit
      modifies this
      ensures Valid() && queue == old(queue) + [c]
      ensures full <==> c.Normal? && num == limit
      ensures num <= limit && (num == limit ==> full)
      ensures forall u :: Kept(records, u) <==> old(Kept(records, u))
    {
      hide Agrees, Share, Kept;
      SumsSnoc(queue, c);
      queue := queue + [c];
      if !c.Normal? {
        AgreesSame(records, old(queue), queue);
        return false;
      }
      if c.id != TEMPORARY_ID {
        assert c.dup;
        SortedOf(records, old(queue));
        var k := Lookup(records, c.id);
        if k == |records| {
          var r := Record(c.id, c.size, true);
          var i, out := Insert(records, r, false);
          AgreesAfterInsert(records, old(queue), c, i, r);
          KeptInsert(records, i, r);
          records := out;
        } else {
          assert records[k].cid == c.id;
          ShareOf(records, old(queue), k);
          AgreesAfterChange(records, old(queue), queue, k, records[k].size + c.size);
          KeptChange(records, k, records[k].size + c.size);
          records := records[k := records[k].(size := records[k].size + c.size)];
        }
      } else {
        AgreesSame(records, old(queue), queue);
      }
      num := num + 1;
      size := size + c.size;
      if num >= limit {
        assert num == limit;
        return true;
      }
      return false;
    }

    /** rewrite_buffer_pop. The record of a popped chunk is always there. */
    method Pop() returns (c: Option<Elem>)
      requires Valid()
      modifies this
      ensures Valid()
      ensures c.None? <==> old(queue) == []
      ensures c.None? ==> queue == []
      ensures c.Some? ==> old(queue) == [c.value] + queue
      ensures forall u :: Kept(records, u) <==> old(Kept(records, u)) && Share(queue, u) > 0
    {
      hide Agrees, Share, Kept;
      if queue == [] {
        KeptSame(records, queue);
        return None;
      }
      var e := queue[0];
      SumsTail(queue);
      queue := queue[1..];
      if e.Normal? {
        if e.dup && e.id != TEMPORARY_ID {
          SortedOf(records, old(queue));
          PositiveIsRecorded(records, old(queue), e.id);
          var k := Lookup(records, e.id);
          assert k < |records|;
          ShareOf(records, old(queue), k);
          if records[k].size - e.size == 0 {
            AgreesAfterRemove(records, old(queue), queue, k);
            AgreesDistinct(records, old(queue));
            KeptRemove(records, k);
            records := records[..k] + records[k + 1..];
          } else {
            AgreesAfterChange(records, old(queue), queue, k, records[k].size - e.size);
            KeptChange(records, k, records[k].size - e.size);
            records := records[k := records[k].(size := records[k].size - e.size)];
          }
        } else {
          AgreesSame(records, old(queue), queue);
        }
        num := num - 1;
        size := size - e.size;
      } else {
        AgreesSame(records, old(queue), queue);
      }
      KeptSame(records, queue);
      return Some(e);
    }

    /** cap_segment_get_top: the `level` containers with the most buffered bytes. */
    method GetTop(level: nat) returns (top: set<int>)
      requires Valid()
      modifies this`records
      ensures Valid()
      ensures Selected(queue, level, top)
    {
      hide Agrees, Share, Counted, Sorted, Selected, OnePerContainer, Cids;
      AgreesParts(records, queue);
      NoCids();
      var bySize := Sort(records, true);
      CountedPermuted(bySize, records, queue);
      var n := if |bySize| > level then level else |bySize|;
      top := {};
      for i := 0 to n
        invariant top == Cids(bySize[..i]) && records == old(records)
      {
        assert bySize[..i + 1] == bySize[..i] + [bySize[i]];
        CidsSnoc(bySize[..i], bySize[i]);
        top := top + {bySize[i].cid};
      }
      TopIsSelected(bySize, queue, level, n);
      var byId := Sort(bySize, false);
      CountedPermuted(byId, bySize, queue);
      AgreesFrom(byId, queue);
      records := byId;
    }
  }

  lemma {:induction false} SortedOf(rs: seq<Record>, q: seq<Elem>)
    requires Agrees(rs, q)
    ensures Sorted(rs, false)
  {
  }

  lemma {:induction false} ShareOf(rs: seq<Record>, q: seq<Elem>, k: nat)
    requires Agrees(rs, q) && k < |rs|
    ensures rs[k].size == Share(q, rs[k].cid)
  {
  }

  lemma {:induction false} AgreesDistinct(rs: seq<Record>, q: seq<Elem>)
    requires Agrees(rs, q)
    ensures OnePerContainer(rs)
  {
  }

  lemma {:induction false} PositiveIsRecorded(rs: seq<Record>, q: seq<Elem>, cid: int)
    requires Agrees(rs, q) && Share(q, cid) > 0
    ensures Recorded(rs, cid)
  {
  }

  lemma {:induction false} AgreesParts(rs: seq<Record>, q: seq<Elem>)
    requires Agrees(rs, q)
    ensures Sorted(rs, false) && Counted(rs, q)
  {
  }

  lemma {:induction false} AgreesFrom(rs: seq<Record>, q: seq<Elem>)
    requires Sorted(rs, false) && Counted(rs, q)
    ensures Agrees(rs, q)
  {
  }

  function Cids(rs: seq<Record>): set<int> {
    set r | r in rs :: r.cid
  }

  lemma {:induction false} NoCids()
    ensures Cids([]) == {}
  {
  }

  lemma {:induction false} CidsSnoc(rs: seq<Record>, r: Record)
    ensures Cids(rs + [r]) == Cids(rs) + {r.cid}
  {
    forall c | c in Cids(rs) + {r.cid}
      ensures c in Cids(rs + [r])
    {
      if c == r.cid {
        assert r in rs + [r];
      } else {
        var s :| s in rs && s.cid == c;
        assert s in rs + [r];
      }
    }
  }

  /** At most `level` containers are selected, by buffered bytes; fewer only if all are selected. */
  ghost predicate Selected(q: seq<Elem>, level: nat, top: set<int>) {
    && |top| <= level
    && (forall t | t in top :: Share(q, t) > 0)
    && (forall t, u | t in top && u !in top :: Share(q, u) <= Share(q, t))
    && (|top| < level ==> forall u | Share(q, u) > 0 :: u in top)
  }

  lemma {:induction false} CidsSize(rs: seq<Record>)
    requires OnePerContainer(rs)
    ensures |Cids(rs)| == |rs|
  {
    if rs == [] {
      assert Cids(rs) == {};
    } else {
      var m := |rs| - 1;
      CidsSize(rs[..m]);
      assert rs[..m] + [rs[m]] == rs;
      CidsSnoc(rs[..m], rs[m]);
      assert rs[m].cid !in Cids(rs[..m]);
    }
  }

  lemma {:induction false} TopIsSelected(rs: seq<Record>, q: seq<Elem>, level: nat, n: nat)
    requires Sorted(rs, true) && Counted(rs, q)
    requires n == if |rs| > level then level else |rs|
    ensures Selected(q, level, Cids(rs[..n]))
  {
    var top := Cids(rs[..n]);
    CidsSize(rs[..n]);
    forall t | t in top
      ensures Share(q, t) > 0 && exists i :: 0 <= i < n && rs[i].cid == t
    {
      var r :| r in rs[..n] && r.cid == t;
      var i :| 0 <= i < n && rs[..n][i] == r;
      assert rs[i].cid == t;
    }
    forall t, u | t in top && u !in top
      ensures Share(q, u) <= Share(q, t)
    {
      if Share(q, u) > 0 {
        assert Recorded(rs, u);
        var j :| 0 <= j < |rs| && rs[j].cid == u;
        var i :| 0 <= i < n && rs[i].cid == t;
        NotInPrefix(rs, n, j);
        assert Key(rs[i], true) <= Key(rs[j], true);
      }
    }
    forall u | |top| < level && Share(q, u) > 0
      ensures u in top
    {
      assert Recorded(rs, u);
      var j :| 0 <= j < |rs| && rs[j].cid == u;
      assert rs[..n][j] in rs[..n];
    }
  }

  lemma {:induction false} NotInPrefix(rs: seq<Record>, n: nat, j: nat)
    requires n <= |rs| && j < |rs| && rs[j].cid !in Cids(rs[..n])
    ensures n <= j
  {
    assert forall i | 0 <= i < n :: rs[i] in rs[..n];
  }
}
