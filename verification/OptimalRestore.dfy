/** The optimal restore cache: a look-ahead window over the access records drives the eviction. */
module OptimalRestore {
  import opened Common
  import opened InFlight
  import opened RestoreThreads
  import Lru

  /** The indices in [lo, hi) at which `id` is accessed. */
  function Positions(r: seq<int>, id: int, lo: nat, hi: nat): seq<int>
    requires lo <= hi <= |r|
  {
    if lo == hi then [] else Positions(r, id, lo, hi - 1) + if r[hi - 1] == id then [hi - 1] else []
  }

  lemma {:induction false} PositionsHead(r: seq<int>, id: int, lo: nat, hi: nat)
    requires lo < hi <= |r|
    ensures Positions(r, id, lo, hi) == (if r[lo] == id then [lo] else []) + Positions(r, id, lo + 1, hi)
  {
    if lo + 1 < hi {
      PositionsHead(r, id, lo, hi - 1);
    }
  }

  lemma {:induction false} SliceSnoc(r: seq<int>, id: int, lo: nat, hi: nat)
    requires lo < hi <= |r|
    ensures id in r[lo..hi] <==> id in r[lo..hi - 1] || r[hi - 1] == id
  {
    assert r[lo..hi] == r[lo..hi - 1] + [r[hi - 1]];
  }

  /** The first entry is the next access; an empty list means there is none in the window. */
  lemma {:induction false} PositionsFirst(r: seq<int>, id: int, lo: nat, hi: nat)
    requires lo <= hi <= |r|
    ensures var q := Positions(r, id, lo, hi);
            if q == [] then id !in r[lo..hi]
            else lo <= q[0] < hi && r[q[0]] == id && id !in r[lo..q[0]]
  {
    if lo < hi {
      PositionsFirst(r, id, lo, hi - 1);
      var q := Positions(r, id, lo, hi - 1);
      SliceSnoc(r, id, lo, hi);
      assert q != [] ==> Positions(r, id, lo, hi)[0] == q[0];
    }
  }

  type Table = map<int, seq<int>>

  function Queue(t: Table, id: int): seq<int> {
    if id in t then t[id] else []
  }

  /** The table lists, for every container, its outstanding sequence numbers in the window. */
  ghost predicate TableOk(t: Table, r: seq<int>, lo: nat, hi: nat) {
    lo <= hi <= |r| && forall id :: Queue(t, id) == Positions(r, id, lo, hi)
  }

  /** g_access_records_cmp_by_first_seqno: an exhausted queue sorts last. */
  predicate NoLater(a: seq<int>, b: seq<int>) {
    b == [] || (a != [] && a[0] <= b[0])
  }

  ghost predicate Sorted(t: Table, q: seq<int>) {
    forall i, j | 0 <= i < j < |q| :: NoLater(Queue(t, q[i]), Queue(t, q[j]))
  }

  function InsertSorted(t: Table, q: seq<int>, x: int): seq<int> {
    if q == [] then [x]
    else if NoLater(Queue(t, q[0]), Queue(t, x)) then [q[0]] + InsertSorted(t, q[1..], x)
    else [x] + q
  }

  function Sort(t: Table, q: seq<int>): seq<int> {
    if q == [] then [] else InsertSorted(t, Sort(t, q[..|q| - 1]), q[|q| - 1])
  }

  lemma {:induction false} InsertPermutes(t: Table, q: seq<int>, x: int)
    ensures multiset(InsertSorted(t, q, x)) == multiset(q) + multiset{x}
  {
    hide NoLater, Queue;
    if q != [] {
      assert q == [q[0]] + q[1..];
      InsertPermutes(t, q[1..], x);
    }
  }

  lemma {:induction false} InsertMembers(t: Table, q: seq<int>, x: int)
    ensures forall y :: y in InsertSorted(t, q, x) <==> y == x || y in q
  {
    InsertPermutes(t, q, x);
    forall y
      ensures y in InsertSorted(t, q, x) <==> y == x || y in q
    {
      assert y in InsertSorted(t, q, x) <==> y in multiset(InsertSorted(t, q, x));
      assert y in q <==> y in multiset(q);
    }
  }

  lemma {:induction false} SortedCons(t: Table, h: int, q: seq<int>)
    requires Sorted(t, q) && forall y | y in q :: NoLater(Queue(t, h), Queue(t, y))
    ensures Sorted(t, [h] + q)
  {
    hide NoLater, Queue;
  }

  lemma {:induction false} InsertSorts(t: Table, q: seq<int>, x: int)
    requires Sorted(t, q)
    ensures Sorted(t, InsertSorted(t, q, x))
  {
    if q != [] {
      assert Sorted(t, q[1..]);
      if NoLater(Queue(t, q[0]), Queue(t, x)) {
        InsertSorts(t, q[1..], x);
        InsertMembers(t, q[1..], x);
        SortedCons(t, q[0], InsertSorted(t, q[1..], x));
      } else {
        SortedCons(t, x, q);
      }
    }
  }

  lemma {:induction false} SortKeeps(t: Table, q: seq<int>)
    ensures multiset(Sort(t, q)) == multiset(q) && Sorted(t, Sort(t, q))
  {
    hide NoLater, Queue, InsertSorted;
    if q != [] {
      var n := |q| - 1;
      SortKeeps(t, q[..n]);
      InsertPermutes(t, Sort(t, q[..n]), q[n]);
      InsertSorts(t, Sort(t, q[..n]), q[n]);
      assert q == q[..n] + [q[n]];
    }
  }

  function CachedIds(lru: seq<Cached>): set<int> {
    set c | c in lru :: c.id
  }

  /** The cached containers are the real ones and are listed once; the record list has the same ids. */
  ghost predicate ListsOk(held: Holdings, lru: seq<Cached>, records: seq<int>, t: Table) {
    && CacheFaithful(held, lru)
    && multiset(IdsOf(lru)) == multiset(records)
    && Distinct(records)
    && (forall i | 0 <= i < |records| :: records[i] in t)
  }

  /** Record `k` is a candidate: the last one, or one of the ten before it, with no known use from there on. */
  predicate IsCandidate(t: Table, sorted: seq<int>, k: nat) {
    k < |sorted| <= k + 11 && forall j | k <= j < |sorted| - 1 :: Queue(t, sorted[j]) == []
  }

  /** The candidates for eviction: the last record and up to ten more with no known use. */
  method Candidates(t: Table, sorted: seq<int>) returns (ht: set<int>)
    requires sorted != []
    ensures sorted[|sorted| - 1] in ht && forall x | x in ht :: x in sorted
    ensures forall x | x in ht :: x == sorted[|sorted| - 1] || Queue(t, x) == []
    ensures forall x :: x in ht <==> exists k :: 0 <= k < |sorted| && IsCandidate(t, sorted, k) && sorted[k] == x
  {
    var iter := |sorted| - 1;
    ht := {sorted[iter]};
    var i := 0;
    while i < 10 && iter != 0
      invariant 0 <= iter < |sorted| && i == |sorted| - 1 - iter
      invariant i <= 10 && forall j | iter <= j < |sorted| - 1 :: Queue(t, sorted[j]) == []
      invariant forall x :: x in ht <==> exists k :: iter <= k < |sorted| && sorted[k] == x
      invariant sorted[|sorted| - 1] in ht && forall x | x in ht :: x in sorted
      invariant forall x | x in ht :: x == sorted[|sorted| - 1] || Queue(t, x) == []
      decreases iter
    {
      iter := iter - 1;
      if Queue(t, sorted[iter]) == [] {
        ht := ht + {sorted[iter]};
      } else {
        break;
      }
      i := i + 1;
    }
  }

  /** No cached container is known to be used later than a candidate. */
  lemma {:induction false} CandidateIsFarthest(t: Table, sorted: seq<int>, v: int)
    requires Sorted(t, sorted) && sorted != [] && (v == sorted[|sorted| - 1] || Queue(t, v) == [])
    ensures forall x | x in sorted :: NoLater(Queue(t, x), Queue(t, v))
  {
    forall x | x in sorted
      ensures NoLater(Queue(t, x), Queue(t, v))
    {
      var i :| 0 <= i < |sorted| && sorted[i] == x;
    }
  }

  // ---------------------------------------------------------------- the window

  lemma {:induction false} TablePush(t: Table, r: seq<int>, lo: nat, hi: nat)
    requires TableOk(t, r, lo, hi) && hi < |r|
    ensures TableOk(t[r[hi] := Queue(t, r[hi]) + [hi]], r, lo, hi + 1)
  {
    var t' := t[r[hi] := Queue(t, r[hi]) + [hi]];
    forall id
      ensures Queue(t', id) == Positions(r, id, lo, hi + 1)
    {
      assert Queue(t, id) == Positions(r, id, lo, hi);
    }
  }

  /** The record about to be served heads its queue, and popping it keeps the table exact. */
  lemma {:induction false} TablePop(t: Table, r: seq<int>, lo: nat, hi: nat)
    requires TableOk(t, r, lo, hi) && lo < hi
    ensures r[lo] in t && t[r[lo]] != [] && t[r[lo]][0] == lo
    ensures TableOk(t[r[lo] := t[r[lo]][1..]], r, lo + 1, hi)
  {
    var c := r[lo];
    PositionsHead(r, c, lo, hi);
    assert Queue(t, c) == Positions(r, c, lo, hi);
    var t' := t[c := t[c][1..]];
    forall id
      ensures Queue(t', id) == Positions(r, id, lo + 1, hi)
    {
      PositionsHead(r, id, lo, hi);
      assert Queue(t, id) == Positions(r, id, lo, hi);
    }
  }

  lemma {:induction false} TableForget(t: Table, r: seq<int>, lo: nat, hi: nat, id: int)
    requires TableOk(t, r, lo, hi) && Queue(t, id) == []
    ensures TableOk(t - {id}, r, lo, hi)
  {
    forall x
      ensures Queue(t - {id}, x) == Positions(r, x, lo, hi)
    {
      assert Queue(t, x) == Positions(r, x, lo, hi);
    }
  }

  /** Records of real containers, then the end marker. */
  ghost predicate FileOk(file: seq<int>) {
    file != [] && file[|file| - 1] == TEMPORARY_ID && forall i | 0 <= i < |file| - 1 :: file[i] >= 0
  }

  // ---------------------------------------------------------------- the cached containers

  lemma {:induction false} IdsMember(lru: seq<Cached>, id: int)
    ensures id in CachedIds(lru) <==> id in IdsOf(lru)
    ensures id in CachedIds(lru) <==> id in multiset(IdsOf(lru))
  {
    if id in CachedIds(lru) {
      var c :| c in lru && c.id == id;
      var i :| 0 <= i < |lru| && lru[i] == c;
      assert IdsOf(lru)[i] == id;
    }
    if id in IdsOf(lru) {
      var i :| 0 <= i < |lru| && IdsOf(lru)[i] == id;
      assert lru[i] in lru;
    }
    assert id in IdsOf(lru) <==> id in multiset(IdsOf(lru));
  }

  lemma {:induction false} ListMembers(held: Holdings, lru: seq<Cached>, records: seq<int>, t: Table, id: int)
    requires ListsOk(held, lru, records, t)
    ensures id in CachedIds(lru) <==> id in records
  {
    IdsMember(lru, id);
    assert id in records <==> id in multiset(records);
  }

  lemma {:induction false} DistinctMultiset(ids: seq<int>, other: seq<int>)
    requires Distinct(ids) && multiset(ids) == multiset(other)
    ensures Distinct(other) && |ids| == |other|
  {
    assert |multiset(ids)| == |ids| && |multiset(other)| == |other|;
    if !Distinct(other) {
      var i, j :| 0 <= i < j < |other| && other[i] == other[j];
      assert other == other[..i] + [other[i]] + other[i + 1..j] + [other[j]] + other[j + 1..];
      assert multiset(other)[other[i]] >= 2;
      AtMostOnce(ids, other[i]);
      assert false;
    }
  }

  lemma {:induction false} AtMostOnce(ids: seq<int>, x: int)
    requires Distinct(ids)
    ensures multiset(ids)[x] <= 1
  {
    if ids != [] {
      var n := |ids| - 1;
      AtMostOnce(ids[..n], x);
      assert ids == ids[..n] + [ids[n]];
      assert x in ids[..n] <==> x in multiset(ids[..n]);
    }
  }

  lemma {:induction false} FrontIds(lru: seq<Cached>, i: nat)
    requires i < |lru|
    ensures CachedIds(Lru.ToFront(lru, i)) == CachedIds(lru)
  {
    var moved := Lru.ToFront(lru, i);
    assert forall c :: c in moved <==> c in lru;
  }

  /** Re-linking the hit in front keeps the lists matched. */
  lemma {:induction false} FrontOk(held: Holdings, lru: seq<Cached>, records: seq<int>, t: Table, i: nat)
    requires ListsOk(held, lru, records, t) && i < |lru|
    ensures ListsOk(held, Lru.ToFront(lru, i), records, t)
    ensures CachedIds(Lru.ToFront(lru, i)) == CachedIds(lru)
    ensures Lru.ToFront(lru, i)[0] == lru[i] && |Lru.ToFront(lru, i)| == |lru|
  {
    hide Distinct, CachedIds;
    var moved := Lru.ToFront(lru, i);
    var ids := IdsOf(lru);
    assert IdsOf(moved) == Lru.ToFront(ids, i);
    Lru.ToFrontKeeps(ids, i);
    FrontIds(lru, i);
  }

  lemma {:induction false} DropMultiset(q: seq<int>, i: nat)
    requires i < |q|
    ensures multiset(Lru.Drop(q, i)) == multiset(q) - multiset{q[i]}
  {
    assert q == q[..i] + [q[i]] + q[i + 1..];
  }

  lemma {:induction false} DroppedIds(lru: seq<Cached>, i: nat)
    requires i < |lru| && Distinct(IdsOf(lru))
    ensures CachedIds(Lru.Drop(lru, i)) == CachedIds(lru) - {lru[i].id}
  {
    var ids, lru' := IdsOf(lru), Lru.Drop(lru, i);
    forall x
      ensures x in CachedIds(lru') <==> x in CachedIds(lru) && x != lru[i].id
    {
      if x in CachedIds(lru') {
        var j :| 0 <= j < |lru'| && lru'[j].id == x;
        var k := if j < i then j else j + 1;
        assert lru'[j] == lru[k] && ids[k] != ids[i];
      }
      if x in CachedIds(lru) && x != lru[i].id {
        var j :| 0 <= j < |lru| && lru[j].id == x;
        assert lru[j] == lru'[if j < i then j else j - 1];
      }
    }
  }

  lemma {:induction false} DroppedDistinct(q: seq<int>, k: nat)
    requires Distinct(q) && k < |q|
    ensures Distinct(Lru.Drop(q, k)) && q[k] !in Lru.Drop(q, k)
  {
    var d := Lru.Drop(q, k);
    assert forall j | 0 <= j < |d| :: d[j] == q[if j < k then j else j + 1];
  }

  lemma {:induction false} DropIds(lru: seq<Cached>, i: nat)
    requires i < |lru|
    ensures IdsOf(Lru.Drop(lru, i)) == Lru.Drop(IdsOf(lru), i)
  {
  }

  lemma {:induction false} DropFaithful(held: Holdings, lru: seq<Cached>, i: nat)
    requires i < |lru| && CacheFaithful(held, lru)
    ensures CacheFaithful(held, Lru.Drop(lru, i))
  {
  }

  lemma {:induction false} DropKeeps(records: seq<int>, k: nat, t: Table)
    requires k < |records| && forall i | 0 <= i < |records| :: records[i] in t
    ensures forall i | 0 <= i < |Lru.Drop(records, k)| :: Lru.Drop(records, k)[i] in t
  {
  }

  /** Kicking the same container out of both lists keeps them matched. */
  lemma {:induction false} KickOk(held: Holdings, lru: seq<Cached>, records: seq<int>, t: Table, i: nat, k: nat)
    requires ListsOk(held, lru, records, t) && i < |lru| && k < |records| && lru[i].id == records[k]
    ensures ListsOk(held, Lru.Drop(lru, i), Lru.Drop(records, k), t)
    ensures records[k] !in Lru.Drop(records, k)
    ensures CachedIds(Lru.Drop(lru, i)) == CachedIds(lru) - {records[k]}
  {
    hide Distinct, CachedIds, Lru.Drop;
    var lru', records' := Lru.Drop(lru, i), Lru.Drop(records, k);
    var ids := IdsOf(lru);
    DropIds(lru, i);
    DropMultiset(ids, i);
    DropMultiset(records, k);
    DistinctMultiset(records, ids);
    DroppedIds(lru, i);
    DroppedDistinct(records, k);
    DropFaithful(held, lru, i);
    DropKeeps(records, k, t);
  }

  lemma {:induction false} AddOk(held: Holdings, lru: seq<Cached>, records: seq<int>, t: Table, id: int)
    requires ListsOk(held, lru, records, t) && id !in CachedIds(lru) && id in held && id in t
    ensures ListsOk(held, [Cached(id, held[id])] + lru, InsertSorted(t, records, id), t)
    ensures CachedIds([Cached(id, held[id])] + lru) == CachedIds(lru) + {id}
  {
    hide InsertSorted;
    var lru', records' := [Cached(id, held[id])] + lru, InsertSorted(t, records, id);
    InsertPermutes(t, records, id);
    InsertMembers(t, records, id);
    assert IdsOf(lru') == [id] + IdsOf(lru);
    ListMembers(held, lru, records, t, id);
    assert Distinct([id] + records);
    assert multiset([id] + records) == multiset(records');
    DistinctMultiset([id] + records, records');
    assert multiset(IdsOf(lru')) == multiset(records');
    forall i | 0 <= i < |records'|
      ensures records'[i] in t
    {
      assert records'[i] in records';
    }
    assert CacheFaithful(held, lru');
  }
}
