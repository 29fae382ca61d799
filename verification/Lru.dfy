/** The list-based LRU cache used by the fingerprint cache and by the restore caches. */
module Lru {
  import opened Common

  /** Index of the first element satisfying `hit`, or the length. */
  function FirstHit<T>(q: seq<T>, hit: T -> bool): (i: nat)
    ensures i <= |q|
    ensures i < |q| ==> hit(q[i])
    ensures forall j | 0 <= j < i :: !hit(q[j])
  {
    if q == [] then 0 else if hit(q[0]) then 0 else 1 + FirstHit(q[1..], hit)
  }

  function ToFront<T>(q: seq<T>, i: nat): seq<T>
    requires i < |q|
  {
    [q[i]] + q[..i] + q[i + 1..]
  }

  /** lru_cache_insert: at capacity, the last element makes room. */
  function Insert<T>(q: seq<T>, x: T, max: int): seq<T> {
    if max > 0 && |q| == max then [x] + q[..max - 1] else [x] + q
  }

  function Drop<T>(q: seq<T>, i: nat): seq<T>
    requires i < |q|
  {
    q[..i] + q[i + 1..]
  }

  /** Moving to the front reorders and nothing else. */
  lemma {:induction false} ToFrontKeeps<T>(q: seq<T>, i: nat)
    requires i < |q|
    ensures multiset(ToFront(q, i)) == multiset(q)
    ensures |ToFront(q, i)| == |q|
  {
    assert q == q[..i] + [q[i]] + q[i + 1..];
  }

  // ---------------------------------------------------------------- least recently used

  function Without<T(==)>(q: seq<T>, x: T): seq<T> {
    if q == [] then [] else if q[0] == x then Without(q[1..], x) else [q[0]] + Without(q[1..], x)
  }

  /** The elements used so far, each once, the latest use first. */
  function Recent<T(==)>(uses: seq<T>): seq<T> {
    if uses == [] then [] else [uses[|uses| - 1]] + Without(Recent(uses[..|uses| - 1]), uses[|uses| - 1])
  }

  function Top<T>(q: seq<T>, max: int): seq<T> {
    if 0 < max < |q| then q[..max] else q
  }

  lemma {:induction false} WithoutKeeps<T>(q: seq<T>, x: T)
    ensures forall y :: y in Without(q, x) <==> y in q && y != x
    ensures |Without(q, x)| <= |q|
    ensures x !in q ==> Without(q, x) == q
  {
    if q != [] {
      WithoutKeeps(q[1..], x);
    }
  }

  lemma {:induction false} WithoutOne<T>(q: seq<T>, i: nat)
    requires Distinct(q) && i < |q|
    ensures Without(q, q[i]) == Drop(q, i)
  {
    if i == 0 {
      WithoutKeeps(q[1..], q[0]);
    } else {
      WithoutOne(q[1..], i - 1);
      assert Drop(q, i) == [q[0]] + Drop(q[1..], i - 1);
    }
  }

  /** Where `x` sits in `q`, if it does. */
  lemma {:induction false} WithoutSplits<T>(q: seq<T>, x: T, n: nat)
    requires Distinct(q) && n <= |q| && x !in q[..n]
    ensures |Without(q, x)| >= n && Without(q, x)[..n] == q[..n]
  {
    if x in q {
      var i :| 0 <= i < |q| && q[i] == x;
      if i < n {
        assert false;
      }
      WithoutOne(q, i);
    } else {
      WithoutKeeps(q, x);
    }
  }

  /** Distinct, exactly the elements used, and in the order of their last uses. */
  lemma {:induction false} RecentMeans<T>(uses: seq<T>)
    ensures Distinct(Recent(uses)) && forall x :: x in Recent(uses) <==> x in uses
    ensures forall i, j | 0 <= i < j < |Recent(uses)| :: UsedLater(uses, Recent(uses)[i], Recent(uses)[j])
  {
    hide UsedLater, Distinct, Without;
    if uses == [] {
      DistinctNothing<T>();
    } else {
      var n := |uses| - 1;
      var x, before := uses[n], Recent(uses[..n]);
      RecentMeans(uses[..n]);
      WithoutKeeps(before, x);
      WithoutDistinct(before, x);
      assert uses == uses[..n] + [x];
      var rest := Without(before, x);
      DistinctCons(x, rest);
      forall i, j | 0 <= i < j < |Recent(uses)|
        ensures UsedLater(uses, Recent(uses)[i], Recent(uses)[j])
      {
        LaterStep(uses[..n], x, before, i, j);
      }
    }
  }

  lemma {:induction false} DistinctNothing<T>()
    ensures Distinct<T>([])
  {
  }

  lemma {:induction false} DistinctCons<T>(x: T, q: seq<T>)
    requires Distinct(q) && x !in q
    ensures Distinct([x] + q)
  {
  }

  ghost predicate InOrder<T>(q: seq<T>, x: T, y: T) {
    exists i, j :: 0 <= i < j < |q| && q[i] == x && q[j] == y
  }

  /** Taking an element out keeps the others apart and in order. */
  lemma {:induction false} WithoutDistinct<T>(q: seq<T>, x: T)
    requires Distinct(q)
    ensures Distinct(Without(q, x))
    ensures forall a, b | 0 <= a < b < |Without(q, x)| :: InOrder(q, Without(q, x)[a], Without(q, x)[b])
  {
    if x in q {
      var k :| 0 <= k < |q| && q[k] == x;
      WithoutOne(q, k);
      DropOrder(q, k);
    } else {
      WithoutKeeps(q, x);
      assert forall a, b | 0 <= a < b < |q| :: InOrder(q, q[a], q[b]);
    }
  }

  lemma {:induction false} DropOrder<T>(q: seq<T>, k: nat)
    requires k < |q| && Distinct(q)
    ensures Distinct(Drop(q, k))
    ensures forall a, b | 0 <= a < b < |Drop(q, k)| :: InOrder(q, Drop(q, k)[a], Drop(q, k)[b])
  {
    var d := Drop(q, k);
    forall a, b | 0 <= a < b < |d|
      ensures d[a] != d[b] && InOrder(q, d[a], d[b])
    {
      var i, j := if a < k then a else a + 1, if b < k then b else b + 1;
      assert q[i] == d[a] && q[j] == d[b];
    }
  }

  lemma {:induction false} LaterStep<T>(uses: seq<T>, x: T, before: seq<T>, i: nat, j: nat)
    requires Distinct(before) && i < j < |[x] + Without(before, x)|
    requires forall a, b | 0 <= a < b < |before| :: UsedLater(uses, before[a], before[b])
    ensures UsedLater(uses + [x], ([x] + Without(before, x))[i], ([x] + Without(before, x))[j])
  {
    hide UsedLater, Without, Distinct;
    var rest := Without(before, x);
    var all := [x] + rest;
    assert all[j] == rest[j - 1] && (i > 0 ==> all[i] == rest[i - 1]);
    WithoutKeeps(before, x);
    WithoutDistinct(before, x);
    assert rest[j - 1] in rest;
    if i == 0 {
      UsedLast(uses, x, rest[j - 1]);
    } else {
      assert InOrder(before, rest[i - 1], rest[j - 1]);
      var a, b :| 0 <= a < b < |before| && before[a] == rest[i - 1] && before[b] == rest[j - 1];
      UsedLaterSnoc(uses, before[a], before[b], x);
    }
  }

  lemma {:induction false} UsedLast<T>(uses: seq<T>, x: T, y: T)
    requires x != y
    ensures UsedLater(uses + [x], x, y)
  {
    assert (uses + [x])[|uses|..] == [x];
  }

  /** The last use of `x` comes behind that of `y`. */
  ghost predicate UsedLater<T>(uses: seq<T>, x: T, y: T) {
    exists a :: 0 <= a < |uses| && uses[a] == x && y !in uses[a..]
  }

  lemma {:induction false} UsedLaterSnoc<T>(uses: seq<T>, x: T, y: T, z: T)
    requires UsedLater(uses, x, y) && z != y
    ensures UsedLater(uses + [z], x, y)
  {
    var a :| 0 <= a < |uses| && uses[a] == x && y !in uses[a..];
    assert (uses + [z])[a] == x && (uses + [z])[a..] == uses[a..] + [z];
  }

  lemma {:induction false} RecentSnoc<T>(uses: seq<T>, x: T)
    ensures Recent(uses + [x]) == [x] + Without(Recent(uses), x)
  {
    assert (uses + [x])[..|uses|] == uses;
  }

  /** A hit is the latest use. */
  lemma {:induction false} HitStaysRecent<T>(uses: seq<T>, i: nat, max: int)
    requires i < |Top(Recent(uses), max)|
    ensures ToFront(Top(Recent(uses), max), i) == Top(Recent(uses + [Top(Recent(uses), max)[i]]), max)
  {
    hide Recent, Without, UsedLater;
    var r := Recent(uses);
    RecentMeans(uses);
    RecentSnoc(uses, r[i]);
    WithoutOne(r, i);
    assert Recent(uses + [r[i]]) == ToFront(r, i);
  }

  /** A miss brings in the latest use; at capacity the element whose last use is the oldest of those kept leaves. */
  lemma {:induction false} MissStaysRecent<T>(uses: seq<T>, x: T, max: int)
    requires x !in Top(Recent(uses), max)
    ensures Insert(Top(Recent(uses), max), x, max) == Top(Recent(uses + [x]), max)
  {
    hide Recent, Without, UsedLater, Distinct;
    var r := Recent(uses);
    RecentMeans(uses);
    RecentSnoc(uses, x);
    if 0 < max < |r| {
      WithoutSplits(r, x, max);
      assert ([x] + Without(r, x))[..max] == [x] + Without(r, x)[..max][..max - 1];
    } else {
      WithoutKeeps(r, x);
    }
  }

  /** A request finds the first element that answers it, or brings in `elem`, which does. */
  datatype Request<!T> = Request(hit: T -> bool, elem: T)

  /** The list after the requests, and the element that answered each. */
  function Requests<T>(rs: seq<Request<T>>, max: int): (seq<T>, seq<T>) {
    if rs == [] then ([], [])
    else
      var (q, uses) := Requests(rs[..|rs| - 1], max);
      var r := rs[|rs| - 1];
      var i := FirstHit(q, r.hit);
      if i < |q| then (ToFront(q, i), uses + [q[i]]) else (Insert(q, r.elem, max), uses + [r.elem])
  }

  /** After any requests, the list is the most recently used distinct elements, as many as fit, the latest first. */
  lemma {:induction false} KeepsMostRecent<T>(rs: seq<Request<T>>, max: int)
    requires forall i | 0 <= i < |rs| :: rs[i].hit(rs[i].elem)
    ensures Requests(rs, max).0 == Top(Recent(Requests(rs, max).1), max)
  {
    hide Recent, Top;
    if rs == [] {
      NothingRecent<T>(max);
    } else {
      var n := |rs| - 1;
      KeepsMostRecent(rs[..n], max);
      var (q, uses) := Requests(rs[..n], max);
      var i := FirstHit(q, rs[n].hit);
      if i < |q| {
        HitStaysRecent(uses, i, max);
      } else {
        MissStaysRecent(uses, rs[n].elem, max);
      }
    }
  }

  lemma {:induction false} NothingRecent<T>(max: int)
    ensures Top(Recent<T>([]), max) == []
  {
  }

  /** The walk of lru_cache_kicks, from the least recently used end: the first element satisfying `kick`, or -1. */
  method LastHit<T>(q: seq<T>, kick: T -> bool) returns (victim: int)
    ensures -1 <= victim < |q| && (victim >= 0 ==> kick(q[victim]))
    ensures forall j | victim < j < |q| :: !kick(q[j])
  {
    victim := |q| - 1;
    while victim >= 0 && !kick(q[victim])
      invariant -1 <= victim < |q|
      invariant forall j | victim < j < |q| :: !kick(q[j])
    {
      victim := victim - 1;
    }
  }

  class Cache<T> {
    var elems: seq<T>
    var size: int
    const max: int

    ghost predicate Valid()
      reads this
    {
      size == |elems| && (max > 0 ==> size <= max)
    }

    constructor (maxSize: int)
      ensures Valid() && elems == [] && max == maxSize
    {
      elems, size := [], 0;
      max := maxSize;
    }

    /** lru_cache_lookup and lru_cache_hits: walk the list, re-link the hit in front. */
    method Lookup(hit: T -> bool) returns (found: bool, index: nat)
      requires Valid()
      modifies this
      ensures Valid()
      ensures index == FirstHit(old(elems), hit) && (found <==> index < |old(elems)|)
      ensures elems == if found then ToFront(old(elems), index) else old(elems)
    {
      index := 0;
      while index < |elems| && !hit(elems[index])
        invariant 0 <= index <= |elems| && elems == old(elems) && size == old(size)
        invariant forall j | 0 <= j < index :: !hit(elems[j])
      {
        index := index + 1;
      }
      found := index < |elems|;
      if found {
        elems := [elems[index]] + elems[..index] + elems[index + 1..];
      }
    }

    method Add(x: T)
      requires Valid()
      modifies this
      ensures Valid() && elems == Insert(old(elems), x, max)
    {
      if max > 0 && size == max {
        elems := elems[..size - 1];
        size := size - 1;
      }
      elems := [x] + elems;
      size := size + 1;
    }

    /** lru_cache_kicks: drop the least recently used element satisfying `kick`. */
    method Kick(kick: T -> bool) returns (victim: int)
      requires Valid()
      modifies this
      ensures Valid()
      ensures -1 <= victim < |old(elems)|
      ensures victim >= 0 ==> kick(old(elems)[victim]) && elems == Drop(old(elems), victim)
      ensures forall j | victim < j < |old(elems)| :: !kick(old(elems)[j])
      ensures victim == -1 ==> elems == old(elems)
    {
      victim := LastHit(elems, kick);
      if victim >= 0 {
        elems := elems[..victim] + elems[victim + 1..];
        size := size - 1;
      }
    }
  }
}
