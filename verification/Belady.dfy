/** Evicting what is needed farthest in the future costs no more reads than any other policy. */
module Belady {
  function Elems(s: seq<int>): set<int> {
    set x | x in s
  }

  /**
   * A schedule serves `requests` with a cache of capacity `k`: after each request the container is
   * cached, and nothing is cached that was not cached or requested. Any replacement policy, and
   * any policy that drops containers early, gives such a schedule.
   */
  ghost predicate Schedule(k: nat, start: set<int>, requests: seq<int>, caches: seq<set<int>>)
    decreases |requests|
  {
    |caches| == |requests| &&
    (requests != [] ==>
       && requests[0] in caches[0] && |caches[0]| <= k && caches[0] <= start + {requests[0]}
       && Schedule(k, caches[0], requests[1..], caches[1..]))
  }

  /** The number of containers the schedule reads. */
  ghost function Misses(start: set<int>, requests: seq<int>, caches: seq<set<int>>): nat
    requires |caches| == |requests|
    decreases |requests|
  {
    if requests == [] then 0
    else (if requests[0] in start then 0 else 1) + Misses(caches[0], requests[1..], caches[1..])
  }

  /** `v` is used no earlier than any other member of `cache`. */
  ghost predicate Farthest(cache: set<int>, v: int, future: seq<int>) {
    forall t | 0 <= t <= |future| :: v in Elems(future[..t]) ==> cache <= Elems(future[..t])
  }

  ghost predicate BeladyStep(k: nat, cache: set<int>, p: int, future: seq<int>, after: set<int>) {
    if p in cache then after == cache
    else if |cache| < k then after == cache + {p}
    else exists v :: v in cache && Farthest(cache, v, future) && after == cache - {v} + {p}
  }

  ghost predicate BeladySchedule(k: nat, start: set<int>, requests: seq<int>, caches: seq<set<int>>)
    decreases |requests|
  {
    |caches| == |requests| &&
    (requests != [] ==>
       && BeladyStep(k, start, requests[0], requests[1..], caches[0])
       && BeladySchedule(k, caches[0], requests[1..], caches[1..]))
  }

  /** Within every horizon, `a` already holds as many of the needed containers as `b`, up to `d`. */
  ghost predicate Covers(a: set<int>, b: set<int>, requests: seq<int>, d: nat) {
    forall t | 0 <= t <= |requests| :: |b * Elems(requests[..t])| <= |a * Elems(requests[..t])| + d
  }

  lemma {:induction false} Subset(x: set<int>, y: set<int>)
    requires x <= y
    ensures |x| <= |y|
  {
    assert y == x + (y - x);
  }

  lemma {:induction false} CardAdd(x: set<int>, p: int, e: set<int>)
    ensures p !in x ==> |(x + {p}) * e| == |x * e| + if p in e then 1 else 0
    ensures p in x ==> |x * (e + {p})| == |x * e| + if p in e then 0 else 1
    ensures p !in x ==> x * (e + {p}) == x * e
  {
    if p in x {
      CardGrown(x, p, e);
    } else if p in e {
      assert (x + {p}) * e == (x * e) + {p};
    } else {
      assert (x + {p}) * e == x * e;
    }
  }

  lemma {:induction false} CardGrown(x: set<int>, p: int, e: set<int>)
    requires p in x
    ensures |x * (e + {p})| == |x * e| + if p in e then 0 else 1
  {
    if p in e {
      assert x * (e + {p}) == x * e;
    } else {
      assert x * (e + {p}) == x * e + {p};
    }
  }

  lemma {:induction false} Horizon(requests: seq<int>, t: nat)
    requires requests != [] && t < |requests|
    ensures Elems(requests[..t + 1]) == Elems(requests[1..][..t]) + {requests[0]}
  {
    assert requests[..t + 1] == [requests[0]] + requests[1..][..t];
  }

  /** What the Belady cache holds of a horizon `e` after serving `p`. */
  lemma {:induction false} BeladyHolds(k: nat, a: set<int>, p: int, future: seq<int>, a': set<int>, t: nat)
    requires 0 < k && |a| <= k && t <= |future| && BeladyStep(k, a, p, future, a')
    ensures |a'| <= k && p in a'
    ensures var e := Elems(future[..t]);
            && (p in a ==> a' == a)
            && (p !in a ==> |a' * e| == |a * e| + (if p in e then 1 else 0)
                            || |a' * e| == k - 1 + (if p in e then 1 else 0))
  {
    var e := Elems(future[..t]);
    if p !in a {
      if |a| < k {
        CardAdd(a, p, e);
      } else {
        var v :| v in a && Farthest(a, v, future) && a' == a - {v} + {p};
        Evicted(a, v, p, future, t);
      }
    }
  }

  lemma {:induction false} Evicted(a: set<int>, v: int, p: int, future: seq<int>, t: nat)
    requires v in a && p !in a && t <= |future| && Farthest(a, v, future)
    ensures var e := Elems(future[..t]);
            var held := |(a - {v} + {p}) * e| - (if p in e then 1 else 0);
            held == |a * e| || held == |a| - 1
    ensures |a - {v} + {p}| == |a|
  {
    var e := Elems(future[..t]);
    var rest := a - {v};
    CardAdd(rest, p, e);
    if v in e {
      assert rest * e == rest;
    } else {
      assert rest * e == a * e;
    }
  }

  /** What any cache can hold of a horizon after serving `p`. */
  lemma {:induction false} AnyHolds(k: nat, b: set<int>, p: int, b': set<int>, e: set<int>)
    requires p in b' && |b'| <= k && b' <= b + {p}
    ensures |b' * e| <= |b * e| + if p !in b && p in e then 1 else 0
    ensures |b' * e| <= k - 1 + if p in e then 1 else 0
  {
    CardAdd(b, p, e);
    if p in b {
      Subset(b' * e, b * e);
    } else {
      Subset(b' * e, (b + {p}) * e);
    }
    if p in e {
      Subset(b' * e, b');
    } else {
      Subset(b' * e, b' - {p});
    }
  }

  /** A request that only the other cache holds can be paid for. */
  lemma {:induction false} LeadIsPositive(a: set<int>, b: set<int>, requests: seq<int>, d: nat)
    requires requests != [] && Covers(a, b, requests, d) && requests[0] !in a && requests[0] in b
    ensures d > 0
  {
    var p := requests[0];
    Horizon(requests, 0);
    assert requests[1..][..0] == [];
    assert Elems(requests[..1]) == {p};
    assert b * {p} == {p} && a * {p} == {};
  }

  /** One request: the lead `d` changes by exactly the difference in misses. */
  lemma {:induction false} ServeOne(k: nat, a: set<int>, b: set<int>, requests: seq<int>, a': set<int>, b': set<int>, d: nat)
    returns (d': nat)
    requires 0 < k && |a| <= k && |b| <= k && requests != [] && Covers(a, b, requests, d)
    requires BeladyStep(k, a, requests[0], requests[1..], a')
    requires requests[0] in b' && |b'| <= k && b' <= b + {requests[0]}
    ensures d' + (if requests[0] in a then 0 else 1) == d + (if requests[0] in b then 0 else 1)
    ensures |a'| <= k && Covers(a', b', requests[1..], d')
  {
    hide BeladyStep, Elems;
    var p, future := requests[0], requests[1..];
    BeladyHolds(k, a, p, future, a', 0);
    if p !in a && p in b {
      LeadIsPositive(a, b, requests, d);
    }
    d' := d + (if p in b then 0 else 1) - (if p in a then 0 else 1);
    forall t | 0 <= t <= |future|
      ensures |b' * Elems(future[..t])| <= |a' * Elems(future[..t])| + d'
    {
      var e := Elems(future[..t]);
      Horizon(requests, t);
      assert |b * (e + {p})| <= |a * (e + {p})| + d;
      hide Covers;
      CardAdd(a, p, e);
      CardAdd(b, p, e);
      BeladyHolds(k, a, p, future, a', t);
      AnyHolds(k, b, p, b', e);
    }
  }

  lemma {:induction false} BeladyAhead(k: nat, a: set<int>, b: set<int>, requests: seq<int>, opt: seq<set<int>>,
                                       any: seq<set<int>>, d: nat)
    requires 0 < k && |a| <= k && |b| <= k && Covers(a, b, requests, d)
    requires BeladySchedule(k, a, requests, opt) && Schedule(k, b, requests, any)
    ensures Misses(a, requests, opt) <= Misses(b, requests, any) + d
    decreases |requests|
  {
    if requests != [] {
      var d' := ServeOne(k, a, b, requests, opt[0], any[0], d);
      BeladyAhead(k, opt[0], any[0], requests[1..], opt[1..], any[1..], d');
    }
  }

  /** Belady's theorem, for caches that start empty. */
  lemma {:induction false} BeladyIsOptimal(k: nat, requests: seq<int>, opt: seq<set<int>>, any: seq<set<int>>)
    requires 0 < k
    requires BeladySchedule(k, {}, requests, opt) && Schedule(k, {}, requests, any)
    ensures Misses({}, requests, opt) <= Misses({}, requests, any)
  {
    BeladyAhead(k, {}, {}, requests, opt, any, 0);
  }

  /** A schedule checked request by request. */
  ghost predicate BeladyAt(k: nat, start: set<int>, requests: seq<int>, caches: seq<set<int>>, i: nat)
    requires i < |caches| <= |requests|
  {
    BeladyStep(k, if i == 0 then start else caches[i - 1], requests[i], requests[i + 1..], caches[i])
  }

  lemma {:induction false} BeladyPointwise(k: nat, start: set<int>, requests: seq<int>, caches: seq<set<int>>)
    requires |caches| == |requests| && forall i | 0 <= i < |caches| :: BeladyAt(k, start, requests, caches, i)
    ensures BeladySchedule(k, start, requests, caches)
    decreases |requests|
  {
    if requests != [] {
      assert BeladyAt(k, start, requests, caches, 0);
      forall i | 0 <= i < |caches| - 1
        ensures BeladyAt(k, caches[0], requests[1..], caches[1..], i)
      {
        assert BeladyAt(k, start, requests, caches, i + 1);
        assert requests[1..][i + 1..] == requests[i + 2..];
      }
      BeladyPointwise(k, caches[0], requests[1..], caches[1..]);
    }
  }

  lemma {:induction false} MissesSnoc(start: set<int>, requests: seq<int>, caches: seq<set<int>>, p: int, c: set<int>)
    requires |caches| == |requests|
    ensures var last := if caches == [] then start else caches[|caches| - 1];
            Misses(start, requests + [p], caches + [c]) == Misses(start, requests, caches) + if p in last then 0 else 1
    decreases |requests|
  {
    if requests == [] {
      assert (requests + [p])[1..] == [] && (caches + [c])[1..] == [];
    } else {
      assert (requests + [p])[1..] == requests[1..] + [p];
      assert (caches + [c])[1..] == caches[1..] + [c];
      MissesSnoc(caches[0], requests[1..], caches[1..], p, c);
    }
  }
}
