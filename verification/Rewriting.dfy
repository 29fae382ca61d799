/** What a rewriting thread holds back, and the capping thread over the rewrite buffer. */
module Rewriting {
  import opened Common
  import opened RewriteBuffer

  // ---------------------------------------------------------------- what a thread still holds

  datatype Policy = Capping | ContextBased

  /** The queue behind its first normal chunk. */
  function PastFirstNormal(q: seq<Elem>): seq<Elem> {
    if q == [] then []
    else if q[0].Normal? then q[1..]
    else PastFirstNormal(q[1..])
  }

  /** The buffer `q`, just pushed to, after the thread has reacted: capping flushes, CBR passes one normal chunk. */
  function Next(p: Policy, limit: nat, q: seq<Elem>): seq<Elem>
    requires q != []
  {
    if !q[|q| - 1].Normal? || Normals(q) < limit then q
    else if p.Capping? then []
    else PastFirstNormal(q)
  }

  /** What stays in the buffer of a thread that has consumed all of `input`. */
  function Held(p: Policy, limit: nat, input: seq<Elem>): seq<Elem> {
    if input == [] then [] else Next(p, limit, Held(p, limit, input[..|input| - 1]) + [input[|input| - 1]])
  }

  /** The elements a thread passes on and the ones it holds make up its input; it passes on up to a normal chunk. */
  ghost predicate CutAfterNormal(input: seq<Elem>, held: seq<Elem>) {
    && |held| <= |input|
    && var k := |input| - |held|;
      held == input[k..] && (k > 0 ==> input[k - 1].Normal?)
  }

  lemma {:induction false} HeldEmpty(p: Policy, limit: nat)
    ensures Held(p, limit, []) == []
  {
  }

  lemma {:induction false} HeldUnfold(p: Policy, limit: nat, input: seq<Elem>, i: nat)
    requires i < |input|
    ensures Held(p, limit, input[..i + 1]) == Next(p, limit, Held(p, limit, input[..i]) + [input[i]])
  {
    assert input[..i + 1][..i] == input[..i];
  }

  lemma {:induction false} PastOk(q: seq<Elem>)
    requires Normals(q) > 0
    ensures CutAfterNormal(q, PastFirstNormal(q)) && Normals(PastFirstNormal(q)) == Normals(q) - 1
    ensures |PastFirstNormal(q)| < |q|
  {
    if q != [] {
      SumsTail(q);
      if !q[0].Normal? {
        PastOk(q[1..]);
        var h := PastFirstNormal(q[1..]);
        var k := |q[1..]| - |h|;
        assert q[1..][k..] == q[k + 1..];
      }
    }
  }

  function HeldCount(p: Policy, limit: nat, n: nat): nat
    requires limit > 0
  {
    if p.Capping? then n % limit else Min(n, limit - 1)
  }

  /** What a drained thread holds: capping the normal chunks since the last flush, CBR the last limit - 1. */
  lemma {:induction false} HeldOk(p: Policy, limit: nat, input: seq<Elem>)
    requires limit > 0
    ensures CutAfterNormal(input, Held(p, limit, input))
    ensures Normals(Held(p, limit, input)) == HeldCount(p, limit, Normals(input))
  {
    hide CutAfterNormal, Normals, PastFirstNormal;
    if input == [] {
      HeldNothing(p, limit);
    } else {
      var m := |input| - 1;
      var x, before := input[m], input[..m];
      HeldOk(p, limit, before);
      assert before + [x] == input;
      HeldStep(p, limit, before, Held(p, limit, before), x);
    }
  }

  lemma {:induction false} HeldNothing(p: Policy, limit: nat)
    requires limit > 0
    ensures CutAfterNormal([], []) && Normals([]) == HeldCount(p, limit, Normals([])) == 0
  {
    if p.Capping? {
      ModUnique(0, limit, 0, 0);
    }
  }

  lemma {:induction false} HeldStep(p: Policy, limit: nat, before: seq<Elem>, h: seq<Elem>, x: Elem)
    requires limit > 0 && CutAfterNormal(before, h) && Normals(h) == HeldCount(p, limit, Normals(before))
    ensures CutAfterNormal(before + [x], Next(p, limit, h + [x]))
    ensures Normals(Next(p, limit, h + [x])) == HeldCount(p, limit, Normals(before + [x]))
  {
    hide CutAfterNormal, Normals, PastFirstNormal;
    var q := h + [x];
    SumsSnoc(h, x);
    SumsSnoc(before, x);
    CutSnoc(before, h, x);
    if p.Capping? {
      ModSnoc(Normals(before), limit);
    }
    if x.Normal? && Normals(q) >= limit {
      if p.Capping? {
        HeldNothing(p, limit);
        CutAll(before, x);
      } else {
        PastOk(q);
        CutTwice(before + [x], q, PastFirstNormal(q));
      }
    }
  }

  lemma {:induction false} CutAll(before: seq<Elem>, x: Elem)
    requires x.Normal?
    ensures CutAfterNormal(before + [x], [])
  {
    assert (before + [x])[|before| + 1..] == [];
  }

  lemma {:induction false} ModSnoc(n: nat, limit: nat)
    requires limit > 0
    ensures (n + 1) % limit == if n % limit + 1 == limit then 0 else n % limit + 1
  {
    var q, r := n / limit, n % limit;
    assert n == q * limit + r;
    if r + 1 == limit {
      assert n + 1 == (q + 1) * limit;
      ModUnique(n + 1, limit, q + 1, 0);
    } else {
      ModUnique(n + 1, limit, q, r + 1);
    }
  }

  lemma {:induction false} CutSnoc(before: seq<Elem>, h: seq<Elem>, x: Elem)
    requires CutAfterNormal(before, h)
    ensures CutAfterNormal(before + [x], h + [x])
  {
    var k := |before| - |h|;
    assert (before + [x])[k..] == h + [x];
  }

  lemma {:induction false} CutTwice(input: seq<Elem>, q: seq<Elem>, h: seq<Elem>)
    requires CutAfterNormal(input, q) && CutAfterNormal(q, h)
    ensures CutAfterNormal(input, h)
  {
    var k, m := |input| - |q|, |q| - |h|;
    assert input[k..][m..] == input[k + m..];
    if m > 0 {
      assert input[k + m - 1] == q[m - 1];
    }
  }

  // ---------------------------------------------------------------- capping

  /** The flag loop; `unique` says whether chunks that are no duplicates are looked up as well. */
  function CapMark(e: Elem, top: set<int>, unique: bool): Elem {
    if e.Normal? && (unique || e.dup) && e.id !in top then e.(outOfOrder := true) else e
  }

  function CapMarks(q: seq<Elem>, top: set<int>, unique: bool): (r: seq<Elem>)
    ensures |r| == |q|
  {
    seq(|q|, i requires 0 <= i < |q| => CapMark(q[i], top, unique))
  }

  predicate Unmarked(q: seq<Elem>) {
    forall i | 0 <= i < |q| :: q[i].Normal? ==> !q[i].outOfOrder
  }

  /** Containers that unmarked duplicates refer to. */
  function Targets(q: seq<Elem>): set<int> {
    set e | e in q && e.Normal? && e.dup && !e.outOfOrder :: e.id
  }

  /**
   * The capping bound: the unmarked duplicates of a flushed buffer refer to at most `level` containers, none
   * with fewer buffered bytes than a container given up, and exactly the chunks of other containers are marked.
   */
  ghost predicate Capped(q: seq<Elem>, r: seq<Elem>, level: nat, unique: bool) {
    Selected(q, level, Targets(r)) && r == CapMarks(q, Targets(r), unique)
  }

  lemma {:induction false} ShareOfMember(q: seq<Elem>, e: Elem)
    requires e in q && e.Normal? && e.id != TEMPORARY_ID
    ensures Share(q, e.id) > 0
  {
    if q[|q| - 1] != e {
      assert q == q[..|q| - 1] + [q[|q| - 1]];
      ShareOfMember(q[..|q| - 1], e);
    }
  }

  lemma {:induction false} MemberOfShare(q: seq<Elem>, cid: int)
    requires Share(q, cid) > 0
    ensures exists e :: e in q && e.InContainer(cid)
  {
    if q[|q| - 1].InContainer(cid) {
      assert q[|q| - 1] in q;
    } else {
      MemberOfShare(q[..|q| - 1], cid);
      var e :| e in q[..|q| - 1] && e.InContainer(cid);
      assert e in q;
    }
  }

  /** The containers kept are exactly the ones selected. */
  lemma {:induction false} TargetsAreTop(q: seq<Elem>, level: nat, top: set<int>, unique: bool)
    requires Selected(q, level, top) && AllMarked(q) && Unmarked(q)
    ensures Targets(CapMarks(q, top, unique)) == top
  {
    var r := CapMarks(q, top, unique);
    forall t | t in top
      ensures t in Targets(r)
    {
      MemberOfShare(q, t);
      var e :| e in q && e.InContainer(t);
      var i :| 0 <= i < |q| && q[i] == e;
      assert q[i].WellMarked() && r[i] == e;
    }
    forall t | t in Targets(r)
      ensures t in top
    {
      var e :| e in r && e.Normal? && e.dup && !e.outOfOrder && e.id == t;
      var i :| 0 <= i < |r| && r[i] == e;
      assert r[i] == CapMark(q[i], top, unique);
    }
  }

  /** One flush of the capping thread: select, then pop and mark everything. */
  method CapFlush(buffer: Buffer, level: nat, unique: bool) returns (r: seq<Elem>)
    requires buffer.Valid() && Unmarked(buffer.queue)
    modifies buffer
    ensures buffer.Valid() && buffer.queue == []
    ensures Capped(old(buffer.queue), r, level, unique)
  {
    hide Selected, Targets, Agrees, Share, Normals, Volume;
    ghost var q := buffer.queue;
    var top := buffer.GetTop(level);
    r := [];
    ghost var n := 0;
    while true
      invariant buffer.Valid() && n <= |q| && buffer.queue == q[n..] && |r| == n
      invariant forall i | 0 <= i < n :: r[i] == CapMark(q[i], top, unique)
      decreases |buffer.queue|
    {
      var c := buffer.Pop();
      if c.None? {
        break;
      }
      assert c.value == q[n];
      r := r + [if c.value.Normal? && (unique || c.value.dup) && c.value.id !in top
                then c.value.(outOfOrder := true) else c.value];
      n := n + 1;
    }
    assert r == CapMarks(q, top, unique);
    TargetsAreTop(q, level, top, unique);
  }

  /** One turn of the main loop of cap_rewrite. */
  method CapStep(buffer: Buffer, c: Elem, level: nat) returns (r: Option<seq<Elem>>)
    requires buffer.Valid() && buffer.num < buffer.limit && c.WellMarked() && Unmarked(buffer.queue + [c])
    modifies buffer
    ensures buffer.Valid() && buffer.num < buffer.limit
    ensures buffer.queue == Next(Capping, buffer.limit, old(buffer.queue) + [c])
    ensures r.None? ==> buffer.queue == old(buffer.queue) + [c]
    ensures r.Some? ==> buffer.queue == [] && Normals(old(buffer.queue) + [c]) == buffer.limit
    ensures r.Some? ==> Capped(old(buffer.queue) + [c], r.value, level, false)
  {
    hide Capped, Share, Agrees, Volume;
    var full := buffer.Push(c);
    if !full {
      return None;
    }
    var out := CapFlush(buffer, level, false);
    return Some(out);
  }

  /**
   * cap_rewrite on a whole stream: the buffers it flushed and what it passed on. The last flush, at the end of
   * the stream, looks up unique chunks too and so marks all of them.
   */
  method CapRewrite(input: seq<Elem>, limit: nat, level: nat)
    returns (flushed: seq<seq<Elem>>, out: seq<seq<Elem>>)
    requires limit > 0 && AllMarked(input) && Unmarked(input)
    ensures Flat(flushed) == input && |flushed| == |out| > 0
    ensures forall i | 0 <= i < |out| :: Capped(flushed[i], out[i], level, i == |out| - 1)
    ensures forall i | 0 <= i < |out| - 1 :: Normals(flushed[i]) == limit
    ensures flushed[|out| - 1] == Held(Capping, limit, input)
  {
    hide Capped, Normals, Share, Agrees, Volume, Next, Flat, Unmarked, Held;
    HeldEmpty(Capping, limit);
    var buffer := new Buffer(limit);
    flushed, out := [], [];
    FlatSnoc<Elem>([], []);
    for i := 0 to |input|
      invariant buffer.Valid() && buffer.limit == limit && buffer.num < limit
      invariant |flushed| == |out| && Flat(flushed) + buffer.queue == input[..i]
      invariant forall k | 0 <= k < |out| :: Capped(flushed[k], out[k], level, false)
      invariant forall k | 0 <= k < |out| :: Normals(flushed[k]) == limit
      invariant buffer.queue == Held(Capping, limit, input[..i])
    {
      HeldUnfold(Capping, limit, input, i);
      assert input[..i + 1] == input[..i] + [input[i]];
      ghost var before := Flat(flushed);
      var batch := buffer.queue + [input[i]];
      assert before + batch == input[..i + 1];
      UnmarkedPrefix(input, i + 1);
      UnmarkedSuffix(before, batch, input[..i + 1]);
      var r := CapStep(buffer, input[i], level);
      if r.Some? {
        FlatSnoc(flushed, batch);
        flushed, out := flushed + [batch], out + [r.value];
      }
    }
    assert input[..|input|] == input;
    UnmarkedSuffix(Flat(flushed), buffer.queue, input);
    var batch := buffer.queue;
    var r := CapFlush(buffer, level, true);
    FlatSnoc(flushed, batch);
    flushed, out := flushed + [batch], out + [r];
  }

  lemma {:induction false} UnmarkedPrefix(input: seq<Elem>, n: nat)
    requires Unmarked(input) && n <= |input|
    ensures Unmarked(input[..n])
  {
  }

  lemma {:induction false} UnmarkedSuffix(a: seq<Elem>, b: seq<Elem>, input: seq<Elem>)
    requires Unmarked(input) && a + b == input
    ensures Unmarked(b)
  {
    assert forall i | 0 <= i < |b| :: b[i] == input[|a| + i];
  }
}
