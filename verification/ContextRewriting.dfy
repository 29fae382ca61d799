/** The context-based rewriting thread: which duplicates it marks, for any outcome of its utility decisions. */
module ContextRewriting {
  import opened Common
  import opened RewriteBuffer
  import opened Rewriting

  // ---------------------------------------------------------------- which chunks are marked

  predicate SameContainer(a: Elem, b: Elem) {
    a.Normal? && b.Normal? && a.id == b.id && a.id != TEMPORARY_ID
  }

  /** Chunk `p` is the decision chunk when chunk `i` arrives: the `limit` normal chunks of the buffer begin with it. */
  predicate DecidedAt(input: seq<Elem>, limit: nat, p: nat, i: nat)
    requires p < |input|
  {
    p <= i < |input| && input[p].Normal? && input[i].Normal? && Normals(input[p..i + 1]) == limit
  }

  /** Chunk `p` was in the buffer when its earlier neighbour `j` was the decision chunk. */
  predicate Beside(input: seq<Elem>, limit: nat, j: nat, p: nat) {
    j < p < |input| && SameContainer(input[j], input[p]) && Normals(input[j..p + 1]) <= limit
  }

  /**
   * A chunk is marked out of order when it lies in a container, was decided while it seemed fragmented, and was
   * never in the buffer beside an unmarked decision chunk of its container. `fragmented(i)` is how the comparison
   * of utilities comes out when chunk `i` arrives.
   */
  ghost predicate Marks(input: seq<Elem>, limit: nat, fragmented: nat -> bool, p: nat)
    requires p < |input|
    decreases p
  {
    && input[p].Normal? && input[p].id != TEMPORARY_ID
    && (exists i: nat :: DecidedAt(input, limit, p, i) && fragmented(i))
    && (forall j | 0 <= j < p :: Beside(input, limit, j, p) ==> Marks(input, limit, fragmented, j))
  }

  /** The marked form of chunk `p`. */
  ghost function Passed(input: seq<Elem>, limit: nat, fragmented: nat -> bool, p: nat): Elem
    requires p < |input|
  {
    if Marks(input, limit, fragmented, p) then input[p].(outOfOrder := true) else input[p]
  }

  /** The first |out| chunks, each marked exactly as it should be. */
  ghost predicate MarkedAs(input: seq<Elem>, limit: nat, fragmented: nat -> bool, out: seq<Elem>) {
    |out| <= |input| && forall p | 0 <= p < |out| :: out[p] == Passed(input, limit, fragmented, p)
  }

  /** A container is remembered as worth keeping while a chunk still buffered was beside an unmarked one. */
  ghost predicate Spared(input: seq<Elem>, limit: nat, fragmented: nat -> bool, k: nat, n: nat, cid: int) {
    exists j, p :: 0 <= j < k <= p < n <= |input| && input[j].InContainer(cid)
                   && Beside(input, limit, j, p) && !Marks(input, limit, fragmented, j)
  }

  // ---------------------------------------------------------------- counting in slices of the stream

  lemma {:induction false} NormalsSplit(input: seq<Elem>, a: nat, b: nat, c: nat)
    requires a <= b <= c <= |input|
    ensures Normals(input[a..c]) == Normals(input[a..b]) + Normals(input[b..c])
  {
    assert input[a..c] == input[a..b] + input[b..c];
    SumsConcat(input[a..b], input[b..c], 0);
  }

  lemma {:induction false} NormalsAt(input: seq<Elem>, a: nat)
    requires a < |input|
    ensures Normals(input[a..a + 1]) == if input[a].Normal? then 1 else 0
  {
    assert input[a..a + 1] == [input[a]];
    SumsOne(input[a], 0);
  }

  lemma {:induction false} NoNormals(q: seq<Elem>)
    requires forall e | e in q :: !e.Normal?
    ensures Normals(q) == 0
  {
    if q != [] {
      NoNormals(q[..|q| - 1]);
    }
  }

  /** The decision about a chunk falls once. */
  lemma {:induction false} DecidedOnce(input: seq<Elem>, limit: nat, p: nat, i: nat, j: nat)
    requires p < |input| && DecidedAt(input, limit, p, i) && DecidedAt(input, limit, p, j)
    ensures i == j
  {
    hide Normals;
    var lo, hi := Min(i, j), if i < j then j else i;
    if lo < hi {
      NormalsSplit(input, p, lo + 1, hi + 1);
      NormalsSplit(input, lo + 1, hi, hi + 1);
      NormalsAt(input, hi);
      assert false;
    }
  }

  /** What a drained thread has passed on ends with a normal chunk, and limit - 1 normal chunks came behind it. */
  lemma {:induction false} HeldBehind(input: seq<Elem>, limit: nat, k: nat, n: nat, j: nat)
    requires limit > 0 && j < k <= n <= |input| && input[j].Normal?
    requires Held(ContextBased, limit, input[..n]) == input[k..n]
    ensures Normals(input[j..n]) >= limit
  {
    hide Normals, Held;
    HeldOk(ContextBased, limit, input[..n]);
    assert input[..n][k - 1] == input[k - 1];
    NormalsSplit(input, 0, k - 1, k);
    NormalsSplit(input, 0, k, n);
    NormalsAt(input, k - 1);
    NormalsSplit(input, j, j + 1, k);
    NormalsAt(input, j);
    NormalsSplit(input, j, k, n);
  }

  // ---------------------------------------------------------------- what the records remember

  /** A chunk that arrives now is beside no chunk decided earlier. */
  lemma {:induction false} SparedPush(input: seq<Elem>, limit: nat, fragmented: nat -> bool, k: nat, n: nat)
    requires limit > 0 && k <= n < |input| && Held(ContextBased, limit, input[..n]) == input[k..n]
    ensures forall u :: Spared(input, limit, fragmented, k, n + 1, u) <==> Spared(input, limit, fragmented, k, n, u)
  {
    hide Normals, Held, Marks;
    forall u
      ensures Spared(input, limit, fragmented, k, n + 1, u) <==> Spared(input, limit, fragmented, k, n, u)
    {
      if Spared(input, limit, fragmented, k, n + 1, u) {
        var j, p :| 0 <= j < k <= p < n + 1 && input[j].InContainer(u) && Beside(input, limit, j, p)
                    && !Marks(input, limit, fragmented, j);
        if p == n {
          HeldBehind(input, limit, k, n, j);
          NormalsSplit(input, j, n, n + 1);
          NormalsAt(input, n);
          assert false;
        }
      }
    }
  }

  /** Chunk `p` is the first normal chunk of a full buffer that holds chunks `k` to `n`. */
  ghost predicate Head(input: seq<Elem>, limit: nat, k: nat, p: nat, n: nat) {
    && k <= p <= n < |input| && (forall i | k <= i < p :: !input[i].Normal?)
    && input[p].Normal? && input[n].Normal? && Normals(input[k..n + 1]) == limit
  }

  lemma {:induction false} HeadIsDecided(input: seq<Elem>, limit: nat, k: nat, p: nat, n: nat)
    requires Head(input, limit, k, p, n)
    ensures DecidedAt(input, limit, p, n)
  {
    NormalsSplit(input, k, p, n + 1);
    assert forall i | 0 <= i < p - k :: input[k..p][i] == input[k + i];
    NoNormals(input[k..p]);
  }

  /** The decision at the head: exactly the mark that the chunk should get. */
  lemma {:induction false} HeadMarks(input: seq<Elem>, limit: nat, fragmented: nat -> bool, k: nat, p: nat, n: nat)
    requires Head(input, limit, k, p, n)
    ensures Marks(input, limit, fragmented, p)
            <==> input[p].id != TEMPORARY_ID && fragmented(n) && !Spared(input, limit, fragmented, k, n + 1, input[p].id)
  {
    hide Normals, DecidedAt;
    HeadIsDecided(input, limit, k, p, n);
    forall i: nat | DecidedAt(input, limit, p, i)
      ensures i == n
    {
      DecidedOnce(input, limit, p, i, n);
    }
    if Spared(input, limit, fragmented, k, n + 1, input[p].id) {
      SparedHead(input, limit, fragmented, k, p, n);
    }
  }

  lemma {:induction false} SparedHead(input: seq<Elem>, limit: nat, fragmented: nat -> bool, k: nat, p: nat, n: nat)
    requires Head(input, limit, k, p, n) && Spared(input, limit, fragmented, k, n + 1, input[p].id)
    ensures exists j :: 0 <= j < p && Beside(input, limit, j, p) && !Marks(input, limit, fragmented, j)
  {
    hide Normals, Marks;
    var j, m :| 0 <= j < k <= m < n + 1 && input[j].InContainer(input[p].id) && Beside(input, limit, j, m)
                && !Marks(input, limit, fragmented, j);
    assert p <= m;
    NormalsSplit(input, j, p + 1, m + 1);
    assert Beside(input, limit, j, p);
  }

  /** Passing the head on: its container is remembered if it was left unmarked and has chunks behind it. */
  lemma {:induction false} SparedPass(input: seq<Elem>, limit: nat, fragmented: nat -> bool, k: nat, p: nat, n: nat,
                                      u: int)
    requires Head(input, limit, k, p, n)
    ensures Spared(input, limit, fragmented, p + 1, n + 1, u)
            <==> (Spared(input, limit, fragmented, k, n + 1, u)
                  || (input[p].InContainer(u) && !Marks(input, limit, fragmented, p)))
                 && Share(input[p + 1..n + 1], u) > 0
  {
    hide Normals, Marks, Spared, Share, Beside;
    HeadMarks(input, limit, fragmented, k, p, n);
    if Spared(input, limit, fragmented, p + 1, n + 1, u) {
      SparedBefore(input, limit, fragmented, k, p, n, u);
    }
    if Share(input[p + 1..n + 1], u) > 0 {
      var m := ShareAt(input, p + 1, n + 1, u);
      if input[p].InContainer(u) && !Marks(input, limit, fragmented, p) {
        HeadBeside(input, limit, k, p, n, m);
        SparedBy(input, limit, fragmented, p + 1, n + 1, u, p, m);
      } else if Spared(input, limit, fragmented, k, n + 1, u) {
        SparedAfter(input, limit, fragmented, k, p, n, u);
      }
    }
  }

  lemma {:induction false} SparedBy(input: seq<Elem>, limit: nat, fragmented: nat -> bool, k: nat, n: nat, u: int,
                                    j: nat, m: nat)
    requires j < k <= m < n <= |input| && input[j].InContainer(u) && Beside(input, limit, j, m)
    requires !Marks(input, limit, fragmented, j)
    ensures Spared(input, limit, fragmented, k, n, u)
  {
  }

  lemma {:induction false} ShareAt(input: seq<Elem>, a: nat, b: nat, u: int) returns (m: nat)
    requires a <= b <= |input| && Share(input[a..b], u) > 0
    ensures a <= m < b && input[m].InContainer(u)
  {
    MemberOfShare(input[a..b], u);
    var e :| e in input[a..b] && e.InContainer(u);
    var i :| 0 <= i < b - a && input[a..b][i] == e;
    m := a + i;
  }

  lemma {:induction false} ShareHas(input: seq<Elem>, a: nat, b: nat, u: int, m: nat)
    requires a <= m < b <= |input| && input[m].InContainer(u)
    ensures Share(input[a..b], u) > 0
  {
    assert input[a..b][m - a] == input[m];
    ShareOfMember(input[a..b], input[m]);
  }

  lemma {:induction false} HeadBeside(input: seq<Elem>, limit: nat, k: nat, p: nat, n: nat, m: nat)
    requires Head(input, limit, k, p, n) && p < m <= n && SameContainer(input[p], input[m])
    ensures Beside(input, limit, p, m)
  {
    hide Normals;
    HeadIsDecided(input, limit, k, p, n);
    NormalsSplit(input, p, m + 1, n + 1);
  }

  lemma {:induction false} SparedBefore(input: seq<Elem>, limit: nat, fragmented: nat -> bool, k: nat, p: nat, n: nat,
                                        u: int)
    requires Head(input, limit, k, p, n) && Spared(input, limit, fragmented, p + 1, n + 1, u)
    ensures Spared(input, limit, fragmented, k, n + 1, u)
            || (input[p].InContainer(u) && !Marks(input, limit, fragmented, p))
    ensures Share(input[p + 1..n + 1], u) > 0
  {
    hide Normals, Marks, Share;
    var j, m :| 0 <= j < p + 1 <= m < n + 1 && input[j].InContainer(u) && Beside(input, limit, j, m)
                && !Marks(input, limit, fragmented, j);
    ShareHas(input, p + 1, n + 1, u, m);
    if j != p {
      SparedBy(input, limit, fragmented, k, n + 1, u, j, m);
    }
  }

  lemma {:induction false} SparedAfter(input: seq<Elem>, limit: nat, fragmented: nat -> bool, k: nat, p: nat, n: nat,
                                       u: int)
    requires Head(input, limit, k, p, n) && Spared(input, limit, fragmented, k, n + 1, u)
    requires !input[p].InContainer(u)
    ensures Spared(input, limit, fragmented, p + 1, n + 1, u)
  {
    hide Normals, Marks;
    var j, m :| 0 <= j < k <= m < n + 1 && input[j].InContainer(u) && Beside(input, limit, j, m)
                && !Marks(input, limit, fragmented, j);
    SparedBy(input, limit, fragmented, p + 1, n + 1, u, j, m);
  }

  // ---------------------------------------------------------------- the thread

  lemma {:induction false} KeptAfter(rs: seq<Record>, k: nat, out: seq<Record>)
    requires k < |rs| && OnePerContainer(rs) && out == rs[k := rs[k].(outOfOrder := false)]
    ensures Kept(out, rs[k].cid) && forall u | u != rs[k].cid :: Kept(out, u) == Kept(rs, u)
    ensures Kept(rs, rs[k].cid) <==> !rs[k].outOfOrder
  {
    assert out[k].cid == rs[k].cid;
    forall u | u != rs[k].cid
      ensures Kept(out, u) == Kept(rs, u)
    {
      if Kept(rs, u) {
        var i :| 0 <= i < |rs| && rs[i].cid == u && !rs[i].outOfOrder;
        assert out[i] == rs[i];
      }
      if Kept(out, u) {
        var i :| 0 <= i < |out| && out[i].cid == u && !out[i].outOfOrder;
        assert out[i] == rs[i];
      }
    }
  }

  /**
   * The decision of cbr_rewrite on a normal chunk. Its utility is a comparison of doubles; `fragmented` says how
   * that comes out. A container once found worth keeping is remembered in its record.
   */
  method Judge(buffer: Buffer, fragmented: bool) returns (mark: bool)
    requires buffer.Valid() && buffer.queue != [] && buffer.queue[0].Normal?
    modifies buffer`records
    ensures buffer.Valid()
    ensures var cid := buffer.queue[0].id;
            && (mark <==> cid != TEMPORARY_ID && fragmented && !old(Kept(buffer.records, cid)))
            && forall u :: Kept(buffer.records, u)
                           <==> old(Kept(buffer.records, u)) || (buffer.queue[0].InContainer(u) && !mark)
  {
    hide Agrees, Share;
    var c := buffer.queue[0];
    if c.id == TEMPORARY_ID {
      return false;
    }
    assert c.WellMarked();
    HeadIsRecorded(buffer.queue);
    PositiveIsRecorded(buffer.records, buffer.queue, c.id);
    SortedOf(buffer.records, buffer.queue);
    var k := Lookup(buffer.records, c.id);
    assert k < |buffer.records|;
    AgreesDistinct(buffer.records, buffer.queue);
    KeptAfter(buffer.records, k, buffer.records[k := buffer.records[k].(outOfOrder := false)]);
    if !buffer.records[k].outOfOrder {
      return false;
    }
    if !fragmented {
      AgreesKept(buffer.records, buffer.queue, k);
      buffer.records := buffer.records[k := buffer.records[k].(outOfOrder := false)];
      return false;
    }
    return true;
  }

  lemma {:induction false} HeadIsRecorded(q: seq<Elem>)
    requires q != [] && q[0].Normal? && q[0].id != TEMPORARY_ID
    ensures Share(q, q[0].id) > 0
  {
    ShareOfMember(q, q[0]);
  }

  lemma {:induction false} AgreesKept(rs: seq<Record>, q: seq<Elem>, k: nat)
    requires Agrees(rs, q) && k < |rs|
    ensures Agrees(rs[k := rs[k].(outOfOrder := false)], q)
  {
    hide Share, OnePerContainer, Sorted, Recorded;
    var out := rs[k := rs[k].(outOfOrder := false)];
    ChangedRecords(rs, k, out);
  }

  /** The decision chunk `c` gets a mark. */
  ghost predicate Condemned(c: Elem, fragmented: bool, rs: seq<Record>) {
    c.Normal? && c.id != TEMPORARY_ID && fragmented && !Kept(rs, c.id)
  }

  /**
   * A full buffer `q` passes on `r` and keeps `rest`: marks first, unchanged, then the decision chunk, marked when it
   * lies in a container, seems fragmented and its container is not yet known as worth keeping. A container is worth
   * keeping from then on if its decision chunk was left unmarked, for as long as it has chunks in the buffer.
   */
  ghost predicate PassedOn(q: seq<Elem>, r: seq<Elem>, rest: seq<Elem>, fragmented: bool, was: seq<Record>,
                           now: seq<Record>) {
    |r| > 0 && |r| + |rest| == |q| && rest == q[|r|..] &&
    var n := |r| - 1;
    var mark := Condemned(q[n], fragmented, was);
    && (forall i | 0 <= i < n :: !q[i].Normal?) && q[n].Normal?
    && r == q[..n] + [if mark then q[n].(outOfOrder := true) else q[n]]
    && (forall u :: Kept(now, u) <==> (Kept(was, u) || (q[n].InContainer(u) && !mark)) && Share(rest, u) > 0)
  }

  /** One full buffer of cbr_rewrite: leading marks pass, then the decision chunk is judged and passes. */
  method CbrPass(buffer: Buffer, fragmented: bool) returns (r: seq<Elem>)
    requires buffer.Valid() && Normals(buffer.queue) > 0
    modifies buffer
    ensures buffer.Valid() && buffer.queue == PastFirstNormal(old(buffer.queue))
    ensures PassedOn(old(buffer.queue), r, buffer.queue, fragmented, old(buffer.records), buffer.records)
  {
    hide Agrees, Share, Volume, Normals, Kept;
    ghost var q := buffer.queue;
    r := [];
    HasHead(buffer.queue);
    while !buffer.queue[0].Normal?
      invariant buffer.Valid() && Normals(buffer.queue) > 0 && buffer.queue != []
      invariant |r| <= |q| && buffer.queue == q[|r|..] && r == q[..|r|]
      invariant forall i | 0 <= i < |r| :: !q[i].Normal?
      invariant PastFirstNormal(buffer.queue) == PastFirstNormal(q)
      invariant forall u :: Kept(buffer.records, u) <==> old(Kept(buffer.records, u))
      decreases |buffer.queue|
    {
      SumsTail(buffer.queue);
      KeptSame(buffer.records, buffer.queue);
      var c := buffer.Pop();
      r := r + [c.value];
      HasHead(buffer.queue);
    }
    ghost var n, before := |r|, buffer.records;
    var mark := Judge(buffer, fragmented);
    assert mark <==> Condemned(q[n], fragmented, old(buffer.records));
    ghost var judged := buffer.records;
    assert forall u :: Kept(judged, u) <==> Kept(before, u) || (q[n].InContainer(u) && !mark);
    var c := buffer.Pop();
    assert c.value == q[n];
    r := r + [if mark then c.value.(outOfOrder := true) else c.value];
  }

  lemma {:induction false} HasHead(q: seq<Elem>)
    requires Normals(q) > 0
    ensures q != []
  {
  }

  /** One turn of the main loop of cbr_rewrite. */
  method CbrStep(buffer: Buffer, c: Elem, fragmented: bool) returns (r: seq<Elem>)
    requires buffer.Valid() && buffer.num < buffer.limit && c.WellMarked()
    modifies buffer
    ensures buffer.Valid() && buffer.num < buffer.limit
    ensures buffer.queue == Next(ContextBased, buffer.limit, old(buffer.queue) + [c])
    ensures var q := old(buffer.queue) + [c];
            if c.Normal? && Normals(q) == buffer.limit
            then PassedOn(q, r, buffer.queue, fragmented, old(buffer.records), buffer.records)
            else r == [] && buffer.queue == q && forall u :: Kept(buffer.records, u) <==> old(Kept(buffer.records, u))
  {
    hide Share, Agrees, Normals, CutAfterNormal, PassedOn, Kept;
    r := [];
    var full := buffer.Push(c);
    if full {
      PastOk(buffer.queue);
      ghost var pushed, q := buffer.records, buffer.queue;
      r := CbrPass(buffer, fragmented);
      PassedOnSame(q, r, buffer.queue, fragmented, old(buffer.records), pushed, buffer.records);
    }
  }

  lemma {:induction false} PassedOnSame(q: seq<Elem>, r: seq<Elem>, rest: seq<Elem>, fragmented: bool,
                                        was: seq<Record>, pushed: seq<Record>, now: seq<Record>)
    requires PassedOn(q, r, rest, fragmented, pushed, now) && forall u :: Kept(pushed, u) <==> Kept(was, u)
    ensures PassedOn(q, r, rest, fragmented, was, now)
  {
    hide Kept, Share;
  }

  /** The records remember exactly the containers that should be spared. */
  ghost predicate Remembers(input: seq<Elem>, limit: nat, fragmented: nat -> bool, k: nat, n: nat, rs: seq<Record>) {
    forall u :: Kept(rs, u) <==> Spared(input, limit, fragmented, k, n, u)
  }

  /** A full buffer passes on chunks marked as they should be, and its records go on remembering. */
  lemma {:induction false} PassMarks(input: seq<Elem>, limit: nat, fragmented: nat -> bool, out: seq<Elem>, n: nat,
                                     q: seq<Elem>, r: seq<Elem>, rest: seq<Elem>, was: seq<Record>, now: seq<Record>)
    requires limit > 0 && |out| <= n < |input| && MarkedAs(input, limit, fragmented, out)
    requires Remembers(input, limit, fragmented, |out|, n, was)
    requires Held(ContextBased, limit, input[..n]) == input[|out|..n] && q == input[|out|..n + 1]
    requires input[n].Normal? && Normals(q) == limit && PassedOn(q, r, rest, fragmented(n), was, now)
    ensures |out + r| <= n + 1 && rest == input[|out + r|..n + 1]
    ensures MarkedAs(input, limit, fragmented, out + r)
    ensures Remembers(input, limit, fragmented, |out + r|, n + 1, now)
  {
    hide Normals, Held, Kept, Spared, Marks, Share, Head;
    var k := |out|;
    var p := k + |r| - 1;
    assert forall i | 0 <= i < |q| :: q[i] == input[k + i];
    StillRemembers(input, limit, fragmented, k, n, was, was);
    PassedHead(input, limit, k, n, q, r, rest, fragmented(n), was, now);
    HeadMarks(input, limit, fragmented, k, p, n);
    assert Marks(input, limit, fragmented, p) <==> Condemned(input[p], fragmented(n), was);
    assert rest == input[p + 1..n + 1];
    forall u
      ensures Kept(now, u) <==> Spared(input, limit, fragmented, p + 1, n + 1, u)
    {
      SparedPass(input, limit, fragmented, k, p, n, u);
    }
    forall i | k <= i < p
      ensures !Marks(input, limit, fragmented, i)
    {
      assert input[i] == q[i - k];
      OnlyNormal(input, limit, fragmented, i);
    }
  }

  lemma {:induction false} OnlyNormal(input: seq<Elem>, limit: nat, fragmented: nat -> bool, p: nat)
    requires p < |input| && !input[p].Normal?
    ensures !Marks(input, limit, fragmented, p)
  {
  }

  lemma {:induction false} PassedHead(input: seq<Elem>, limit: nat, k: nat, n: nat, q: seq<Elem>, r: seq<Elem>,
                                      rest: seq<Elem>, fragmented: bool, was: seq<Record>, now: seq<Record>)
    requires k <= n < |input| && q == input[k..n + 1] && input[n].Normal? && Normals(q) == limit
    requires PassedOn(q, r, rest, fragmented, was, now)
    ensures Head(input, limit, k, k + |r| - 1, n)
  {
    hide Normals, Kept, Share;
    assert forall i | 0 <= i < |q| :: q[i] == input[k + i];
    forall i | k <= i < k + |r| - 1
      ensures !input[i].Normal?
    {
      assert !q[i - k].Normal?;
    }
  }

  /** cbr_rewrite on a whole stream, for any outcome of its decisions. */
  method CbrRewrite(input: seq<Elem>, limit: nat, fragmented: nat -> bool) returns (out: seq<Elem>)
    requires limit > 0 && AllMarked(input)
    ensures |out| == |input| && MarkedAs(input, limit, fragmented, out)
  {
    hide Normals, Share, Agrees, Next, Volume, Held, MarkedAs, Remembers, PassedOn, Marks;
    HeldEmpty(ContextBased, limit);
    var buffer := new Buffer(limit);
    out := [];
    NothingYet(input, limit, fragmented, buffer.records);
    for i := 0 to |input|
      invariant buffer.Valid() && buffer.limit == limit && buffer.num < limit
      invariant buffer.queue == Held(ContextBased, limit, input[..i])
      invariant |out| <= i && buffer.queue == input[|out|..i]
      invariant MarkedAs(input, limit, fragmented, out)
      invariant Remembers(input, limit, fragmented, |out|, i, buffer.records)
    {
      HeldUnfold(ContextBased, limit, input, i);
      ghost var was, q := buffer.records, buffer.queue + [input[i]];
      assert q == input[|out|..i + 1];
      var r := CbrStep(buffer, input[i], fragmented(i));
      if input[i].Normal? && Normals(q) == limit {
        PassMarks(input, limit, fragmented, out, i, q, r, buffer.queue, was, buffer.records);
      } else {
        StillRemembers(input, limit, fragmented, |out|, i, was, buffer.records);
        assert out + r == out;
      }
      out := out + r;
    }
    assert input[..|input|] == input;
    RestUnmarked(input, limit, fragmented, |out|);
    var r := Drain(buffer);
    DrainMarks(input, limit, fragmented, out, r);
    out := out + r;
  }

  lemma {:induction false} NothingYet(input: seq<Elem>, limit: nat, fragmented: nat -> bool, rs: seq<Record>)
    requires rs == []
    ensures MarkedAs(input, limit, fragmented, []) && Remembers(input, limit, fragmented, 0, 0, rs)
  {
  }

  lemma {:induction false} StillRemembers(input: seq<Elem>, limit: nat, fragmented: nat -> bool, k: nat, n: nat,
                                          was: seq<Record>, now: seq<Record>)
    requires limit > 0 && k <= n < |input| && Held(ContextBased, limit, input[..n]) == input[k..n]
    requires Remembers(input, limit, fragmented, k, n, was) && forall u :: Kept(now, u) <==> Kept(was, u)
    ensures Remembers(input, limit, fragmented, k, n + 1, now)
  {
    hide Normals, Held, Kept, Spared;
    SparedPush(input, limit, fragmented, k, n);
  }

  /** The chunks still held at the end of the stream were never decided. */
  lemma {:induction false} RestUnmarked(input: seq<Elem>, limit: nat, fragmented: nat -> bool, k: nat)
    requires limit > 0 && k <= |input| && Held(ContextBased, limit, input) == input[k..]
    ensures forall p | k <= p < |input| :: !Marks(input, limit, fragmented, p)
  {
    hide Normals, Held;
    HeldOk(ContextBased, limit, input);
    forall p | k <= p < |input|
      ensures !Marks(input, limit, fragmented, p)
    {
      assert input[k..|input|] == input[k..];
      forall i: nat | DecidedAt(input, limit, p, i)
        ensures false
      {
        NormalsSplit(input, k, p, |input|);
        NormalsSplit(input, p, i + 1, |input|);
      }
    }
  }

  lemma {:induction false} DrainMarks(input: seq<Elem>, limit: nat, fragmented: nat -> bool, out: seq<Elem>,
                                      r: seq<Elem>)
    requires |out| <= |input| && r == input[|out|..] && MarkedAs(input, limit, fragmented, out)
    requires forall p | |out| <= p < |input| :: !Marks(input, limit, fragmented, p)
    ensures MarkedAs(input, limit, fragmented, out + r)
  {
    hide Marks;
  }

  /** The last loop of cbr_rewrite: what is left passes unmarked. */
  method Drain(buffer: Buffer) returns (r: seq<Elem>)
    requires buffer.Valid()
    modifies buffer
    ensures buffer.Valid() && buffer.queue == [] && r == old(buffer.queue)
  {
    r := [];
    while true
      invariant buffer.Valid() && r + buffer.queue == old(buffer.queue)
      decreases |buffer.queue|
    {
      var c := buffer.Pop();
      if c.None? {
        break;
      }
      r := r + [c.value];
    }
  }

  // ---------------------------------------------------------------- what the marks mean

  /** If every decision finds fragmentation, exactly the decided chunks in containers are marked; if none, nothing is. */
  lemma {:induction false} ConstantDecisions(input: seq<Elem>, limit: nat, fragmented: nat -> bool, p: nat)
    requires p < |input|
    ensures (forall i :: !fragmented(i)) ==> !Marks(input, limit, fragmented, p)
    ensures (forall i :: fragmented(i)) ==>
              (Marks(input, limit, fragmented, p)
               <==> input[p].Normal? && input[p].id != TEMPORARY_ID && Normals(input[p..]) >= limit > 0)
  {
    hide Normals;
    if (forall i :: fragmented(i)) && input[p].Normal? {
      if limit > 0 && Normals(input[p..]) >= limit {
        assert input[p..] == input[p..|input|];
        var i := DecisionPoint(input, limit, p, |input|);
        forall j | 0 <= j < p && Beside(input, limit, j, p)
          ensures Marks(input, limit, fragmented, j)
        {
          assert input[j..] == input[j..|input|] && input[p..] == input[p..|input|];
          NormalsSplit(input, j, p, |input|);
          ConstantDecisions(input, limit, fragmented, j);
        }
      }
      if Marks(input, limit, fragmented, p) {
        var i: nat :| DecidedAt(input, limit, p, i);
        assert input[p..] == input[p..|input|];
        NormalsSplit(input, p, i + 1, |input|);
        NormalsSplit(input, p, p + 1, i + 1);
        NormalsAt(input, p);
      }
    }
  }

  lemma {:induction false} DecisionPoint(input: seq<Elem>, limit: nat, p: nat, n: nat) returns (i: nat)
    requires p < n <= |input| && input[p].Normal? && 0 < limit <= Normals(input[p..n])
    ensures DecidedAt(input, limit, p, i)
  {
    hide Normals;
    NormalsSplit(input, p, n - 1, n);
    NormalsAt(input, n - 1);
    if input[n - 1].Normal? && Normals(input[p..n]) == limit {
      i := n - 1;
    } else {
      NothingBefore(input, p);
      i := DecisionPoint(input, limit, p, n - 1);
    }
  }

  lemma {:induction false} NothingBefore(input: seq<Elem>, p: nat)
    requires p < |input|
    ensures Normals(input[p..p]) == 0
  {
  }
}
