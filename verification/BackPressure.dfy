/** Back-pressure between the dedup thread, a rewriting thread and the filter thread. */
module BackPressure {
  import opened Common
  import opened RewriteBuffer
  import opened Rewriting

  /**
   * `limit` chunks fill the rewrite buffer; segments have `lo` to `hi` normal chunks; the dedup thread waits while
   * `threshold` or more normal chunks are in flight.
   */
  datatype Config = Config(policy: Policy, limit: nat, lo: nat, hi: nat, threshold: int)

  predicate Sensible(cfg: Config) {
    cfg.limit >= 1 && cfg.hi >= 1 && cfg.lo <= cfg.hi
  }

  /** The threshold start_dedup_phase sets. */
  function WaitThreshold(limit: nat, hi: nat): int {
    limit + hi - 1
  }

  predicate IsSegment(cfg: Config, seg: seq<Elem>) {
    && cfg.lo <= Normals(seg) <= cfg.hi
    && forall i | 0 <= i < |seg| :: !seg[i].SegStart? && !seg[i].SegEnd?
  }

  /** send_segment. */
  function Frame(seg: seq<Elem>): seq<Elem> {
    [SegStart] + seg + [SegEnd]
  }

  function Stream(segs: seq<seq<Elem>>): seq<Elem> {
    if segs == [] then [] else Stream(segs[..|segs| - 1]) + Frame(segs[|segs| - 1])
  }

  /** Segments looked up and sent, elements the rewriting thread has taken, segments filtered. */
  datatype Flow = Flow(sent: seq<seq<Elem>>, eaten: nat, done: nat)

  datatype Act = Send(seg: seq<Elem>) | Eat | Filter

  /** Normal chunks in flight: index_buffer.chunk_num. */
  function InFlight(st: Flow): nat
    requires st.done <= |st.sent|
  {
    Normals(Stream(st.sent[st.done..]))
  }

  /** How many elements the rewriting thread has passed on. */
  function Emitted(cfg: Config, st: Flow): int
    requires st.eaten <= |Stream(st.sent)|
  {
    st.eaten - |Held(cfg.policy, cfg.limit, Stream(st.sent)[..st.eaten])|
  }

  predicate InRange(st: Flow) {
    st.done <= |st.sent| && st.eaten <= |Stream(st.sent)|
  }

  /** The oldest segment has been passed on with its END mark. */
  predicate CanFilter(cfg: Config, st: Flow)
    requires InRange(st)
  {
    st.done < |st.sent| && |Stream(st.sent[..st.done + 1])| <= Emitted(cfg, st)
  }

  function Apply(cfg: Config, st: Flow, a: Act): Option<Flow>
    requires InRange(st)
  {
    match a
    case Send(seg) =>
      if IsSegment(cfg, seg) && (InFlight(st) < cfg.threshold || cfg.threshold <= 0 || Normals(seg) == 0)
      then Some(st.(sent := st.sent + [seg])) else None
    case Eat => if st.eaten < |Stream(st.sent)| then Some(st.(eaten := st.eaten + 1)) else None
    case Filter => if CanFilter(cfg, st) then Some(st.(done := st.done + 1)) else None
  }

  function Run(cfg: Config, acts: seq<Act>): Option<Flow> {
    if acts == [] then Some(Flow([], 0, 0))
    else
      match Run(cfg, acts[..|acts| - 1])
      case None => None
      case Some(st) => if InRange(st) then Apply(cfg, st, acts[|acts| - 1]) else None
  }

  ghost predicate Reachable(cfg: Config, st: Flow) {
    exists acts :: Run(cfg, acts) == Some(st)
  }

  /** The dedup thread waits, the rewriting thread has nothing to take, the filter has no whole segment. */
  predicate Deadlock(cfg: Config, st: Flow) {
    && InRange(st)
    && InFlight(st) >= cfg.threshold > 0
    && st.eaten == |Stream(st.sent)|
    && !CanFilter(cfg, st)
  }

  // ---------------------------------------------------------------- streams

  lemma {:induction false} StreamSnoc(segs: seq<seq<Elem>>, seg: seq<Elem>)
    ensures Stream(segs + [seg]) == Stream(segs) + Frame(seg)
  {
    assert (segs + [seg])[..|segs|] == segs;
  }

  lemma {:induction false} StreamConcat(a: seq<seq<Elem>>, b: seq<seq<Elem>>)
    ensures Stream(a + b) == Stream(a) + Stream(b)
  {
    hide Frame;
    if b == [] {
      assert a + b == a;
    } else {
      var m := |b| - 1;
      StreamConcat(a, b[..m]);
      assert a + b == (a + b[..m]) + [b[m]];
      StreamSnoc(a + b[..m], b[m]);
      assert (Stream(a) + Stream(b[..m])) + Frame(b[m]) == Stream(a) + (Stream(b[..m]) + Frame(b[m]));
    }
  }

  lemma {:induction false} FrameNormals(seg: seq<Elem>)
    ensures Normals(Frame(seg)) == Normals(seg)
  {
    SumsConcat([SegStart], seg, 0);
    SumsSnoc([SegStart] + seg, SegEnd);
    SumsOne(SegStart, 0);
  }

  lemma {:induction false} NormalsSplit(q: seq<Elem>, k: nat)
    requires k <= |q|
    ensures Normals(q) == Normals(q[..k]) + Normals(q[k..])
  {
    SumsConcat(q[..k], q[k..], 0);
    assert q[..k] + q[k..] == q;
  }

  /** A prefix of a frame without its END holds no more normal chunks than the segment. */
  lemma {:induction false} FramePrefix(seg: seq<Elem>, j: nat)
    requires j < |Frame(seg)|
    ensures Normals(Frame(seg)[..j]) <= Normals(seg)
  {
    FrameNormals(seg);
    NormalsSplit(Frame(seg), j);
  }

  ghost predicate AllSegments(cfg: Config, segs: seq<seq<Elem>>) {
    forall i | 0 <= i < |segs| :: IsSegment(cfg, segs[i])
  }

  lemma {:induction false} StreamNormals(cfg: Config, segs: seq<seq<Elem>>)
    requires AllSegments(cfg, segs)
    ensures |segs| * cfg.lo <= Normals(Stream(segs)) <= |segs| * cfg.hi
  {
    if segs == [] {
      NoNormals();
    } else {
      var m := |segs| - 1;
      StreamNormals(cfg, segs[..m]);
      hide Normals, Frame;
      assert cfg.lo <= Normals(segs[m]) <= cfg.hi;
      hide IsSegment;
      SumsConcat(Stream(segs[..m]), Frame(segs[m]), 0);
      FrameNormals(segs[m]);
      MulSucc(m, cfg.lo);
      MulSucc(m, cfg.hi);
    }
  }

  // ---------------------------------------------------------------- every run

  ghost predicate Inv(cfg: Config, st: Flow) {
    && InRange(st)
    && AllSegments(cfg, st.sent)
    && |Stream(st.sent[..st.done])| <= Emitted(cfg, st)
  }

  lemma {:induction false} HeldGrowth(p: Policy, limit: nat, input: seq<Elem>, x: Elem)
    requires limit > 0
    ensures |Held(p, limit, input + [x])| <= |Held(p, limit, input)| + 1
  {
    assert (input + [x])[..|input|] == input;
    var q := Held(p, limit, input) + [x];
    if Normals(q) > 0 {
      PastOk(q);
    }
  }

  lemma {:induction false} ApplyOk(cfg: Config, st: Flow, a: Act)
    requires Sensible(cfg) && Inv(cfg, st) && Apply(cfg, st, a).Some?
    ensures Inv(cfg, Apply(cfg, st, a).value)
  {
    hide Held, Normals, Stream, IsSegment;
    var next := Apply(cfg, st, a).value;
    match a
    case Send(seg) =>
      StreamSnoc(st.sent, seg);
      assert Stream(next.sent)[..st.eaten] == Stream(st.sent)[..st.eaten];
      assert next.sent[..st.done] == st.sent[..st.done];
    case Eat =>
      var t := Stream(st.sent);
      HeldGrowth(cfg.policy, cfg.limit, t[..st.eaten], t[st.eaten]);
      assert t[..st.eaten] + [t[st.eaten]] == t[..st.eaten + 1];
    case Filter =>
  }

  lemma {:induction false} StartOk(cfg: Config)
    ensures Inv(cfg, Flow([], 0, 0))
  {
  }

  lemma {:induction false} RunOk(cfg: Config, acts: seq<Act>)
    requires Sensible(cfg) && Run(cfg, acts).Some?
    ensures Inv(cfg, Run(cfg, acts).value)
  {
    hide Apply, Inv;
    StartOk(cfg);
    if acts != [] {
      var m := |acts| - 1;
      RunOk(cfg, acts[..m]);
      ApplyOk(cfg, Run(cfg, acts[..m]).value, acts[m]);
    }
  }

  /** The oldest segment in flight, cut by the last element passed on. */
  lemma {:induction false} OldestCut(cfg: Config, st: Flow) returns (j: nat)
    requires Sensible(cfg) && Inv(cfg, st) && st.eaten == |Stream(st.sent)|
    requires st.done < |st.sent| && !CanFilter(cfg, st)
    ensures j < |Frame(st.sent[st.done])|
    ensures Held(cfg.policy, cfg.limit, Stream(st.sent))
         == Frame(st.sent[st.done])[j..] + Stream(st.sent[st.done + 1..])
  {
    hide Held, Normals, Frame, Stream;
    var d, t := st.done, Stream(st.sent);
    var a, f, b := Stream(st.sent[..d]), Frame(st.sent[d]), Stream(st.sent[d + 1..]);
    ThreeParts(st.sent, d);
    assert t[..|t|] == t;
    HeldOk(cfg.policy, cfg.limit, t);
    var k := Emitted(cfg, st);
    j := k - |a|;
    TailOf(a, f, b, k);
  }

  lemma {:induction false} TailOf(a: seq<Elem>, f: seq<Elem>, b: seq<Elem>, k: nat)
    requires |a| <= k < |a| + |f|
    ensures (a + f + b)[k..] == f[k - |a|..] + b
  {
  }

  lemma {:induction false} MulSucc(m: nat, x: nat)
    ensures (m + 1) * x == m * x + x
  {
  }

  lemma {:induction false} MulLe(m: nat, x: nat, y: nat)
    requires x <= y
    ensures m * x <= m * y
  {
  }

  lemma {:induction false} ThreeParts(segs: seq<seq<Elem>>, d: nat)
    requires d < |segs|
    ensures Stream(segs) == Stream(segs[..d]) + Frame(segs[d]) + Stream(segs[d + 1..])
    ensures Stream(segs[..d + 1]) == Stream(segs[..d]) + Frame(segs[d])
    ensures Normals(Stream(segs[d..])) == Normals(segs[d]) + Normals(Stream(segs[d + 1..]))
  {
    hide Normals, Frame;
    StreamSnoc(segs[..d], segs[d]);
    assert segs[..d] + [segs[d]] == segs[..d + 1];
    StreamConcat(segs[..d + 1], segs[d + 1..]);
    assert segs[..d + 1] + segs[d + 1..] == segs;
    StreamSnoc([], segs[d]);
    assert [] + [segs[d]] == [segs[d]];
    assert Stream([segs[d]]) == Frame(segs[d]);
    StreamConcat([segs[d]], segs[d + 1..]);
    assert [segs[d]] + segs[d + 1..] == segs[d..];
    FrameNormals(segs[d]);
    SumsConcat(Frame(segs[d]), Stream(segs[d + 1..]), 0);
  }

  /**
   * A drained rewriting thread that still keeps the oldest segment's END: at most limit + hi - 1 chunks are in flight,
   * and that many only if the oldest segment is as long as possible and limit - 1 chunks follow it.
   */
  lemma {:induction false} DrainedBound(cfg: Config, st: Flow)
    requires Sensible(cfg) && Inv(cfg, st) && st.eaten == |Stream(st.sent)| && !CanFilter(cfg, st)
    ensures InFlight(st) <= cfg.limit + cfg.hi - 1
    ensures InFlight(st) == cfg.limit + cfg.hi - 1 ==>
              st.done < |st.sent| && Normals(Stream(st.sent[st.done + 1..])) == cfg.limit - 1
              && Normals(st.sent[st.done]) == cfg.hi
  {
    if st.done == |st.sent| {
      assert st.sent[st.done..] == [];
    } else {
      var j := OldestCut(cfg, st);
      var seg, b := st.sent[st.done], Stream(st.sent[st.done + 1..]);
      BoundParts(cfg, Held(cfg.policy, cfg.limit, Stream(st.sent)), seg, b, j, Stream(st.sent));
      ThreeParts(st.sent, st.done);
    }
  }

  lemma {:induction false} BoundParts(cfg: Config, held: seq<Elem>, seg: seq<Elem>, b: seq<Elem>, j: nat, t: seq<Elem>)
    requires Sensible(cfg) && IsSegment(cfg, seg) && j < |Frame(seg)|
    requires held == Frame(seg)[j..] + b && held == Held(cfg.policy, cfg.limit, t)
    ensures Normals(seg) + Normals(b) <= cfg.limit + cfg.hi - 1
    ensures Normals(seg) + Normals(b) == cfg.limit + cfg.hi - 1 ==>
              Normals(b) == cfg.limit - 1 && Normals(seg) == cfg.hi
  {
    hide Normals, Held, Frame;
    FrameNormals(seg);
    FramePrefix(seg, j);
    NormalsSplit(Frame(seg), j);
    SumsConcat(Frame(seg)[j..], b, 0);
    HeldOk(cfg.policy, cfg.limit, t);
    HeldFew(cfg.policy, cfg.limit, Normals(t));
  }

  lemma {:induction false} HeldFew(p: Policy, limit: nat, n: nat)
    requires limit > 0
    ensures HeldCount(p, limit, n) <= limit - 1
  {
  }

  /** With limit + hi or more chunks in flight, the oldest segment can always be filtered once the thread has drained. */
  lemma {:induction false} FilterCanAdvance(cfg: Config, acts: seq<Act>)
    requires Sensible(cfg) && Run(cfg, acts).Some?
    ensures var st := Run(cfg, acts).value;
            InRange(st) && (st.eaten == |Stream(st.sent)| && InFlight(st) >= cfg.limit + cfg.hi ==> CanFilter(cfg, st))
  {
    hide CanFilter, InFlight;
    RunOk(cfg, acts);
    var st := Run(cfg, acts).value;
    if st.eaten == |Stream(st.sent)| && !CanFilter(cfg, st) {
      DrainedBound(cfg, st);
    }
  }

  /** A threshold of limit + hi would never deadlock, whatever the segments. */
  lemma {:induction false} OneMoreIsEnough(cfg: Config, st: Flow)
    requires Sensible(cfg) && cfg.threshold >= cfg.limit + cfg.hi && Reachable(cfg, st)
    ensures !Deadlock(cfg, st)
  {
    var acts :| Run(cfg, acts) == Some(st);
    FilterCanAdvance(cfg, acts);
  }

  // ---------------------------------------------------------------- when the threshold of the source deadlocks

  /** Some number of segments can hold exactly limit - 1 normal chunks. */
  ghost predicate Stalls(cfg: Config) {
    exists c: nat :: c * cfg.lo <= cfg.limit - 1 <= c * cfg.hi
  }

  lemma {:induction false} DeadlockMeansStalls(cfg: Config, st: Flow)
    requires Sensible(cfg) && cfg.threshold == WaitThreshold(cfg.limit, cfg.hi)
    requires Reachable(cfg, st) && Deadlock(cfg, st)
    ensures Stalls(cfg) && InFlight(st) == cfg.threshold
  {
    hide CanFilter, InFlight, Stream;
    var acts :| Run(cfg, acts) == Some(st);
    RunOk(cfg, acts);
    DrainedBound(cfg, st);
    var rest := st.sent[st.done + 1..];
    StreamNormals(cfg, rest);
    assert |rest| * cfg.lo <= cfg.limit - 1 <= |rest| * cfg.hi;
  }

  lemma {:induction false} ReachStep(cfg: Config, st: Flow, a: Act)
    requires Reachable(cfg, st) && InRange(st) && Apply(cfg, st, a).Some?
    ensures Reachable(cfg, Apply(cfg, st, a).value)
  {
    hide Apply, InRange;
    var acts :| Run(cfg, acts) == Some(st);
    assert (acts + [a])[..|acts|] == acts;
    assert Run(cfg, acts + [a]) == Apply(cfg, st, a);
  }

  lemma {:induction false} ReachableIsInv(cfg: Config, st: Flow)
    requires Sensible(cfg) && Reachable(cfg, st)
    ensures Inv(cfg, st) && InRange(st)
  {
    hide Run;
    var acts :| Run(cfg, acts) == Some(st);
    RunOk(cfg, acts);
  }

  /** The rewriting thread can always drain its input. */
  lemma {:induction false} EatAll(cfg: Config, st: Flow)
    requires Sensible(cfg) && Reachable(cfg, st) && InRange(st)
    ensures Reachable(cfg, st.(eaten := |Stream(st.sent)|))
    decreases |Stream(st.sent)| - st.eaten
  {
    hide Reachable;
    if st.eaten < |Stream(st.sent)| {
      ReachStep(cfg, st, Eat);
      EatAll(cfg, st.(eaten := st.eaten + 1));
    } else {
      assert st.(eaten := |Stream(st.sent)|) == st;
    }
  }

  /** The rewriting thread is drained and the filter has done what it can. */
  ghost predicate Settled(cfg: Config, st: Flow, segs: seq<seq<Elem>>) {
    Reachable(cfg, st) && InRange(st) && st.sent == segs && st.eaten == |Stream(segs)| && !CanFilter(cfg, st)
  }

  lemma {:induction false} FilterAll(cfg: Config, st: Flow) returns (end: Flow)
    requires Sensible(cfg) && Reachable(cfg, st) && InRange(st) && st.eaten == |Stream(st.sent)|
    ensures Settled(cfg, end, st.sent)
    decreases |st.sent| - st.done
  {
    hide Reachable, Emitted;
    if CanFilter(cfg, st) {
      ReachStep(cfg, st, Filter);
      end := FilterAll(cfg, st.(done := st.done + 1));
    } else {
      end := st;
    }
  }

  ghost predicate CanDeadlock(cfg: Config) {
    exists st :: Reachable(cfg, st) && Deadlock(cfg, st)
  }

  /** Any sequence of segments is sent and settled, unless the threads deadlock on the way. */
  lemma {:induction false} SendAll(cfg: Config, segs: seq<seq<Elem>>) returns (st: Flow)
    requires Sensible(cfg) && cfg.threshold > 0 && AllSegments(cfg, segs)
    ensures CanDeadlock(cfg) || Settled(cfg, st, segs)
  {
    hide Reachable, CanFilter, InFlight, IsSegment;
    if segs == [] {
      StartReachable(cfg);
      st := FilterAll(cfg, Flow([], 0, 0));
    } else {
      var m := |segs| - 1;
      var before := SendAll(cfg, segs[..m]);
      st := before;
      if !CanDeadlock(cfg) {
        assert InFlight(before) >= cfg.threshold ==> Deadlock(cfg, before);
        ReachStep(cfg, before, Send(segs[m]));
        assert before.sent + [segs[m]] == segs;
        var more := before.(sent := segs);
        ReachableIsInv(cfg, more);
        EatAll(cfg, more);
        st := FilterAll(cfg, more.(eaten := |Stream(segs)|));
      }
    }
  }

  lemma {:induction false} StartReachable(cfg: Config)
    ensures Reachable(cfg, Flow([], 0, 0)) && InRange(Flow([], 0, 0))
  {
    assert Run(cfg, []) == Some(Flow([], 0, 0));
  }

  /** `n` normal chunks. */
  function Chunks(n: nat): seq<Elem> {
    seq(n, i => Normal(TEMPORARY_ID, 1, false, false))
  }

  lemma {:induction false} ChunksNormals(n: nat)
    ensures Normals(Chunks(n)) == n
  {
    if n > 0 {
      ChunksNormals(n - 1);
      assert Chunks(n)[..n - 1] == Chunks(n - 1);
    }
  }

  lemma {:induction false} NoNormals()
    ensures Normals(Stream([])) == 0
  {
  }

  lemma {:induction false} ChunksAreSegment(cfg: Config, k: nat)
    requires cfg.lo <= k <= cfg.hi
    ensures IsSegment(cfg, Chunks(k))
  {
    ChunksNormals(k);
  }

  /** The size of one of `c` segments with `n` normal chunks in all. */
  lemma {:induction false} Portion(cfg: Config, c: nat, n: nat) returns (k: nat)
    requires Sensible(cfg) && c > 0 && c * cfg.lo <= n <= c * cfg.hi
    ensures cfg.lo <= k <= cfg.hi && k <= n && (c - 1) * cfg.lo <= n - k <= (c - 1) * cfg.hi
  {
    MulSucc(c - 1, cfg.lo);
    MulSucc(c - 1, cfg.hi);
    MulLe(c - 1, cfg.lo, cfg.hi);
    k := if n - (c - 1) * cfg.hi >= cfg.lo then n - (c - 1) * cfg.hi else cfg.lo;
  }

  /** `c` segments with `n` normal chunks in all. */
  lemma {:induction false} Spread(cfg: Config, c: nat, n: nat) returns (segs: seq<seq<Elem>>)
    requires Sensible(cfg) && c * cfg.lo <= n <= c * cfg.hi
    ensures |segs| == c && AllSegments(cfg, segs) && Normals(Stream(segs)) == n
  {
    hide Normals, Frame, Chunks, IsSegment, Stream;
    if c == 0 {
      segs := [];
      NoNormals();
    } else {
      var k := Portion(cfg, c, n);
      var before := Spread(cfg, c - 1, n - k);
      ChunksNormals(k);
      ChunksAreSegment(cfg, k);
      segs := before + [Chunks(k)];
      StreamSnoc(before, Chunks(k));
      SumsConcat(Stream(before), Frame(Chunks(k)), 0);
      FrameNormals(Chunks(k));
    }
  }

  lemma {:induction false} OneMoreNormal(t: seq<Elem>, n: nat, k: nat)
    requires n < k <= |t| && t[k - 1].Normal?
    ensures Normals(t[..k]) > Normals(t[..n])
  {
    NormalsSplit(t[..k], n);
    assert t[..k][..n] == t[..n];
    var tail := t[..k][n..];
    assert tail[|tail| - 1] == t[k - 1];
  }

  /** The last normal chunk passed on belongs to `a`, so the END mark behind it was not. */
  lemma {:induction false} EndIsHeld(a: seq<seq<Elem>>, b: seq<seq<Elem>>, t: seq<Elem>, k: nat)
    requires t == Stream(a) + Stream(b) && a != [] && k <= |t|
    requires k > 0 ==> t[k - 1].Normal?
    requires Normals(t[..k]) == Normals(Stream(a))
    ensures k < |Stream(a)|
  {
    var m := |a| - 1;
    var n := |Stream(a)|;
    assert Stream(a) == Stream(a[..m]) + [SegStart] + a[m] + [SegEnd];
    assert t[n - 1] == SegEnd;
    assert t[..n] == Stream(a);
    if k > n {
      OneMoreNormal(t, n, k);
    }
  }

  /** A settled state whose last limit - 1 chunks follow `limit` full segments is a deadlock. */
  lemma {:induction false} SettledDeadlock(cfg: Config, st: Flow, a: seq<seq<Elem>>, b: seq<seq<Elem>>)
    requires Sensible(cfg) && cfg.threshold == WaitThreshold(cfg.limit, cfg.hi)
    requires Settled(cfg, st, a + b) && |a| == cfg.limit
    requires Normals(Stream(a)) == cfg.limit * cfg.hi && Normals(Stream(b)) == cfg.limit - 1
    requires a[|a| - 1] == Chunks(cfg.hi)
    ensures Deadlock(cfg, st)
  {
    hide Normals, Held, Reachable, CanFilter, Stream;
    var t := Stream(a + b);
    StreamConcat(a, b);
    SumsConcat(Stream(a), Stream(b), 0);
    assert t[..|t|] == t;
    HeldOk(cfg.policy, cfg.limit, t);
    HeldHere(cfg.policy, cfg.limit, Normals(t), cfg.hi);
    var k := |t| - |Held(cfg.policy, cfg.limit, t)|;
    NormalsSplit(t, k);
    EndIsHeld(a, b, t, k);
    ReachableIsInv(cfg, st);
    if st.done >= |a| {
      assert st.sent[..st.done] == a + b[..st.done - |a|];
      StreamConcat(a, b[..st.done - |a|]);
      assert false;
    }
    var m := |a| - 1;
    assert st.sent[st.done..] == a[st.done..m] + ([a[m]] + b);
    StreamConcat(a[st.done..m], [a[m]] + b);
    SumsConcat(Stream(a[st.done..m]), Stream([a[m]] + b), 0);
    LastNormals(a[m], b);
    ChunksNormals(cfg.hi);
  }

  lemma {:induction false} LastNormals(seg: seq<Elem>, b: seq<seq<Elem>>)
    ensures Normals(Stream([seg] + b)) == Normals(seg) + Normals(Stream(b))
  {
    ThreeParts([seg] + b, 0);
    assert ([seg] + b)[0..] == [seg] + b;
    assert ([seg] + b)[1..] == b;
  }

  lemma {:induction false} HeldHere(p: Policy, limit: nat, n: nat, hi: nat)
    requires limit > 0 && hi > 0 && n == limit * hi + limit - 1
    ensures HeldCount(p, limit, n) == limit - 1
  {
    assert hi * limit == limit * hi >= 0;
    ModUnique(n, limit, hi, limit - 1);
  }

  lemma {:induction false} StallsMeansDeadlock(cfg: Config)
    requires Sensible(cfg) && cfg.threshold == WaitThreshold(cfg.limit, cfg.hi) && Stalls(cfg)
    ensures CanDeadlock(cfg)
  {
    hide Reachable, Deadlock, Settled, IsSegment, Stream, Normals;
    var c: nat :| c * cfg.lo <= cfg.limit - 1 <= c * cfg.hi;
    var a := FullSegments(cfg, cfg.limit);
    var b := Spread(cfg, c, cfg.limit - 1);
    var st := SendAll(cfg, a + b);
    if !CanDeadlock(cfg) {
      SettledDeadlock(cfg, st, a, b);
      SettledReachable(cfg, st, a + b);
    }
  }

  lemma {:induction false} SettledReachable(cfg: Config, st: Flow, segs: seq<seq<Elem>>)
    requires Settled(cfg, st, segs)
    ensures Reachable(cfg, st)
  {
  }

  lemma {:induction false} FullSegments(cfg: Config, n: nat) returns (segs: seq<seq<Elem>>)
    requires Sensible(cfg)
    ensures |segs| == n && AllSegments(cfg, segs) && Normals(Stream(segs)) == n * cfg.hi
    ensures n > 0 ==> segs[n - 1] == Chunks(cfg.hi)
  {
    hide Normals, Frame, Chunks, IsSegment, Stream;
    if n == 0 {
      segs := [];
      NoNormals();
    } else {
      var before := FullSegments(cfg, n - 1);
      ChunksNormals(cfg.hi);
      ChunksAreSegment(cfg, cfg.hi);
      segs := before + [Chunks(cfg.hi)];
      StreamSnoc(before, Chunks(cfg.hi));
      SumsConcat(Stream(before), Frame(Chunks(cfg.hi)), 0);
      FrameNormals(Chunks(cfg.hi));
      MulSucc(n - 1, cfg.hi);
    }
  }

  /** The threads can deadlock exactly when some number of segments can hold limit - 1 chunks. */
  lemma {:induction false} DeadlockExactly(cfg: Config)
    requires Sensible(cfg) && cfg.threshold == WaitThreshold(cfg.limit, cfg.hi)
    ensures CanDeadlock(cfg) <==> Stalls(cfg)
  {
    if CanDeadlock(cfg) {
      var st :| Reachable(cfg, st) && Deadlock(cfg, st);
      DeadlockMeansStalls(cfg, st);
    }
    if Stalls(cfg) {
      StallsMeansDeadlock(cfg);
    }
  }

  /** With fixed-size segments: exactly when the segment size divides limit - 1. */
  lemma {:induction false} FixedDeadlockExactly(cfg: Config)
    requires Sensible(cfg) && cfg.threshold == WaitThreshold(cfg.limit, cfg.hi) && cfg.lo == cfg.hi
    ensures CanDeadlock(cfg) <==> (cfg.limit - 1) % cfg.hi == 0
  {
    hide CanDeadlock;
    DeadlockExactly(cfg);
    var n := cfg.limit - 1;
    if Stalls(cfg) {
      var c: nat :| c * cfg.lo <= n <= c * cfg.hi;
      ModUnique(n, cfg.hi, c, 0);
    }
    if n % cfg.hi == 0 {
      var c: nat := n / cfg.hi;
      assert c * cfg.lo == n == c * cfg.hi;
    }
  }
}
