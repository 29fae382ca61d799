/** Values shared by every phase of the backup node. */
module Common {
  type Byte = b: int | 0 <= b < 256
  type Bytes = seq<Byte>

  /** A SHA-1 digest; equality is all the node ever asks of it. */
  type Fp = Bytes

  const FP_SIZE := 20
  const TEMPORARY_ID := -1
  const CONTAINER_SIZE := 4194304
  const CONTAINER_META_SIZE := 32768

  datatype Option<+T> = None | Some(value: T)

  /** The outcome of a step of the program: `Crash` is a failed `assert` (or `exit(1)`). */
  datatype Outcome<+T> = Done(value: T) | Crash {
    predicate IsFailure() {
      Crash?
    }

    function PropagateFailure<U>(): Outcome<U>
      requires Crash?
    {
      Crash
    }

    function Extract(): T
      requires Done?
    {
      value
    }
  }

  predicate Distinct<T(==)>(q: seq<T>) {
    forall i, j | 0 <= i < j < |q| :: q[i] != q[j]
  }

  /** One element of the stream that flows through the backup pipeline. */
  datatype Item = FileStart(name: Bytes) | FileEnd | Piece(fp: Fp, data: Bytes)

  /** A chunk in the pipeline: `id`, CHUNK_DUPLICATE and CHUNK_REWRITE_DENIED. */
  datatype Chunk = Chunk(item: Item, id: int, dup: bool, denied: bool) {
    predicate Normal() {
      item.Piece?
    }

    predicate Has(fp: Fp) {
      item.Piece? && item.fp == fp
    }
  }

  function NewChunk(item: Item): Chunk {
    Chunk(item, TEMPORARY_ID, false, false)
  }

  function Items(cs: seq<Chunk>): seq<Item> {
    if cs == [] then [] else Items(cs[..|cs| - 1]) + [cs[|cs| - 1].item]
  }

  lemma {:induction false} ItemsConcat(a: seq<Chunk>, b: seq<Chunk>)
    ensures Items(a + b) == Items(a) + Items(b)
  {
    if b == [] {
      assert a + b == a;
    } else {
      var m := |b| - 1;
      ItemsConcat(a, b[..m]);
      assert (a + b)[..|a + b| - 1] == a + b[..m];
    }
  }

  function Min(a: int, b: int): int {
    if a <= b then a else b
  }

  /** A sequence of segments, batches or blocks, end to end. */
  function Flat<T>(ss: seq<seq<T>>): seq<T> {
    if ss == [] then [] else Flat(ss[..|ss| - 1]) + ss[|ss| - 1]
  }

  lemma {:induction false} FlatSnoc<T>(ss: seq<seq<T>>, s: seq<T>)
    ensures Flat(ss + [s]) == Flat(ss) + s && Flat<T>([]) == []
  {
    assert (ss + [s])[..|ss|] == ss;
  }

  lemma {:induction false} FlatHead<T>(ss: seq<seq<T>>)
    requires ss != []
    ensures Flat(ss) == ss[0] + Flat(ss[1..])
  {
    var n := |ss| - 1;
    if n == 0 {
      assert ss == [ss[0]] && ss[..0] == [] && ss[1..] == [];
    } else {
      FlatHead(ss[..n]);
      var mid := ss[1..n];
      assert ss[..n][1..] == mid && ss[1..] == mid + [ss[n]];
      FlatSnoc(mid, ss[n]);
      assert (ss[0] + Flat(mid)) + ss[n] == ss[0] + (Flat(mid) + ss[n]);
    }
  }

  lemma {:induction false} SliceOfSlice(s: Bytes, lo: nat, hi: nat, a: nat, b: nat)
    requires a <= b && lo + b <= hi <= |s|
    ensures s[lo..hi][a..b] == s[lo + a..lo + b]
  {
    var x, y := s[lo..hi][a..b], s[lo + a..lo + b];
    assert forall k | 0 <= k < b - a :: x[k] == s[lo + a + k] && y[k] == s[lo + a + k];
  }

  /** `bs` written over `s` from position `p` on. */
  function Splice(s: Bytes, p: nat, bs: Bytes): (r: Bytes)
    requires p + |bs| <= |s|
    ensures |r| == |s|
  {
    s[..p] + bs + s[p + |bs|..]
  }

  /** memcpy into a buffer. */
  method CopyInto(a: array<Byte>, p: nat, bs: Bytes)
    requires p + |bs| <= a.Length
    modifies a
    ensures a[..] == Splice(old(a[..]), p, bs)
  {
    forall i | 0 <= i < |bs| {
      a[p + i] := bs[i];
    }
  }

  lemma {:induction false} ModUnique(n: int, d: int, q: int, r: int)
    requires d > 0 && n == q * d + r && 0 <= r < d
    ensures n % d == r && n / d == q
  {
    var q', r' := n / d, n % d;
    assert (q - q') * d == r' - r;
    assert q - q' >= 1 ==> (q - q') * d >= d;
    assert q - q' <= -1 ==> (q - q') * d <= -d;
  }
}
