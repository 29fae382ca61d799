/** The chunk phase: re-buffering file blocks around a cut function. */
module ChunkPhase {
  import opened Common
  import opened CutPoints

  const DEFAULT_BLOCK_SIZE := 1048576

  /** How long the first chunk of `s` is. */
  type Cutter = Bytes -> nat

  /** A cut is never empty, never too long, and decided by the first `max` bytes. */
  ghost predicate CutterOk(cut: Cutter, max: nat) {
    && max > 0
    && (forall s: Bytes | s != [] :: 0 < cut(s) <= |s| && cut(s) <= max)
    && (forall s: Bytes, t: Bytes | |s| >= max :: cut(s + t) == cut(s))
  }

  /** The chunks of a whole file. */
  function Chunks(cut: Cutter, s: Bytes): seq<Bytes>
    decreases |s|
  {
    if s == [] then []
    else if 0 < cut(s) <= |s| then [s[..cut(s)]] + Chunks(cut, s[cut(s)..])
    else [s]
  }

  lemma {:induction false} FlatCons(b: Bytes, rest: seq<Bytes>)
    ensures Flat([b] + rest) == b + Flat(rest) && Flat([b]) == b
  {
    FlatHead([b] + rest);
    assert ([b] + rest)[1..] == rest;
    FlatSnoc([], b);
    assert [] + [b] == [b];
  }

  /** No byte is lost or reordered. */
  lemma {:induction false} ChunksCover(cut: Cutter, s: Bytes)
    ensures Flat(Chunks(cut, s)) == s
    decreases |s|
  {
    if s != [] && 0 < cut(s) <= |s| {
      ChunksCover(cut, s[cut(s)..]);
      FlatCons(s[..cut(s)], Chunks(cut, s[cut(s)..]));
    } else if s != [] {
      FlatCons(s, []);
    }
  }

  lemma {:induction false} ChunkSizes(cut: Cutter, max: nat, s: Bytes)
    requires CutterOk(cut, max)
    ensures forall i | 0 <= i < |Chunks(cut, s)| :: 0 < |Chunks(cut, s)[i]| <= max
    decreases |s|
  {
    if s != [] {
      ChunkSizes(cut, max, s[cut(s)..]);
    }
  }

  lemma {:induction false} SpliceFront(s: Bytes, left: Bytes, b: Bytes)
    requires |left| + |b| <= |s| && s[..|left|] == left
    ensures Splice(s, |left|, b)[..|left| + |b|] == left + b
  {
  }

  /** memmove to the front. */
  method MoveDown(buf: array<Byte>, off: nat, len: nat)
    requires off + len <= buf.Length
    modifies buf
    ensures buf[..len] == old(buf[off..off + len])
  {
    for i := 0 to len
      invariant buf[..i] == old(buf[off..off + i])
      invariant forall j | off + i <= j < buf.Length :: buf[j] == old(buf[j])
    {
      buf[i] := buf[off + i];
      assert buf[..i + 1] == buf[..i] + [buf[i]];
    }
  }

  lemma {:induction false} CutLocal(cut: Cutter, max: nat, s: Bytes, t: Bytes)
    requires CutterOk(cut, max) && s != [] && (|s| >= max || t == [])
    ensures 0 < cut(s) <= |s|
    ensures Chunks(cut, s + t) == [s[..cut(s)]] + Chunks(cut, s[cut(s)..] + t)
  {
    var k := cut(s);
    assert cut(s + t) == k by {
      if t == [] {
        assert s + t == s;
      }
    }
    assert (s + t)[..k] == s[..k] && (s + t)[k..] == s[k..] + t;
  }

  lemma {:induction false} BlockTaken(left: Bytes, blocks: seq<Bytes>, next: nat)
    requires next < |blocks|
    ensures left + Flat(blocks[next..]) == (left + blocks[next]) + Flat(blocks[next + 1..])
  {
    var more := blocks[next..];
    assert more[1..] == blocks[next + 1..] && more[0] == blocks[next];
    FlatHead(more);
  }

  /** The left-over buffer of chunk_thread. */
  class Reader {
    const blocks: seq<Bytes>
    const max: nat
    const buf: array<Byte>
    var leftoff: nat
    var leftlen: nat
    var next: nat
    /** The file's end mark has been received. */
    var ended: bool

    ghost predicate Valid()
      reads this
    {
      && buf.Length == DEFAULT_BLOCK_SIZE + max
      && (forall i | 0 <= i < |blocks| :: |blocks[i]| <= DEFAULT_BLOCK_SIZE)
      && leftoff + leftlen <= buf.Length && next <= |blocks|
      && (ended ==> next == |blocks|)
    }

    /** What is buffered, and what is still to come. */
    ghost function Rest(): Bytes
      reads this, buf
      requires Valid()
    {
      buf[leftoff..leftoff + leftlen] + Flat(blocks[next..])
    }

    constructor (blocks: seq<Bytes>, max: nat)
      requires forall i | 0 <= i < |blocks| :: |blocks[i]| <= DEFAULT_BLOCK_SIZE
      ensures Valid() && fresh(buf) && this.blocks == blocks && this.max == max && Rest() == Flat(blocks)
    {
      this.blocks, this.max := blocks, max;
      buf := new Byte[DEFAULT_BLOCK_SIZE + max](i => 0);
      leftoff, leftlen, next, ended := 0, 0, 0, false;
      new;
      hide Flat, Splice;
      assert blocks[0..] == blocks;
      if |blocks| > 0 {
        SpliceFront(buf[..], [], blocks[0]);
        CopyInto(buf, 0, blocks[0]);
        leftlen := |blocks[0]|;
        FlatHead(blocks);
        next := 1;
        assert buf[0..0 + leftlen] == buf[..][..0 + leftlen] == blocks[0];
      } else {
        ended := true;
      }
    }

    /** Receive blocks until a maximal chunk is buffered or the file ends. */
    method Refill()
      requires Valid()
      modifies this`leftoff, this`leftlen, this`next, this`ended, buf
      ensures Valid() && Rest() == old(Rest())
      ensures leftlen >= max || ended
    {
      hide Flat;
      while leftlen < max && !ended
        invariant Valid() && Rest() == old(Rest())
        decreases |blocks| - next, !ended
      {
        if next == |blocks| {
          ended := true;
        } else {
          TakeBlock();
        }
      }
    }

    /** Move the left-over bytes down and put the next block behind them. */
    method TakeBlock()
      requires Valid() && next < |blocks| && leftlen < max && !ended
      modifies this`leftoff, this`leftlen, this`next, buf
      ensures Valid() && Rest() == old(Rest()) && next == old(next) + 1
    {
      hide Flat, Splice;
      ghost var left := buf[leftoff..leftoff + leftlen];
      var b := blocks[next];
      MoveDown(buf, leftoff, leftlen);
      leftoff := 0;
      SpliceFront(buf[..], left, b);
      CopyInto(buf, leftlen, b);
      assert buf[0..leftlen + |b|] == buf[..][..leftlen + |b|];
      BlockTaken(left, blocks, next);
      leftlen := leftlen + |b|;
      next := next + 1;
    }

    /** Cut the next chunk off the buffered bytes. */
    method NextChunk(cut: Cutter) returns (chunk: Bytes)
      requires Valid() && CutterOk(cut, max) && leftlen > 0 && (leftlen >= max || ended)
      modifies this`leftoff, this`leftlen
      ensures Valid() && |Rest()| < |old(Rest())|
      ensures Chunks(cut, old(Rest())) == [chunk] + Chunks(cut, Rest())
    {
      hide CutterOk, Chunks;
      var data := buf[leftoff..leftoff + leftlen];
      ghost var coming := Flat(blocks[next..]);
      assert ended ==> blocks[next..] == [];
      CutLocal(cut, max, data, coming);
      var size := cut(data);
      chunk := data[..size];
      leftlen := leftlen - size;
      leftoff := leftoff + size;
      assert buf[leftoff..leftoff + leftlen] == data[size..];
    }
  }

  /** chunk_thread on one file: however it arrives in blocks, the chunks are those of the whole file. */
  method ChunkFile(blocks: seq<Bytes>, cut: Cutter, max: nat) returns (out: seq<Bytes>)
    requires CutterOk(cut, max)
    requires forall i | 0 <= i < |blocks| :: |blocks[i]| <= DEFAULT_BLOCK_SIZE
    ensures out == Chunks(cut, Flat(blocks))
  {
    hide CutterOk, Chunks, Flat;
    var reader := new Reader(blocks, max);
    out := [];
    MaxPositive(cut, max);
    assert out + Chunks(cut, Flat(blocks)) == Chunks(cut, Flat(blocks));
    while true
      invariant fresh(reader) && fresh(reader.buf) && reader.Valid() && reader.blocks == blocks && reader.max == max
      invariant Chunks(cut, Flat(blocks)) == out + Chunks(cut, reader.Rest())
      decreases |reader.Rest()|
    {
      reader.Refill();
      if reader.leftlen == 0 {
        NothingLeft(cut, blocks);
        assert reader.Rest() == Flat(blocks[|blocks|..]);
        break;
      }
      ghost var before := reader.Rest();
      var chunk := reader.NextChunk(cut);
      assert out + ([chunk] + Chunks(cut, reader.Rest())) == (out + [chunk]) + Chunks(cut, reader.Rest());
      out := out + [chunk];
    }
  }

  lemma {:induction false} NothingLeft(cut: Cutter, blocks: seq<Bytes>)
    ensures Flat(blocks[|blocks|..]) == [] && Chunks(cut, []) == []
  {
  }

  lemma {:induction false} MaxPositive(cut: Cutter, max: nat)
    requires CutterOk(cut, max)
    ensures max > 0
  {
  }

  // ---------------------------------------------------------------- the cutters

  function RabinCutter(kind: Kind, prm: Params): Cutter
    requires ParamsOk(prm)
  {
    (p: Bytes) => RabinSpec(kind, p, prm)
  }

  function TttdCutter(prm: Params): Cutter
    requires ParamsOk(prm)
  {
    (p: Bytes) => TttdSpec(p, prm)
  }

  /** fixed_chunk_data. */
  function FixedCutter(avg: nat): Cutter {
    (p: Bytes) => if avg > |p| then |p| else avg
  }

  lemma {:induction false} RabinCutterOk(kind: Kind, prm: Params)
    requires ParamsOk(prm)
    ensures CutterOk(RabinCutter(kind, prm), prm.max)
  {
    hide FirstCut;
    var cut := RabinCutter(kind, prm);
    forall s: Bytes | s != []
      ensures 0 < cut(s) <= |s| && cut(s) <= prm.max
    {
      if |s| > prm.min {
        FirstCutRange(kind, s, prm, prm.min);
      }
    }
    forall s: Bytes, t: Bytes | |s| >= prm.max
      ensures cut(s + t) == cut(s)
    {
      FirstCutLocal(kind, s, t, prm, prm.min);
      if |s| <= prm.min {
        FirstCutRange(kind, s + t, prm, prm.min);
      }
    }
  }

  lemma {:induction false} TttdCutterOk(prm: Params)
    requires ParamsOk(prm)
    ensures CutterOk(TttdCutter(prm), prm.max)
  {
    hide TttdFrom;
    var cut := TttdCutter(prm);
    forall s: Bytes | s != []
      ensures 0 < cut(s) <= |s| && cut(s) <= prm.max
    {
      if |s| > prm.min {
        TttdMeaning(s, prm, prm.min, 0);
      }
    }
    forall s: Bytes, t: Bytes | |s| >= prm.max
      ensures cut(s + t) == cut(s)
    {
      TttdLocal(s, t, prm, prm.min, 0);
      if |s| <= prm.min {
        TttdMeaning(s + t, prm, prm.min, 0);
      }
    }
  }

  /** Fixed-size chunking: every chunk but the last has exactly the average size, and the last no more. */
  lemma {:induction false} FixedSizes(avg: nat, s: Bytes)
    requires avg > 0
    ensures var cs := Chunks(FixedCutter(avg), s);
            && (forall i | 0 <= i < |cs| - 1 :: |cs[i]| == avg)
            && (cs != [] ==> 0 < |cs[|cs| - 1]| <= avg)
    decreases |s|
  {
    var cut := FixedCutter(avg);
    if s != [] {
      FixedSizes(avg, s[cut(s)..]);
    }
  }

  lemma {:induction false} FixedCutterOk(avg: nat)
    requires avg > 0
    ensures CutterOk(FixedCutter(avg), avg)
  {
  }
}
