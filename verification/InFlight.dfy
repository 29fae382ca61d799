/** What the index buffer knows about the segments between lookup and filter. */
module InFlight {
  import opened Common
  import opened Machine

  function FpSet(cs: seq<Chunk>): set<Fp> {
    set c | c in cs && c.Normal() :: c.item.fp
  }

  /** Fingerprints of the chunks that lookup found nowhere. */
  function UniqueFps(cs: seq<Chunk>): set<Fp> {
    set c | c in cs && c.Normal() && !c.dup :: c.item.fp
  }

  function Count(cs: seq<Chunk>, fp: Fp): nat {
    if cs == [] then 0 else Count(cs[..|cs| - 1], fp) + if cs[|cs| - 1].Has(fp) then 1 else 0
  }

  /** The first chunk in `cs` with fingerprint `fp` is a unique one. */
  predicate Fresh(cs: seq<Chunk>, fp: Fp) {
    cs != [] && if cs[0].Has(fp) then !cs[0].dup else Fresh(cs[1..], fp)
  }

  type Holdings = map<int, map<Fp, Bytes>>

  predicate Stored(held: Holdings, id: int, fp: Fp) {
    id in held && fp in held[id]
  }

  predicate IdOk(held: Holdings, id: int, fp: Fp) {
    id == TEMPORARY_ID || Stored(held, id, fp)
  }

  /** A unique chunk is the first copy in flight; a duplicate's id is temporary or right. */
  ghost predicate ChunkOk(held: Holdings, flat: seq<Chunk>, i: nat)
    requires i < |flat|
  {
    var c := flat[i];
    c.Normal() ==>
      if c.dup then IdOk(held, c.id, c.item.fp)
      else c.id == TEMPORARY_ID && c.item.fp !in FpSet(flat[..i])
  }

  /** The queue of `fp`: one entry per copy in flight, all ids right, temporary only behind a unique. */
  ghost predicate QueueOf(held: Holdings, buffer: map<Fp, seq<int>>, flat: seq<Chunk>, fp: Fp) {
    && (fp in buffer <==> fp in FpSet(flat))
    && (fp in buffer ==>
          && |buffer[fp]| == Count(flat, fp) > 0
          && (forall k | 0 <= k < |buffer[fp]| :: IdOk(held, buffer[fp][k], fp))
          && (buffer[fp][0] == TEMPORARY_ID ==> Fresh(flat, fp)))
  }

  /** The invariant that ties the index buffer to the chunks in flight. */
  ghost predicate FlightOk(held: Holdings, buffer: map<Fp, seq<int>>, flat: seq<Chunk>) {
    && (forall fp :: QueueOf(held, buffer, flat, fp))
    && (forall i | 0 <= i < |flat| :: ChunkOk(held, flat, i))
  }

  /** No unique chunk in flight has meanwhile been put into the open container. */
  ghost predicate Unwritten(open: set<Fp>, flat: seq<Chunk>) {
    UniqueFps(flat) !! open
  }

  lemma {:induction false} FpSetConcat(a: seq<Chunk>, b: seq<Chunk>)
    ensures FpSet(a + b) == FpSet(a) + FpSet(b)
    ensures UniqueFps(a + b) == UniqueFps(a) + UniqueFps(b)
  {
  }

  lemma {:induction false} CountSnoc(cs: seq<Chunk>, c: Chunk, fp: Fp)
    ensures Count(cs + [c], fp) == Count(cs, fp) + if c.Has(fp) then 1 else 0
  {
    assert (cs + [c])[..|cs|] == cs;
  }

  lemma {:induction false} CountConcat(a: seq<Chunk>, b: seq<Chunk>, fp: Fp)
    ensures Count(a + b, fp) == Count(a, fp) + Count(b, fp)
  {
    if b == [] {
      assert a + b == a;
    } else {
      CountConcat(a, b[..|b| - 1], fp);
      assert (a + b)[..|a + b| - 1] == a + b[..|b| - 1];
    }
  }

  lemma {:induction false} CountZero(cs: seq<Chunk>, fp: Fp)
    ensures Count(cs, fp) == 0 <==> fp !in FpSet(cs)
  {
    if cs != [] {
      CountZero(cs[..|cs| - 1], fp);
      assert cs == cs[..|cs| - 1] + [cs[|cs| - 1]];
      FpSetConcat(cs[..|cs| - 1], [cs[|cs| - 1]]);
    }
  }

  lemma {:induction false} FreshSnoc(cs: seq<Chunk>, c: Chunk, fp: Fp)
    ensures fp in FpSet(cs) ==> Fresh(cs + [c], fp) == Fresh(cs, fp)
    ensures fp !in FpSet(cs) && c.Has(fp) ==> Fresh(cs + [c], fp) == !c.dup
  {
    if cs == [] {
      assert [] + [c] == [c];
    } else {
      FreshSnoc(cs[1..], c, fp);
      assert (cs + [c])[1..] == cs[1..] + [c];
      assert cs == [cs[0]] + cs[1..];
      FpSetConcat([cs[0]], cs[1..]);
    }
  }

  /** A duplicate whose fingerprint is still fresh has the unique copy ahead of it. */
  lemma {:induction false} FreshAhead(cs: seq<Chunk>, i: nat)
    requires i < |cs| && cs[i].Normal() && cs[i].dup && Fresh(cs, cs[i].item.fp)
    ensures cs[i].item.fp in UniqueFps(cs[..i])
  {
    var fp := cs[i].item.fp;
    if cs[0].Has(fp) {
      assert cs[0] in cs[..i];
    } else {
      FreshAhead(cs[1..], i - 1);
      assert cs[..i] == [cs[0]] + cs[1..][..i - 1];
      FpSetConcat([cs[0]], cs[1..][..i - 1]);
    }
  }

  // ---------------------------------------------------------------- a lookup appends

  lemma {:induction false} PushQueue(held: Holdings, buffer: map<Fp, seq<int>>, flat: seq<Chunk>, c: Chunk, fp: Fp)
    requires QueueOf(held, buffer, flat, fp)
    requires c.Normal() && IdOk(held, c.id, c.item.fp)
    requires c.id == TEMPORARY_ID && c.dup ==> c.item.fp in buffer
    ensures QueueOf(held, Push(buffer, c.item.fp, c.id), flat + [c], fp)
  {
    CountSnoc(flat, c, fp);
    CountZero(flat, fp);
    FreshSnoc(flat, c, fp);
    FpSetConcat(flat, [c]);
  }

  lemma {:induction false} PushFlight(held: Holdings, buffer: map<Fp, seq<int>>, flat: seq<Chunk>, c: Chunk)
    requires FlightOk(held, buffer, flat)
    requires c.Normal() && IdOk(held, c.id, c.item.fp)
    requires c.id == TEMPORARY_ID && c.dup ==> c.item.fp in buffer
    requires !c.dup ==> c.id == TEMPORARY_ID && c.item.fp !in buffer
    ensures FlightOk(held, Push(buffer, c.item.fp, c.id), flat + [c])
  {
    var buffer', flat' := Push(buffer, c.item.fp, c.id), flat + [c];
    forall fp
      ensures QueueOf(held, buffer', flat', fp)
    {
      PushQueue(held, buffer, flat, c, fp);
    }
    forall i | 0 <= i < |flat'|
      ensures ChunkOk(held, flat', i)
    {
      if i < |flat| {
        assert ChunkOk(held, flat, i);
        assert flat'[..i] == flat[..i];
      } else {
        assert flat'[..i] == flat;
        assert QueueOf(held, buffer, flat, c.item.fp);
      }
    }
  }

  lemma {:induction false} MarkFlight(held: Holdings, buffer: map<Fp, seq<int>>, flat: seq<Chunk>, c: Chunk)
    requires FlightOk(held, buffer, flat) && !c.Normal()
    ensures FlightOk(held, buffer, flat + [c])
  {
    var flat' := flat + [c];
    forall fp
      ensures QueueOf(held, buffer, flat', fp)
    {
      assert QueueOf(held, buffer, flat, fp);
      CountSnoc(flat, c, fp);
      FreshSnoc(flat, c, fp);
      FpSetConcat(flat, [c]);
    }
    forall i | 0 <= i < |flat'|
      ensures ChunkOk(held, flat', i)
    {
      if i < |flat| {
        assert ChunkOk(held, flat, i);
        assert flat'[..i] == flat[..i];
      }
    }
  }

  // ---------------------------------------------------------------- a filtered segment leaves

  lemma {:induction false} PopQueue(held: Holdings, buffer: map<Fp, seq<int>>, c: Chunk, rest: seq<Chunk>, id: int, fp: Fp)
    requires QueueOf(held, buffer, [c] + rest, fp)
    requires c.Normal() ==> c.item.fp in buffer && buffer[c.item.fp] != []
    requires c.Normal() ==> id != TEMPORARY_ID && Stored(held, id, c.item.fp)
    ensures QueueOf(held, UpdateChunk(buffer, c.(id := id)).value, rest, fp)
  {
    CountConcat([c], rest, fp);
    assert Count([c], fp) == if c.Has(fp) then 1 else 0 by { assert [c] == [] + [c]; CountSnoc([], c, fp); }
    CountZero(rest, fp);
    FpSetConcat([c], rest);
    assert ([c] + rest)[1..] == rest;
  }

  /** index_update_buffer, one chunk: the queue is popped and the copies behind learn the id. */
  lemma {:induction false} PopFlight(held: Holdings, buffer: map<Fp, seq<int>>, c: Chunk, rest: seq<Chunk>, id: int)
    requires FlightOk(held, buffer, [c] + rest)
    requires c.Normal() ==> id != TEMPORARY_ID && Stored(held, id, c.item.fp)
    ensures UpdateChunk(buffer, c.(id := id)).Done?
    ensures FlightOk(held, UpdateChunk(buffer, c.(id := id)).value, rest)
  {
    var flat := [c] + rest;
    assert c.Normal() ==> c.item.fp in buffer && buffer[c.item.fp] != [] by {
      if c.Normal() {
        assert QueueOf(held, buffer, flat, c.item.fp);
        assert flat[0] == c;
      }
    }
    forall fp
      ensures QueueOf(held, UpdateChunk(buffer, c.(id := id)).value, rest, fp)
    {
      assert QueueOf(held, buffer, flat, fp);
      PopQueue(held, buffer, c, rest, id, fp);
    }
    forall i | 0 <= i < |rest|
      ensures ChunkOk(held, rest, i)
    {
      assert ChunkOk(held, flat, i + 1);
      assert flat[..i + 1] == [c] + rest[..i];
      FpSetConcat([c], rest[..i]);
    }
  }

  /** `out` is `seg` after filtering: same items, every id a container that holds the chunk. */
  ghost predicate Settled(held: Holdings, seg: seq<Chunk>, out: seq<Chunk>) {
    && |out| == |seg|
    && (forall i | 0 <= i < |seg| :: out[i].item == seg[i].item)
    && (forall i | 0 <= i < |seg| && seg[i].Normal() ::
          out[i].id != TEMPORARY_ID && Stored(held, out[i].id, seg[i].item.fp))
  }

  lemma {:induction false} UpdateIgnoresFlags(buffer: map<Fp, seq<int>>, c: Chunk, d: Chunk)
    requires c.item == d.item
    ensures UpdateChunk(buffer, d) == UpdateChunk(buffer, c.(id := d.id))
  {
  }

  /** index_update_buffer over a whole segment never fails and leaves the rest in order. */
  lemma {:induction false} PopSegment(held: Holdings, buffer: map<Fp, seq<int>>, seg: seq<Chunk>, out: seq<Chunk>,
                                      rest: seq<Chunk>, n: nat)
    requires n <= |seg|
    requires FlightOk(held, buffer, seg + rest) && Settled(held, seg, out)
    ensures UpdatePrefix(buffer, out, n).Done?
    ensures FlightOk(held, UpdatePrefix(buffer, out, n).value, seg[n..] + rest)
  {
    hide FlightOk, UpdateChunk;
    if n == 0 {
      assert seg[0..] == seg;
    } else {
      PopSegment(held, buffer, seg, out, rest, n - 1);
      var b := UpdatePrefix(buffer, out, n - 1).value;
      var tail := seg[n..] + rest;
      assert seg[n - 1..] + rest == [seg[n - 1]] + tail;
      PopFlight(held, b, seg[n - 1], tail, out[n - 1].id);
      UpdateIgnoresFlags(b, seg[n - 1], out[n - 1]);
    }
  }

  lemma {:induction false} FlightGrows(held: Holdings, held': Holdings, buffer: map<Fp, seq<int>>, flat: seq<Chunk>)
    requires FlightOk(held, buffer, flat)
    requires forall id, fp | Stored(held, id, fp) :: Stored(held', id, fp)
    ensures FlightOk(held', buffer, flat)
  {
    forall fp
      ensures QueueOf(held', buffer, flat, fp)
    {
      assert QueueOf(held, buffer, flat, fp);
    }
    forall i | 0 <= i < |flat|
      ensures ChunkOk(held', flat, i)
    {
      assert ChunkOk(held, flat, i);
    }
  }
}
