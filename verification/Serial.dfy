/** Integers as bytes: host byte order, and the network byte order that serial.c writes. */
module Serial {
  import opened Common

  function Pow256(n: nat): nat {
    if n == 0 then 1 else 256 * Pow256(n - 1)
  }

  function BigEndian(u: nat, n: nat): (r: Bytes)
    ensures |r| == n
  {
    if n == 0 then [] else BigEndian(u / 256, n - 1) + [u % 256]
  }

  function Value(bs: Bytes): nat {
    if bs == [] then 0 else 256 * Value(bs[..|bs| - 1]) + bs[|bs| - 1]
  }

  lemma {:induction false} ValueOfBytes(u: nat, n: nat)
    requires u < Pow256(n)
    ensures Value(BigEndian(u, n)) == u
  {
    if n > 0 {
      ValueOfBytes(u / 256, n - 1);
      assert BigEndian(u, n)[..n - 1] == BigEndian(u / 256, n - 1);
    }
  }

  lemma {:induction false} BytesOfValue(bs: Bytes)
    ensures Value(bs) < Pow256(|bs|) && BigEndian(Value(bs), |bs|) == bs
  {
    if bs != [] {
      var m := |bs| - 1;
      BytesOfValue(bs[..m]);
      assert bs[..m] + [bs[m]] == bs;
    }
  }

  function Reverse(bs: Bytes): (r: Bytes)
    ensures |r| == |bs|
    ensures forall i | 0 <= i < |bs| :: r[i] == bs[|bs| - 1 - i]
  {
    seq(|bs|, i requires 0 <= i < |bs| => bs[|bs| - 1 - i])
  }

  /** Two's complement in n bytes. */
  predicate Fits(v: int, n: nat) {
    0 <= 2 * v + Pow256(n) && 2 * v < Pow256(n)
  }

  function Unsigned(v: int, n: nat): nat
    requires Fits(v, n)
  {
    if v < 0 then v + Pow256(n) else v
  }

  function Signed(u: nat, n: nat): int {
    if 2 * u >= Pow256(n) then u - Pow256(n) else u
  }

  lemma {:induction false} SignedOk(bs: Bytes)
    ensures Fits(Signed(Value(bs), |bs|), |bs|)
    ensures Unsigned(Signed(Value(bs), |bs|), |bs|) == Value(bs)
  {
    BytesOfValue(bs);
  }

  /** The bytes of an integer in memory, and the integer that bytes in memory mean. */
  function Native(little: bool, v: int, n: nat): (r: Bytes)
    requires Fits(v, n)
    ensures |r| == n
  {
    var b := BigEndian(Unsigned(v, n), n);
    if little then Reverse(b) else b
  }

  function FromNative(little: bool, bs: Bytes): int {
    Signed(Value(if little then Reverse(bs) else bs), |bs|)
  }

  /** memcpy out and memcpy in, on the same host. */
  lemma {:induction false} NativeRoundTrip(little: bool, v: int, n: nat)
    requires Fits(v, n)
    ensures FromNative(little, Native(little, v, n)) == v
  {
    var b := BigEndian(Unsigned(v, n), n);
    ValueOfBytes(Unsigned(v, n), n);
    assert Reverse(Reverse(b)) == b;
  }

  lemma {:induction false} NativeOfBytes(little: bool, bs: Bytes)
    ensures Fits(FromNative(little, bs), |bs|) && Native(little, FromNative(little, bs), |bs|) == bs
  {
    var b := if little then Reverse(bs) else bs;
    SignedOk(b);
    BytesOfValue(b);
    assert Reverse(Reverse(bs)) == bs;
  }

  /** Network byte order: what the header of a container is written in on every host. */
  function Network(v: int, n: nat): (r: Bytes)
    requires Fits(v, n)
    ensures |r| == n
  {
    BigEndian(Unsigned(v, n), n)
  }

  lemma {:induction false} NetworkRoundTrip(v: int, n: nat)
    requires Fits(v, n)
    ensures Signed(Value(Network(v, n)), n) == v
  {
    ValueOfBytes(Unsigned(v, n), n);
  }

  lemma {:induction false} PowSplit(n: nat)
    requires n > 0
    ensures Pow256(n) == 256 * Pow256(n - 1) && Pow256(n - 1) > 0
  {
    if n > 1 {
      PowSplit(n - 1);
    }
  }

  lemma {:induction false} DivTwice(u: nat, b: nat)
    requires b > 0
    ensures u / (256 * b) == (u / 256) / b
  {
    var q, r := u / 256, u % 256;
    var p, s := q / b, q % b;
    assert q == p * b + s;
    assert u == 256 * (p * b + s) + r == p * (256 * b) + (256 * s + r);
    ModUnique(u, 256 * b, p, 256 * s + r);
  }

  /** Byte i of n carries the digit of weight 256^(n - 1 - i): the most significant byte comes first. */
  lemma {:induction false} MostSignificantFirst(u: nat, n: nat, i: nat)
    requires i < n
    ensures Pow256(n - 1 - i) > 0 && BigEndian(u, n)[i] == (u / Pow256(n - 1 - i)) % 256
  {
    if i == n - 1 {
      assert u / 1 == u;
    } else {
      MostSignificantFirst(u / 256, n - 1, i);
      PowSplit(n - 1 - i);
      DivTwice(u, Pow256(n - 2 - i));
    }
  }

  /** htonl and ntohl: the integer whose memory holds the bytes in network order. */
  function HostToNetwork(little: bool, v: int): (r: int)
    requires Fits(v, 4)
    ensures Fits(r, 4)
  {
    NativeOfBytes(little, Network(v, 4));
    FromNative(little, Network(v, 4))
  }

  /** serial_int32. */
  method SerialInt32(little: bool, v: int) returns (bs: Bytes)
    requires Fits(v, 4)
    ensures bs == Network(v, 4)
  {
    var vo := HostToNetwork(little, v);
    bs := Native(little, vo, 4);
    NativeOfBytes(little, Network(v, 4));
  }

  /** unserial_int32; ntohl is htonl. */
  method UnserialInt32(little: bool, bs: Bytes) returns (v: int)
    requires |bs| == 4
    ensures v == Signed(Value(bs), 4)
  {
    NativeOfBytes(little, bs);
    var vo := FromNative(little, bs);
    v := HostToNetwork(little, vo);
    SwapBack(little, bs);
  }

  lemma {:induction false} SwapBack(little: bool, bs: Bytes)
    requires |bs| == 4
    ensures Fits(FromNative(little, bs), 4)
    ensures HostToNetwork(little, FromNative(little, bs)) == Signed(Value(bs), 4)
  {
    NativeOfBytes(little, bs);
    var vo := FromNative(little, bs);
    assert Native(little, vo, 4) == bs;
    assert Network(vo, 4) == if little then Reverse(bs) else bs by {
      if little {
        assert Reverse(Reverse(Network(vo, 4))) == Network(vo, 4);
      }
    }
    assert Reverse(Reverse(bs)) == bs;
  }

  /** The byte loop of serial_int64 and unserial_int64. */
  method ReverseLoop(pv: Bytes) returns (rv: Bytes)
    requires |pv| == 8
    ensures rv == Reverse(pv)
  {
    rv := [];
    for i := 0 to 8
      invariant |rv| == i && forall k | 0 <= k < i :: rv[k] == pv[7 - k]
    {
      rv := rv + [pv[7 - i]];
    }
  }

  /** serial_int64. */
  method SerialInt64(little: bool, v: int) returns (bs: Bytes)
    requires Fits(v, 8)
    ensures bs == Network(v, 8)
  {
    bs := Native(little, v, 8);
    if little {
      bs := ReverseLoop(bs);
      assert Reverse(Reverse(Network(v, 8))) == Network(v, 8);
    }
  }

  /** unserial_int64. */
  method UnserialInt64(little: bool, bs: Bytes) returns (v: int)
    requires |bs| == 8
    ensures v == Signed(Value(bs), 8)
  {
    var rv := bs;
    if little {
      rv := ReverseLoop(bs);
      assert Reverse(Reverse(bs)) == bs;
    }
    v := FromNative(little, rv);
  }
}
