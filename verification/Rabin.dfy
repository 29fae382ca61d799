/** The Rabin fingerprint: 64-bit polynomial arithmetic, the tables T and U, and the sliding window. */
module Rabin {
  import opened Common
  import opened Gf2

  const WINDOW := 48

  /** x << n on a 64-bit word. */
  function Shl64(x: nat, n: nat): nat {
    Low(Shl(x, n), 64)
  }

  /** Bitwise or, and bitwise and. */
  function Or(a: nat, b: nat): nat
    decreases a + b
  {
    if a == 0 && b == 0 then 0 else 2 * Or(a / 2, b / 2) + if a % 2 == 1 || b % 2 == 1 then 1 else 0
  }

  function And(a: nat, b: nat): nat {
    if a == 0 then 0 else 2 * And(a / 2, b / 2) + if a % 2 == 1 && b % 2 == 1 then 1 else 0
  }

  /** fls32 and fls64: the table gives the length of a byte, the tests pick the top byte. */
  function Fls32(v: nat): (n: nat)
    requires Bits(v) <= 32
    ensures n == Bits(v)
  {
    BitsShr(v, 24);
    BitsShr(v, 16);
    BitsShr(v, 8);
    if Shr(v, 16) != 0 then
      if Shr(v, 24) != 0 then 24 + Bits(Shr(v, 24)) else 16 + Bits(Shr(v, 16))
    else if Shr(v, 8) != 0 then 8 + Bits(Shr(v, 8))
    else Bits(v)
  }

  function Fls64(v: nat): (n: nat)
    requires Bits(v) <= 64
    ensures n == Bits(v)
  {
    BitsShr(v, 32);
    LowShort(v, 64);
    if Shr(v, 32) != 0 then 32 + Fls32(Shr(v, 32)) else Fls32(v)
  }

  /** The 128-bit polynomial with high word `h` and low word `l`. */
  function Join(h: nat, l: nat): nat {
    Xor(Shl(h, 64), l)
  }

  lemma {:induction false} JoinXor(h: nat, l: nat, x: nat, y: nat)
    ensures Join(Xor(h, x), Xor(l, y)) == Xor(Join(h, l), Join(x, y))
  {
    ShlXor(h, x, 64);
    XorSwap(Shl(h, 64), Shl(x, 64), l, y);
  }

  lemma {:induction false} HighSizes(nh: nat, nl: nat, d: nat, k: nat, i: nat)
    requires k <= 63 && Bits(d) == k + 1 && i <= 63 && Bits(nh) == i + 1 && Bits(nl) <= 64
    ensures var dd := Shl(d, 63 - k);
            Bits(Xor(nh, Shr(dd, 63 - i))) <= i && Bits(Xor(nl, Shl64(dd, i + 1))) <= 64
  {
    hide Shl, Shr, Low, Xor;
    var dd := Shl(d, 63 - k);
    BitsShl(d, 63 - k);
    BitsShr(dd, 63 - i);
    XorTop(nh, Shr(dd, 63 - i));
    BitsLow(Shl(dd, i + 1), 64);
    BitsXor(nl, Shl64(dd, i + 1), 64);
  }

  /** The two words subtracted are the divisor, shifted under the leading bit. */
  lemma {:induction false} HighShift(d: nat, k: nat, i: nat)
    requires k <= 63 && i <= 63
    ensures var dd := Shl(d, 63 - k);
            Join(Shr(dd, 63 - i), Shl64(dd, i + 1)) == Shl(d, 63 - k + i + 1)
  {
    hide Shl, Shr, Low, Xor;
    var dd := Shl(d, 63 - k);
    ShrShl(dd, i + 1, 64);
    Split(Shl(dd, i + 1), 64);
    ShlShl(d, 63 - k, i + 1);
  }

  /** One step of the first loop of polymod: the leading bit of the high word goes. */
  lemma {:induction false} HighStep(nh: nat, nl: nat, d: nat, k: nat, i: nat)
    requires k <= 63 && Bits(d) == k + 1 && i <= 63 && Bits(nh) == i + 1 && Bits(nl) <= 64
    ensures var dd := Shl(d, 63 - k);
            var h, l := Xor(nh, Shr(dd, 63 - i)), Xor(nl, Shl64(dd, i + 1));
            Bits(h) <= i && Bits(l) <= 64 && Cong(Join(h, l), Join(nh, nl), d)
  {
    hide *;
    var dd := Shl(d, 63 - k);
    var sh, sl := Shr(dd, 63 - i), Shl64(dd, i + 1);
    HighSizes(nh, nl, d, k, i);
    JoinXor(nh, nl, sh, sl);
    HighShift(d, k, i);
    CongSub(Join(nh, nl), d, 63 - k + i + 1);
  }

  /** One step of the second loop. */
  lemma {:induction false} LowStep(nl: nat, d: nat, k: nat, i: nat)
    requires k <= i <= 63 && Bits(d) == k + 1 && Bits(nl) == i + 1
    ensures var l := Xor(nl, Shr(Shl(d, 63 - k), 63 - i));
            Bits(l) <= i && Cong(l, nl, d)
  {
    ShrShl(d, 63 - k, 63 - i);
    BitsShl(d, i - k);
    XorTop(nl, Shl(d, i - k));
    CongSub(nl, d, i - k);
  }

  /** The first loop of polymod: the high word is reduced away. */
  method ReduceHigh(nh0: nat, nl0: nat, d: nat, k: nat) returns (nl: nat)
    requires k <= 63 && Bits(d) == k + 1 && Bits(nh0) <= 64 && Bits(nl0) <= 64
    ensures Bits(nl) <= 64 && Cong(nl, Join(nh0, nl0), d)
  {
    hide Shl64, Join, Cong, Bit, Shr, Shl, Bits, Xor;
    var dd := Shl(d, 63 - k);
    var nh := nh0;
    nl := nl0;
    CongRefl(Join(nh0, nl0), d);
    TopBit(nh, 63);
    if Bit(nh, 63) {
      HighStep(nh, nl, d, k, 63);
      FullShift(dd, nl);
      nh := Xor(nh, dd);
    }
    var i := 62;
    while i >= 0
      invariant -1 <= i <= 62 && Bits(nh) <= i + 1 && Bits(nl) <= 64
      invariant Cong(Join(nh, nl), Join(nh0, nl0), d)
    {
      TopBit(nh, i);
      if Bit(nh, i) {
        HighStep(nh, nl, d, k, i);
        ghost var before := Join(nh, nl);
        nh := Xor(nh, Shr(dd, 63 - i));
        nl := Xor(nl, Shl64(dd, i + 1));
        CongTrans(Join(nh, nl), before, Join(nh0, nl0), d);
      }
      i := i - 1;
    }
    JoinZero(nh, nl);
  }

  lemma {:induction false} FullShift(dd: nat, nl: nat)
    ensures Shr(dd, 0) == dd && Xor(nl, Shl64(dd, 64)) == nl
  {
    LowFull(dd, 64);
    XorZero(nl);
  }

  lemma {:induction false} LowFull(a: nat, n: nat)
    ensures Low(Shl(a, n), n) == 0
  {
    if n > 0 {
      LowFull(a, n - 1);
      assert Shl(a, n) / 2 == Shl(a, n - 1);
    }
  }

  lemma {:induction false} JoinZero(h: nat, l: nat)
    requires Bits(h) == 0
    ensures Join(h, l) == l
  {
    ShlZero(64);
    XorZero(l);
  }

  /** polymod: the remainder of the 128-bit dividend, for every divisor. */
  method PolyMod(nh: nat, nl0: nat, d: nat) returns (r: nat)
    requires d > 0 && Bits(d) <= 64 && Bits(nh) <= 64 && Bits(nl0) <= 64
    ensures r == Rem(Join(nh, nl0), d)
  {
    hide Shl64, Join, Cong, Bit, Shr, Shl, Rem, Xor;
    var k := Fls64(d) - 1;
    var nl := nl0;
    if nh != 0 {
      nl := ReduceHigh(nh, nl0, d, k);
    } else {
      JoinZero(nh, nl0);
      CongRefl(nl0, d);
    }
    var i := 63;
    while i >= k
      invariant k - 1 <= i <= 63 && Bits(nl) <= i + 1 && Cong(nl, Join(nh, nl0), d)
    {
      TopBit(nl, i);
      if Bit(nl, i) {
        LowStep(nl, d, k, i);
        ghost var before := nl;
        nl := Xor(nl, Shr(Shl(d, 63 - k), 63 - i));
        CongTrans(nl, before, Join(nh, nl0), d);
      }
      i := i - 1;
    }
    r := nl;
    IsRem(r, Join(nh, nl0), d);
  }

  lemma {:induction false} LowUnfold(x: nat, n: nat)
    ensures Low(x, n + 1) == 2 * Low(x / 2, n) + x % 2
  {
  }

  lemma {:induction false} ShlUnfold(x: nat, n: nat)
    ensures Shl(x, n + 1) == 2 * Shl(x, n)
  {
  }

  lemma {:induction false} BitUnfold(x: nat, n: nat)
    ensures Bit(x, n + 1) == Bit(x / 2, n)
  {
  }

  lemma {:induction false} LowBitZero(x: nat)
    ensures Low(x, 1) == Xor(Low(x, 0), if Bit(x, 0) then Shl(1, 0) else 0)
  {
    hide Xor;
    XorZero(x % 2);
  }

  lemma {:induction false} LowBit(x: nat, i: nat)
    ensures Low(x, i + 1) == Xor(Low(x, i), if Bit(x, i) then Shl(1, i) else 0)
  {
    hide *;
    if i == 0 {
      LowBitZero(x);
    } else {
      LowBit(x / 2, i - 1);
      LowUnfold(x, i);
      LowUnfold(x, i - 1);
      ShlUnfold(1, i - 1);
      BitUnfold(x, i - 1);
      XorDouble(Low(x / 2, i - 1), if Bit(x / 2, i - 1) then Shl(1, i - 1) else 0, x % 2, 0);
    }
  }

  /** polymult: the 128-bit product. */
  method PolyMult(x: nat, y: nat) returns (ph: nat, pl: nat)
    requires Bits(x) <= 64 && Bits(y) <= 64
    ensures Join(ph, pl) == Mul(x, y) && Bits(ph) <= 64 && Bits(pl) <= 64
  {
    hide Shl64, Join, Bit, Shr, Shl, Xor, Mul, Low, Bits;
    ph, pl := 0, 0;
    MultStart(x, y);
    if Bit(x, 0) {
      pl := y;
    }
    for i := 1 to 64
      invariant Join(ph, pl) == Mul(Low(x, i), y) && Bits(ph) <= 64 && Bits(pl) <= 64
    {
      MultStep(x, y, i, ph, pl);
      if Bit(x, i) {
        ph := Xor(ph, Shr(y, 64 - i));
        pl := Xor(pl, Shl64(y, i));
      }
    }
    LowShort(x, 64);
  }

  lemma {:induction false} MultStart(x: nat, y: nat)
    ensures Mul(Low(x, 1), y) == (if Bit(x, 0) then y else 0)
    ensures Join(0, y) == y && Join(0, 0) == 0 && Bits(0) == 0
  {
    assert Low(x, 1) == x % 2;
    MulOne(y);
    JoinZero(0, y);
    JoinZero(0, 0);
  }

  lemma {:induction false} MultStep(x: nat, y: nat, i: nat, ph: nat, pl: nat)
    requires 0 < i < 64 && Bits(y) <= 64 && Join(ph, pl) == Mul(Low(x, i), y) && Bits(ph) <= 64 && Bits(pl) <= 64
    ensures !Bit(x, i) ==> Mul(Low(x, i + 1), y) == Join(ph, pl)
    ensures var h, l := Xor(ph, Shr(y, 64 - i)), Xor(pl, Shl64(y, i));
            Bit(x, i) ==> Mul(Low(x, i + 1), y) == Join(h, l) && Bits(h) <= 64 && Bits(l) <= 64
  {
    hide Low, Mul, Xor, Shl, Shr, Bits, Bit;
    LowBit(x, i);
    MulXor(Low(x, i), if Bit(x, i) then Shl(1, i) else 0, y);
    if Bit(x, i) {
      MulShl(1, i, y);
      MulOne(y);
      JoinXor(ph, pl, Shr(y, 64 - i), Shl64(y, i));
      ShrShl(y, i, 64);
      Split(Shl(y, i), 64);
      BitsShr(y, 64 - i);
      BitsXor(ph, Shr(y, 64 - i), 64);
      BitsLow(Shl(y, i), 64);
      BitsXor(pl, Shl64(y, i), 64);
    } else {
      MulZero(y);
      XorZero(Mul(Low(x, i), y));
    }
  }

  lemma {:induction false} MulZero(y: nat)
    ensures Mul(0, y) == 0
  {
  }

  method PolyMMult(x: nat, y: nat, d: nat) returns (r: nat)
    requires d > 0 && Bits(d) <= 64 && Bits(x) <= 64 && Bits(y) <= 64
    ensures r == Rem(Mul(x, y), d)
  {
    var h, l := PolyMult(x, y);
    r := PolyMod(h, l, d);
  }

  // ---------------------------------------------------------------- the tables

  lemma {:induction false} MulPower(j: nat, k: nat)
    ensures Mul(j, Shl(1, k)) == Shl(j, k)
  {
    if k == 0 {
      MulByOne(j);
    } else {
      MulPower(j, k - 1);
      MulDoubleRight(j, Shl(1, k - 1));
    }
  }

  lemma {:induction false} MulByOne(j: nat)
    ensures Mul(j, 1) == j
  {
    hide *;
    if j == 0 {
      MulZero(1);
    } else {
      var h, b := j / 2, j % 2;
      assert j == 2 * h + b;
      MulByOne(h);
      MulStep(j, 1);
      XorDouble(0, h, b, 0);
      XorZero(h);
    }
  }

  lemma {:induction false} MulDoubleRight(a: nat, b: nat)
    ensures Mul(a, 2 * b) == 2 * Mul(a, b)
  {
    if a > 0 {
      MulDoubleRight(a / 2, b);
      DoubleXor(if a % 2 == 1 then b else 0, 2 * Mul(a / 2, b));
    }
  }

  /** Entry j of T: the residue of j x^k, with the bits of j x^k that a 64-bit shift leaves behind. */
  ghost predicate TableT(t: seq<nat>, poly: nat, k: nat) {
    poly > 0 && |t| == 256 &&
    forall j | 0 <= j < 256 :: t[j] == Xor(Rem(Shl(j, k), poly), Shl64(j, k))
  }

  lemma {:induction false} HalfBits(a: nat, n: nat)
    requires n > 0 && Bits(a) <= n
    ensures Bits(a / 2) <= n - 1
  {
  }

  lemma {:induction false} NoBits(a: nat)
    requires Bits(a) == 0
    ensures a == 0
  {
  }

  lemma {:induction false} OrDisjointStep(h: nat, b: nat, s: nat)
    requires b < 2 && Or(h, s) == Xor(h, s) && Or(s, h) == Xor(s, h)
    ensures Or(2 * h + b, 2 * s) == Xor(2 * h + b, 2 * s) && Or(2 * s, 2 * h + b) == Xor(2 * s, 2 * h + b)
  {
    hide *;
    XorDouble(h, s, b, 0);
    XorDouble(s, h, 0, b);
    OrDouble(h, s, b, 0);
    OrDouble(s, h, 0, b);
  }

  lemma {:induction false} OrDisjoint(a: nat, c: nat, n: nat)
    requires Bits(a) <= n
    ensures Or(a, Shl(c, n)) == Xor(a, Shl(c, n)) && Or(Shl(c, n), a) == Xor(Shl(c, n), a)
  {
    hide *;
    if n == 0 {
      NoBits(a);
      ShlNone(c);
      OrZero(c);
      XorZero(c);
    } else {
      HalfBits(a, n);
      OrDisjoint(a / 2, c, n - 1);
      ShlUnfold(c, n - 1);
      OrDisjointStep(a / 2, a % 2, Shl(c, n - 1));
      assert a == 2 * (a / 2) + a % 2;
    }
  }

  lemma {:induction false} OrDouble(x: nat, y: nat, b: nat, c: nat)
    requires b + c < 2
    ensures Or(2 * x + b, 2 * y + c) == 2 * Or(x, y) + b + c
  {
    var a, d := 2 * x + b, 2 * y + c;
    assert a / 2 == x && d / 2 == y && a % 2 == b && d % 2 == c;
  }

  lemma {:induction false} OrZero(c: nat)
    ensures Or(0, c) == c && Or(c, 0) == c
  {
    if c > 0 {
      OrZero(c / 2);
    }
  }

  lemma {:induction false} LowShl(a: nat, m: nat, n: nat)
    requires m <= n
    ensures Low(Shl(a, m), n) == Shl(Low(a, n - m), m)
  {
    if m > 0 {
      LowShl(a, m - 1, n - 1);
      assert Shl(a, m) / 2 == Shl(a, m - 1);
    }
  }

  lemma {:induction false} RemCong(a: nat, b: nat, d: nat)
    requires d > 0 && Cong(a, b, d)
    ensures Rem(a, d) == Rem(b, d)
  {
    RemOk(a, d);
    CongTrans(Rem(a, d), a, b, d);
    IsRem(Rem(a, d), b, d);
  }

  lemma {:induction false} TableEntry(j: nat, poly: nat, k: nat, t1: nat)
    requires Bits(poly) == k + 1 && 8 <= k <= 63 && t1 == Rem(Shl(1, k), poly)
    ensures Or(Rem(Mul(j, t1), poly), Shl64(j, k)) == Xor(Rem(Shl(j, k), poly), Shl64(j, k))
  {
    hide Or, Xor, Rem, Mul, Cong;
    RemOk(Shl(1, k), poly);
    CongMul(j, t1, Shl(1, k), poly);
    MulPower(j, k);
    RemCong(Mul(j, t1), Shl(j, k), poly);
    RemOk(Shl(j, k), poly);
    LowShl(j, k, 64);
    OrDisjoint(Rem(Shl(j, k), poly), Low(j, 64 - k), k);
  }

  lemma {:induction false} ByteBits(j: nat)
    ensures j < 256 <==> Bits(j) <= 8
  {
    BitsPow(j, 8);
  }

  lemma {:induction false} BitsPow(j: nat, n: nat)
    ensures Bits(j) <= n <==> j < Shl(1, n)
  {
    if n > 0 {
      BitsPow(j / 2, n - 1);
    }
  }

  /** calcT. */
  method CalcT(poly: nat) returns (t: seq<nat>, shift: nat)
    requires 9 <= Bits(poly) <= 64
    ensures TableT(t, poly, Bits(poly) - 1) && shift == Bits(poly) - 9
  {
    hide Shl, Rem, Mul, Xor, Or, Join, Shl64, Bits;
    BitsZero();
    var xshift := Fls64(poly) - 1;
    shift := xshift - 8;
    BitsShl(1, xshift);
    BitsOne();
    JoinZero(0, Shl(1, xshift));
    var t1 := PolyMod(0, Shl(1, xshift), poly);
    RemOk(Shl(1, xshift), poly);
    t := [];
    for j := 0 to 256
      invariant |t| == j
      invariant forall i | 0 <= i < j :: t[i] == Xor(Rem(Shl(i, xshift), poly), Shl64(i, xshift))
    {
      ByteBits(j);
      var p := PolyMMult(j, t1, poly);
      TableEntry(j, poly, xshift, t1);
      t := t + [Or(p, Shl64(j, xshift))];
    }
  }

  lemma {:induction false} BitsOne()
    ensures Bits(1) == 1
  {
  }

  lemma {:induction false} BitsZero()
    ensures Bits(0) == 0
  {
  }

  /** append8. */
  function Append8(t: seq<nat>, shift: nat, p: nat, m: Byte): nat
    requires |t| == 256 && Shr(p, shift) < 256
  {
    Xor(Or(Shl64(p, 8), m), t[Shr(p, shift)])
  }

  /** The polynomial arithmetic behind append8, on the full-width shift. */
  lemma {:induction false} AppendParts(p: nat, m: nat, k: nat)
    requires 8 <= k <= 63 && Bits(p) <= k && Bits(m) <= 8
    ensures var j, keep := Shr(p, k - 8), Xor(Shl(Low(p, k - 8), 8), m);
            && Bits(j) <= 8 && Bits(keep) <= k
            && Xor(Or(Shl64(p, 8), m), Shl64(j, k)) == keep
            && Xor(Shl(p, 8), m) == Xor(Shl(j, k), keep)
  {
    hide Shr, Xor, Or;
    var j, low := Shr(p, k - 8), Low(p, k - 8);
    var keep := Xor(Shl(low, 8), m);
    BitsShr(p, k - 8);
    BitsLow(p, k - 8);
    BitsShl(low, 8);
    BitsXor(Shl(low, 8), m, k);
    Split(p, k - 8);
    ShlXor(Shl(j, k - 8), low, 8);
    ShlShl(j, k - 8, 8);
    hide Shl, Low, Bits;
    assert Shl(p, 8) == Xor(Shl(j, k), Shl(low, 8));
    XorAssoc(Shl(j, k), Shl(low, 8), m);
    // The word-sized computation.
    LowShl(p, 8, 64);
    OrDisjoint(m, Low(p, 56), 8);
    assert Or(Shl64(p, 8), m) == Xor(Shl64(p, 8), m);
    WordParts(Shl(j, k), Shl(low, 8), m, k);
    XorComm(Xor(Shl64(p, 8), m), Shl64(j, k));
  }

  lemma {:induction false} WordParts(top: nat, low: nat, m: nat, k: nat)
    requires k <= 63 && Bits(low) <= k
    ensures Xor(Low(top, 64), Xor(Low(Xor(top, low), 64), m)) == Xor(low, m)
  {
    hide Low, Xor;
    LowXor(top, low, 64);
    LowShort(low, 64);
    XorAssoc(Low(top, 64), low, m);
    XorCancel(Low(top, 64), Xor(low, m));
  }

  /** append8 is (p x^8 + m) mod P for every residue p. */
  lemma {:induction false} Append8Ok(t: seq<nat>, poly: nat, k: nat, p: nat, m: Byte)
    requires 8 <= k <= 63 && Bits(poly) == k + 1 && TableT(t, poly, k) && Bits(p) <= k
    ensures Shr(p, k - 8) < 256
    ensures Append8(t, k - 8, p, m) == Rem(Xor(Shl(p, 8), m), poly)
  {
    hide Shr, Shl, Low, Xor, Or, Rem, Cong, Bits;
    ByteBits(m);
    AppendParts(p, m, k);
    var j, keep := Shr(p, k - 8), Xor(Shl(Low(p, k - 8), 8), m);
    ByteBits(j);
    var word, tm, tj := Or(Shl64(p, 8), m), Rem(Shl(j, k), poly), Shl64(j, k);
    var r := Append8(t, k - 8, p, m);
    assert r == Xor(word, Xor(tm, tj));
    XorComm(tm, tj);
    XorAssoc(word, tj, tm);
    assert r == Xor(keep, tm);
    RemOk(Shl(j, k), poly);
    BitsXor(keep, tm, k);
    CongRefl(keep, poly);
    CongAdd(keep, keep, tm, Shl(j, k), poly);
    XorComm(keep, Shl(j, k));
    IsRem(r, Xor(Shl(p, 8), m), poly);
  }

  // ---------------------------------------------------------------- the window

  /** A byte string as a polynomial, first byte highest. */
  function Value(s: Bytes): nat {
    if s == [] then 0 else Xor(Shl(Value(s[..|s| - 1]), 8), s[|s| - 1])
  }

  lemma {:induction false} ValueSnoc(s: Bytes, b: Byte)
    ensures Value(s + [b]) == Xor(Shl(Value(s), 8), b)
  {
    assert (s + [b])[..|s|] == s;
  }

  lemma {:induction false} ValueOne(b: Byte)
    ensures Value([b] + []) == Xor(Shl(b, 8 * 0), Value([]))
  {
    hide Xor, Shl;
    assert [b] + [] == [] + [b];
    ValueSnoc([], b);
    ShlZero(8);
    ShlNone(b);
    XorComm(b, 0);
  }

  lemma {:induction false} ValueHead(b: Byte, rest: Bytes)
    ensures Value([b] + rest) == Xor(Shl(b, 8 * |rest|), Value(rest))
  {
    hide *;
    if rest == [] {
      ValueOne(b);
    } else {
      var n := |rest| - 1;
      var low, last := rest[..n], rest[n];
      ValueHead(b, low);
      ValueSnoc(low, last);
      ValueSnoc([b] + low, last);
      assert rest == low + [last] && [b] + rest == ([b] + low) + [last];
      ShlXor(Shl(b, 8 * n), Value(low), 8);
      ShlShl(b, 8 * n, 8);
      XorAssoc(Shl(b, 8 * n + 8), Shl(Value(low), 8), last);
    }
  }

  ghost predicate TableU(u: seq<nat>, poly: nat) {
    poly > 0 && |u| == 256 && forall i | 0 <= i < 256 :: u[i] == Rem(Shl(i, 8 * (WINDOW - 1)), poly)
  }

  lemma {:induction false} ShiftOne(s: nat, i: nat, poly: nat)
    requires poly > 0 && s == Rem(Shl(1, 8 * i), poly)
    ensures Rem(Xor(Shl(s, 8), 0), poly) == Rem(Shl(1, 8 * i + 8), poly)
  {
    XorZero(Shl(s, 8));
    RemOk(Shl(1, 8 * i), poly);
    CongShl(s, Shl(1, 8 * i), 8, poly);
    ShlShl(1, 8 * i, 8);
    RemCong(Shl(s, 8), Shl(1, 8 * i + 8), poly);
  }

  lemma {:induction false} UEntry(j: nat, s: nat, n: nat, poly: nat)
    requires poly > 0 && s == Rem(Shl(1, n), poly)
    ensures Rem(Mul(j, s), poly) == Rem(Shl(j, n), poly)
  {
    RemOk(Shl(1, n), poly);
    CongMul(j, s, Shl(1, n), poly);
    MulPower(j, n);
    RemCong(Mul(j, s), Shl(j, n), poly);
  }

  lemma {:induction false} RemShort(n: nat, d: nat)
    requires d > 0 && Bits(n) < Bits(d)
    ensures Rem(n, d) == n
  {
  }

  /** window_init: both tables. */
  method WindowInit(poly: nat) returns (t: seq<nat>, u: seq<nat>, shift: nat)
    requires 9 <= Bits(poly) <= 64
    ensures TableT(t, poly, Bits(poly) - 1) && TableU(u, poly) && shift == Bits(poly) - 9
  {
    hide Shl, Rem, Mul, Xor, Or, Shr, Bits, TableT;
    t, shift := CalcT(poly);
    BitsZero();
    BitsOne();
    RemShort(1, poly);
    var sizeshift := 1;
    ShlNone(1);
    TableShape(t, poly);
    for i := 1 to WINDOW
      invariant sizeshift == Rem(Shl(1, 8 * (i - 1)), poly) && Bits(sizeshift) < Bits(poly)
    {
      Append8Ok(t, poly, Bits(poly) - 1, sizeshift, 0);
      ShiftOne(sizeshift, i - 1, poly);
      RemOk(Shl(1, 8 * i), poly);
      sizeshift := Append8(t, shift, sizeshift, 0);
    }
    u := [];
    for i := 0 to 256
      invariant |u| == i && forall j | 0 <= j < i :: u[j] == Rem(Shl(j, 8 * (WINDOW - 1)), poly)
    {
      ByteBits(i);
      var e := PolyMMult(i, sizeshift, poly);
      UEntry(i, sizeshift, 8 * (WINDOW - 1), poly);
      u := u + [e];
    }
  }

  lemma {:induction false} ShlNone(a: nat)
    ensures Shl(a, 0) == a
  {
  }

  lemma {:induction false} TableShape(t: seq<nat>, poly: nat)
    requires poly > 0 && Bits(poly) > 0 && TableT(t, poly, Bits(poly) - 1)
    ensures |t| == 256
  {
  }

  /** One SLIDE: drop the oldest byte, append the new one. */
  lemma {:induction false} SlideOk(t: seq<nat>, u: seq<nat>, poly: nat, k: nat, w: Bytes, fp: nat, m: Byte)
    requires 8 <= k <= 63 && Bits(poly) == k + 1 && TableT(t, poly, k) && TableU(u, poly)
    requires |w| == WINDOW && fp == Rem(Value(w), poly)
    ensures Shr(Xor(fp, u[w[0]]), k - 8) < 256
    ensures Append8(t, k - 8, Xor(fp, u[w[0]]), m) == Rem(Value(w[1..] + [m]), poly)
  {
    hide Shr, Shl, Xor, Rem, Cong, Bits, TableT, Append8, Or;
    var om, rest := w[0], w[1..];
    var n := 8 * (WINDOW - 1);
    assert w == [om] + rest;
    ValueHead(om, rest);
    RemOk(Value(w), poly);
    RemOk(Shl(om, n), poly);
    var x := Xor(fp, u[om]);
    CongAdd(fp, Value(w), u[om], Shl(om, n), poly);
    XorComm(Value(w), Shl(om, n));
    XorCancel(Shl(om, n), Value(rest));
    assert Cong(x, Value(rest), poly);
    BitsXor(fp, u[om], k);
    Append8Ok(t, poly, k, x, m);
    CongShl(x, Value(rest), 8, poly);
    CongRefl(m, poly);
    CongAdd(Shl(x, 8), Shl(Value(rest), 8), m, m, poly);
    RemCong(Xor(Shl(x, 8), m), Xor(Shl(Value(rest), 8), m), poly);
    assert (rest + [m])[..|rest|] == rest;
  }

  function Zeros(n: nat): Bytes {
    seq(n, i => 0)
  }

  lemma {:induction false} ZeroValue(n: nat)
    ensures Value(Zeros(n)) == 0
  {
    if n > 0 {
      assert Zeros(n)[..n - 1] == Zeros(n - 1);
      ZeroValue(n - 1);
      ShlZero(8);
      XorZero(0);
    }
  }

  /** The ring buffer and the fingerprint of one pass over the data. */
  class Slider {
    const t: seq<nat>
    const u: seq<nat>
    const shift: nat
    const poly: nat
    var fp: nat
    var bufPos: int
    const buf: array<Byte>

    /** The buffer's bytes, oldest first. */
    ghost function Window(): Bytes
      reads this, buf
      requires -1 <= bufPos < buf.Length
    {
      buf[bufPos + 1..] + buf[..bufPos + 1]
    }

    ghost predicate Valid()
      reads this, buf
    {
      && 9 <= Bits(poly) <= 64 && TableT(t, poly, Bits(poly) - 1) && TableU(u, poly) && shift == Bits(poly) - 9
      && buf.Length == WINDOW && -1 <= bufPos < WINDOW
      && fp == Rem(Value(Window()), poly)
    }

    constructor (t: seq<nat>, u: seq<nat>, shift: nat, poly: nat)
      requires 9 <= Bits(poly) <= 64 && TableT(t, poly, Bits(poly) - 1) && TableU(u, poly) && shift == Bits(poly) - 9
      ensures Valid() && fresh(buf) && Window() == Zeros(WINDOW) && this.poly == poly
    {
      this.t, this.u, this.shift, this.poly := t, u, shift, poly;
      fp, bufPos := 0, -1;
      buf := new Byte[WINDOW](i => 0);
      new;
      assert buf[0..] + buf[..0] == Zeros(WINDOW);
      ZeroValue(WINDOW);
      RemShort(0, poly);
    }

    /** The SLIDE macro. */
    method Slide(m: Byte)
      requires Valid()
      modifies this`fp, this`bufPos, buf
      ensures Valid() && Window() == old(Window())[1..] + [m]
    {
      hide Shl, Rem, Xor, Or, Shr, Bits, TableT, TableU, Value, Append8;
      ghost var w := Window();
      ghost var b0 := buf[..];
      TablesShape(t, u, poly);
      SlideOk(t, u, poly, Bits(poly) - 1, w, fp, m);
      bufPos := bufPos + 1;
      if bufPos >= WINDOW {
        bufPos := 0;
      }
      var om := buf[bufPos];
      assert om == w[0];
      buf[bufPos] := m;
      RingStep(b0, buf[..], bufPos - 1, bufPos, m);
      assert buf[bufPos + 1..] + buf[..bufPos + 1] == w[1..] + [m];
      fp := Append8(t, shift, Xor(fp, u[om]), m);
    }
  }

  lemma {:induction false} TablesShape(t: seq<nat>, u: seq<nat>, poly: nat)
    requires Bits(poly) >= 9 && TableT(t, poly, Bits(poly) - 1) && TableU(u, poly)
    ensures |t| == 256 && |u| == 256
  {
  }

  lemma {:induction false} RingStep(a: Bytes, b: Bytes, pos: int, next: int, m: Byte)
    requires |a| == |b| && -1 <= pos < next < |a| && next == pos + 1 && b == a[next := m]
    ensures b[next + 1..] + b[..next + 1] == (a[pos + 1..] + a[..pos + 1])[1..] + [m]
  {
  }
}
