/** Polynomials over GF(2) as naturals: bit i is the coefficient of x^i. */
module Gf2 {
  /** Addition, which is also subtraction. */
  function Xor(a: nat, b: nat): nat
    decreases a + b
  {
    if a == 0 && b == 0 then 0 else 2 * Xor(a / 2, b / 2) + (a + b) % 2
  }

  function Shl(a: nat, n: nat): nat {
    if n == 0 then a else 2 * Shl(a, n - 1)
  }

  function Shr(a: nat, n: nat): nat {
    if n == 0 then a else Shr(a / 2, n - 1)
  }

  /** The low `n` coefficients. */
  function Low(a: nat, n: nat): nat {
    if n == 0 then 0 else 2 * Low(a / 2, n - 1) + a % 2
  }

  predicate Bit(a: nat, i: nat) {
    Shr(a, i) % 2 == 1
  }

  /** One more than the degree; 0 for the zero polynomial. */
  function Bits(a: nat): nat {
    if a == 0 then 0 else 1 + Bits(a / 2)
  }

  function Mul(a: nat, b: nat): nat {
    if a == 0 then 0 else Xor(if a % 2 == 1 then b else 0, 2 * Mul(a / 2, b))
  }

  /** Schoolbook long division, the reference for every fast remainder. */
  function Rem(n: nat, d: nat): nat
    requires d > 0
    decreases Bits(n)
  {
    if Bits(n) < Bits(d) then n
    else
      assert Bits(Xor(n, Shl(d, Bits(n) - Bits(d)))) < Bits(n) by {
        BitsShl(d, Bits(n) - Bits(d));
        XorTop(n, Shl(d, Bits(n) - Bits(d)));
      }
      Rem(Xor(n, Shl(d, Bits(n) - Bits(d))), d)
  }

  // ---------------------------------------------------------------- addition

  lemma {:induction false} XorZero(a: nat)
    ensures Xor(a, 0) == a && Xor(0, a) == a
  {
    if a > 0 {
      XorZero(a / 2);
    }
  }

  lemma {:induction false} XorSelf(a: nat)
    ensures Xor(a, a) == 0
  {
    if a > 0 {
      XorSelf(a / 2);
    }
  }

  lemma {:induction false} XorComm(a: nat, b: nat)
    ensures Xor(a, b) == Xor(b, a)
    decreases a + b
  {
    if a > 0 || b > 0 {
      XorComm(a / 2, b / 2);
    }
  }

  lemma {:induction false} XorParts(a: nat, b: nat)
    ensures Xor(a, b) / 2 == Xor(a / 2, b / 2) && Xor(a, b) % 2 == (a + b) % 2
  {
  }

  /** Coefficient by coefficient: at most one of the two lowest ones is set. */
  lemma {:induction false} XorDouble(x: nat, y: nat, b: nat, c: nat)
    requires b + c < 2
    ensures Xor(2 * x + b, 2 * y + c) == 2 * Xor(x, y) + b + c
  {
    var a, d := 2 * x + b, 2 * y + c;
    assert a / 2 == x && d / 2 == y && (a + d) % 2 == b + c;
  }

  lemma {:induction false} SameParts(x: nat, y: nat)
    requires x / 2 == y / 2 && x % 2 == y % 2
    ensures x == y
  {
  }

  lemma {:induction false} Parity(x: nat, a: nat, b: nat, c: nat)
    requires x % 2 == (a + b) % 2
    ensures (x + c) % 2 == (a + b + c) % 2
  {
  }

  lemma {:induction false} XorAssoc(a: nat, b: nat, c: nat)
    ensures Xor(Xor(a, b), c) == Xor(a, Xor(b, c))
    decreases a + b + c
  {
    if a == 0 {
      XorZero(b);
      XorZero(Xor(b, c));
    } else {
      hide Xor;
      XorAssoc(a / 2, b / 2, c / 2);
      XorParts(a, b);
      XorParts(b, c);
      XorParts(Xor(a, b), c);
      XorParts(a, Xor(b, c));
      Parity(Xor(a, b), a, b, c);
      Parity(Xor(b, c), b, c, a);
      SameParts(Xor(Xor(a, b), c), Xor(a, Xor(b, c)));
    }
  }

  /** (a+b)+(c+d) == (a+c)+(b+d). */
  lemma {:induction false} XorSwap(a: nat, b: nat, c: nat, d: nat)
    ensures Xor(Xor(a, b), Xor(c, d)) == Xor(Xor(a, c), Xor(b, d))
  {
    XorAssoc(a, b, Xor(c, d));
    XorAssoc(b, c, d);
    XorComm(b, c);
    XorAssoc(c, b, d);
    XorAssoc(a, c, Xor(b, d));
  }

  /** a + (a + b) == b. */
  lemma {:induction false} XorCancel(a: nat, b: nat)
    ensures Xor(a, Xor(a, b)) == b
  {
    XorAssoc(a, a, b);
    XorSelf(a);
    XorZero(b);
  }

  // ---------------------------------------------------------------- shifts and length

  lemma {:induction false} ShlXor(a: nat, b: nat, n: nat)
    ensures Shl(Xor(a, b), n) == Xor(Shl(a, n), Shl(b, n))
  {
    if n > 0 {
      hide Xor;
      ShlXor(a, b, n - 1);
      XorDouble(Shl(a, n - 1), Shl(b, n - 1), 0, 0);
    }
  }

  lemma {:induction false} ShrXor(a: nat, b: nat, n: nat)
    ensures Shr(Xor(a, b), n) == Xor(Shr(a, n), Shr(b, n))
  {
    if n > 0 {
      XorParts(a, b);
      ShrXor(a / 2, b / 2, n - 1);
    }
  }

  lemma {:induction false} LowParts(a: nat, n: nat)
    requires n > 0
    ensures Low(a, n) / 2 == Low(a / 2, n - 1) && Low(a, n) % 2 == a % 2
  {
  }

  lemma {:induction false} LowXor(a: nat, b: nat, n: nat)
    ensures Low(Xor(a, b), n) == Xor(Low(a, n), Low(b, n))
  {
    if n > 0 {
      hide Xor;
      XorParts(a, b);
      LowXor(a / 2, b / 2, n - 1);
      LowParts(a, n);
      LowParts(b, n);
      LowParts(Xor(a, b), n);
      XorParts(Low(a, n), Low(b, n));
      hide Low;
      Parity(Low(a, n), a, 0, Low(b, n));
      Parity(Low(b, n), b, 0, a);
      SameParts(Low(Xor(a, b), n), Xor(Low(a, n), Low(b, n)));
    } else {
      XorZero(0);
    }
  }

  lemma {:induction false} ShlShl(a: nat, m: nat, n: nat)
    ensures Shl(Shl(a, m), n) == Shl(a, m + n)
  {
    if n > 0 {
      ShlShl(a, m, n - 1);
    }
  }

  lemma {:induction false} ShlDouble(a: nat, n: nat)
    ensures Shl(2 * a, n) == 2 * Shl(a, n)
  {
    if n > 0 {
      ShlDouble(a, n - 1);
    }
  }

  lemma {:induction false} ShlZero(n: nat)
    ensures Shl(0, n) == 0
  {
    if n > 0 {
      ShlZero(n - 1);
    }
  }

  /** Shifting left then right. */
  lemma {:induction false} ShrShl(a: nat, m: nat, n: nat)
    ensures m <= n ==> Shr(Shl(a, m), n) == Shr(a, n - m)
    ensures n <= m ==> Shr(Shl(a, m), n) == Shl(a, m - n)
  {
    if m > 0 && n > 0 {
      ShrShl(a, m - 1, n - 1);
    }
  }

  /** Every polynomial is its high part shifted up, plus its low part. */
  lemma {:induction false} Split(a: nat, n: nat)
    ensures Xor(Shl(Shr(a, n), n), Low(a, n)) == a
  {
    if n == 0 {
      XorZero(a);
    } else {
      hide Xor;
      Split(a / 2, n - 1);
      XorDouble(Shl(Shr(a / 2, n - 1), n - 1), Low(a / 2, n - 1), 0, a % 2);
    }
  }

  lemma {:induction false} BitsShl(a: nat, n: nat)
    ensures Bits(Shl(a, n)) == if a == 0 then 0 else Bits(a) + n
  {
    if n > 0 {
      BitsShl(a, n - 1);
    }
  }

  lemma {:induction false} BitsShr(a: nat, n: nat)
    ensures Bits(Shr(a, n)) == if Bits(a) <= n then 0 else Bits(a) - n
  {
    if n > 0 {
      BitsShr(a / 2, n - 1);
    }
  }

  lemma {:induction false} BitsLow(a: nat, n: nat)
    ensures Bits(Low(a, n)) <= n
  {
    if n > 0 {
      BitsLow(a / 2, n - 1);
    }
  }

  lemma {:induction false} LowShort(a: nat, n: nat)
    requires Bits(a) <= n
    ensures Low(a, n) == a
  {
    if n > 0 {
      LowShort(a / 2, n - 1);
    }
  }

  lemma {:induction false} BitsXor(a: nat, b: nat, n: nat)
    requires Bits(a) <= n && Bits(b) <= n
    ensures Bits(Xor(a, b)) <= n
    decreases n
  {
    if n > 0 {
      BitsXor(a / 2, b / 2, n - 1);
      XorParts(a, b);
    }
  }

  /** Equal degrees cancel. */
  lemma {:induction false} XorTop(a: nat, b: nat)
    requires Bits(a) == Bits(b) > 0
    ensures Bits(Xor(a, b)) < Bits(a)
  {
    XorParts(a, b);
    if Bits(a) > 1 {
      XorTop(a / 2, b / 2);
    } else {
      assert a / 2 == 0 && b / 2 == 0;
      XorZero(0);
    }
  }

  /** The longer one decides the degree. */
  lemma {:induction false} XorLonger(a: nat, b: nat)
    requires Bits(a) < Bits(b)
    ensures Bits(Xor(a, b)) == Bits(b)
    decreases b
  {
    XorParts(a, b);
    if a == 0 {
      XorZero(b);
    } else {
      XorLonger(a / 2, b / 2);
    }
  }

  lemma {:induction false} TopBit(a: nat, i: nat)
    requires Bits(a) <= i + 1
    ensures Bit(a, i) <==> Bits(a) == i + 1
  {
    if i > 0 {
      TopBit(a / 2, i - 1);
    }
  }

  // ---------------------------------------------------------------- multiplication

  lemma {:induction false} DoubleXor(a: nat, b: nat)
    ensures 2 * Xor(a, b) == Xor(2 * a, 2 * b)
  {
    XorParts(2 * a, 2 * b);
  }

  lemma {:induction false} MulXor(a: nat, b: nat, d: nat)
    ensures Mul(Xor(a, b), d) == Xor(Mul(a, d), Mul(b, d))
    decreases a + b
  {
    if a == 0 {
      XorZero(b);
      XorZero(Mul(b, d));
    } else if b == 0 {
      XorZero(a);
      XorZero(Mul(a, d));
    } else {
      var x, y := if a % 2 == 1 then d else 0, if b % 2 == 1 then d else 0;
      var p, q := Mul(a / 2, d), Mul(b / 2, d);
      MulXor(a / 2, b / 2, d);
      XorParts(a, b);
      MulStep(Xor(a, b), d);
      MulStep(a, d);
      MulStep(b, d);
      hide Mul, Xor;
      DoubleXor(p, q);
      XorSwap(x, 2 * p, y, 2 * q);
      OddSum(a, b, d);
    }
  }

  lemma {:induction false} OddSum(a: nat, b: nat, d: nat)
    ensures Xor(if a % 2 == 1 then d else 0, if b % 2 == 1 then d else 0) == if (a + b) % 2 == 1 then d else 0
  {
    XorSelf(d);
    XorZero(d);
    XorZero(0);
  }

  lemma {:induction false} MulStep(a: nat, d: nat)
    ensures Mul(a, d) == Xor(if a % 2 == 1 then d else 0, 2 * Mul(a / 2, d))
  {
    if a == 0 {
      XorZero(0);
    }
  }

  lemma {:induction false} MulDouble(a: nat, d: nat)
    ensures Mul(2 * a, d) == 2 * Mul(a, d)
  {
    MulStep(2 * a, d);
    XorZero(2 * Mul(a, d));
  }

  lemma {:induction false} MulShl(a: nat, n: nat, d: nat)
    ensures Mul(Shl(a, n), d) == Shl(Mul(a, d), n)
  {
    if n > 0 {
      MulShl(a, n - 1, d);
      MulDouble(Shl(a, n - 1), d);
    }
  }

  lemma {:induction false} MulOne(d: nat)
    ensures Mul(1, d) == d
  {
    MulStep(1, d);
    XorZero(d);
  }

  lemma {:induction false} MulAssoc(a: nat, b: nat, c: nat)
    ensures Mul(a, Mul(b, c)) == Mul(Mul(a, b), c)
  {
    if a > 0 {
      MulAssoc(a / 2, b, c);
      MulDouble(Mul(a / 2, b), c);
      MulXor(if a % 2 == 1 then b else 0, 2 * Mul(a / 2, b), c);
    }
  }

  lemma {:induction false} MulXorRight(a: nat, b: nat, c: nat)
    ensures Mul(a, Xor(b, c)) == Xor(Mul(a, b), Mul(a, c))
  {
    if a == 0 {
      XorZero(0);
    } else {
      MulXorRight(a / 2, b, c);
      DoubleXor(Mul(a / 2, b), Mul(a / 2, c));
      XorSwap(if a % 2 == 1 then b else 0, 2 * Mul(a / 2, b), if a % 2 == 1 then c else 0, 2 * Mul(a / 2, c));
      XorZero(0);
    }
  }

  lemma {:induction false} MulBits(a: nat, d: nat)
    requires a > 0 && d > 0
    ensures Bits(Mul(a, d)) == Bits(a) + Bits(d) - 1
  {
    if a == 1 {
      MulOne(d);
    } else {
      MulBits(a / 2, d);
      XorLonger(if a % 2 == 1 then d else 0, 2 * Mul(a / 2, d));
    }
  }

  // ---------------------------------------------------------------- congruence

  /** a and b differ by a multiple of d. */
  ghost predicate Cong(a: nat, b: nat, d: nat) {
    exists q: nat :: Xor(a, b) == Mul(q, d)
  }

  lemma {:induction false} CongRefl(a: nat, d: nat)
    ensures Cong(a, a, d)
  {
    XorSelf(a);
    assert Xor(a, a) == Mul(0, d);
  }

  lemma {:induction false} CongSym(a: nat, b: nat, d: nat)
    requires Cong(a, b, d)
    ensures Cong(b, a, d)
  {
    XorComm(a, b);
  }

  lemma {:induction false} CongAdd(a: nat, b: nat, x: nat, y: nat, d: nat)
    requires Cong(a, b, d) && Cong(x, y, d)
    ensures Cong(Xor(a, x), Xor(b, y), d)
  {
    var p: nat :| Xor(a, b) == Mul(p, d);
    var q: nat :| Xor(x, y) == Mul(q, d);
    XorSwap(a, x, b, y);
    MulXor(p, q, d);
    assert Xor(Xor(a, x), Xor(b, y)) == Mul(Xor(p, q), d);
  }

  lemma {:induction false} CongTrans(a: nat, b: nat, c: nat, d: nat)
    requires Cong(a, b, d) && Cong(b, c, d)
    ensures Cong(a, c, d)
  {
    CongAdd(a, b, b, c, d);
    var q: nat :| Xor(Xor(a, b), Xor(b, c)) == Mul(q, d);
    XorAssoc(a, b, Xor(b, c));
    XorCancel(b, c);
    assert Xor(a, c) == Mul(q, d);
  }

  lemma {:induction false} CongShl(a: nat, b: nat, n: nat, d: nat)
    requires Cong(a, b, d)
    ensures Cong(Shl(a, n), Shl(b, n), d)
  {
    var q: nat :| Xor(a, b) == Mul(q, d);
    ShlXor(a, b, n);
    MulShl(q, n, d);
    assert Xor(Shl(a, n), Shl(b, n)) == Mul(Shl(q, n), d);
  }

  lemma {:induction false} CongMul(c: nat, a: nat, b: nat, d: nat)
    requires Cong(a, b, d)
    ensures Cong(Mul(c, a), Mul(c, b), d)
  {
    var q: nat :| Xor(a, b) == Mul(q, d);
    MulXorRight(c, a, b);
    MulAssoc(c, q, d);
    assert Xor(Mul(c, a), Mul(c, b)) == Mul(Mul(c, q), d);
  }

  /** Subtracting a shifted divisor changes nothing modulo the divisor. */
  lemma {:induction false} CongSub(a: nat, d: nat, n: nat)
    ensures Cong(Xor(a, Shl(d, n)), a, d)
  {
    XorComm(Xor(a, Shl(d, n)), a);
    XorCancel(a, Shl(d, n));
    MulShl(1, n, d);
    MulOne(d);
    assert Xor(Xor(a, Shl(d, n)), a) == Mul(Shl(1, n), d);
  }

  /** There is only one residue below the divisor's degree. */
  lemma {:induction false} ResidueUnique(a: nat, b: nat, d: nat)
    requires d > 0 && Bits(a) < Bits(d) && Bits(b) < Bits(d) && Cong(a, b, d)
    ensures a == b
  {
    var q: nat :| Xor(a, b) == Mul(q, d);
    BitsXor(a, b, Bits(d) - 1);
    if q > 0 {
      MulBits(q, d);
    }
    assert Xor(a, b) == 0;
    XorCancel(a, b);
    XorZero(a);
  }

  lemma {:induction false} RemOk(n: nat, d: nat)
    requires d > 0
    ensures Bits(Rem(n, d)) < Bits(d) && Cong(Rem(n, d), n, d)
    decreases Bits(n)
  {
    hide Xor, Shl, Cong;
    if Bits(n) < Bits(d) {
      CongRefl(n, d);
    } else {
      var s := Bits(n) - Bits(d);
      BitsShl(d, s);
      XorTop(n, Shl(d, s));
      RemOk(Xor(n, Shl(d, s)), d);
      CongSub(n, d, s);
      CongTrans(Rem(n, d), Xor(n, Shl(d, s)), n, d);
    }
  }

  /** Anything short and congruent to `n` is the remainder of `n`. */
  lemma {:induction false} IsRem(r: nat, n: nat, d: nat)
    requires d > 0 && Bits(r) < Bits(d) && Cong(r, n, d)
    ensures r == Rem(n, d)
  {
    RemOk(n, d);
    CongSym(Rem(n, d), n, d);
    CongTrans(r, n, Rem(n, d), d);
    ResidueUnique(r, Rem(n, d), d);
  }
}
