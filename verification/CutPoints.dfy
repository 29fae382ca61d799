/** Content-defined cut functions: rabin, normalized rabin and TTTD, on the rolling fingerprint. */
module CutPoints {
  import opened Common
  import opened Gf2
  import opened Rabin

  const BREAKMARK_VALUE := 0x78
  const ALL_ONES := 0xffff_ffff_ffff_ffff

  /** Chunk sizes, and the polynomial of the fingerprint. */
  datatype Params = Params(min: nat, avg: nat, max: nat, poly: nat)

  predicate ParamsOk(prm: Params) {
    1 <= prm.min <= prm.avg <= prm.max && 9 <= Bits(prm.poly) <= 64
  }

  /** The window after feeding p[lo..i]: its last 48 bytes, zero padded. */
  function WindowAt(p: Bytes, lo: nat, i: nat): Bytes
    requires lo <= i <= |p|
  {
    (Zeros(WINDOW) + p[lo..i])[i - lo..]
  }

  /** The fingerprint at position `i`, computed from scratch. */
  function FpAt(p: Bytes, prm: Params, i: nat): nat
    requires ParamsOk(prm) && prm.min <= i <= |p|
  {
    Rem(Value(WindowAt(p, prm.min - 1, i)), prm.poly)
  }

  /** `fp & mask == BREAKMARK_VALUE`; a mask of -1 keeps the whole word. */
  predicate Matches(fp: nat, mask: int) {
    And(fp, if mask < 0 then ALL_ONES else mask) == BREAKMARK_VALUE
  }

  datatype Kind = Standard | Normalized

  /** The mask in force at position `i`. */
  function MaskAt(kind: Kind, prm: Params, i: nat): int {
    match kind
    case Standard => prm.avg - 1
    case Normalized => if i < prm.avg then prm.avg * 2 - 1 else prm.avg / 2 - 1
  }

  predicate CutsAt(kind: Kind, p: Bytes, prm: Params, i: nat)
    requires ParamsOk(prm) && prm.min <= i <= |p|
  {
    Matches(FpAt(p, prm, i), MaskAt(kind, prm, i))
  }

  predicate BackupAt(p: Bytes, prm: Params, i: nat)
    requires ParamsOk(prm) && prm.min <= i <= |p|
  {
    Matches(FpAt(p, prm, i), prm.avg / 2 - 1)
  }

  lemma {:induction false} WindowNext(p: Bytes, lo: nat, i: nat)
    requires lo <= i < |p|
    ensures |WindowAt(p, lo, i)| == WINDOW
    ensures WindowAt(p, lo, i + 1) == WindowAt(p, lo, i)[1..] + [p[i]]
    ensures WindowAt(p, lo, lo) == Zeros(WINDOW)
  {
    var a, b := Zeros(WINDOW) + p[lo..i], Zeros(WINDOW) + p[lo..i + 1];
    assert b == a + [p[i]];
    assert Zeros(WINDOW) + p[lo..lo] == Zeros(WINDOW);
  }

  /** One SLIDE over p[i - 1]: the rolling fingerprint is the one computed from scratch. */
  method Feed(s: Slider, p: Bytes, prm: Params, i: nat)
    requires ParamsOk(prm) && prm.min <= i <= |p|
    requires s.Valid() && s.poly == prm.poly && s.Window() == WindowAt(p, prm.min - 1, i - 1)
    modifies s`fp, s`bufPos, s.buf
    ensures s.Valid() && s.Window() == WindowAt(p, prm.min - 1, i)
    ensures s.fp == FpAt(p, prm, i)
  {
    hide TableT, TableU, Rem, Value, Bits;
    WindowNext(p, prm.min - 1, i - 1);
    s.Slide(p[i - 1]);
  }

  /** rabin_chunk_data and normalized_rabin_chunk_data: the first matching position, else the end. */
  method RabinCut(kind: Kind, p: Bytes, prm: Params, t: seq<nat>, u: seq<nat>, shift: nat) returns (i: nat)
    requires ParamsOk(prm) && shift == Bits(prm.poly) - 9
    requires TableT(t, prm.poly, Bits(prm.poly) - 1) && TableU(u, prm.poly)
    ensures |p| <= prm.min ==> i == |p|
    ensures |p| > prm.min ==> prm.min <= i <= Min(|p|, prm.max)
    ensures |p| > prm.min ==> forall j | prm.min <= j < i :: !CutsAt(kind, p, prm, j)
    ensures |p| > prm.min && i < Min(|p|, prm.max) ==> CutsAt(kind, p, prm, i)
    ensures i == RabinSpec(kind, p, prm)
  {
    hide TableT, TableU, Rem, Value, And, Bits, Matches, WindowAt, FpAt;
    if |p| <= prm.min {
      return |p|;
    }
    var slider := new Slider(t, u, shift, prm.poly);
    i := prm.min;
    var end := if |p| > prm.max then prm.max else |p|;
    WindowNext(p, prm.min - 1, prm.min - 1);
    while i < end
      invariant fresh(slider) && fresh(slider.buf) && slider.Valid() && slider.poly == prm.poly
      invariant prm.min <= i <= end && slider.Window() == WindowAt(p, prm.min - 1, i - 1)
      invariant forall j | prm.min <= j < i :: !CutsAt(kind, p, prm, j)
    {
      Feed(slider, p, prm, i);
      if Matches(slider.fp, MaskAt(kind, prm, i)) {
        break;
      }
      i := i + 1;
    }
    IsFirst(kind, p, prm, prm.min, i);
  }

  function FirstCut(kind: Kind, p: Bytes, prm: Params, i: nat): nat
    requires ParamsOk(prm) && prm.min <= i <= Min(|p|, prm.max)
    decreases Min(|p|, prm.max) - i
  {
    if i >= Min(|p|, prm.max) || CutsAt(kind, p, prm, i) then i else FirstCut(kind, p, prm, i + 1)
  }

  function RabinSpec(kind: Kind, p: Bytes, prm: Params): nat
    requires ParamsOk(prm)
  {
    if |p| <= prm.min then |p| else FirstCut(kind, p, prm, prm.min)
  }

  lemma {:induction false} IsFirst(kind: Kind, p: Bytes, prm: Params, i: nat, r: nat)
    requires ParamsOk(prm) && prm.min <= i <= r <= Min(|p|, prm.max)
    requires forall j | i <= j < r :: !CutsAt(kind, p, prm, j)
    requires r < Min(|p|, prm.max) ==> CutsAt(kind, p, prm, r)
    ensures FirstCut(kind, p, prm, i) == r
    decreases r - i
  {
    hide CutsAt;
    if i < r {
      IsFirst(kind, p, prm, i + 1, r);
    }
  }

  /** tttd_chunk_data: the first main match, else the last backup match, else the end. */
  method TttdCut(p: Bytes, prm: Params, t: seq<nat>, u: seq<nat>, shift: nat) returns (r: nat)
    requires ParamsOk(prm) && shift == Bits(prm.poly) - 9
    requires TableT(t, prm.poly, Bits(prm.poly) - 1) && TableU(u, prm.poly)
    ensures r == TttdSpec(p, prm)
  {
    hide TableT, TableU, Rem, Value, And, Bits, Matches, WindowAt, FpAt;
    if |p| <= prm.min {
      return |p|;
    }
    var slider := new Slider(t, u, shift, prm.poly);
    var i: nat, m: nat, end: nat := prm.min, 0, if |p| > prm.max then prm.max else |p|;
    WindowNext(p, prm.min - 1, prm.min - 1);
    while i < end
      invariant fresh(slider) && fresh(slider.buf) && slider.Valid() && slider.poly == prm.poly
      invariant prm.min <= i <= end && slider.Window() == WindowAt(p, prm.min - 1, i - 1)
      invariant TttdSpec(p, prm) == TttdFrom(p, prm, i, m)
    {
      Feed(slider, p, prm, i);
      if Matches(slider.fp, prm.avg / 2 - 1) {
        if Matches(slider.fp, prm.avg - 1) {
          return i;
        }
        m := i;
      }
      i := i + 1;
    }
    if m != 0 {
      return m;
    }
    return i;
  }

  /** The scan of TTTD from position `i`, with backup candidate `m` (0 for none). */
  function TttdFrom(p: Bytes, prm: Params, i: nat, m: nat): nat
    requires ParamsOk(prm) && prm.min <= i <= Min(|p|, prm.max)
    decreases Min(|p|, prm.max) - i
  {
    if i >= Min(|p|, prm.max) then (if m != 0 then m else i)
    else if BackupAt(p, prm, i) then
      if CutsAt(Standard, p, prm, i) then i else TttdFrom(p, prm, i + 1, i)
    else TttdFrom(p, prm, i + 1, m)
  }

  function TttdSpec(p: Bytes, prm: Params): nat
    requires ParamsOk(prm)
  {
    if |p| <= prm.min then |p| else TttdFrom(p, prm, prm.min, 0)
  }

  /** Both masks hold at `i`: the position where TTTD cuts without looking further. */
  predicate MainAt(p: Bytes, prm: Params, i: nat)
    requires ParamsOk(prm) && prm.min <= i <= |p|
  {
    BackupAt(p, prm, i) && CutsAt(Standard, p, prm, i)
  }

  /** What the scan returns, said without the scan. */
  lemma {:induction false} TttdMeaning(p: Bytes, prm: Params, i: nat, m: nat)
    requires ParamsOk(prm) && prm.min <= i <= Min(|p|, prm.max)
    requires m != 0 ==> prm.min <= m < i
    ensures var r, end := TttdFrom(p, prm, i, m), Min(|p|, prm.max);
            && 0 < r <= end
            && (forall j | i <= j < end && MainAt(p, prm, j) :: r <= j)
            && ((exists j | i <= j < end :: MainAt(p, prm, j)) ==> i <= r < end && MainAt(p, prm, r))
            && ((forall j | i <= j < end :: !MainAt(p, prm, j)) ==>
                  && (forall j | i <= j < end && BackupAt(p, prm, j) :: j <= r < end)
                  && ((exists j | i <= j < end :: BackupAt(p, prm, j)) ==> i <= r && BackupAt(p, prm, r))
                  && ((forall j | i <= j < end :: !BackupAt(p, prm, j)) ==> r == if m != 0 then m else end))
    decreases Min(|p|, prm.max) - i
  {
    hide BackupAt, CutsAt;
    var end := Min(|p|, prm.max);
    if i < end {
      if BackupAt(p, prm, i) {
        if CutsAt(Standard, p, prm, i) {
          assert MainAt(p, prm, i);
        } else {
          TttdMeaning(p, prm, i + 1, i);
          assert !MainAt(p, prm, i);
        }
      } else {
        TttdMeaning(p, prm, i + 1, m);
        assert !MainAt(p, prm, i);
      }
    }
  }

  /** Main match first, then the last backup match, then the end; never more than max or than the data. */
  lemma {:induction false} TttdIsRight(p: Bytes, prm: Params)
    requires ParamsOk(prm) && |p| > prm.min
    ensures var r, end := TttdSpec(p, prm), Min(|p|, prm.max);
            && 0 < r <= end
            && (forall j | prm.min <= j < end && MainAt(p, prm, j) :: r <= j)
            && ((exists j | prm.min <= j < end :: MainAt(p, prm, j)) ==> prm.min <= r < end && MainAt(p, prm, r))
            && ((forall j | prm.min <= j < end :: !MainAt(p, prm, j)) ==>
                  && (forall j | prm.min <= j < end && BackupAt(p, prm, j) :: j <= r < end)
                  && ((exists j | prm.min <= j < end :: BackupAt(p, prm, j)) ==> prm.min <= r && BackupAt(p, prm, r))
                  && ((forall j | prm.min <= j < end :: !BackupAt(p, prm, j)) ==> r == end))
  {
    TttdMeaning(p, prm, prm.min, 0);
  }

  // ---------------------------------------------------------------- cuts look no further than max

  lemma {:induction false} FpLocal(p: Bytes, t: Bytes, prm: Params, i: nat)
    requires ParamsOk(prm) && prm.min <= i <= |p|
    ensures FpAt(p + t, prm, i) == FpAt(p, prm, i)
  {
    assert (p + t)[prm.min - 1..i] == p[prm.min - 1..i];
  }

  lemma {:induction false} FirstCutLocal(kind: Kind, p: Bytes, t: Bytes, prm: Params, i: nat)
    requires ParamsOk(prm) && |p| >= prm.max && prm.min <= i <= prm.max
    ensures FirstCut(kind, p + t, prm, i) == FirstCut(kind, p, prm, i)
    ensures i <= FirstCut(kind, p, prm, i) <= prm.max
    decreases prm.max - i
  {
    hide FpAt, Matches;
    if i < prm.max {
      FpLocal(p, t, prm, i);
      FirstCutLocal(kind, p, t, prm, i + 1);
    }
  }

  lemma {:induction false} TttdLocal(p: Bytes, t: Bytes, prm: Params, i: nat, m: nat)
    requires ParamsOk(prm) && |p| >= prm.max && prm.min <= i <= prm.max
    ensures TttdFrom(p + t, prm, i, m) == TttdFrom(p, prm, i, m)
    decreases prm.max - i
  {
    hide FpAt, Matches;
    if i < prm.max {
      FpLocal(p, t, prm, i);
      TttdLocal(p, t, prm, i + 1, i);
      TttdLocal(p, t, prm, i + 1, m);
    }
  }

  lemma {:induction false} FirstCutRange(kind: Kind, p: Bytes, prm: Params, i: nat)
    requires ParamsOk(prm) && prm.min <= i <= Min(|p|, prm.max)
    ensures i <= FirstCut(kind, p, prm, i) <= Min(|p|, prm.max)
    decreases Min(|p|, prm.max) - i
  {
    hide CutsAt;
    if i < Min(|p|, prm.max) {
      FirstCutRange(kind, p, prm, i + 1);
    }
  }

  // ---------------------------------------------------------------- what the masks ask for

  lemma {:induction false} ModDouble(a: nat, n: nat)
    requires n > 0
    ensures a % (2 * n) == 2 * (a / 2 % n) + a % 2
  {
    var h := a / 2;
    ModUnique(a, 2 * n, h / n, 2 * (h % n) + a % 2);
  }

  /** A mask of k ones keeps the remainder modulo 2^k. */
  lemma {:induction false} AndIsMod(a: nat, k: nat)
    ensures Shl(1, k) >= 1 && And(a, Shl(1, k) - 1) == a % Shl(1, k)
  {
    if k == 0 {
      AndNothing(a);
    } else {
      var n := Shl(1, k - 1);
      AndIsMod(a / 2, k - 1);
      ModDouble(a, n);
      AndOnes(a, n);
    }
  }

  lemma {:induction false} AndNothing(a: nat)
    ensures And(a, 0) == 0
  {
    if a > 0 {
      AndNothing(a / 2);
    }
  }

  lemma {:induction false} AndOnes(a: nat, n: nat)
    requires n >= 1
    ensures And(a, 2 * n - 1) == 2 * And(a / 2, n - 1) + a % 2
  {
    assert (2 * n - 1) / 2 == n - 1 && (2 * n - 1) % 2 == 1;
  }

  /** A mask of n - 1, for n a power of two, compares the remainder modulo n. */
  lemma {:induction false} MaskMeans(fp: nat, n: nat, k: nat)
    requires n == Shl(1, k)
    ensures n >= 1 && (Matches(fp, n - 1) <==> fp % n == 0x78)
  {
    hide And, Shl;
    AndIsMod(fp, k);
  }

  lemma {:induction false} CutsMeans(p: Bytes, prm: Params, i: nat)
    requires ParamsOk(prm) && prm.min <= i <= |p|
    ensures CutsAt(Standard, p, prm, i) <==> Matches(FpAt(p, prm, i), prm.avg - 1)
    ensures CutsAt(Normalized, p, prm, i) <==> Matches(FpAt(p, prm, i), (if i < prm.avg then 2 * prm.avg else prm.avg / 2) - 1)
    ensures BackupAt(p, prm, i) <==> Matches(FpAt(p, prm, i), prm.avg / 2 - 1)
  {
    hide Matches, FpAt;
    assert prm.avg * 2 == 2 * prm.avg;
  }

  /**
   * For an average size of 2^k, in numbers: standard rabin cuts where the fingerprint is 0x78 modulo the average size;
   * normalized rabin modulo twice that before the average size and modulo half of it from there on; the backup mask of
   * TTTD is half the average size.
   */
  lemma {:induction false} CutsByRemainder(p: Bytes, prm: Params, i: nat, k: nat)
    requires ParamsOk(prm) && prm.min <= i <= |p| && k >= 1 && prm.avg == Shl(1, k)
    ensures CutsAt(Standard, p, prm, i) <==> FpAt(p, prm, i) % prm.avg == 0x78
    ensures CutsAt(Normalized, p, prm, i) <==> FpAt(p, prm, i) % (if i < prm.avg then 2 * prm.avg else prm.avg / 2) == 0x78
    ensures BackupAt(p, prm, i) <==> FpAt(p, prm, i) % (prm.avg / 2) == 0x78
  {
    hide *;
    var fp, avg := FpAt(p, prm, i), prm.avg;
    ShlUnfold(1, k - 1);
    ShlUnfold(1, k);
    MaskMeans(fp, avg, k);
    MaskMeans(fp, 2 * avg, k + 1);
    MaskMeans(fp, avg / 2, k - 1);
    CutsMeans(p, prm, i);
  }

  /** A remainder modulo 2n, taken modulo n. */
  lemma {:induction false} ModHalf(a: nat, n: nat)
    requires n > 0x78 && a % (2 * n) == 0x78
    ensures a % n == 0x78
  {
    var q := a / (2 * n);
    assert a == q * (2 * n) + 0x78;
    assert q * (2 * n) == (2 * q) * n;
    ModUnique(a, n, 2 * q, 0x78);
  }

  /** Normalizing makes cuts rarer before the average size and more frequent behind it. */
  lemma {:induction false} NormalizedShifts(p: Bytes, prm: Params, i: nat, k: nat)
    requires ParamsOk(prm) && prm.min <= i <= |p| && k >= 8 && prm.avg == Shl(1, k)
    ensures i < prm.avg && CutsAt(Normalized, p, prm, i) ==> CutsAt(Standard, p, prm, i)
    ensures i >= prm.avg && CutsAt(Standard, p, prm, i) ==> CutsAt(Normalized, p, prm, i)
    ensures CutsAt(Standard, p, prm, i) ==> BackupAt(p, prm, i)
  {
    hide *;
    CutsByRemainder(p, prm, i, k);
    AtLeast256(k);
    ShlUnfold(1, k - 1);
    var fp, n := FpAt(p, prm, i), prm.avg / 2;
    if fp % (2 * prm.avg) == 0x78 {
      ModHalf(fp, prm.avg);
    }
    if fp % prm.avg == 0x78 {
      assert prm.avg == 2 * n;
      ModHalf(fp, n);
    }
  }

  lemma {:induction false} AtLeast256(k: nat)
    requires k >= 8
    ensures Shl(1, k) >= 256
  {
    if k > 8 {
      AtLeast256(k - 1);
    } else {
      assert Shl(1, 4) == 16;
    }
  }
}
