/** The recipe file as segments: packed segment ids, flags, prefetching, and sequential reading. */
module SegmentRecipes {
  import opened Common
  import opened Recipes
  import opened Serial

  // ---------------------------------------------------------------- segment ids

  /** Two's complement wrap-around to 64 bits. */
  function Wrap64(n: int): int {
    (n + 0x8000_0000_0000_0000) % 0x1_0000_0000_0000_0000 - 0x8000_0000_0000_0000
  }

  /** make_segment_id: 16 bits of backup number, 32 of offset, 16 of size. */
  function MakeSegmentId(bnum: int, off: int, size: int): int {
    Wrap64(bnum * 0x1_0000_0000_0000 + off * 0x1_0000 + size)
  }

  function IdToSize(id: int): int {
    id % 0x1_0000
  }

  function IdToOff(id: int): int {
    id / 0x1_0000 % 0x1_0000_0000
  }

  function IdToBnum(id: int): int {
    id / 0x1_0000_0000_0000
  }

  predicate IdFits(bnum: int, off: int, size: int) {
    -0x8000 <= bnum < 0x8000 && 0 <= off < 0x1_0000_0000 && 0 <= size < 0x1_0000
  }

  lemma {:induction false} Unpack(bnum: int, off: int, size: int)
    requires 0 <= off < 0x1_0000_0000 && 0 <= size < 0x1_0000
    ensures var id := bnum * 0x1_0000_0000_0000 + off * 0x1_0000 + size;
            IdToBnum(id) == bnum && IdToOff(id) == off && IdToSize(id) == size
  {
    var id := bnum * 0x1_0000_0000_0000 + off * 0x1_0000 + size;
    var upper := bnum * 0x1_0000_0000 + off;
    assert id == upper * 0x1_0000 + size;
    assert id / 0x1_0000 == upper;
  }

  /** An id unpacks to what was packed exactly when every part is within its bits. */
  lemma {:induction false} IdRoundTripExactly(bnum: int, off: int, size: int)
    ensures var id := MakeSegmentId(bnum, off, size);
            (IdToBnum(id) == bnum && IdToOff(id) == off && IdToSize(id) == size) <==> IdFits(bnum, off, size)
  {
    if IdFits(bnum, off, size) {
      Unpack(bnum, off, size);
    }
  }

  /** A file-defined segment of 65536 chunks or more moves the offset in its own id. */
  lemma {:induction false} LongSegmentMisplaced(bnum: int, off: int, size: int)
    requires 0 <= bnum < 0x8000 && 0 <= off && 0x1_0000 <= size && off + size / 0x1_0000 < 0x1_0000_0000
    ensures IdToOff(MakeSegmentId(bnum, off, size)) == off + size / 0x1_0000 != off
  {
    var high, low := size / 0x1_0000, size % 0x1_0000;
    Unpack(bnum, off + high, low);
    assert bnum * 0x1_0000_0000_0000 + off * 0x1_0000 + size
        == bnum * 0x1_0000_0000_0000 + (off + high) * 0x1_0000 + low;
  }

  // ---------------------------------------------------------------- records and segments

  const RECORD_SIZE := 32
  const SEGMENT_START := 4
  const SEGMENT_END := 8

  function RecordBytes(little: bool, p: Pointer): (r: Bytes)
    requires |p.fp| == FP_SIZE && Fits(p.id, 8) && Fits(p.size, 4)
    ensures |r| == RECORD_SIZE
  {
    p.fp + Native(little, p.id, 8) + Native(little, p.size, 4)
  }

  function ParseRecord(little: bool, r: Bytes): Pointer
    requires |r| == RECORD_SIZE
  {
    Pointer(r[..20], FromNative(little, r[20..28]), FromNative(little, r[28..]))
  }

  lemma {:induction false} RecordRoundTrip(little: bool, p: Pointer)
    requires |p.fp| == FP_SIZE && Fits(p.id, 8) && Fits(p.size, 4)
    ensures ParseRecord(little, RecordBytes(little, p)) == p
    ensures var r := RecordBytes(little, p);
            r[..20] == p.fp && FromNative(little, r[20..28]) == p.id && FromNative(little, r[28..]) == p.size
  {
    var r := RecordBytes(little, p);
    assert r[..20] == p.fp && r[20..28] == Native(little, p.id, 8) && r[28..] == Native(little, p.size, 4);
    NativeRoundTrip(little, p.id, 8);
    NativeRoundTrip(little, p.size, 4);
  }

  function Flag(start: bool, size: int): Pointer {
    Pointer(seq(FP_SIZE, i => 0), -(if start then SEGMENT_START else SEGMENT_END), size)
  }

  predicate IsFlag(p: Pointer) {
    p.id == -SEGMENT_START || p.id == -SEGMENT_END
  }

  /** Pointers to containers, as append_n_chunk_pointers requires of its caller. */
  predicate Real(seg: seq<Pointer>) {
    forall i | 0 <= i < |seg| :: seg[i].id >= 0
  }

  function SegmentRecords(seg: seq<Pointer>): (r: seq<Pointer>)
    ensures |r| == |seg| + 2
  {
    [Flag(true, |seg|)] + seg + [Flag(false, 0)]
  }

  /** The recipe file, in records of 32 bytes. */
  function FileOf(segs: seq<seq<Pointer>>): seq<Pointer> {
    if segs == [] then [] else FileOf(segs[..|segs| - 1]) + SegmentRecords(segs[|segs| - 1])
  }

  /** The segment id of the k-th segment. */
  function SegmentId(bnum: int, segs: seq<seq<Pointer>>, k: nat): int
    requires k < |segs|
  {
    MakeSegmentId(bnum, RECORD_SIZE * |FileOf(segs[..k])|, |segs[k]|)
  }

  // ---------------------------------------------------------------- writing

  /** The recipe part of struct backupVersion. */
  class Writer {
    const bnum: int
    var file: seq<Pointer>
    var buffer: seq<Pointer>
    var length: int
    var chunks: nat

    constructor (bnum: int)
      ensures this.bnum == bnum && file == [] && chunks == 0
    {
      this.bnum, file, buffer, length, chunks := bnum, [], [], 0, 0;
    }

    /** append_segment_flag. The END flag writes `length` records: exactly what has been buffered. */
    method AppendFlag(start: bool, size: int) returns (id: int)
      requires !start ==> |buffer| + 1 == length
      modifies this`file, this`buffer, this`length
      ensures start ==> buffer == [Flag(true, size)] && length == 2 + size && file == old(file)
      ensures start ==> id == MakeSegmentId(bnum, RECORD_SIZE * |file|, size)
      ensures !start ==> id == TEMPORARY_ID && file == old(file + buffer) + [Flag(false, size)]
    {
      var off := RECORD_SIZE * |file|;
      if start {
        length, buffer := 2 + size, [];
      }
      buffer := buffer + [Flag(start, size)];
      if !start {
        assert |buffer| == length;
        file := file + buffer;
        buffer, length := [], 0;
        return TEMPORARY_ID;
      }
      return MakeSegmentId(bnum, off, size);
    }

    /** One segment as filter_thread writes it. */
    method WriteSegment(ghost segs: seq<seq<Pointer>>, seg: seq<Pointer>) returns (id: int)
      requires file == FileOf(segs)
      modifies this
      ensures file == FileOf(segs + [seg]) && id == SegmentId(bnum, segs + [seg], |segs|)
      ensures chunks == old(chunks) + |seg|
    {
      assert (segs + [seg])[..|segs|] == segs;
      id := AppendFlag(true, |seg|);
      for i := 0 to |seg|
        invariant buffer == [Flag(true, |seg|)] + seg[..i] && length == 2 + |seg|
        invariant file == old(file) && chunks == old(chunks) + i
      {
        buffer := buffer + [seg[i]];
        chunks := chunks + 1;
      }
      assert seg[..|seg|] == seg;
      var end := AppendFlag(false, 0);
      assert file == FileOf(segs) + SegmentRecords(seg);
    }
  }

  // ---------------------------------------------------------------- reading segments

  datatype SegmentRecipe = SegmentRecipe(id: int, pairs: map<Fp, Pointer>)

  /** The hash table of a segment: later pointers replace earlier ones of the same fingerprint. */
  function LastWins(seg: seq<Pointer>): map<Fp, Pointer> {
    if seg == [] then map[] else LastWins(seg[..|seg| - 1])[seg[|seg| - 1].fp := seg[|seg| - 1]]
  }

  /** Every fingerprint of the segment is mapped to its last pointer. */
  lemma {:induction false} LastWinsMeaning(seg: seq<Pointer>, fp: Fp)
    ensures fp in LastWins(seg) <==> exists i :: 0 <= i < |seg| && seg[i].fp == fp
    ensures fp in LastWins(seg) ==>
              exists i :: 0 <= i < |seg| && seg[i].fp == fp && LastWins(seg)[fp] == seg[i]
                          && forall j | i < j < |seg| :: seg[j].fp != fp
  {
    if seg != [] {
      var m := |seg| - 1;
      LastWinsMeaning(seg[..m], fp);
      if seg[m].fp == fp {
        assert seg[m].fp == fp && LastWins(seg)[fp] == seg[m];
      } else if fp in LastWins(seg[..m]) {
        var i :| 0 <= i < m && seg[..m][i].fp == fp && LastWins(seg[..m])[fp] == seg[..m][i]
                 && forall j | i < j < m :: seg[..m][j].fp != fp;
        assert seg[i].fp == fp && LastWins(seg)[fp] == seg[i];
        assert forall j | i < j < |seg| :: seg[j].fp != fp by {
          forall j | i < j < |seg|
            ensures seg[j].fp != fp
          {
            assert j < m ==> seg[..m][j] == seg[j];
          }
        }
      } else {
        forall i | 0 <= i < |seg|
          ensures seg[i].fp != fp
        {
          assert i < m ==> seg[..m][i] == seg[i];
        }
      }
    }
  }

  function ParsePairs(file: seq<Pointer>, pos: nat, n: nat): Outcome<map<Fp, Pointer>> {
    if n == 0 then Done(map[])
    else
      var m :- ParsePairs(file, pos, n - 1);
      if pos + n - 1 >= |file| || file[pos + n - 1].id <= TEMPORARY_ID then Crash
      else Done(m[file[pos + n - 1].fp := file[pos + n - 1]])
  }

  /** A segment at record `pos`, or None when there is no start flag. */
  function ParseSegment(bnum: int, file: seq<Pointer>, pos: nat): Outcome<Option<SegmentRecipe>> {
    if pos >= |file| || file[pos].id != -SEGMENT_START then Done(None)
    else
      var n := if file[pos].size < 0 then 0 else file[pos].size;
      var pairs :- ParsePairs(file, pos + 1, n);
      if pos + 1 + n >= |file| || file[pos + 1 + n].id != -SEGMENT_END then Crash
      else Done(Some(SegmentRecipe(MakeSegmentId(bnum, RECORD_SIZE * pos, file[pos].size), pairs)))
  }

  /** read_next_segment, and the body of the loop of prefetch_segments. */
  method ReadSegment(bnum: int, file: seq<Pointer>, pos: nat) returns (r: Outcome<Option<SegmentRecipe>>, next: nat)
    ensures r == ParseSegment(bnum, file, pos)
    ensures r.Done? && r.value.Some? ==> pos < |file| && next == pos + 2 + if file[pos].size < 0 then 0 else file[pos].size
  {
    next := pos;
    if pos >= |file| || file[pos].id != -SEGMENT_START {
      return Done(None), next;
    }
    var size := file[pos].size;
    var pairs: map<Fp, Pointer> := map[];
    var i := 0;
    while i < size
      invariant 0 <= i && (i <= size || i == 0) && ParsePairs(file, pos + 1, i) == Done(pairs)
    {
      if pos + 1 + i >= |file| || file[pos + 1 + i].id <= TEMPORARY_ID {
        CrashStays(file, pos + 1, i + 1, size);
        return Crash, next;
      }
      pairs := pairs[file[pos + 1 + i].fp := file[pos + 1 + i]];
      i := i + 1;
    }
    if pos + 1 + i >= |file| || file[pos + 1 + i].id != -SEGMENT_END {
      return Crash, next;
    }
    next := pos + 2 + i;
    return Done(Some(SegmentRecipe(MakeSegmentId(bnum, RECORD_SIZE * pos, size), pairs))), next;
  }

  lemma {:induction false} CrashStays(file: seq<Pointer>, pos: nat, n: nat, m: nat)
    requires n <= m && ParsePairs(file, pos, n).Crash?
    ensures ParsePairs(file, pos, m).Crash?
  {
    if n < m {
      CrashStays(file, pos, n, m - 1);
    }
  }

  // ---------------------------------------------------------------- prefetching

  /** The recipes of segments k, k + 1, ... of a backup, at most n of them. */
  function RecipesFrom(bnum: int, segs: seq<seq<Pointer>>, k: nat, n: nat): seq<SegmentRecipe>
    decreases n
  {
    if n == 0 || k >= |segs| then []
    else [SegmentRecipe(SegmentId(bnum, segs, k), LastWins(segs[k]))] + RecipesFrom(bnum, segs, k + 1, n - 1)
  }

  /**
   * prefetch_segments over the recipe files of all backups. A backup that does not exist and an offset without a
   * segment are failed asserts.
   */
  method PrefetchSegments(files: map<int, seq<Pointer>>, id: int, n: nat, ghost segs: seq<seq<Pointer>>, ghost k: nat)
    returns (r: Outcome<seq<SegmentRecipe>>)
    ensures
      var bnum := IdToBnum(id);
      (&& bnum in files && files[bnum] == FileOf(segs) && (forall i | 0 <= i < |segs| :: Real(segs[i]))
       && k < |segs| && id == SegmentId(bnum, segs, k)
       && IdFits(bnum, RECORD_SIZE * |FileOf(segs[..k])|, |segs[k]|))
      ==> r == Done(RecipesFrom(bnum, segs, k, n))
  {
    hide FileOf, ParseSegment, MakeSegmentId, IdToOff, IdToBnum, IdFits, RecipesFrom, LastWins, Real;
    NoRecipes(IdToBnum(id), segs, k + n);
    if id == TEMPORARY_ID {
      OffsetOk(IdToBnum(id), segs, k, id);
      NotTemporary();
      return Crash;
    }
    var bnum := IdToBnum(id);
    var off := IdToOff(id);
    if bnum !in files || off < 0 || off % RECORD_SIZE != 0 {
      OffsetOk(bnum, segs, k, id);
      return Crash;
    }
    var file := files[bnum];
    var pos: nat := off / RECORD_SIZE;
    OffsetOk(bnum, segs, k, id);
    ghost var good := file == FileOf(segs) && (forall i | 0 <= i < |segs| :: Real(segs[i])) && k < |segs|
                      && pos == |FileOf(segs[..k])|;
    var out: seq<SegmentRecipe> := [];
    for j := 0 to n
      invariant good ==> k + j <= |segs| && pos == |FileOf(segs[..k + j])|
      invariant good ==> out + RecipesFrom(bnum, segs, k + j, n - j) == RecipesFrom(bnum, segs, k, n)
    {
      if good {
        SegmentParses(bnum, segs, k + j);
        RecipesStep(bnum, segs, k + j, n - j);
      }
      var s, next := ReadSegment(bnum, file, pos);
      if s.Crash? {
        return Crash;
      }
      if s.value.None? {
        if j == 0 {
          return Crash;
        }
        assert out + [] == out;
        return Done(out);
      }
      pos := next;
      ghost var later := RecipesFrom(bnum, segs, k + j + 1, n - j - 1);
      assert out + ([s.value.value] + later) == (out + [s.value.value]) + later;
      out := out + [s.value.value];
    }
    assert out + [] == out;
    return Done(out);
  }

  lemma {:induction false} NoRecipes(bnum: int, segs: seq<seq<Pointer>>, k: nat)
    ensures RecipesFrom(bnum, segs, k, 0) == []
  {
  }

  lemma {:induction false} RecipesStep(bnum: int, segs: seq<seq<Pointer>>, k: nat, n: nat)
    requires n > 0
    ensures k >= |segs| ==> RecipesFrom(bnum, segs, k, n) == []
    ensures k < |segs| ==>
              var first := SegmentRecipe(SegmentId(bnum, segs, k), LastWins(segs[k]));
              RecipesFrom(bnum, segs, k, n) == [first] + RecipesFrom(bnum, segs, k + 1, n - 1)
  {
  }

  lemma {:induction false} NotTemporary()
    ensures IdToOff(TEMPORARY_ID) % RECORD_SIZE != 0
  {
  }

  lemma {:induction false} OffsetOk(bnum: int, segs: seq<seq<Pointer>>, k: nat, id: int)
    ensures k < |segs| && id == SegmentId(bnum, segs, k) && IdFits(bnum, RECORD_SIZE * |FileOf(segs[..k])|, |segs[k]|)
            ==> IdToOff(id) == RECORD_SIZE * |FileOf(segs[..k])|
  {
    hide FileOf;
    if k < |segs| {
      IdRoundTripExactly(bnum, RECORD_SIZE * |FileOf(segs[..k])|, |segs[k]|);
    }
  }

  lemma {:induction false} FileSplit(segs: seq<seq<Pointer>>, k: nat)
    requires k < |segs|
    ensures |FileOf(segs[..k + 1])| == |FileOf(segs[..k])| + 2 + |segs[k]| <= |FileOf(segs)|
    ensures FileOf(segs)[|FileOf(segs[..k])|..|FileOf(segs[..k + 1])|] == SegmentRecords(segs[k])
    decreases |segs|
  {
    var m := |segs| - 1;
    assert segs[..k + 1][..k] == segs[..k];
    if k < m {
      FileSplit(segs[..m], k);
      assert segs[..m][..k] == segs[..k] && segs[..m][..k + 1] == segs[..k + 1];
    } else {
      assert segs[..k + 1] == segs;
    }
  }

  lemma {:induction false} PairsParse(file: seq<Pointer>, pos: nat, seg: seq<Pointer>, n: nat)
    requires Real(seg) && n <= |seg| && pos + |seg| <= |file| && file[pos..pos + |seg|] == seg
    ensures ParsePairs(file, pos, n) == Done(LastWins(seg[..n]))
  {
    if n > 0 {
      PairsParse(file, pos, seg, n - 1);
      assert seg[..n][..n - 1] == seg[..n - 1];
      assert file[pos + n - 1] == file[pos..pos + |seg|][n - 1] == seg[n - 1];
    }
  }

  lemma {:induction false} SegmentParses(bnum: int, segs: seq<seq<Pointer>>, k: nat)
    requires k <= |segs| && forall i | 0 <= i < |segs| :: Real(segs[i])
    ensures k < |segs| ==>
              var pos := |FileOf(segs[..k])|;
              && ParseSegment(bnum, FileOf(segs), pos) == Done(Some(SegmentRecipe(SegmentId(bnum, segs, k), LastWins(segs[k]))))
              && pos < |FileOf(segs)| && FileOf(segs)[pos].size == |segs[k]|
              && |FileOf(segs[..k + 1])| == pos + 2 + |segs[k]|
    ensures k == |segs| ==> ParseSegment(bnum, FileOf(segs), |FileOf(segs[..k])|) == Done(None)
  {
    hide FileOf, MakeSegmentId;
    if k < |segs| {
      FileSplit(segs, k);
      RecordsParse(bnum, FileOf(segs), |FileOf(segs[..k])|, segs[k]);
    } else {
      assert segs[..k] == segs;
    }
  }

  lemma {:induction false} RecordsParse(bnum: int, file: seq<Pointer>, pos: nat, seg: seq<Pointer>)
    requires Real(seg) && pos + 2 + |seg| <= |file| && file[pos..pos + 2 + |seg|] == SegmentRecords(seg)
    ensures ParseSegment(bnum, file, pos)
         == Done(Some(SegmentRecipe(MakeSegmentId(bnum, RECORD_SIZE * pos, |seg|), LastWins(seg))))
    ensures file[pos].size == |seg|
  {
    hide MakeSegmentId;
    var r := file[pos..pos + 2 + |seg|];
    assert file[pos] == r[0] && file[pos + 1 + |seg|] == r[1 + |seg|];
    forall i | 0 <= i < |seg|
      ensures file[pos + 1 + i] == seg[i]
    {
      assert file[pos + 1 + i] == r[1 + i];
    }
    assert file[pos + 1..pos + 1 + |seg|] == seg;
    PairsParse(file, pos + 1, seg, |seg|);
    assert seg[..|seg|] == seg;
  }

  // ---------------------------------------------------------------- sequential reading

  function Unflagged(file: seq<Pointer>): seq<Pointer> {
    if file == [] then []
    else if IsFlag(file[0]) then Unflagged(file[1..])
    else [file[0]] + Unflagged(file[1..])
  }

  lemma {:induction false} UnflaggedNothing()
    ensures Unflagged([]) == []
  {
  }

  lemma {:induction false} UnflaggedAt(file: seq<Pointer>, pos: nat)
    requires pos < |file|
    ensures Unflagged(file[pos..]) == (if IsFlag(file[pos]) then [] else [file[pos]]) + Unflagged(file[pos + 1..])
  {
    assert file[pos..][1..] == file[pos + 1..];
  }

  lemma {:induction false} TakeOne(file: seq<Pointer>, pos: nat, cps: seq<Pointer>, rest: seq<Pointer>)
    requires pos <= |file| && cps + Unflagged(file[pos..]) == rest && |cps| < |rest|
    ensures pos < |file|
    ensures (if IsFlag(file[pos]) then cps else cps + [file[pos]]) + Unflagged(file[pos + 1..]) == rest
  {
    hide Unflagged;
    UnflaggedNothing();
    assert file[|file|..] == [];
    if pos < |file| {
      UnflaggedAt(file, pos);
      var later := Unflagged(file[pos + 1..]);
      assert cps + ([file[pos]] + later) == (cps + [file[pos]]) + later;
    }
  }

  lemma {:induction false} UnflaggedConcat(a: seq<Pointer>, b: seq<Pointer>)
    ensures Unflagged(a + b) == Unflagged(a) + Unflagged(b)
  {
    if a == [] {
      assert a + b == b;
    } else {
      UnflaggedConcat(a[1..], b);
      assert (a + b)[1..] == a[1..] + b;
    }
  }

  lemma {:induction false} UnflaggedReal(seg: seq<Pointer>)
    requires Real(seg)
    ensures Unflagged(seg) == seg
  {
    if seg != [] {
      UnflaggedReal(seg[1..]);
    }
  }

  /** Reading a recipe front to back and skipping flags gives the pointers of all segments, in order. */
  lemma {:induction false} FlagsAreSkipped(segs: seq<seq<Pointer>>)
    requires forall i | 0 <= i < |segs| :: Real(segs[i])
    ensures Unflagged(FileOf(segs)) == Flat(segs)
  {
    if segs != [] {
      var m := |segs| - 1;
      var seg := segs[m];
      FlagsAreSkipped(segs[..m]);
      UnflaggedConcat(FileOf(segs[..m]), SegmentRecords(seg));
      UnflaggedConcat([Flag(true, |seg|)] + seg, [Flag(false, 0)]);
      UnflaggedConcat([Flag(true, |seg|)], seg);
      UnflaggedReal(seg);
      assert Unflagged([Flag(true, |seg|)]) == [] && Unflagged([Flag(false, 0)]) == [];
    }
  }

  /** The static cursor of read_next_n_chunk_pointers; `total` is number_of_chunks. */
  class Reader {
    const file: seq<Pointer>
    const total: int
    var pos: nat
    var readNum: int

    ghost predicate Valid()
      reads this
    {
      pos <= |file| && 0 <= readNum <= total && |Unflagged(file[pos..])| == total - readNum
    }

    constructor (file: seq<Pointer>, total: int)
      requires total == |Unflagged(file)|
      ensures Valid() && this.file == file && this.total == total && pos == 0 && readNum == 0
    {
      this.file, this.total, pos, readNum := file, total, 0, 0;
      new;
      assert file[0..] == file;
    }

    method ReadNext(n: nat) returns (cps: seq<Pointer>)
      requires Valid()
      modifies this
      ensures Valid() && cps + Unflagged(file[pos..]) == old(Unflagged(file[pos..]))
      ensures |cps| == Min(n, total - old(readNum)) && readNum == old(readNum) + |cps|
    {
      if readNum == total {
        return [];
      }
      var num := if total - readNum > n then n else total - readNum;
      ghost var rest := Unflagged(file[pos..]);
      hide Unflagged;
      cps := [];
      while |cps| < num
        invariant pos <= |file| && |cps| <= num <= |rest| && cps + Unflagged(file[pos..]) == rest
        invariant readNum == old(readNum)
        decreases |file| - pos
      {
        TakeOne(file, pos, cps, rest);
        var cp := file[pos];
        pos := pos + 1;
        if !IsFlag(cp) {
          cps := cps + [cp];
        }
      }
      readNum := readNum + num;
    }
  }

  /** Reading in batches of any size gives every pointer once, in order. */
  method ReadAll(segs: seq<seq<Pointer>>, batch: nat) returns (out: seq<Pointer>)
    requires batch > 0 && forall i | 0 <= i < |segs| :: Real(segs[i])
    ensures out == Flat(segs)
  {
    hide Real, Flat, FileOf, Unflagged;
    FlagsAreSkipped(segs);
    var reader := new Reader(FileOf(segs), |Flat(segs)|);
    assert reader.file[0..] == reader.file;
    ghost var all := Flat(segs);
    out := [];
    while true
      invariant reader.Valid() && reader.total == |all|
      invariant out + Unflagged(reader.file[reader.pos..]) == all
      decreases reader.total - reader.readNum
    {
      var cps := reader.ReadNext(batch);
      if cps == [] {
        break;
      }
      out := out + cps;
    }
  }
}
