/** Recipe writing in the filter phase, recipe reading in the restore phase. */
module Recipes {
  import opened Common

  datatype Pointer = Pointer(fp: Fp, id: int, size: int)
  datatype FileMeta = FileMeta(name: Bytes, chunkNum: nat, fileSize: nat)

  /** The recipe being written; `cur` is the file whose end mark has not been seen. */
  datatype Recipe = Recipe(files: seq<FileMeta>, ptrs: seq<Pointer>, cur: Option<FileMeta>)

  const EMPTY := Recipe([], [], None)

  /** What the recipe reader sends to the restore phase. */
  datatype Ref = Open(name: Bytes) | Close | Fetch(ptr: Pointer)

  /** The recipe loop body of filter_thread, for one chunk. */
  function RecordChunk(r: Recipe, c: Chunk): Outcome<Recipe> {
    if r.cur.None? then
      if c.item.FileStart? then Done(r.(cur := Some(FileMeta(c.item.name, 0, 0)))) else Crash
    else if !c.item.FileEnd? then
      if c.id < 0 || !c.item.Piece? then Crash
      else
        var size := |c.item.data|;
        var m := r.cur.value;
        Done(Recipe(r.files, r.ptrs + [Pointer(c.item.fp, c.id, size)],
                    Some(FileMeta(m.name, m.chunkNum + 1, m.fileSize + size))))
    else
      Done(Recipe(r.files + [r.cur.value], r.ptrs, None))
  }

  function RecordPrefix(r: Recipe, cs: seq<Chunk>, n: nat): Outcome<Recipe>
    requires n <= |cs|
  {
    if n == 0 then Done(r)
    else
      var q :- RecordPrefix(r, cs, n - 1);
      RecordChunk(q, cs[n - 1])
  }

  /** Are we inside a file after `items`, or is `items` not a stream prefix at all? */
  datatype Cursor = Outside | Inside | Malformed

  function Advance(at: Cursor, item: Item): Cursor {
    match (at, item)
    case (Outside, FileStart(_)) => Inside
    case (Inside, Piece(_, _)) => Inside
    case (Inside, FileEnd) => Outside
    case _ => Malformed
  }

  function Scan(items: seq<Item>): Cursor {
    if items == [] then Outside else Advance(Scan(items[..|items| - 1]), items[|items| - 1])
  }

  /** read_recipe_thread: each file's start mark, its chunk pointers, its end mark. */
  function ReadRecipe(files: seq<FileMeta>, ptrs: seq<Pointer>): seq<Ref> {
    if files == [] then []
    else
      var n := Min(files[0].chunkNum, |ptrs|);
      Block(files[0].name, ptrs[..n]) + ReadRecipe(files[1..], ptrs[n..])
  }

  function Block(name: Bytes, ptrs: seq<Pointer>): seq<Ref> {
    [Open(name)] + Fetches(ptrs) + [Close]
  }

  function Fetches(ptrs: seq<Pointer>): seq<Ref> {
    if ptrs == [] then [] else Fetches(ptrs[..|ptrs| - 1]) + [Fetch(ptrs[|ptrs| - 1])]
  }

  function Total(files: seq<FileMeta>): nat {
    if files == [] then 0 else files[0].chunkNum + Total(files[1..])
  }

  /** The reference a chunk of the backup stream should come back as. */
  function RefOf(c: Chunk): Ref {
    match c.item
    case FileStart(name) => Open(name)
    case FileEnd => Close
    case Piece(fp, data) => Fetch(Pointer(fp, c.id, |data|))
  }

  function Refs(cs: seq<Chunk>): seq<Ref> {
    if cs == [] then [] else Refs(cs[..|cs| - 1]) + [RefOf(cs[|cs| - 1])]
  }

  /** The pointers that `cs` contributes, in stream order. */
  function Pointers(cs: seq<Chunk>): seq<Pointer> {
    if cs == [] then []
    else
      var c := cs[|cs| - 1];
      Pointers(cs[..|cs| - 1]) + if c.Normal() then [Pointer(c.item.fp, c.id, |c.item.data|)] else []
  }

  /** What has been read back so far if the recipe stopped here. */
  ghost function Expand(r: Recipe): seq<Ref>
    requires Total(r.files) <= |r.ptrs|
  {
    var k := Total(r.files);
    ReadRecipe(r.files, r.ptrs[..k])
      + if r.cur.None? then [] else [Open(r.cur.value.name)] + Fetches(r.ptrs[k..])
  }

  /** The bytes that pointers stand for. */
  function Volume(ptrs: seq<Pointer>): int {
    if ptrs == [] then 0 else Volume(ptrs[..|ptrs| - 1]) + ptrs[|ptrs| - 1].size
  }

  /** Every file's chunk count takes its own pointers off the front, and its size is theirs. */
  predicate FilesSized(files: seq<FileMeta>, ptrs: seq<Pointer>) {
    if files == [] then ptrs == []
    else
      var n := files[0].chunkNum;
      n <= |ptrs| && files[0].fileSize == Volume(ptrs[..n]) && FilesSized(files[1..], ptrs[n..])
  }

  /** Sizes are right so far, for the finished files and for the open one. */
  ghost predicate Sized(r: Recipe) {
    && Total(r.files) <= |r.ptrs| && FilesSized(r.files, r.ptrs[..Total(r.files)])
    && (r.cur.Some? ==> r.cur.value.fileSize == Volume(r.ptrs[Total(r.files)..]))
  }

  lemma {:induction false} FilesSizedSnoc(files: seq<FileMeta>, m: FileMeta, ptrs: seq<Pointer>)
    requires Total(files) + m.chunkNum == |ptrs| && FilesSized(files, ptrs[..Total(files)])
    requires m.fileSize == Volume(ptrs[Total(files)..])
    ensures FilesSized(files + [m], ptrs)
  {
    hide Volume;
    if files == [] {
      assert [m][1..] == [] && ptrs[0..] == ptrs && ptrs[..|ptrs|] == ptrs && ptrs[|ptrs|..] == [];
    } else {
      var n, k := files[0].chunkNum, Total(files);
      var rest := ptrs[n..];
      assert ptrs[..k][..n] == ptrs[..n] && ptrs[..k][n..] == rest[..k - n] && rest[k - n..] == ptrs[k..];
      assert (files + [m])[1..] == files[1..] + [m] && (files + [m])[0] == files[0];
      FilesSizedSnoc(files[1..], m, rest);
    }
  }

  lemma {:induction false} RecordSized(r: Recipe, c: Chunk)
    requires Sized(r) && RecordChunk(r, c).Done?
    requires Total(r.files) + (if r.cur.None? then 0 else r.cur.value.chunkNum) == |r.ptrs|
    ensures Sized(RecordChunk(r, c).value)
  {
    hide FilesSized;
    var q, k := RecordChunk(r, c).value, Total(r.files);
    if r.cur.None? {
      assert r.ptrs[k..] == [];
    } else if c.item.FileEnd? {
      TotalSnoc(r.files, r.cur.value);
      FilesSizedSnoc(r.files, r.cur.value, r.ptrs);
      assert q.ptrs[..|q.ptrs|] == r.ptrs;
    } else {
      assert q.ptrs[..k] == r.ptrs[..k];
      assert q.ptrs[k..] == r.ptrs[k..] + [Pointer(c.item.fp, c.id, |c.item.data|)];
      VolumeSnoc(r.ptrs[k..], Pointer(c.item.fp, c.id, |c.item.data|));
    }
  }

  lemma {:induction false} VolumeSnoc(ptrs: seq<Pointer>, p: Pointer)
    ensures Volume(ptrs + [p]) == Volume(ptrs) + p.size
  {
    assert (ptrs + [p])[..|ptrs|] == ptrs;
  }

  /** `r` is what recording `cs` leaves behind, finished files and open file alike. */
  ghost predicate Records(r: Recipe, cs: seq<Chunk>) {
    && Total(r.files) + (if r.cur.None? then 0 else r.cur.value.chunkNum) == |r.ptrs|
    && Scan(Items(cs)) == (if r.cur.None? then Outside else Inside)
    && Expand(r) == Refs(cs)
    && r.ptrs == Pointers(cs)
    && Sized(r)
  }

  lemma {:induction false} TotalSnoc(files: seq<FileMeta>, m: FileMeta)
    ensures Total(files + [m]) == Total(files) + m.chunkNum
  {
    if files != [] {
      assert (files + [m])[1..] == files[1..] + [m];
      TotalSnoc(files[1..], m);
    }
  }

  lemma {:induction false} ReadSnoc(files: seq<FileMeta>, m: FileMeta, ptrs: seq<Pointer>)
    requires Total(files) + m.chunkNum == |ptrs|
    ensures ReadRecipe(files + [m], ptrs)
         == ReadRecipe(files, ptrs[..Total(files)]) + Block(m.name, ptrs[Total(files)..])
  {
    hide Block;
    if files == [] {
      assert [] + [m] == [m] && ptrs[..m.chunkNum] == ptrs && ptrs[0..] == ptrs;
      assert ReadRecipe([m], ptrs) == Block(m.name, ptrs) + ReadRecipe([m][1..], ptrs[m.chunkNum..]);
    } else {
      var n, k := files[0].chunkNum, Total(files);
      var rest := ptrs[n..];
      var b, c := ReadRecipe(files[1..], rest[..k - n]), Block(m.name, rest[k - n..]);
      calc {
        ReadRecipe(files + [m], ptrs);
        { assert (files + [m])[1..] == files[1..] + [m]; }
        Block(files[0].name, ptrs[..n]) + ReadRecipe(files[1..] + [m], rest);
        { ReadSnoc(files[1..], m, rest); }
        Block(files[0].name, ptrs[..n]) + (b + c);
        (Block(files[0].name, ptrs[..n]) + b) + c;
        { ReadHead(files, ptrs[..k]);
          assert ptrs[..k][..n] == ptrs[..n] && ptrs[..k][n..] == rest[..k - n];
          assert rest[k - n..] == ptrs[k..]; }
        ReadRecipe(files, ptrs[..k]) + Block(m.name, ptrs[k..]);
      }
    }
  }

  lemma {:induction false} ReadHead(files: seq<FileMeta>, ptrs: seq<Pointer>)
    requires files != [] && files[0].chunkNum <= |ptrs|
    ensures ReadRecipe(files, ptrs)
         == Block(files[0].name, ptrs[..files[0].chunkNum]) + ReadRecipe(files[1..], ptrs[files[0].chunkNum..])
  {
  }

  lemma {:induction false} SnocSteps(cs: seq<Chunk>, c: Chunk)
    ensures Items(cs + [c]) == Items(cs) + [c.item]
    ensures Refs(cs + [c]) == Refs(cs) + [RefOf(c)]
    ensures Pointers(cs + [c])
         == Pointers(cs) + if c.Normal() then [Pointer(c.item.fp, c.id, |c.item.data|)] else []
    ensures Scan(Items(cs + [c])) == Advance(Scan(Items(cs)), c.item)
  {
    var all := cs + [c];
    assert all[..|all| - 1] == cs && all[|all| - 1] == c;
    var xs := Items(cs) + [c.item];
    assert xs[..|xs| - 1] == Items(cs);
  }

  lemma {:induction false} RecordStart(r: Recipe, cs: seq<Chunk>, c: Chunk)
    requires Records(r, cs) && r.cur.None? && c.item.FileStart?
    ensures RecordChunk(r, c).Done? && Expand(RecordChunk(r, c).value) == Expand(r) + [Open(c.item.name)]
  {
    hide ReadRecipe;
    assert r.ptrs[Total(r.files)..] == [];
  }

  lemma {:induction false} RecordPiece(r: Recipe, cs: seq<Chunk>, c: Chunk)
    requires Records(r, cs) && r.cur.Some? && c.Normal() && c.id >= 0
    ensures RecordChunk(r, c).Done?
    ensures var p := Pointer(c.item.fp, c.id, |c.item.data|);
            Total(RecordChunk(r, c).value.files) <= |RecordChunk(r, c).value.ptrs|
            && Expand(RecordChunk(r, c).value) == Expand(r) + [Fetch(p)]
  {
    hide ReadRecipe, Scan, Refs, Pointers;
    var q, p := RecordChunk(r, c).value, Pointer(c.item.fp, c.id, |c.item.data|);
    var k := Total(r.files);
    assert q.ptrs[..k] == r.ptrs[..k] && q.ptrs[k..] == r.ptrs[k..] + [p];
    FetchesSnoc(r.ptrs[k..], p);
    hide Fetches;
    var done, open := ReadRecipe(r.files, r.ptrs[..k]), [Open(r.cur.value.name)];
    assert done + (open + (Fetches(r.ptrs[k..]) + [Fetch(p)])) == (done + (open + Fetches(r.ptrs[k..]))) + [Fetch(p)];
  }

  /** One step of recording: never an assertion failure on a well-formed stream. */
  lemma {:induction false} RecordChunkOk(r: Recipe, cs: seq<Chunk>, c: Chunk)
    requires Records(r, cs)
    requires Scan(Items(cs + [c])) != Malformed
    requires c.Normal() ==> c.id >= 0
    ensures RecordChunk(r, c).Done?
    ensures Records(RecordChunk(r, c).value, cs + [c])
  {
    hide Sized;
    SnocSteps(cs, c);
    if r.cur.None? {
      RecordStart(r, cs, c);
    } else if c.item.FileEnd? {
      FinishFile(r);
    } else {
      RecordPiece(r, cs, c);
    }
    RecordSized(r, c);
  }

  lemma {:induction false} FetchesSnoc(ptrs: seq<Pointer>, p: Pointer)
    ensures Fetches(ptrs + [p]) == Fetches(ptrs) + [Fetch(p)]
  {
    assert (ptrs + [p])[..|ptrs|] == ptrs;
  }

  lemma {:induction false} FinishFile(r: Recipe)
    requires r.cur.Some? && Total(r.files) + r.cur.value.chunkNum == |r.ptrs|
    ensures var q := Recipe(r.files + [r.cur.value], r.ptrs, None);
            Total(q.files) == |q.ptrs| && Expand(q) == Expand(r) + [Close]
  {
    TotalSnoc(r.files, r.cur.value);
    ReadSnoc(r.files, r.cur.value, r.ptrs);
    assert r.ptrs[..|r.ptrs|] == r.ptrs;
  }

  lemma {:induction false} ScanPrefix(items: seq<Item>, n: nat)
    requires n <= |items| && Scan(items) != Malformed
    ensures Scan(items[..n]) != Malformed
    decreases |items|
  {
    if n < |items| {
      ScanPrefix(items[..|items| - 1], n);
      assert items[..|items| - 1][..n] == items[..n];
    } else {
      assert items[..n] == items;
    }
  }

  /** Recording a whole segment after `before` keeps the recipe exact and never crashes. */
  lemma {:induction false} RecordPrefixOk(r: Recipe, before: seq<Chunk>, cs: seq<Chunk>, n: nat)
    requires n <= |cs|
    requires Records(r, before)
    requires Scan(Items(before + cs)) != Malformed
    requires forall i | 0 <= i < |cs| && cs[i].Normal() :: cs[i].id >= 0
    ensures RecordPrefix(r, cs, n).Done?
    ensures Records(RecordPrefix(r, cs, n).value, before + cs[..n])
  {
    hide Records, RecordChunk;
    if n == 0 {
      assert before + cs[..0] == before;
    } else {
      RecordPrefixOk(r, before, cs, n - 1);
      var upto := before + cs[..n - 1];
      assert upto + [cs[n - 1]] == before + cs[..n];
      StreamPrefix(before, cs, n);
      RecordChunkOk(RecordPrefix(r, cs, n - 1).value, upto, cs[n - 1]);
    }
  }

  lemma {:induction false} StreamPrefix(before: seq<Chunk>, cs: seq<Chunk>, n: nat)
    requires n <= |cs| && Scan(Items(before + cs)) != Malformed
    ensures Scan(Items(before + cs[..n])) != Malformed
  {
    var pre := before + cs[..n];
    assert before + cs == pre + cs[n..];
    ItemsConcat(pre, cs[n..]);
    ScanPrefix(Items(before + cs), |Items(pre)|);
  }

  /** Round trip: reading back the recipe of a complete stream gives every mark and pointer. */
  lemma {:induction false} RecipeRoundTrip(cs: seq<Chunk>)
    requires Scan(Items(cs)) == Outside
    requires forall i | 0 <= i < |cs| && cs[i].Normal() :: cs[i].id >= 0
    ensures RecordPrefix(EMPTY, cs, |cs|).Done?
    ensures var r := RecordPrefix(EMPTY, cs, |cs|).value;
            r.cur.None? && ReadRecipe(r.files, r.ptrs) == Refs(cs) && FilesSized(r.files, r.ptrs)
  {
    hide Records;
    assert [] + cs == cs && cs[..|cs|] == cs;
    EmptyRecords();
    RecordPrefixOk(EMPTY, [], cs, |cs|);
    Finished(RecordPrefix(EMPTY, cs, |cs|).value, cs);
  }

  lemma {:induction false} EmptyRecords()
    ensures Records(EMPTY, [])
  {
  }

  /** A recipe with no open file reads back as exactly what was recorded. */
  lemma {:induction false} Finished(r: Recipe, cs: seq<Chunk>)
    requires Records(r, cs) && Scan(Items(cs)) == Outside
    ensures r.cur.None? && ReadRecipe(r.files, r.ptrs) == Refs(cs) && FilesSized(r.files, r.ptrs)
  {
    assert r.ptrs[..|r.ptrs|] == r.ptrs;
  }
}
