/** From files to containers and back. */
module EndToEnd {
  import opened Common
  import opened Containers
  import opened Machine
  import opened InFlight
  import opened StoreInvariant
  import opened FilterInvariant
  import opened Safety
  import opened RestoreSpec
  import opened RestoreThreads
  import opened ChunkPhase
  import opened OptCache
  import R = Recipes

  // ---------------------------------------------------------------- the stream of a set of files

  datatype File = File(name: Bytes, bytes: Bytes)

  type Digest = Bytes -> Fp

  function Pieces(sha: Digest, chunks: seq<Bytes>): seq<Item> {
    if chunks == [] then [] else Pieces(sha, chunks[..|chunks| - 1]) + [Piece(sha(chunks[|chunks| - 1]), chunks[|chunks| - 1])]
  }

  /** What the read, chunk and hash phases make of one file. */
  function FileItems(sha: Digest, cut: Cutter, f: File): seq<Item> {
    [FileStart(f.name)] + Pieces(sha, Chunks(cut, f.bytes)) + [FileEnd]
  }

  function Stream(sha: Digest, cut: Cutter, files: seq<File>): seq<Item> {
    if files == [] then [] else Stream(sha, cut, files[..|files| - 1]) + FileItems(sha, cut, files[|files| - 1])
  }

  /** The receiving side: names and bytes, file by file; `cur` is the file being received. */
  datatype Received = Received(files: seq<File>, cur: Option<File>)

  function Receive(out: seq<Output>): Received {
    if out == [] then Received([], None)
    else
      var r := Receive(out[..|out| - 1]);
      match out[|out| - 1]
      case Start(name) => r.(cur := Some(File(name, [])))
      case End => Received(r.files + (if r.cur.Some? then [r.cur.value] else []), None)
      case Data(bytes) => if r.cur.Some? then r.(cur := Some(File(r.cur.value.name, r.cur.value.bytes + bytes))) else r
  }

  lemma {:induction false} OutputsConcat(a: seq<Item>, b: seq<Item>)
    ensures Outputs(a + b) == Outputs(a) + Outputs(b)
  {
    if b == [] {
      assert a + b == a;
    } else {
      OutputsConcat(a, b[..|b| - 1]);
      assert (a + b)[..|a + b| - 1] == a + b[..|b| - 1];
    }
  }

  lemma {:induction false} OutputsSnoc(items: seq<Item>, item: Item)
    ensures Outputs(items + [item]) == Outputs(items) + [OutputOf(item)]
  {
    assert (items + [item])[..|items|] == items;
  }

  lemma {:induction false} ReceiveSnoc(out: seq<Output>, o: Output)
    ensures Receive(out + [o]) ==
            var r := Receive(out);
            match o
            case Start(name) => r.(cur := Some(File(name, [])))
            case End => Received(r.files + (if r.cur.Some? then [r.cur.value] else []), None)
            case Data(bytes) => if r.cur.Some? then r.(cur := Some(File(r.cur.value.name, r.cur.value.bytes + bytes))) else r
  {
    assert (out + [o])[..|out|] == out;
  }

  /** Receiving the pieces of a file appends their bytes to it, and keeps the stream well-formed. */
  lemma {:induction false} ReceivePieces(sha: Digest, before: seq<Item>, name: Bytes, chunks: seq<Bytes>)
    requires R.Scan(before) == R.Outside && Receive(Outputs(before)).cur.None?
    ensures var items := (before + [FileStart(name)]) + Pieces(sha, chunks);
            && R.Scan(items) == R.Inside
            && Receive(Outputs(items)) == Received(Receive(Outputs(before)).files, Some(File(name, Flat(chunks))))
  {
    var start := before + [FileStart(name)];
    if chunks == [] {
      assert start + [] == start;
      OutputsSnoc(before, FileStart(name));
      ReceiveSnoc(Outputs(before), Start(name));
      assert start[..|before|] == before;
    } else {
      var n := |chunks| - 1;
      ReceivePieces(sha, before, name, chunks[..n]);
      var items, p := start + Pieces(sha, chunks[..n]), Piece(sha(chunks[n]), chunks[n]);
      assert start + Pieces(sha, chunks) == items + [p];
      OutputsSnoc(items, p);
      ReceiveSnoc(Outputs(items), Data(chunks[n]));
      FlatSnoc(chunks[..n], chunks[n]);
      assert chunks == chunks[..n] + [chunks[n]];
      assert (items + [p])[..|items|] == items;
    }
  }

  lemma {:induction false} Reassociate(before: seq<Item>, s: Item, mid: seq<Item>, e: Item)
    ensures before + ([s] + mid + [e]) == ((before + [s]) + mid) + [e]
  {
  }

  lemma {:induction false} ScanEnd(items: seq<Item>)
    requires R.Scan(items) == R.Inside
    ensures R.Scan(items + [FileEnd]) == R.Outside
  {
    assert (items + [FileEnd])[..|items|] == items;
  }

  lemma {:induction false} ReceiveFile(sha: Digest, cut: Cutter, before: seq<Item>, f: File)
    requires R.Scan(before) == R.Outside && Receive(Outputs(before)).cur.None?
    ensures var items := before + FileItems(sha, cut, f);
            && R.Scan(items) == R.Outside
            && Receive(Outputs(items)) == Received(Receive(Outputs(before)).files + [f], None)
  {
    hide Receive, Outputs, Chunks, Pieces, Flat, R.Scan;
    var chunks := Chunks(cut, f.bytes);
    ReceivePieces(sha, before, f.name, chunks);
    ChunksCover(cut, f.bytes);
    var items := (before + [FileStart(f.name)]) + Pieces(sha, chunks);
    Reassociate(before, FileStart(f.name), Pieces(sha, chunks), FileEnd);
    ScanEnd(items);
    OutputsSnoc(items, FileEnd);
    ReceiveSnoc(Outputs(items), End);
  }

  /** Backing up files gives a well-formed stream, and receiving that stream gives the files. */
  lemma {:induction false} StreamRoundTrip(sha: Digest, cut: Cutter, files: seq<File>)
    ensures R.Scan(Stream(sha, cut, files)) == R.Outside
    ensures Receive(Outputs(Stream(sha, cut, files))) == Received(files, None)
  {
    if files != [] {
      var n := |files| - 1;
      StreamRoundTrip(sha, cut, files[..n]);
      hide Receive, Outputs, FileItems, R.Scan;
      ReceiveFile(sha, cut, Stream(sha, cut, files[..n]), files[n]);
      assert files == files[..n] + [files[n]];
    }
  }

  // ---------------------------------------------------------------- collision freedom

  /** No two of the chunks in `seen` share a digest. */
  ghost predicate CollisionFree(sha: Digest, seen: set<Bytes>) {
    forall a, b | a in seen && b in seen && sha(a) == sha(b) :: a == b
  }

  /** The chunk a digest stands for. */
  ghost function Inverse(sha: Digest, seen: set<Bytes>): Content {
    (fp: Fp) => if exists d :: d in seen && sha(d) == fp then var d :| d in seen && sha(d) == fp; d else []
  }

  lemma {:induction false} InverseIsGenuine(sha: Digest, seen: set<Bytes>, d: Bytes)
    requires CollisionFree(sha, seen) && d in seen && |sha(d)| == FP_SIZE
    requires |d| <= CONTAINER_SIZE - CONTAINER_META_SIZE
    ensures Genuine(Piece(sha(d), d), Inverse(sha, seen))
  {
    var content := Inverse(sha, seen);
    assert d in seen && sha(d) == sha(d);
    assert content(sha(d)) in seen && sha(content(sha(d))) == sha(d);
  }

  // ---------------------------------------------------------------- restore, by any algorithm

  /** The recipe of a live backup is fit for all three restore threads. */
  lemma {:induction false} JobIsRestorable(cfg: Config, content: Content, st: State, j: int)
    requires Inv(cfg, content, st) && j in st.jobs
    ensures var refs := R.ReadRecipe(st.jobs[j].files, st.jobs[j].ptrs);
            && GoodRefs(Held(st.store), refs) && Coherent(Held(st.store))
            && forall id | id in Held(st.store) :: id >= 0
  {
    InvStore(cfg, content, st);
    HeldIds(st.store, content);
    var job, held := st.jobs[j], Held(st.store);
    var refs := R.ReadRecipe(job.files, job.ptrs);
    assert JobOk(content, held, st.manifest, j, job);
    hide Inv, Held, R.ReadRecipe, StoreOk, AllMatch, Genuine;
    forall i | 0 <= i < |refs| && refs[i].Fetch?
      ensures Stored(held, refs[i].ptr.id, refs[i].ptr.fp)
      ensures refs[i].ptr.size == |held[refs[i].ptr.id][refs[i].ptr.fp]|
    {
      FetchedPointers(job.files, job.ptrs, i);
      assert PtrOk(content, held, st.manifest, j, refs[i].ptr);
      StoredContent(st.store, content, refs[i].ptr.id, refs[i].ptr.fp);
    }
    forall a, b, fp | Stored(held, a, fp) && Stored(held, b, fp)
      ensures held[a][fp] == held[b][fp]
    {
      StoredContent(st.store, content, a, fp);
      StoredContent(st.store, content, b, fp);
    }
  }

  datatype Algorithm = LRU | OPT(window: int) | ASM

  /** do_restore: whichever cache is configured, the output is the stream that was backed up. */
  method DoRestore(cfg: Config, ghost content: Content, st: State, j: int, alg: Algorithm, cacheSize: int)
    returns (out: seq<Output>)
    requires Inv(cfg, content, st) && j in st.jobs
    requires alg.OPT? ==> cacheSize != 0 && alg.window >= 1
    ensures out == Outputs(st.jobs[j].source)
  {
    var held := Held(st.store);
    var refs := R.ReadRecipe(st.jobs[j].files, st.jobs[j].ptrs);
    JobIsRestorable(cfg, content, st, j);
    LiveBackupsRestore(cfg, content, st, j);
    hide Inv, Held, GoodRefs, Coherent, R.ReadRecipe, Restore;
    var readNum: nat;
    match alg {
      case LRU => out, readNum := LruRestore(held, refs, cacheSize);
      case OPT(window) => out, readNum := OptimalRestoreThread(held, refs, cacheSize, window);
      case ASM => out, readNum := AssemblyRestore(held, refs, (cacheSize - 1) * CONTAINER_SIZE);
    }
  }
}
