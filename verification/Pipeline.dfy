/** The phases in front of the index: read, chunk, hash, cut into segments. */
module Pipeline {
  import opened Common
  import opened ChunkPhase
  import opened EndToEnd
  import opened Backups
  import S = Segmenting
  import M = Machine

  /** A file as the read phase delivers it. */
  datatype Arriving = Arriving(name: Bytes, blocks: seq<Bytes>)

  function Files(input: seq<Arriving>): (r: seq<File>)
    ensures |r| == |input| && forall i | 0 <= i < |input| :: r[i] == File(input[i].name, Flat(input[i].blocks))
  {
    seq(|input|, i requires 0 <= i < |input| => File(input[i].name, Flat(input[i].blocks)))
  }

  /** Every chunk of these files has been hashed. */
  ghost predicate Hashed(seen: set<Bytes>, cut: Cutter, files: seq<File>) {
    forall k, i | 0 <= k < |files| && 0 <= i < |Chunks(cut, files[k].bytes)| :: Chunks(cut, files[k].bytes)[i] in seen
  }

  /** chunk_thread and the hash phase over all files: whatever the blocks, the stream of the files. */
  method ChunkAndHash(sha: Digest, cut: Cutter, max: nat, input: seq<Arriving>) returns (stream: seq<Item>)
    requires CutterOk(cut, max)
    requires forall k, i | 0 <= k < |input| && 0 <= i < |input[k].blocks| :: |input[k].blocks[i]| <= DEFAULT_BLOCK_SIZE
    ensures stream == Stream(sha, cut, Files(input))
  {
    hide CutterOk, Chunks, Flat, Files;
    stream := [];
    ghost var files := Files(input);
    for k := 0 to |input|
      invariant |files| == |input| && stream == Stream(sha, cut, files[..k])
    {
      var chunks := ChunkFile(input[k].blocks, cut, max);
      var pieces := HashAll(sha, chunks);
      stream := stream + ([FileStart(input[k].name)] + pieces + [FileEnd]);
      assert files[..k + 1][..k] == files[..k];
      FileAt(input, k);
    }
    assert files[..|input|] == files;
  }

  lemma {:induction false} FileAt(input: seq<Arriving>, k: nat)
    requires k < |input|
    ensures Files(input)[k] == File(input[k].name, Flat(input[k].blocks))
  {
  }

  method HashAll(sha: Digest, chunks: seq<Bytes>) returns (pieces: seq<Item>)
    ensures pieces == Pieces(sha, chunks)
  {
    pieces := [];
    for i := 0 to |chunks|
      invariant pieces == Pieces(sha, chunks[..i])
    {
      assert chunks[..i + 1][..i] == chunks[..i];
      pieces := pieces + [Piece(sha(chunks[i]), chunks[i])];
    }
    assert chunks[..|chunks|] == chunks;
  }

  lemma {:induction false} PiecesHonest(sha: Digest, seen: set<Bytes>, chunks: seq<Bytes>)
    requires forall d :: |sha(d)| == FP_SIZE
    requires forall i | 0 <= i < |chunks| :: chunks[i] in seen && |chunks[i]| <= CONTAINER_SIZE - CONTAINER_META_SIZE
    ensures Honest(sha, seen, Pieces(sha, chunks))
  {
    if chunks != [] {
      PiecesHonest(sha, seen, chunks[..|chunks| - 1]);
    }
  }

  lemma {:induction false} HonestConcat(sha: Digest, seen: set<Bytes>, a: seq<Item>, b: seq<Item>)
    ensures Honest(sha, seen, a + b) <==> Honest(sha, seen, a) && Honest(sha, seen, b)
  {
    assert forall i | 0 <= i < |a| :: (a + b)[i] == a[i];
    assert forall i | 0 <= i < |b| :: (a + b)[|a| + i] == b[i];
  }

  /** The stream of hashed files is honest. */
  lemma {:induction false} StreamHonest(sha: Digest, seen: set<Bytes>, cut: Cutter, max: nat, files: seq<File>)
    requires Hashed(seen, cut, files) && (forall d :: |sha(d)| == FP_SIZE)
    requires CutterOk(cut, max) && max <= CONTAINER_SIZE - CONTAINER_META_SIZE
    ensures Honest(sha, seen, Stream(sha, cut, files))
  {
    if files != [] {
      var n := |files| - 1;
      var f := files[n];
      var chunks := Chunks(cut, f.bytes);
      StreamHonest(sha, seen, cut, max, files[..n]);
      ChunkSizes(cut, max, f.bytes);
      PiecesHonest(sha, seen, chunks);
      assert Honest(sha, seen, [FileStart(f.name)]) && Honest(sha, seen, [FileEnd]);
      hide Honest, CutterOk, Chunks, Pieces;
      HonestConcat(sha, seen, [FileStart(f.name)], Pieces(sha, chunks));
      HonestConcat(sha, seen, [FileStart(f.name)] + Pieces(sha, chunks), [FileEnd]);
      HonestConcat(sha, seen, Stream(sha, cut, files[..n]), FileItems(sha, cut, f));
    }
  }

  lemma {:induction false} SegmentsHonest(sha: Digest, seen: set<Bytes>, segs: seq<seq<Item>>)
    requires Honest(sha, seen, Flat(segs))
    ensures forall k | 0 <= k < |segs| :: Honest(sha, seen, segs[k])
  {
    hide Honest;
    if segs != [] {
      var n := |segs| - 1;
      HonestConcat(sha, seen, Flat(segs[..n]), segs[n]);
      SegmentsHonest(sha, seen, segs[..n]);
      assert forall k | 0 <= k < n :: segs[..n][k] == segs[k];
    }
  }

  /**
   * Everything up to the index: the segments handed to index_lookup are honest and are, end to end, the stream of the
   * files. With Backups.FilesComeBack, a backup that was fed them is restored to exactly those files.
   */
  method Prepare(sha: Digest, ghost seen: set<Bytes>, cut: Cutter, max: nat, input: seq<Arriving>, alg: S.Algorithm,
                 boundary: Item -> bool) returns (segs: seq<seq<Item>>)
    requires CutterOk(cut, max) && max <= CONTAINER_SIZE - CONTAINER_META_SIZE && (alg.Fixed? ==> alg.size > 0)
    requires forall k, i | 0 <= k < |input| && 0 <= i < |input[k].blocks| :: |input[k].blocks[i]| <= DEFAULT_BLOCK_SIZE
    requires Hashed(seen, cut, Files(input)) && forall d :: |sha(d)| == FP_SIZE
    ensures Flat(segs) == Stream(sha, cut, Files(input))
    ensures forall k | 0 <= k < |segs| :: Honest(sha, seen, segs[k])
    ensures forall k | 0 <= k < |segs| - 1 :: S.Cut(alg, segs[k])
  {
    hide CutterOk, Hashed, Stream, Files, Honest, S.Cut;
    var stream := ChunkAndHash(sha, cut, max, input);
    segs := S.SegmentStream(alg, boundary, stream);
    StreamHonest(sha, seen, cut, max, Files(input));
    SegmentsHonest(sha, seen, segs);
  }

  /** A backup fed with prepared segments comes back, after any run and whatever the interleaving and the marks. */
  lemma {:induction false} PreparedFilesComeBack(cfg: M.Config, sha: Digest, seen: set<Bytes>, cut: Cutter,
                                                 input: seq<Arriving>, segs: seq<seq<Item>>, actions: seq<M.Action>, j: int)
    requires cfg.ratio > 0 && CollisionFree(sha, seen) && HonestRun(cfg, sha, seen, actions)
    requires Flat(segs) == Stream(sha, cut, Files(input)) && FedSegments(cfg, actions, j) == segs
    requires 0 <= j < Completed(cfg, actions) && !Deleted(cfg, actions, j)
    ensures var out := RestoredFiles(cfg, actions, j);
            out.Some? && |out.value| == |input|
            && forall k | 0 <= k < |input| :: out.value[k] == File(input[k].name, Flat(input[k].blocks))
  {
    hide HonestRun, FedSegments, Deleted, Stream, Flat;
    FilesComeBack(cfg, sha, seen, actions, j, cut, Files(input));
  }
}
