/** What a backup records: the segments it was fed, whole and in order, however the threads interleave. */
module Backups {
  import opened Common
  import opened Containers
  import opened Machine
  import opened InFlight
  import opened StoreInvariant
  import opened FilterInvariant
  import opened Safety
  import opened RestoreSpec
  import opened EndToEnd
  import ChunkPhase
  import R = Recipes

  // ---------------------------------------------------------------- the source, step by step

  predicate Waits(cfg: Config, st: State, items: seq<Item>) {
    HasPiece(items) && cfg.threshold > 0 && st.index.chunkNum >= cfg.threshold
  }

  /** A lookup that does not wait appends its segment to the source of the running backup. */
  lemma {:induction false} LookupSource(cfg: Config, content: Content, st: State, items: seq<Item>)
    requires Inv(cfg, content, st) && st.running && !Waits(cfg, st, items)
    ensures Lookup(cfg, st, items).Done?
    ensures var t := Lookup(cfg, st, items).value;
            && t.running && Source(t) == Source(st) + items && t.jobs == st.jobs && t.nextJob == st.nextJob
            && |t.inflight| == |st.inflight| + 1 && t.inflight[..|st.inflight|] == st.inflight
            && |t.inflight[|st.inflight|]| == |items|
  {
    hide Inv, IndexOk, LookupPrefix, HasPiece, Flat, Items, Held, R.Records, R.Scan, Genuine;
    var flat := Flat(st.inflight);
    RunningParts(cfg, content, st);
    LookupPrefixOk(cfg, content, st.store, st.index, flat, items, |items|);
    assert items[..|items|] == items;
    var (ix, cs) := LookupPrefix(cfg, st.store, st.index, items, |items|).value;
    FlatSnoc(st.inflight, cs);
    assert st.filtered + (flat + cs) == (st.filtered + flat) + cs;
    ItemsConcat(st.filtered + flat, cs);
  }

  /** Filtering a segment moves it from the segments in flight to the recipe and leaves the source alone. */
  lemma {:induction false} FilterSource(cfg: Config, content: Content, st: State, marks: seq<Mark>)
    requires cfg.ratio > 0 && Inv(cfg, content, st)
    requires st.running && st.inflight != [] && |marks| == |st.inflight[0]|
    ensures FilterOldest(cfg, st, marks).Done?
    ensures var t := FilterOldest(cfg, st, marks).value;
            && t.running && Source(t) == Source(st) && t.inflight == st.inflight[1..]
            && t.jobs == st.jobs && t.nextJob == st.nextJob
  {
    hide Inv, CheckPrefix, FilterPrefix, UpdatePrefix, R.RecordPrefix, Held, Settled, NormalCount, Items, Flat, FilterOldest;
    var seg, rest := st.inflight[0], Flat(st.inflight[1..]);
    FlatHead(st.inflight);
    var cs, g, out := FilterParts(cfg, content, st, marks);
    SettledShape(Held(g.store), seg, out);
    ItemsSwap(st.filtered, seg, out, rest);
  }

  predicate Finishes(st: State) {
    st.running && st.inflight == [] && R.Scan(Items(st.filtered)) == R.Outside
  }

  /** A backup that has filtered everything, between files, ends as a job with exactly its source. */
  lemma {:induction false} FinishSource(cfg: Config, st: State)
    requires cfg.ratio > 0
    ensures !Finishes(st) ==> Finish(cfg, st) == st
    ensures Finishes(st) ==>
              var t := Finish(cfg, st);
              && !t.running && t.nextJob == st.nextJob + 1 && st.nextJob in t.jobs
              && t.jobs == st.jobs[st.nextJob := t.jobs[st.nextJob]] && t.jobs[st.nextJob].source == Source(st)
  {
    hide R.Scan, Items, CloseOpen, Closed;
    assert st.inflight == [] ==> st.filtered + Flat(st.inflight) == st.filtered;
  }

  // ---------------------------------------------------------------- what was fed to each backup

  /** The lookup goes ahead: a backup is running and the index buffer is not full. */
  predicate Accepts(cfg: Config, st: State, a: Action) {
    a.DoLookup? && st.running && !Waits(cfg, st, a.items)
  }

  /** The segments that the lookups of backup number `j` took in, in order. */
  ghost function FedSegments(cfg: Config, actions: seq<Action>, j: int): seq<seq<Item>>
    requires cfg.ratio > 0
  {
    if actions == [] then []
    else
      var n := |actions| - 1;
      var before := Run(cfg, INITIAL, actions[..n]);
      FedSegments(cfg, actions[..n], j)
        + if before.Done? && before.value.nextJob == j && Accepts(cfg, before.value, actions[n]) then [actions[n].items]
          else []
  }

  /** Some deletion reached backup number `j`. */
  ghost predicate Deleted(cfg: Config, actions: seq<Action>, j: int)
    requires cfg.ratio > 0
  {
    actions != [] &&
    var n := |actions| - 1;
    var before := Run(cfg, INITIAL, actions[..n]);
    Deleted(cfg, actions[..n], j)
      || (before.Done? && !before.value.running && actions[n].DoDelete? && j <= actions[n].jobid)
  }

  /** What one step does to the source of the running backup, to its number and to the jobs. */
  ghost predicate StepRecords(cfg: Config, st: State, a: Action, t: State) {
    && (Accepts(cfg, st, a) ==> t.running && Source(t) == Source(st) + a.items)
    && (!Accepts(cfg, st, a) && st.running && t.running ==> Source(t) == Source(st))
    && (!st.running && t.running ==> Source(t) == [])
    && t.nextJob == st.nextJob + (if st.running && !t.running then 1 else 0)
    && (st.running && !t.running ==>
          st.nextJob in t.jobs && t.jobs == st.jobs[st.nextJob := t.jobs[st.nextJob]]
          && t.jobs[st.nextJob].source == Source(st))
    && ((st.running && t.running) || (!st.running && !a.DoDelete?) ==> t.jobs == st.jobs)
    && (!st.running && a.DoDelete? ==>
          !t.running && forall j :: (j in t.jobs <==> j in st.jobs && j > a.jobid)
                                    && (j in t.jobs ==> t.jobs[j] == st.jobs[j]))
  }

  lemma {:induction false} BeginRecords(cfg: Config, content: Content, st: State)
    requires Inv(cfg, content, st)
    ensures StepRecords(cfg, st, DoBegin, Begin(st))
  {
    var t := Begin(st);
    if !st.running {
      assert st.inflight == [];
      assert t.filtered + Flat(t.inflight) == [];
    }
  }

  lemma {:induction false} LookupRecords(cfg: Config, content: Content, st: State, items: seq<Item>)
    requires Inv(cfg, content, st) && Lookup(cfg, st, items).Done?
    ensures StepRecords(cfg, st, DoLookup(items), Lookup(cfg, st, items).value)
  {
    hide Inv, HasPiece, LookupPrefix, Source;
    if st.running && !Waits(cfg, st, items) {
      LookupSource(cfg, content, st, items);
      hide Lookup, Waits;
    } else {
      assert Lookup(cfg, st, items) == Done(st);
    }
  }

  lemma {:induction false} NothingToFilter(cfg: Config, st: State, marks: seq<Mark>)
    requires cfg.ratio > 0 && (!st.running || st.inflight == [] || |marks| != |st.inflight[0]|)
    ensures FilterOldest(cfg, st, marks) == Done(st)
  {
  }

  lemma {:induction false} FilterRecords(cfg: Config, content: Content, st: State, marks: seq<Mark>)
    requires cfg.ratio > 0 && Inv(cfg, content, st) && FilterOldest(cfg, st, marks).Done?
    ensures StepRecords(cfg, st, DoFilter(marks), FilterOldest(cfg, st, marks).value)
  {
    hide FilterOldest, Source, Inv;
    if st.running && st.inflight != [] && |marks| == |st.inflight[0]| {
      FilterSource(cfg, content, st, marks);
    } else {
      NothingToFilter(cfg, st, marks);
    }
  }

  lemma {:induction false} NextRecords(cfg: Config, content: Content, st: State, a: Action)
    requires cfg.ratio > 0 && Inv(cfg, content, st) && Legal(cfg, content, st, a) && Next(cfg, st, a).Done?
    ensures StepRecords(cfg, st, a, Next(cfg, st, a).value)
  {
    hide Inv, Legal, Begin, Lookup, FilterOldest, Finish, AppendWrite, AppendPop, Finishes;
    match a
    case DoBegin => BeginRecords(cfg, content, st);
    case DoLookup(items) => LookupRecords(cfg, content, st, items);
    case DoFilter(marks) => FilterRecords(cfg, content, st, marks);
    case DoAppendWrite =>
    case DoAppendPop =>
    case DoFinish => FinishSource(cfg, st); FinishRuns(st);
    case DoDelete(jobid) =>
  }

  lemma {:induction false} FinishRuns(st: State)
    ensures Finishes(st) ==> st.running
  {
  }

  /** Every job and the running backup stand for exactly what was fed; a job is there until a deletion reaches it. */
  ghost predicate Recorded(cfg: Config, actions: seq<Action>, st: State)
    requires cfg.ratio > 0
  {
    && st.nextJob >= 0
    && (st.running ==> Source(st) == Flat(FedSegments(cfg, actions, st.nextJob)))
    && (!st.running ==> FedSegments(cfg, actions, st.nextJob) == [])
    && (forall j | j > st.nextJob :: FedSegments(cfg, actions, j) == [])
    && (forall j | j in st.jobs :: st.jobs[j].source == Flat(FedSegments(cfg, actions, j)))
    && (forall j :: j in st.jobs <==> 0 <= j < st.nextJob && !Deleted(cfg, actions, j))
    && (forall j | j >= st.nextJob :: !Deleted(cfg, actions, j))
  }

  lemma {:induction false} FedSnoc(cfg: Config, actions: seq<Action>, a: Action, j: int)
    requires cfg.ratio > 0 && Run(cfg, INITIAL, actions).Done?
    ensures var st := Run(cfg, INITIAL, actions).value;
            && FedSegments(cfg, actions + [a], j)
               == FedSegments(cfg, actions, j) + (if st.nextJob == j && Accepts(cfg, st, a) then [a.items] else [])
            && (Deleted(cfg, actions + [a], j) <==>
                  Deleted(cfg, actions, j) || (!st.running && a.DoDelete? && j <= a.jobid))
  {
    hide Run, Accepts;
    assert (actions + [a])[..|actions|] == actions;
  }

  lemma {:induction false} RecordedStep(cfg: Config, actions: seq<Action>, a: Action, st: State, t: State)
    requires cfg.ratio > 0 && Run(cfg, INITIAL, actions) == Done(st) && Recorded(cfg, actions, st)
    requires StepRecords(cfg, st, a, t) && (a.DoDelete? ==> a.jobid < st.nextJob)
    ensures Recorded(cfg, actions + [a], t)
  {
    hide Run, FedSegments, Deleted, Source, Waits, Flat;
    var all := actions + [a];
    forall j
      ensures FedSegments(cfg, all, j)
           == FedSegments(cfg, actions, j) + (if st.nextJob == j && Accepts(cfg, st, a) then [a.items] else [])
      ensures Deleted(cfg, all, j) <==> Deleted(cfg, actions, j) || (!st.running && a.DoDelete? && j <= a.jobid)
    {
      FedSnoc(cfg, actions, a, j);
    }
    FlatSnoc(FedSegments(cfg, actions, st.nextJob), if Accepts(cfg, st, a) then a.items else []);
    assert forall j | j != st.nextJob || !Accepts(cfg, st, a) :: FedSegments(cfg, all, j) == FedSegments(cfg, actions, j);
  }

  /**
   * Over every legal run, whatever the interleaving, the segmentation and the marks: the running backup's source is what
   * its lookups took in, every job's recorded stream is what was fed to it, and the jobs are the finished backups that
   * no deletion reached.
   */
  lemma {:induction false} EveryJobRecordsItsInput(cfg: Config, content: Content, actions: seq<Action>)
    requires cfg.ratio > 0 && LegalRun(cfg, content, actions)
    ensures Run(cfg, INITIAL, actions).Done?
    ensures Recorded(cfg, actions, Run(cfg, INITIAL, actions).value)
  {
    hide Inv, Legal, Next, Recorded, StepRecords, Run;
    EveryRunIsSafe(cfg, content, actions);
    if actions == [] {
      NothingRecorded(cfg);
    } else {
      var n := |actions| - 1;
      var before, a := actions[..n], actions[n];
      assert before + [a] == actions;
      RunParts(cfg, content, before, a);
      EveryJobRecordsItsInput(cfg, content, before);
      EveryRunIsSafe(cfg, content, before);
      var st := Run(cfg, INITIAL, before).value;
      LegalDelete(cfg, content, st, a);
      NextRecords(cfg, content, st, a);
      RecordedStep(cfg, before, a, st, Next(cfg, st, a).value);
    }
  }

  lemma {:induction false} NothingRecorded(cfg: Config)
    requires cfg.ratio > 0
    ensures Run(cfg, INITIAL, []) == Done(INITIAL) && Recorded(cfg, [], INITIAL)
  {
    assert Flat<Chunk>([]) == [];
  }

  /** A run, taken apart at its last step. */
  lemma {:induction false} RunParts(cfg: Config, content: Content, before: seq<Action>, a: Action)
    requires cfg.ratio > 0 && LegalRun(cfg, content, before + [a]) && Run(cfg, INITIAL, before + [a]).Done?
    ensures LegalRun(cfg, content, before) && Run(cfg, INITIAL, before).Done?
    ensures var st := Run(cfg, INITIAL, before).value;
            Legal(cfg, content, st, a) && Next(cfg, st, a) == Run(cfg, INITIAL, before + [a])
  {
    hide Legal, Next;
    assert (before + [a])[..|before|] == before;
  }

  lemma {:induction false} LegalDelete(cfg: Config, content: Content, st: State, a: Action)
    ensures Legal(cfg, content, st, a) && a.DoDelete? ==> a.jobid < st.nextJob
  {
  }

  // ---------------------------------------------------------------- backup, then restore

  /** Backups with smaller numbers than this have finished. */
  ghost function Completed(cfg: Config, actions: seq<Action>): int
    requires cfg.ratio > 0
  {
    if Run(cfg, INITIAL, actions).Done? then Run(cfg, INITIAL, actions).value.nextJob else 0
  }

  /** The files that restoring backup `j` after the run delivers. */
  ghost function RestoredFiles(cfg: Config, actions: seq<Action>, j: int): Option<seq<File>>
    requires cfg.ratio > 0
  {
    var st := Run(cfg, INITIAL, actions);
    if st.Crash? || j !in st.value.jobs then None
    else
      var out := Restore(Held(st.value.store), R.ReadRecipe(st.value.jobs[j].files, st.value.jobs[j].ptrs));
      if out.Crash? || Receive(out.value).cur.Some? then None else Some(Receive(out.value).files)
  }

  /**
   * Backup then restore is the identity. After any legal run, if the segments fed to a backup are, end to end, the
   * stream of `files`, and the backup has finished and no deletion has reached it, then restoring it gives exactly those
   * files, names and bytes.
   */
  lemma {:induction false} BackupThenRestore(cfg: Config, content: Content, actions: seq<Action>, j: int,
                                             sha: Digest, cut: ChunkPhase.Cutter, files: seq<File>)
    requires cfg.ratio > 0 && LegalRun(cfg, content, actions)
    requires Flat(FedSegments(cfg, actions, j)) == Stream(sha, cut, files)
    requires 0 <= j < Completed(cfg, actions) && !Deleted(cfg, actions, j)
    ensures RestoredFiles(cfg, actions, j) == Some(files)
  {
    hide Run, LegalRun, Inv, Held, R.ReadRecipe, Restore, Stream, FedSegments, Deleted, Flat;
    EveryRunIsSafe(cfg, content, actions);
    EveryJobRecordsItsInput(cfg, content, actions);
    LiveBackupsRestore(cfg, content, Run(cfg, INITIAL, actions).value, j);
    StreamRoundTrip(sha, cut, files);
  }

  // ---------------------------------------------------------------- digests

  /** The chunks carry their digests, were hashed, and fit into a container. */
  ghost predicate Honest(sha: Digest, seen: set<Bytes>, items: seq<Item>) {
    forall i | 0 <= i < |items| && items[i].Piece? ::
      && items[i].fp == sha(items[i].data) && items[i].data in seen && |items[i].fp| == FP_SIZE
      && |items[i].data| <= CONTAINER_SIZE - CONTAINER_META_SIZE
  }

  /** Every lookup of the run is honest and keeps to the shape of a file stream; deletions name existing backups. */
  ghost predicate HonestRun(cfg: Config, sha: Digest, seen: set<Bytes>, actions: seq<Action>)
    requires cfg.ratio > 0
  {
    actions == [] ||
    var n := |actions| - 1;
    var before := Run(cfg, INITIAL, actions[..n]);
    && HonestRun(cfg, sha, seen, actions[..n])
    && (before.Done? && actions[n].DoLookup? ==>
          Honest(sha, seen, actions[n].items) && R.Scan(Source(before.value) + actions[n].items) != R.Malformed)
    && (before.Done? && actions[n].DoDelete? ==> 0 <= actions[n].jobid < before.value.nextJob)
  }

  lemma {:induction false} HonestIsGenuine(sha: Digest, seen: set<Bytes>, items: seq<Item>)
    requires CollisionFree(sha, seen) && Honest(sha, seen, items)
    ensures forall i | 0 <= i < |items| :: Genuine(items[i], Inverse(sha, seen))
  {
    hide CollisionFree, Inverse;
    forall i | 0 <= i < |items|
      ensures Genuine(items[i], Inverse(sha, seen))
    {
      if items[i].Piece? {
        InverseIsGenuine(sha, seen, items[i].data);
      }
    }
  }

  lemma {:induction false} HonestIsLegal(cfg: Config, sha: Digest, seen: set<Bytes>, actions: seq<Action>)
    requires cfg.ratio > 0 && CollisionFree(sha, seen) && HonestRun(cfg, sha, seen, actions)
    ensures LegalRun(cfg, Inverse(sha, seen), actions)
  {
    hide Run, CollisionFree, Inverse, Honest, R.Scan, Genuine, Source;
    if actions != [] {
      var n := |actions| - 1;
      HonestIsLegal(cfg, sha, seen, actions[..n]);
      if Run(cfg, INITIAL, actions[..n]).Done? && actions[n].DoLookup? {
        HonestIsGenuine(sha, seen, actions[n].items);
      }
    }
  }

  /**
   * The same in the program's own terms: if no two chunks seen share a digest, then over any run, with any marks, any
   * segmentation and any interleaving, files that were backed up and not deleted are restored exactly.
   */
  lemma {:induction false} FilesComeBack(cfg: Config, sha: Digest, seen: set<Bytes>, actions: seq<Action>, j: int,
                                         cut: ChunkPhase.Cutter, files: seq<File>)
    requires cfg.ratio > 0 && CollisionFree(sha, seen) && HonestRun(cfg, sha, seen, actions)
    requires Flat(FedSegments(cfg, actions, j)) == Stream(sha, cut, files)
    requires 0 <= j < Completed(cfg, actions) && !Deleted(cfg, actions, j)
    ensures RestoredFiles(cfg, actions, j) == Some(files)
  {
    hide Run, LegalRun, CollisionFree, HonestRun, Inverse, Held, R.ReadRecipe, Restore, Stream, FedSegments, Deleted, Flat;
    HonestIsLegal(cfg, sha, seen, actions);
    BackupThenRestore(cfg, Inverse(sha, seen), actions, j, sha, cut, files);
  }

  // ---------------------------------------------------------------- a backup can always be completed

  /** `actions` lead legally from `st` to `t`. */
  ghost predicate Leads(cfg: Config, content: Content, st: State, actions: seq<Action>, t: State)
    requires cfg.ratio > 0
  {
    LegalFrom(cfg, content, st, actions) && Run(cfg, st, actions) == Done(t)
  }

  lemma {:induction false} LeadsOn(cfg: Config, content: Content, st: State, actions: seq<Action>, t: State, a: Action)
    requires cfg.ratio > 0 && Leads(cfg, content, st, actions, t) && Legal(cfg, content, t, a) && Next(cfg, t, a).Done?
    ensures Leads(cfg, content, st, actions + [a], Next(cfg, t, a).value)
  {
    hide Legal, Next;
    assert (actions + [a])[..|actions|] == actions;
  }

  /** The running backup number `j` with nothing in flight; its source is `source` and the jobs are `jobs`. */
  ghost predicate Caught(cfg: Config, content: Content, t: State, source: seq<Item>, jobs: map<int, Job>, j: int) {
    Inv(cfg, content, t) && t.running && t.inflight == [] && Source(t) == source && t.jobs == jobs && t.nextJob == j
  }

  lemma {:induction false} DrainFilter(cfg: Config, content: Content, st: State, acts: seq<Action>, t: State)
    returns (acts': seq<Action>, t': State)
    requires cfg.ratio > 0 && Leads(cfg, content, st, acts, t) && Inv(cfg, content, t) && t.running
    ensures Leads(cfg, content, st, acts', t') && Caught(cfg, content, t', Source(t), t.jobs, t.nextJob)
    decreases |t.inflight|
  {
    hide Inv, Leads, FilterOldest, Source;
    acts', t' := acts, t;
    if t.inflight != [] {
      var marks := seq(|t.inflight[0]|, i => Mark(false, false, false, false));
      FilterSource(cfg, content, t, marks);
      FilterStepOk(cfg, content, t, marks);
      LeadsOn(cfg, content, st, acts, t, DoFilter(marks));
      acts', t' := DrainFilter(cfg, content, st, acts + [DoFilter(marks)], FilterOldest(cfg, t, marks).value);
    }
  }

  lemma {:induction false} NeverWaits(cfg: Config, content: Content, t: State, items: seq<Item>)
    requires Inv(cfg, content, t) && t.running && t.inflight == []
    ensures !Waits(cfg, t, items)
  {
    assert t.index.chunkNum == NormalCount(Flat(t.inflight)) == 0;
  }

  lemma {:induction false} FeedOne(cfg: Config, content: Content, st: State, acts: seq<Action>, t: State, items: seq<Item>)
    returns (acts': seq<Action>, t': State)
    requires cfg.ratio > 0 && Leads(cfg, content, st, acts, t) && Caught(cfg, content, t, Source(t), t.jobs, t.nextJob)
    requires Legal(cfg, content, t, DoLookup(items))
    ensures Leads(cfg, content, st, acts', t') && Caught(cfg, content, t', Source(t) + items, t.jobs, t.nextJob)
  {
    hide Inv, Leads, Lookup, Source, Legal, Waits;
    NeverWaits(cfg, content, t, items);
    LookupSource(cfg, content, t, items);
    LookupOk(cfg, content, t, items);
    LeadsOn(cfg, content, st, acts, t, DoLookup(items));
    acts', t' := DrainFilter(cfg, content, st, acts + [DoLookup(items)], Lookup(cfg, t, items).value);
  }

  lemma {:induction false} FeedAll(cfg: Config, content: Content, st: State, acts: seq<Action>, t: State, segs: seq<seq<Item>>)
    returns (acts': seq<Action>, t': State)
    requires cfg.ratio > 0 && Leads(cfg, content, st, acts, t) && Caught(cfg, content, t, Source(t), t.jobs, t.nextJob)
    requires R.Scan(Source(t) + Flat(segs)) == R.Outside
    requires forall k, i | 0 <= k < |segs| && 0 <= i < |segs[k]| :: Genuine(segs[k][i], content)
    ensures Leads(cfg, content, st, acts', t') && Caught(cfg, content, t', Source(t) + Flat(segs), t.jobs, t.nextJob)
    decreases |segs|
  {
    hide Leads, Source, Genuine, R.Scan, Inv;
    acts', t' := acts, t;
    if segs == [] {
      FlatSnoc<Item>([], []);
      assert Source(t) + [] == Source(t);
    } else {
      var whole := Source(t) + Flat(segs);
      FlatHead(segs);
      assert whole == (Source(t) + segs[0]) + Flat(segs[1..]);
      PrefixIsWellFormed(whole, Source(t) + segs[0]);
      var a, b := FeedOne(cfg, content, st, acts, t, segs[0]);
      acts', t' := FeedAll(cfg, content, st, a, b, segs[1..]);
    }
  }

  lemma {:induction false} PrefixIsWellFormed(whole: seq<Item>, prefix: seq<Item>)
    requires prefix <= whole && R.Scan(whole) == R.Outside
    ensures R.Scan(prefix) != R.Malformed
  {
    R.ScanPrefix(whole, |prefix|);
    assert whole[..|prefix|] == prefix;
  }

  /**
   * From any state in the middle of a backup, and for any segments that complete its stream, some legal steps finish it
   * as a job with exactly the whole stream, and earlier jobs stay as they are.
   */
  lemma {:induction false} EveryBackupCanFinish(cfg: Config, content: Content, st: State, segs: seq<seq<Item>>)
    returns (acts: seq<Action>, t: State)
    requires cfg.ratio > 0 && Inv(cfg, content, st) && st.running
    requires R.Scan(Source(st) + Flat(segs)) == R.Outside
    requires forall k, i | 0 <= k < |segs| && 0 <= i < |segs[k]| :: Genuine(segs[k][i], content)
    ensures Leads(cfg, content, st, acts, t) && !t.running && t.nextJob == st.nextJob + 1 && st.nextJob in t.jobs
    ensures t.jobs == st.jobs[st.nextJob := t.jobs[st.nextJob]] && t.jobs[st.nextJob].source == Source(st) + Flat(segs)
  {
    assert Leads(cfg, content, st, [], st);
    hide Leads, Genuine, R.Scan, Inv, Finish, Source, Finishes, Flat;
    var a, b := DrainFilter(cfg, content, st, [], st);
    var c, d := FeedAll(cfg, content, st, a, b, segs);
    FinishSource(cfg, d);
    CaughtFinishes(d);
    FinishLeads(cfg, content, st, c, d);
    acts, t := c + [DoFinish], Finish(cfg, d);
  }

  lemma {:induction false} FinishLeads(cfg: Config, content: Content, st: State, acts: seq<Action>, d: State)
    requires cfg.ratio > 0 && Leads(cfg, content, st, acts, d)
    ensures Leads(cfg, content, st, acts + [DoFinish], Finish(cfg, d))
  {
    hide Leads, Finish;
    LeadsOn(cfg, content, st, acts, d, DoFinish);
  }

  lemma {:induction false} CaughtFinishes(t: State)
    requires t.running && t.inflight == [] && R.Scan(Source(t)) == R.Outside
    ensures Finishes(t)
  {
    assert t.filtered + Flat(t.inflight) == t.filtered;
  }
}
