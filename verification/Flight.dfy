/** The back-pressure of the dedup thread: which segments enter the index buffer, and how many chunks it ever holds. */
module Flight {
  import opened Common
  import opened Machine
  import opened StoreInvariant
  import opened Safety
  import opened Backups

  /** The normal chunks between the dedup thread and the end of the filter thread. */
  function Waiting(st: State): nat {
    NormalCount(Flat(st.inflight))
  }

  function PieceCount(items: seq<Item>): nat {
    if items == [] then 0 else PieceCount(items[..|items| - 1]) + if items[|items| - 1].Piece? then 1 else 0
  }

  lemma {:induction false} CountOfItems(cs: seq<Chunk>)
    ensures NormalCount(cs) == PieceCount(Items(cs))
  {
    if cs != [] {
      var n := |cs| - 1;
      CountOfItems(cs[..n]);
      assert Items(cs)[..|Items(cs)| - 1] == Items(cs[..n]);
    }
  }

  lemma {:induction false} PieceCounted(items: seq<Item>)
    ensures PieceCount(items) > 0 <==> HasPiece(items)
  {
    if items != [] {
      var n := |items| - 1;
      PieceCounted(items[..n]);
      if HasPiece(items[..n]) {
        var i :| 0 <= i < n && items[..n][i].Piece?;
        assert items[i].Piece?;
      }
      if HasPiece(items) {
        var i :| 0 <= i < |items| && items[i].Piece?;
        assert i < n ==> items[..n][i].Piece?;
      }
    }
  }

  /**
   * A segment enters flight, whole and behind the others, exactly when it has no chunk, there is no threshold, or
   * fewer chunks than the threshold are in flight; otherwise the dedup thread waits and nothing changes.
   */
  lemma {:induction false} EntersFlight(cfg: Config, content: Content, st: State, items: seq<Item>)
    requires Inv(cfg, content, st) && st.running
    ensures Lookup(cfg, st, items).Done?
    ensures var t := Lookup(cfg, st, items).value;
            if PieceCount(items) == 0 || cfg.threshold <= 0 || Waiting(st) < cfg.threshold then
              && |t.inflight| == |st.inflight| + 1 && t.inflight[..|st.inflight|] == st.inflight
              && Items(t.inflight[|st.inflight|]) == items && Waiting(t) == Waiting(st) + PieceCount(items)
            else t == st
  {
    hide Inv, IndexOk, LookupPrefix, HasPiece, Flat, Items, NormalCount, PieceCount;
    var flat := Flat(st.inflight);
    PieceCounted(items);
    RunningParts(cfg, content, st);
    ChunkNumCounts(cfg, content, st);
    if !Waits(cfg, st, items) {
      LookupPrefixOk(cfg, content, st.store, st.index, flat, items, |items|);
      assert items[..|items|] == items;
      var (ix, cs) := LookupPrefix(cfg, st.store, st.index, items, |items|).value;
      FlatSnoc(st.inflight, cs);
      NormalConcat(flat, cs);
      CountOfItems(cs);
    }
  }

  lemma {:induction false} ChunkNumCounts(cfg: Config, content: Content, st: State)
    requires Inv(cfg, content, st) && st.running
    ensures st.index.chunkNum == Waiting(st)
  {
  }

  lemma {:induction false} IdleIsEmpty(cfg: Config, content: Content, st: State)
    requires Inv(cfg, content, st) && !st.running
    ensures st.inflight == [] && Waiting(st) == 0
  {
  }

  lemma {:induction false} FilterShrinks(cfg: Config, content: Content, st: State, marks: seq<Mark>)
    requires cfg.ratio > 0 && Inv(cfg, content, st) && FilterOldest(cfg, st, marks).Done?
    ensures Waiting(FilterOldest(cfg, st, marks).value) <= Waiting(st)
  {
    hide Inv, FilterOldest, Flat, NormalCount;
    if st.running && st.inflight != [] && |marks| == |st.inflight[0]| {
      FilterSource(cfg, content, st, marks);
      FlatHead(st.inflight);
      NormalConcat(st.inflight[0], Flat(st.inflight[1..]));
    } else {
      NothingToFilter(cfg, st, marks);
    }
  }

  ghost predicate SegmentsUpTo(actions: seq<Action>, most: nat) {
    forall i | 0 <= i < |actions| && actions[i].DoLookup? :: PieceCount(actions[i].items) <= most
  }

  lemma {:induction false} NextBound(cfg: Config, content: Content, st: State, a: Action, most: nat)
    requires cfg.ratio > 0 && cfg.threshold > 0 && Inv(cfg, content, st) && Legal(cfg, content, st, a)
    requires a.DoLookup? ==> PieceCount(a.items) <= most
    requires Waiting(st) <= cfg.threshold - 1 + most
    ensures Next(cfg, st, a).Done? && Waiting(Next(cfg, st, a).value) <= cfg.threshold - 1 + most
  {
    hide Inv, Legal, Lookup, FilterOldest, Delete, Waiting, PieceCount;
    NextOk(cfg, content, st, a);
    if !st.running {
      IdleIsEmpty(cfg, content, st);
    }
    match a
    case DoBegin => StillWaiting(st, Begin(st));
    case DoLookup(items) =>
      if st.running {
        EntersFlight(cfg, content, st, items);
      } else {
        IdleSteps(cfg, st, a);
      }
    case DoFilter(marks) => FilterShrinks(cfg, content, st, marks);
    case DoAppendWrite => StillWaiting(st, Next(cfg, st, a).value);
    case DoAppendPop => StillWaiting(st, Next(cfg, st, a).value);
    case DoFinish => StillWaiting(st, Finish(cfg, st));
    case DoDelete(jobid) => IdleSteps(cfg, st, a);
  }

  lemma {:induction false} StillWaiting(st: State, t: State)
    requires t.inflight == st.inflight
    ensures Waiting(t) == Waiting(st)
  {
  }

  lemma {:induction false} IdleSteps(cfg: Config, st: State, a: Action)
    requires cfg.ratio > 0 && Next(cfg, st, a).Done? && (a.DoDelete? || (a.DoLookup? && !st.running))
    ensures Waiting(Next(cfg, st, a).value) == Waiting(st)
  {
  }

  /**
   * Over every run with a threshold, whatever the threads do: with at most `most` chunks a segment, the index buffer
   * never holds more than threshold - 1 + most chunks.
   */
  lemma {:induction false} FlightIsBounded(cfg: Config, content: Content, actions: seq<Action>, most: nat)
    requires cfg.ratio > 0 && cfg.threshold > 0 && LegalRun(cfg, content, actions) && SegmentsUpTo(actions, most)
    ensures Run(cfg, INITIAL, actions).Done?
    ensures Waiting(Run(cfg, INITIAL, actions).value) <= cfg.threshold - 1 + most
  {
    hide Inv, Legal, Next, Run, LegalRun, Waiting, PieceCount;
    EveryRunIsSafe(cfg, content, actions);
    if actions == [] {
      NobodyWaits(cfg);
    } else {
      var n := |actions| - 1;
      var before, a := actions[..n], actions[n];
      assert before + [a] == actions;
      RunParts(cfg, content, before, a);
      EveryRunIsSafe(cfg, content, before);
      FlightIsBounded(cfg, content, before, most);
      NextBound(cfg, content, Run(cfg, INITIAL, before).value, a, most);
    }
  }

  lemma {:induction false} NobodyWaits(cfg: Config)
    requires cfg.ratio > 0
    ensures Run(cfg, INITIAL, []) == Done(INITIAL) && Waiting(INITIAL) == 0
  {
  }
}
