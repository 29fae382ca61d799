/** The two threads' code, loop by loop, over the shared variables they update in place. */
module Node {
  import opened Common
  import opened Containers
  import opened Lru
  import opened Machine
  import R = Recipes

  lemma {:induction false} LookupStuck(cfg: Config, s: Store, ix: Index, items: seq<Item>, m: nat, n: nat)
    requires m <= n <= |items| && LookupPrefix(cfg, s, ix, items, m).Crash?
    ensures LookupPrefix(cfg, s, ix, items, n).Crash?
  {
    if m < n {
      LookupStuck(cfg, s, ix, items, m, n - 1);
    }
  }

  lemma {:induction false} CheckStuck(buffer: map<Fp, seq<int>>, seg: seq<Chunk>, marks: seq<Mark>, m: nat, n: nat)
    requires m <= n <= |seg| == |marks| && CheckPrefix(buffer, seg, marks, m).Crash?
    ensures CheckPrefix(buffer, seg, marks, n).Crash?
  {
    if m < n {
      CheckStuck(buffer, seg, marks, m, n - 1);
    }
  }

  lemma {:induction false} FilterStuck(cfg: Config, f: Filter, seg: seq<Chunk>, marks: seq<Mark>, m: nat, n: nat)
    requires cfg.ratio > 0 && m <= n <= |seg| == |marks| && FilterPrefix(cfg, f, seg, marks, m).Crash?
    ensures FilterPrefix(cfg, f, seg, marks, n).Crash?
  {
    if m < n {
      FilterStuck(cfg, f, seg, marks, m, n - 1);
    }
  }

  lemma {:induction false} UpdateStuck(buffer: map<Fp, seq<int>>, seg: seq<Chunk>, m: nat, n: nat)
    requires m <= n <= |seg| && UpdatePrefix(buffer, seg, m).Crash?
    ensures UpdatePrefix(buffer, seg, n).Crash?
  {
    if m < n {
      UpdateStuck(buffer, seg, m, n - 1);
    }
  }

  lemma {:induction false} RecordStuck(r: R.Recipe, cs: seq<Chunk>, m: nat, n: nat)
    requires m <= n <= |cs| && R.RecordPrefix(r, cs, m).Crash?
    ensures R.RecordPrefix(r, cs, n).Crash?
  {
    if m < n {
      RecordStuck(r, cs, m, n - 1);
    }
  }

  lemma {:induction false} RoomIsOpen(cfg: Config, s: Store, kv: map<Key, int>, size: int)
    requires cfg.ratio > 0
    ensures MakeRoom(cfg, s, kv, size).0.open.Some?
  {
  }

  lemma {:induction false} CheckedLength(buffer: map<Fp, seq<int>>, seg: seq<Chunk>, marks: seq<Mark>)
    requires |marks| == |seg| && CheckPrefix(buffer, seg, marks, |seg|).Done?
    ensures |CheckPrefix(buffer, seg, marks, |seg|).value| == |seg|
  {
  }

  /** index_check_buffer. */
  method IndexCheckBuffer(buffer: map<Fp, seq<int>>, seg: seq<Chunk>, marks: seq<Mark>) returns (r: Outcome<seq<Chunk>>)
    requires |marks| == |seg|
    ensures r == CheckPrefix(buffer, seg, marks, |seg|)
  {
    var cs := [];
    for n := 0 to |seg|
      invariant CheckPrefix(buffer, seg, marks, n) == Done(cs)
    {
      var c, m := seg[n], marks[n];
      if c.Normal() {
        if (c.dup && c.id == TEMPORARY_ID) || m.outOfOrder || m.sparse {
          if c.item.fp !in buffer || buffer[c.item.fp] == [] {
            CheckStuck(buffer, seg, marks, n + 1, |seg|);
            return Crash;
          }
          var be := buffer[c.item.fp][0];
          if be > c.id {
            if c.id != TEMPORARY_ID {
              c := c.(denied := true);
            }
            c := c.(id := be);
          }
        }
      }
      cs := cs + [c];
    }
    return Done(cs);
  }

  /** The recipe loop of filter_thread. */
  method WriteRecipe(recipe: R.Recipe, cs: seq<Chunk>) returns (r: Outcome<R.Recipe>)
    ensures r == R.RecordPrefix(recipe, cs, |cs|)
  {
    var q := recipe;
    for n := 0 to |cs|
      invariant R.RecordPrefix(recipe, cs, n) == Done(q)
    {
      var c := cs[n];
      if q.cur.None? {
        if !c.item.FileStart? {
          RecordStuck(recipe, cs, n + 1, |cs|);
          return Crash;
        }
        q := q.(cur := Some(R.FileMeta(c.item.name, 0, 0)));
      } else if !c.item.FileEnd? {
        if c.id < 0 || !c.item.Piece? {
          RecordStuck(recipe, cs, n + 1, |cs|);
          return Crash;
        }
        var m := q.cur.value;
        q := q.(ptrs := q.ptrs + [R.Pointer(c.item.fp, c.id, |c.item.data|)]);
        q := q.(cur := Some(R.FileMeta(m.name, m.chunkNum + 1, m.fileSize + |c.item.data|)));
      } else {
        q := q.(files := q.files + [q.cur.value], cur := None);
      }
    }
    return Done(q);
  }

  /** Filtering unfolded: it crashes with its first failing part. */
  lemma {:induction false} FilteringParts(cfg: Config, st: State, checked: seq<Chunk>, marks: seq<Mark>)
    requires cfg.ratio > 0 && st.inflight != [] && |checked| == |marks|
    ensures var f := FilterPrefix(cfg, StartFilter(st), checked, marks, |checked|);
            if f.Crash? then Filtering(cfg, st, checked, marks).Crash?
            else
              var cs := f.value.1;
              var b, r := UpdatePrefix(st.index.buffer, cs, |cs|), R.RecordPrefix(st.recipe, cs, |cs|);
              && |cs| == |checked|
              && Filtering(cfg, st, checked, marks)
                 == if b.Crash? || r.Crash? then Crash else Done(AfterFilter(st, f.value.0, cs, b.value, r.value))
  {
    hide FilterPrefix, UpdatePrefix, R.RecordPrefix, AfterFilter;
  }

  class Node {
    const cfg: Config
    var store: Store
    var buffer: map<Fp, seq<int>>
    var chunkNum: int
    var cache: seq<Meta>
    var kv: map<Key, int>
    var inflight: seq<seq<Chunk>>
    var recipe: R.Recipe
    var filtered: seq<Chunk>
    /** The containers used so far: the monitor of HAR, and what the restore-aware cache may hold. */
    var monitor: set<int>
    /** The assert at filter_phase.c:186 has failed. */
    var tripped: bool

    function Ix(): Index
      reads this
    {
      Index(buffer, chunkNum, cache, kv)
    }

    /** What the filter loop works on, with its two tables. */
    function Loop(unique: map<Fp, int>, rewritten: map<Fp, int>): Filter
      reads this
    {
      Filter(store, kv, unique, rewritten, monitor, tripped)
    }

    /** The variables of a running backup, next to what earlier backups left behind. */
    function Shared(manifest: map<int, int>, jobs: map<int, Job>, nextJob: int): State
      reads this
    {
      State(true, store, Ix(), inflight, recipe, filtered, monitor, manifest, jobs, nextJob, tripped)
    }

    /** The loop body of index_lookup_base. */
    method LookupOne(item: Item) returns (r: Outcome<Chunk>)
      requires item.Piece?
      modifies this`buffer, this`chunkNum, this`cache
      ensures var spec := LookupChunk(cfg, store, old(Ix()), item);
              (r.Done? <==> spec.Done?) && (r.Done? ==> spec.value == (Ix(), r.value))
    {
      hide Insert, Retrieve, KeyOf;
      ghost var ix := Ix();
      var c := NewChunk(item);
      if store.open.Some? && item.fp in store.open.value.entries {
        c := Chunk(item, store.open.value.id, true, true);
      }
      var tq := [];
      if item.fp in buffer {
        tq := buffer[item.fp];
        if !c.dup {
          if tq == [] {
            return Crash;
          }
          c := c.(id := tq[0], dup := true);
        }
      }
      if !c.dup {
        c, r := SearchIndex(c);
        if r.Crash? {
          return;
        }
      }
      assert FindDuplicate(cfg, store, ix, item.fp) == Done(Found(c.id, c.dup, c.denied, cache));
      buffer := buffer[item.fp := tq + [c.id]];
      chunkNum := chunkNum + 1;
      return Done(c);
    }

    /** The fingerprint cache, then the key-value store with its prefetch. */
    method SearchIndex(c: Chunk) returns (d: Chunk, r: Outcome<Chunk>)
      requires c.Normal() && c == NewChunk(c.item)
      modifies this`cache
      ensures var fp := c.item.fp;
              var hit := CacheLookup(old(cache), fp);
              var key := KeyOf(fp, cfg.keySize);
              if hit.dup || key !in kv then r == Done(d) && d == Chunk(c.item, hit.id, hit.dup, false) && cache == hit.cache
              else if Retrieve(store, kv[key]).Crash? then r.Crash?
              else
                var late := CacheLookup(Insert(old(cache), Meta(kv[key], Retrieve(store, kv[key]).value.entries.Keys), cfg.cacheSize), fp);
                r == Done(d) && d == Chunk(c.item, late.id, late.dup, false) && cache == late.cache
    {
      hide Insert, Retrieve, KeyOf;
      var fp := c.item.fp;
      d := c;
      var hit := CacheLookup(cache, fp);
      cache := hit.cache;
      if hit.dup {
        d := d.(id := hit.id, dup := true);
        return d, Done(d);
      }
      var key := KeyOf(fp, cfg.keySize);
      if key in kv {
        var unit := Retrieve(store, kv[key]);
        if unit.Crash? {
          return d, Crash;
        }
        cache := Insert(cache, Meta(kv[key], unit.value.entries.Keys), cfg.cacheSize);
        hit := CacheLookup(cache, fp);
        cache := hit.cache;
        if hit.dup {
          d := d.(id := hit.id, dup := true);
        }
      }
      return d, Done(d);
    }

    /** index_lookup_base. */
    method IndexLookupBase(items: seq<Item>) returns (r: Outcome<seq<Chunk>>)
      modifies this`buffer, this`chunkNum, this`cache
      ensures var spec := LookupPrefix(cfg, store, old(Ix()), items, |items|);
              (r.Done? <==> spec.Done?) && (r.Done? ==> spec.value == (Ix(), r.value))
    {
      hide FindDuplicate, Push;
      ghost var ix0 := Ix();
      var cs: seq<Chunk> := [];
      for n := 0 to |items|
        invariant LookupPrefix(cfg, store, ix0, items, n) == Done((Ix(), cs))
      {
        if !items[n].Piece? {
          cs := cs + [NewChunk(items[n])];
        } else {
          var c := LookupOne(items[n]);
          if c.Crash? {
            LookupStuck(cfg, store, ix0, items, n + 1, |items|);
            return Crash;
          }
          cs := cs + [c.value];
        }
      }
      return Done(cs);
    }

    /** Open a container if there is none, and roll over a full one. */
    method Reserve(size: nat)
      requires cfg.ratio > 0
      modifies this`store, this`kv
      ensures (store, kv) == MakeRoom(cfg, old(store), old(kv), size)
    {
      if store.open.None? {
        store := Create(store);
      }
      if Overflow(store.open.value, size) {
        var full := store.open.value;
        kv := kv + map k | k in Features(full.order, cfg) :: full.id;
        store := store.(open := None, pending := store.pending + [full]);
        store := Create(store);
      }
    }

    /** Write a chunk to the open container, rolling it over when it is full. */
    method WriteOne(chunk: Chunk, unique: map<Fp, int>, rewritten: map<Fp, int>)
      returns (r: Outcome<Chunk>, unique': map<Fp, int>, rewritten': map<Fp, int>)
      requires cfg.ratio > 0 && chunk.Normal()
      modifies this`store, this`kv, this`tripped
      ensures var spec := WriteChunk(cfg, old(Loop(unique, rewritten)), chunk);
              && (r.Done? <==> spec.Done?)
              && (r.Done? ==> spec.value == (Loop(unique', rewritten'), r.value))
    {
      hide MakeRoom, Overflow, Add;
      unique', rewritten' := unique, rewritten;
      var fp, size := chunk.item.fp, |chunk.item.data|;
      RoomIsOpen(cfg, store, kv, size);
      Reserve(size);
      var open := store.open.value;
      if Overflow(open, size) {
        return Crash, unique, rewritten;
      }
      if fp !in open.entries {
        store := store.(open := Some(Add(open, fp, chunk.item.data)));
        if !chunk.dup {
          unique' := unique[fp := open.id];
        } else {
          rewritten' := rewritten[fp := open.id];
        }
      } else if cfg.exact && cfg.rewriteOff {
        tripped := true;
      }
      r := Done(chunk.(id := open.id));
    }

    /** The loop body of filter_thread for a normal chunk, with its two per-segment tables. */
    method FilterOne(chunk: Chunk, m: Mark, unique: map<Fp, int>, rewritten: map<Fp, int>)
      returns (r: Outcome<Chunk>, unique': map<Fp, int>, rewritten': map<Fp, int>)
      requires cfg.ratio > 0 && chunk.Normal()
      modifies this`store, this`kv, this`monitor, this`tripped
      ensures var spec := FilterChunk(cfg, old(Loop(unique, rewritten)), chunk, m);
              && (r.Done? <==> spec.Done?)
              && (r.Done? ==> spec.value == (Loop(unique', rewritten'), r.value))
    {
      hide WriteChunk, Create;
      unique', rewritten' := unique, rewritten;
      var c := chunk;
      var fp := c.item.fp;
      var cached := m.inCache && c.id in monitor;
      if cached && c.id == TEMPORARY_ID {
        return Crash, unique, rewritten;
      }
      if c.dup && c.id == TEMPORARY_ID {
        if fp !in unique {
          return Crash, unique, rewritten;
        }
        c := c.(id := unique[fp]);
      }
      if fp in rewritten {
        c := c.(id := rewritten[fp], denied := true);
      }
      if !c.dup || (!c.denied && (m.sparse || (m.enabled && m.outOfOrder && !cached))) {
        r, unique', rewritten' := WriteOne(c, unique, rewritten);
        if r.Crash? {
          return;
        }
        c := r.value;
      }
      if c.id == TEMPORARY_ID {
        return Crash, unique', rewritten';
      }
      monitor := monitor + {c.id};
      return Done(c), unique', rewritten';
    }

    /** The resolve/write/deny loop of filter_thread. */
    method FilterLoop(seg: seq<Chunk>, marks: seq<Mark>) returns (r: Outcome<seq<Chunk>>)
      requires cfg.ratio > 0 && |seg| == |marks|
      modifies this`store, this`kv, this`monitor, this`tripped
      ensures var spec := FilterPrefix(cfg, old(Loop(map[], map[])), seg, marks, |seg|);
              && (r.Done? <==> spec.Done?)
              && (r.Done? ==> r.value == spec.value.1 && store == spec.value.0.store && kv == spec.value.0.kv)
              && (r.Done? ==> monitor == spec.value.0.seen && tripped == spec.value.0.tripped)
    {
      hide WriteChunk, Resolve, MustWrite;
      ghost var f := Loop(map[], map[]);
      var unique: map<Fp, int>, rewritten: map<Fp, int>, cs: seq<Chunk> := map[], map[], [];
      for n := 0 to |seg|
        invariant FilterPrefix(cfg, f, seg, marks, n) == Done((Loop(unique, rewritten), cs))
      {
        if !seg[n].Normal() {
          cs := cs + [seg[n]];
        } else {
          var c;
          c, unique, rewritten := FilterOne(seg[n], marks[n], unique, rewritten);
          if c.Crash? {
            FilterStuck(cfg, f, seg, marks, n + 1, |seg|);
            return Crash;
          }
          cs := cs + [c.value];
        }
      }
      return Done(cs);
    }

    /** index_update_buffer; the result says whether the buffer remains full. */
    method IndexUpdateBuffer(seg: seq<Chunk>) returns (r: Outcome<bool>)
      modifies this`buffer, this`chunkNum
      ensures var spec := UpdatePrefix(old(buffer), seg, |seg|);
              && (r.Done? <==> spec.Done?)
              && (r.Done? ==> buffer == spec.value && chunkNum == old(chunkNum) - NormalCount(seg))
              && (r.Done? ==> (r.value <==> cfg.threshold > 0 && chunkNum >= cfg.threshold))
    {
      ghost var b0, k0 := buffer, chunkNum;
      for n := 0 to |seg|
        invariant UpdatePrefix(b0, seg, n) == Done(buffer)
        invariant chunkNum == k0 - NormalCount(seg[..n])
      {
        assert seg[..n + 1][..n] == seg[..n];
        var c := seg[n];
        if !c.Normal() {
          continue;
        }
        if c.id == TEMPORARY_ID || c.item.fp !in buffer || buffer[c.item.fp] == [] {
          UpdateStuck(b0, seg, n + 1, |seg|);
          return Crash;
        }
        var bq := buffer[c.item.fp][1..];
        if bq == [] {
          buffer := buffer - {c.item.fp};
        } else {
          var j := 0;
          ghost var len := |bq|;
          while j < |bq|
            invariant 0 <= j <= |bq| == len
            invariant forall i | 0 <= i < j :: bq[i] == c.id
          {
            bq := bq[j := c.id];
            j := j + 1;
          }
          assert bq == seq(len, i => c.id);
          buffer := buffer[c.item.fp := bq];
        }
        chunkNum := chunkNum - 1;
      }
      assert seg[..|seg|] == seg;
      return Done(!(cfg.threshold <= 0 || chunkNum < cfg.threshold));
    }

    /** filter_thread, one segment, under the index lock: exactly one FilterOldest step. */
    method FilterSegment(marks: seq<Mark>, ghost manifest: map<int, int>, ghost jobs: map<int, Job>, ghost nextJob: int)
      returns (r: Outcome<bool>)
      requires cfg.ratio > 0 && inflight != [] && |marks| == |inflight[0]|
      modifies this
      ensures var spec := FilterOldest(cfg, old(Shared(manifest, jobs, nextJob)), marks);
              (r.Done? <==> spec.Done?) && (r.Done? ==> Shared(manifest, jobs, nextJob) == spec.value)
    {
      hide CheckPrefix, FilterPrefix, UpdatePrefix, R.RecordPrefix, NormalCount, Filtering;
      ghost var st := Shared(manifest, jobs, nextJob);
      var checked := IndexCheckBuffer(buffer, inflight[0], marks);
      if checked.Crash? {
        return Crash;
      }
      CheckedLength(buffer, inflight[0], marks);
      r := FilterRest(checked.value, marks, manifest, jobs, nextJob);
    }

    /** The part of the critical section after index_check_buffer. */
    method FilterRest(checked: seq<Chunk>, marks: seq<Mark>, ghost manifest: map<int, int>, ghost jobs: map<int, Job>, ghost nextJob: int)
      returns (r: Outcome<bool>)
      requires cfg.ratio > 0 && inflight != [] && |checked| == |marks|
      modifies this
      ensures var spec := Filtering(cfg, old(Shared(manifest, jobs, nextJob)), checked, marks);
              (r.Done? <==> spec.Done?) && (r.Done? ==> Shared(manifest, jobs, nextJob) == spec.value)
    {
      hide FilterPrefix, UpdatePrefix, R.RecordPrefix, NormalCount, Filtering;
      FilteringParts(cfg, Shared(manifest, jobs, nextJob), checked, marks);
      var out := FilterLoop(checked, marks);
      if out.Crash? {
        return Crash;
      }
      var cs := out.value;
      r := IndexUpdateBuffer(cs);
      if r.Crash? {
        return;
      }
      var q := WriteRecipe(recipe, cs);
      if q.Crash? {
        return Crash;
      }
      recipe := q.value;
      inflight := inflight[1..];
      filtered := filtered + cs;
    }

    /** index_lookup from dedup_thread: false means the index buffer is full and the thread waits. */
    method IndexLookup(items: seq<Item>, ghost manifest: map<int, int>, ghost jobs: map<int, Job>, ghost nextJob: int)
      returns (r: Outcome<bool>)
      modifies this
      ensures var spec := Lookup(cfg, old(Shared(manifest, jobs, nextJob)), items);
              (r.Done? <==> spec.Done?) && (r.Done? ==> Shared(manifest, jobs, nextJob) == spec.value)
      ensures r.Done? ==> (r.value <==> inflight != old(inflight))
    {
      var pieces := false;
      for i := 0 to |items|
        invariant pieces <==> exists k | 0 <= k < i :: items[k].Piece?
      {
        if items[i].Piece? {
          pieces := true;
        }
      }
      if pieces && cfg.threshold > 0 && chunkNum >= cfg.threshold {
        return Done(false);
      }
      var cs := IndexLookupBase(items);
      if cs.Crash? {
        return Crash;
      }
      inflight := inflight + [cs.value];
      return Done(true);
    }
  }
}
