/** Cutting the chunk stream into segments: the three segmenting methods and the loop of dedup_thread. */
module Segmenting {
  import opened Common

  /** `Content(min, max)` cuts where a chunk satisfies the boundary test given to the segmenter. */
  datatype Algorithm = Fixed(size: nat) | FileDefined | Content(min: nat, max: nat)

  function Pieces(items: seq<Item>): nat {
    if items == [] then 0 else Pieces(items[..|items| - 1]) + if items[|items| - 1].Piece? then 1 else 0
  }

  function Ends(items: seq<Item>): nat {
    if items == [] then 0 else Ends(items[..|items| - 1]) + if items[|items| - 1].FileEnd? then 1 else 0
  }

  lemma {:induction false} CountSnoc(items: seq<Item>, x: Item)
    ensures Pieces(items + [x]) == Pieces(items) + if x.Piece? then 1 else 0
    ensures Ends(items + [x]) == Ends(items) + if x.FileEnd? then 1 else 0
  {
    assert (items + [x])[..|items|] == items;
  }

  /** The largest segment the content-defined method returns; a cut chunk starts its segment without a size test. */
  function ContentBound(min: nat, max: nat): nat {
    var m := if max > min + 1 then max else min + 1;
    if m > 2 then m else 2
  }

  /** What a segment cut inside the stream looks like. */
  predicate Cut(alg: Algorithm, seg: seq<Item>) {
    match alg
    case Fixed(size) => Pieces(seg) == size && seg != [] && seg[|seg| - 1].Piece?
    case FileDefined => Ends(seg) == 1 && seg != [] && seg[|seg| - 1].FileEnd?
    case Content(min, max) => min <= Pieces(seg) <= ContentBound(min, max)
  }

  /** What is left over between two cuts, and so what the last segment may look like. */
  predicate Open(alg: Algorithm, seg: seq<Item>) {
    match alg
    case Fixed(size) => Pieces(seg) < size
    case FileDefined => Ends(seg) == 0
    case Content(min, max) => Pieces(seg) < ContentBound(min, max)
  }

  /** Inside a content-defined segment, no chunk that could have started the next one was passed over. */
  predicate NoInner(boundary: Item -> bool, min: nat, seg: seq<Item>) {
    forall i | 0 < i < |seg| && seg[i].Piece? && Pieces(seg[..i]) >= min :: !boundary(seg[i])
  }

  /** A content-defined segment that did not reach the maximum was ended by a boundary chunk, which starts the next. */
  predicate Follows(boundary: Item -> bool, max: nat, seg: seq<Item>, next: seq<Item>) {
    Pieces(seg) < max ==> next != [] && next[0].Piece? && boundary(next[0])
  }

  lemma {:induction false} NoInnerSnoc(boundary: Item -> bool, min: nat, seg: seq<Item>, x: Item)
    requires NoInner(boundary, min, seg)
    requires seg == [] || !x.Piece? || Pieces(seg) < min || !boundary(x)
    ensures NoInner(boundary, min, seg + [x])
  {
    var all := seg + [x];
    forall i | 0 < i < |all| && all[i].Piece? && Pieces(all[..i]) >= min
      ensures !boundary(all[i])
    {
      if i < |seg| {
        assert all[..i] == seg[..i] && all[i] == seg[i];
      } else {
        assert all[..i] == seg;
      }
    }
  }

  lemma {:induction false} FollowsGrows(boundary: Item -> bool, max: nat, seg: seq<Item>, next: seq<Item>,
                                        more: seq<Item>)
    requires Follows(boundary, max, seg, next) && next <= more
    ensures Follows(boundary, max, seg, more)
  {
  }

  /** The `static struct segment *tmp` of a segmenting method; `num` is its chunk_num. */
  class Segmenter {
    const alg: Algorithm
    const boundary: Item -> bool
    var tmp: Option<seq<Item>>
    var num: nat

    ghost predicate Valid()
      reads this
    {
      && num == Pieces(Pending())
      && Open(alg, Pending())
      && (alg.Fixed? ==> alg.size > 0)
      && (alg.Content? ==> NoInner(boundary, alg.min, Pending()))
    }

    function Pending(): seq<Item>
      reads this
    {
      if tmp.None? then [] else tmp.value
    }

    constructor (alg: Algorithm, boundary: Item -> bool)
      requires alg.Fixed? ==> alg.size > 0
      ensures Valid() && this.alg == alg && this.boundary == boundary && Pending() == []
    {
      this.alg, this.boundary, tmp, num := alg, boundary, None, 0;
    }

    /** segment_fixed, for a chunk. */
    method SegmentFixed(x: Item) returns (r: Option<seq<Item>>)
      requires Valid() && alg.Fixed?
      modifies this
      ensures Valid()
      ensures (if r.Some? then r.value else []) + Pending() == old(Pending()) + [x]
      ensures r.Some? ==> Cut(alg, r.value)
    {
      CountSnoc(Pending(), x);
      tmp := Some(Pending() + [x]);
      if !x.Piece? {
        return None;
      }
      num := num + 1;
      if num == alg.size {
        r, tmp, num := tmp, None, 0;
        return;
      }
      return None;
    }

    /** segment_file_defined, for a chunk. */
    method SegmentFile(x: Item) returns (r: Option<seq<Item>>)
      requires Valid() && alg.FileDefined?
      modifies this
      ensures Valid()
      ensures (if r.Some? then r.value else []) + Pending() == old(Pending()) + [x]
      ensures r.Some? ==> Cut(alg, r.value)
    {
      CountSnoc(Pending(), x);
      tmp := Some(Pending() + [x]);
      if x.FileEnd? {
        r, tmp, num := tmp, None, 0;
        return;
      } else if x.FileStart? {
        return None;
      }
      num := num + 1;
      return None;
    }

    /** segment_content_defined, for a chunk. */
    method SegmentContent(x: Item) returns (r: Option<seq<Item>>)
      requires Valid() && alg.Content?
      modifies this
      ensures Valid()
      ensures (if r.Some? then r.value else []) + Pending() == old(Pending()) + [x]
      ensures r.Some? ==> Cut(alg, r.value) && old(Pending()) <= r.value
      ensures r.Some? ==> NoInner(boundary, alg.min, r.value) && Follows(boundary, alg.max, r.value, Pending())
      ensures r.None? ==> old(Pending()) <= Pending()
    {
      hide Cut, Open, NoInner, Follows, Pieces;
      ContentStep(boundary, alg, Pending(), x);
      if !x.Piece? {
        tmp := Some(Pending() + [x]);
        return None;
      }
      if num < alg.min {
        tmp, num := Some(Pending() + [x]), num + 1;
        return None;
      }
      if boundary(x) {
        r, tmp, num := Some(Pending()), Some([x]), 1;
        return;
      }
      tmp, num := Some(Pending() + [x]), num + 1;
      if num >= alg.max {
        r, tmp, num := tmp, Some([]), 0;
        return;
      }
      return None;
    }

    /** The segmenting method in force; None is the end of the stream. */
    method Segment(c: Option<Item>) returns (r: Option<seq<Item>>)
      requires Valid()
      modifies this
      ensures c.None? ==> r == Some(old(Pending()))
      ensures c.Some? ==> Valid()
      ensures c.Some? ==> (if r.Some? then r.value else []) + Pending() == old(Pending()) + [c.value]
      ensures c.Some? && r.Some? ==> Cut(alg, r.value)
      ensures c.Some? && alg.Content? && r.None? ==> old(Pending()) <= Pending()
      ensures c.Some? && alg.Content? && r.Some? ==>
                old(Pending()) <= r.value && NoInner(boundary, alg.min, r.value) && Follows(boundary, alg.max, r.value, Pending())
      ensures c.None? && alg.Content? ==> NoInner(boundary, alg.min, r.value)
    {
      hide Cut, Open, Pieces, NoInner, Follows;
      if c.None? {
        return Some(Pending());
      }
      match alg
      case Fixed(size) => r := SegmentFixed(c.value);
      case FileDefined => r := SegmentFile(c.value);
      case Content(min, max) => r := SegmentContent(c.value);
    }
  }

  lemma {:induction false} NothingCounts()
    ensures Pieces([]) == 0 && Ends([]) == 0
  {
  }

  /** What each branch of the content-defined method needs to know about the pending segment and the next chunk. */
  lemma {:induction false} ContentStep(boundary: Item -> bool, alg: Algorithm, seg: seq<Item>, x: Item)
    requires alg.Content? && Open(alg, seg) && NoInner(boundary, alg.min, seg)
    ensures Pieces([]) == 0 && Pieces([x]) == (if x.Piece? then 1 else 0) && Pieces(seg + [x]) == Pieces(seg) + Pieces([x])
    ensures Open(alg, []) && NoInner(boundary, alg.min, [])
    ensures var n, all := Pieces(seg), seg + [x];
            && (!x.Piece? || n < alg.min ==> Open(alg, all) && NoInner(boundary, alg.min, all))
            && (x.Piece? && n >= alg.min && boundary(x) ==>
                  && Cut(alg, seg) && Follows(boundary, alg.max, seg, [x])
                  && Open(alg, [x]) && NoInner(boundary, alg.min, [x]))
            && (x.Piece? && n >= alg.min && !boundary(x) ==>
                  && NoInner(boundary, alg.min, all)
                  && (if n + 1 >= alg.max then Cut(alg, all) && Follows(boundary, alg.max, all, []) else Open(alg, all)))
  {
    CountSnoc(seg, x);
    CountOne(x);
    NothingCounts();
    NoInnerNext(boundary, alg.min, seg, x);
    hide Pieces, NoInner;
  }

  lemma {:induction false} NoInnerNext(boundary: Item -> bool, min: nat, seg: seq<Item>, x: Item)
    requires NoInner(boundary, min, seg)
    ensures NoInner(boundary, min, [x]) && NoInner(boundary, min, [])
    ensures !x.Piece? || Pieces(seg) < min || !boundary(x) ==> NoInner(boundary, min, seg + [x])
  {
    if !x.Piece? || Pieces(seg) < min || !boundary(x) {
      NoInnerSnoc(boundary, min, seg, x);
    }
  }

  lemma {:induction false} CountOne(x: Item)
    ensures Pieces([x]) == if x.Piece? then 1 else 0
    ensures Ends([x]) == if x.FileEnd? then 1 else 0
  {
    CountSnoc([], x);
    assert [] + [x] == [x];
  }

  lemma {:induction false} Regroup(done: seq<Item>, got: seq<Item>, now: seq<Item>, before: seq<Item>, x: Item,
                                   seen: seq<Item>)
    requires done + before == seen && got + now == before + [x]
    ensures (done + got) + now == seen + [x]
  {
    assert (done + got) + now == done + (got + now);
    assert done + (before + [x]) == (done + before) + [x];
  }

  /** The content rule for segments cut so far and for the one pending. */
  ghost predicate ContentRule(boundary: Item -> bool, min: nat, max: nat, segs: seq<seq<Item>>, pending: seq<Item>) {
    && (forall k | 0 <= k < |segs| :: NoInner(boundary, min, segs[k]))
    && (forall k | 0 <= k < |segs| - 1 :: Follows(boundary, max, segs[k], segs[k + 1]))
    && (segs != [] ==> Follows(boundary, max, segs[|segs| - 1], pending))
  }

  lemma {:induction false} RuleCut(boundary: Item -> bool, min: nat, max: nat, segs: seq<seq<Item>>, before: seq<Item>,
                                   seg: seq<Item>, after: seq<Item>)
    requires ContentRule(boundary, min, max, segs, before) && before <= seg
    requires NoInner(boundary, min, seg) && Follows(boundary, max, seg, after)
    ensures ContentRule(boundary, min, max, segs + [seg], after)
  {
    hide NoInner, Follows;
    if segs != [] {
      FollowsGrows(boundary, max, segs[|segs| - 1], before, seg);
    }
  }

  lemma {:induction false} RuleGrows(boundary: Item -> bool, min: nat, max: nat, segs: seq<seq<Item>>,
                                     before: seq<Item>,
                                     after: seq<Item>)
    requires ContentRule(boundary, min, max, segs, before) && before <= after
    ensures ContentRule(boundary, min, max, segs, after)
  {
    hide NoInner, Follows;
    if segs != [] {
      FollowsGrows(boundary, max, segs[|segs| - 1], before, after);
    }
  }

  /**
   * The loop of dedup_thread over a whole job: the segments are the stream, cut up; all but the last are cut by the
   * method's own rule, and the last is what was left at the end. A content-defined segment passes over no chunk that
   * could have started the next one, and one shorter than the maximum is followed by a boundary chunk.
   */
  method SegmentStream(alg: Algorithm, boundary: Item -> bool, stream: seq<Item>) returns (segs: seq<seq<Item>>)
    requires alg.Fixed? ==> alg.size > 0
    ensures Flat(segs) == stream && segs != []
    ensures forall i | 0 <= i < |segs| - 1 :: Cut(alg, segs[i])
    ensures Open(alg, segs[|segs| - 1])
    ensures alg.Content? ==> forall k | 0 <= k < |segs| :: NoInner(boundary, alg.min, segs[k])
    ensures alg.Content? ==> forall k | 0 <= k < |segs| - 1 :: Follows(boundary, alg.max, segs[k], segs[k + 1])
  {
    hide Cut, Open, Flat, Pieces, NoInner, Follows;
    FlatSnoc<Item>([], []);
    var m := new Segmenter(alg, boundary);
    segs := [];
    for i := 0 to |stream|
      invariant m.Valid() && m.alg == alg && m.boundary == boundary
      invariant Flat(segs) + m.Pending() == stream[..i]
      invariant forall k | 0 <= k < |segs| :: Cut(alg, segs[k])
      invariant alg.Content? ==> ContentRule(boundary, alg.min, alg.max, segs, m.Pending())
    {
      assert stream[..i + 1] == stream[..i] + [stream[i]];
      ghost var before, done, was := m.Pending(), Flat(segs), segs;
      var r := m.Segment(Some(stream[i]));
      if r.Some? {
        FlatSnoc(segs, r.value);
        segs := segs + [r.value];
      }
      ghost var got := if r.Some? then r.value else [];
      Regroup(done, got, m.Pending(), before, stream[i], stream[..i]);
      if alg.Content? {
        if r.Some? {
          RuleCut(boundary, alg.min, alg.max, was, before, got, m.Pending());
        } else {
          RuleGrows(boundary, alg.min, alg.max, was, before, m.Pending());
        }
      }
    }
    assert stream[..|stream|] == stream;
    var last := m.Segment(None);
    FlatSnoc(segs, last.value);
    segs := segs + [last.value];
  }
}
