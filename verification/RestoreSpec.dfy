/** What a restore must produce: the one-line reading of a recipe. */
module RestoreSpec {
  import opened Common
  import opened InFlight
  import R = Recipes

  datatype Output = Start(name: Bytes) | End | Data(bytes: Bytes)

  /** The user's view of a backed-up stream. */
  function OutputOf(item: Item): Output {
    match item
    case FileStart(name) => Start(name)
    case FileEnd => End
    case Piece(_, data) => Data(data)
  }

  function Outputs(items: seq<Item>): seq<Output> {
    if items == [] then [] else Outputs(items[..|items| - 1]) + [OutputOf(items[|items| - 1])]
  }

  /** For each recipe pointer, read that fingerprint from that container. */
  function RestoreRef(held: Holdings, ref: R.Ref): Outcome<Output> {
    match ref
    case Open(name) => Done(Start(name))
    case Close => Done(End)
    case Fetch(p) => if p.id in held && p.fp in held[p.id] then Done(Data(held[p.id][p.fp])) else Crash
  }

  function Restore(held: Holdings, refs: seq<R.Ref>): Outcome<seq<Output>> {
    if refs == [] then Done([])
    else
      var out :- Restore(held, refs[..|refs| - 1]);
      var o :- RestoreRef(held, refs[|refs| - 1]);
      Done(out + [o])
  }

  /** `ref` stands for `item`: same mark, or a pointer with the piece's fingerprint. */
  predicate Matches(ref: R.Ref, item: Item) {
    match item
    case FileStart(name) => ref == R.Open(name)
    case FileEnd => ref == R.Close
    case Piece(fp, _) => ref.Fetch? && ref.ptr.fp == fp
  }

  ghost predicate AllMatch(refs: seq<R.Ref>, items: seq<Item>) {
    |refs| == |items| && forall i | 0 <= i < |refs| :: Matches(refs[i], items[i])
  }

  lemma {:induction false} RestoreMatching(held: Holdings, refs: seq<R.Ref>, items: seq<Item>)
    requires AllMatch(refs, items)
    requires forall i | 0 <= i < |refs| && refs[i].Fetch? ::
               Stored(held, refs[i].ptr.id, refs[i].ptr.fp) && held[refs[i].ptr.id][refs[i].ptr.fp] == items[i].data
    ensures Restore(held, refs) == Done(Outputs(items))
  {
    if refs != [] {
      var n := |refs| - 1;
      RestoreMatching(held, refs[..n], items[..n]);
      assert Matches(refs[n], items[n]);
    }
  }
}
