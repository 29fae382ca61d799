/** The access records of a backup: its container ids with repetitions collapsed. */
module AccessRecords {
  import opened Common

  /** `ids` without immediate repetitions, when `last` came just before. */
  function Collapse(ids: seq<int>, last: int): seq<int> {
    if ids == [] then []
    else if ids[0] == last then Collapse(ids[1..], last)
    else [ids[0]] + Collapse(ids[1..], ids[0])
  }

  function Last(ids: seq<int>, last: int): int {
    if ids == [] then last else ids[|ids| - 1]
  }

  lemma {:induction false} CollapseSnoc(ids: seq<int>, last: int, x: int)
    ensures Collapse(ids + [x], last) == Collapse(ids, last) + if x == Last(ids, last) then [] else [x]
    decreases |ids|
  {
    if ids == [] {
      assert [] + [x] == [x];
      assert [x][1..] == [];
    } else {
      assert (ids + [x])[1..] == ids[1..] + [x] && (ids + [x])[0] == ids[0];
      CollapseSnoc(ids[1..], ids[0], x);
      CollapseSnoc(ids[1..], last, x);
    }
  }

  lemma {:induction false} CollapseEnds(ids: seq<int>, last: int)
    requires Last(ids, last) != last || Collapse(ids, last) != []
    ensures Collapse(ids, last) != [] && Collapse(ids, last)[|Collapse(ids, last)| - 1] == Last(ids, last)
    decreases |ids|
  {
    if ids != [] {
      if ids[0] == last {
        CollapseEnds(ids[1..], last);
      } else if Collapse(ids[1..], ids[0]) != [] || Last(ids[1..], ids[0]) != ids[0] {
        CollapseEnds(ids[1..], ids[0]);
      }
    }
  }

  /** No two neighbours of the records are equal, and none is the marker `last`. */
  lemma {:induction false} CollapseHead(ids: seq<int>, last: int)
    ensures Collapse(ids, last) != [] ==> Collapse(ids, last)[0] != last
    ensures forall i | 0 < i < |Collapse(ids, last)| :: Collapse(ids, last)[i] != Collapse(ids, last)[i - 1]
    ensures forall x | x in Collapse(ids, last) :: x in ids
    decreases |ids|
  {
    if ids != [] {
      CollapseHead(ids[1..], last);
      CollapseHead(ids[1..], ids[0]);
    }
  }

  /** append_n_chunk_pointers and update_backup_version: the records file ends with a marker. */
  method WriteRecords(ids: seq<int>) returns (file: seq<int>)
    requires forall i | 0 <= i < |ids| :: ids[i] >= 0
    ensures file == Collapse(ids, TEMPORARY_ID) + [TEMPORARY_ID]
  {
    var accessRecord := TEMPORARY_ID;
    file := [];
    for n := 0 to |ids|
      invariant accessRecord == Last(ids[..n], TEMPORARY_ID)
      invariant Collapse(ids[..n], TEMPORARY_ID) == file + if accessRecord == TEMPORARY_ID then [] else [accessRecord]
    {
      assert ids[..n + 1] == ids[..n] + [ids[n]];
      CollapseSnoc(ids[..n], TEMPORARY_ID, ids[n]);
      if accessRecord != TEMPORARY_ID && accessRecord != ids[n] {
        file := file + [accessRecord];
      }
      accessRecord := ids[n];
    }
    assert ids[..|ids|] == ids;
    if accessRecord != TEMPORARY_ID {
      file := file + [accessRecord];
    }
    file := file + [TEMPORARY_ID];
  }

  /** The records of a prefix are a prefix of the records. */
  lemma {:induction false} CollapsePrefix(ids: seq<int>, last: int, n: nat)
    requires n <= |ids|
    ensures Collapse(ids[..n], last) <= Collapse(ids, last)
    decreases |ids| - n
  {
    if n == |ids| {
      assert ids[..n] == ids;
    } else {
      CollapsePrefix(ids, last, n + 1);
      assert ids[..n + 1] == ids[..n] + [ids[n]];
      CollapseSnoc(ids[..n], last, ids[n]);
    }
  }
}
