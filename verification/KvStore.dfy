/** The hash-table key-value store: a fixed-length list of ids per key, latest first. */
module KvStore {
  import opened Common

  type Key = Bytes
  type Table = map<Key, seq<int>>

  function Blank(len: nat): seq<int> {
    seq(len, i => TEMPORARY_ID)
  }

  /** kv_update: shift the ids by one, the oldest falls out, the latest is first. */
  function Shift(ids: seq<int>, id: int): seq<int>
    requires ids != []
  {
    [id] + ids[..|ids| - 1]
  }

  function Update(t: Table, len: nat, key: Key, id: int): Table
    requires len > 0 && forall k | k in t :: |t[k]| == len
  {
    t[key := Shift(if key in t then t[key] else Blank(len), id)]
  }

  function IndexOf(ids: seq<int>, id: int): (i: nat)
    ensures i <= |ids|
    ensures i < |ids| ==> ids[i] == id
    ensures forall j | 0 <= j < i :: ids[j] != id
  {
    if ids == [] then 0 else if ids[0] == id then 0 else 1 + IndexOf(ids[1..], id)
  }

  /** kvstore_htable_delete: its assert demands that no younger-slot neighbour remains behind. */
  function Delete(t: Table, key: Key, id: int): Outcome<Table> {
    if key !in t then Done(t)
    else
      var ids := t[key];
      var i := IndexOf(ids, id);
      if i < |ids| && i != |ids| - 1 && ids[i + 1] != TEMPORARY_ID then Crash
      else
        var ids' := if i < |ids| then ids[i := TEMPORARY_ID] else ids;
        if ids' == [] || ids'[0] == TEMPORARY_ID then Done(t - {key}) else Done(t[key := ids'])
  }

  /** The id list of one key after a history of updates, the most recent last in `history`. */
  function Updated(len: nat, history: seq<int>): (r: seq<int>)
    requires len > 0
    ensures |r| == len
  {
    if history == [] then Blank(len) else Shift(Updated(len, history[..|history| - 1]), history[|history| - 1])
  }

  lemma {:induction false} UpdatedLast(len: nat, history: seq<int>)
    requires len > 0 && history != []
    ensures Updated(len, history)[0] == history[|history| - 1]
    ensures forall i | 0 < i < len :: Updated(len, history)[i] == Updated(len, history[..|history| - 1])[i - 1]
  {
  }

  /** FIFO: slot i holds the i-th latest id, and a key remembers exactly the last `len` updates. */
  lemma {:induction false} KeepsLatest(len: nat, history: seq<int>, i: nat)
    requires i < len
    ensures Updated(len, history)[i] == if i < |history| then history[|history| - 1 - i] else TEMPORARY_ID
  {
    if history != [] {
      UpdatedLast(len, history);
      hide Updated;
      var n := |history| - 1;
      if i > 0 {
        KeepsLatest(len, history[..n], i - 1);
      }
    }
  }

  /** Real ids come before the unused slots, and no id is listed twice. */
  ghost predicate Packed(ids: seq<int>) {
    && (forall i, j | 0 <= i < j < |ids| && ids[i] == TEMPORARY_ID :: ids[j] == TEMPORARY_ID)
    && (forall i, j | 0 <= i < j < |ids| && ids[i] != TEMPORARY_ID :: ids[i] != ids[j])
  }

  /** The deletion's assert holds exactly when the id is absent or is the oldest one listed. */
  lemma {:induction false} DeleteWantsOldest(t: Table, key: Key, id: int)
    requires key in t && Packed(t[key]) && id != TEMPORARY_ID
    ensures Delete(t, key, id).Done? <==>
              forall i, j | 0 <= i < j < |t[key]| && t[key][i] == id :: t[key][j] == TEMPORARY_ID
    ensures Delete(t, key, id).Done? ==>
              var u := Delete(t, key, id).value;
              && (key in u ==> Packed(u[key]) && id !in u[key] && u[key][0] != TEMPORARY_ID)
              && (forall x | x != id && x != TEMPORARY_ID :: x in t[key] <==> key in u && x in u[key])
              && (forall k | k != key :: (k in u <==> k in t) && (k in t ==> u[k] == t[k]))
  {
    var ids := t[key];
    var i := IndexOf(ids, id);
    if Delete(t, key, id).Done? {
      var ids' := if i < |ids| then ids[i := TEMPORARY_ID] else ids;
      forall x | x != id && x != TEMPORARY_ID
        ensures x in ids <==> x in ids'
      {
        if x in ids {
          var j :| 0 <= j < |ids| && ids[j] == x;
          assert ids'[j] == x;
        }
      }
      assert Packed(ids');
      if |ids'| > 0 && ids'[0] == TEMPORARY_ID {
        assert forall j | 0 <= j < |ids'| :: ids'[j] == TEMPORARY_ID;
      }
    }
  }

  /** kv_update: memmove by one, then the new id in front. */
  method ShiftDown(value: array<int>, id: int)
    requires value.Length > 0
    modifies value
    ensures value[..] == Shift(old(value[..]), id)
  {
    var i := value.Length - 1;
    while i > 0
      invariant 0 <= i < value.Length
      invariant forall j | 0 <= j <= i :: value[j] == old(value[j])
      invariant forall j | i < j < value.Length :: value[j] == old(value[j - 1])
    {
      value[i] := value[i - 1];
      i := i - 1;
    }
    value[0] := id;
  }

  class HTable {
    const len: nat
    var table: Table

    ghost predicate Valid()
      reads this
    {
      len > 0 && forall k | k in table :: |table[k]| == len
    }

    constructor (valueLength: nat)
      requires valueLength > 0
      ensures Valid() && table == map[] && len == valueLength
    {
      len := valueLength;
      table := map[];
    }

    /** kvstore_htable_lookup. */
    method Lookup(key: Key) returns (ids: Option<seq<int>>)
      requires Valid()
      ensures ids.Some? <==> key in table
      ensures ids.Some? ==> ids.value == table[key] && |ids.value| == len
    {
      if key in table {
        return Some(table[key]);
      }
      return None;
    }

    /** kvstore_htable_update, with kv_update's memmove written out on an array. */
    method Put(key: Key, id: int)
      requires Valid()
      modifies this
      ensures Valid() && table == Update(old(table), len, key, id)
    {
      var value := new int[len](i => TEMPORARY_ID);
      if key in table {
        forall i | 0 <= i < len {
          value[i] := table[key][i];
        }
      }
      ghost var before := value[..];
      assert before == if key in table then table[key] else Blank(len);
      ShiftDown(value, id);
      var ids := value[..];
      table := table[key := ids];
    }

    /** kvstore_htable_delete; false is the failed assert. */
    method Remove(key: Key, id: int) returns (ok: bool)
      requires Valid()
      modifies this
      ensures Valid() && (ok <==> Delete(old(table), key, id).Done?)
      ensures ok ==> table == Delete(old(table), key, id).value
      ensures !ok ==> table == old(table)
    {
      if key !in table {
        return true;
      }
      var ids := table[key];
      var i := 0;
      while i < len && ids[i] != id
        invariant 0 <= i <= len
        invariant forall j | 0 <= j < i :: ids[j] != id
      {
        i := i + 1;
      }
      assert i == IndexOf(ids, id);
      if i < len {
        if i != len - 1 && ids[i + 1] != TEMPORARY_ID {
          return false;
        }
        ids := ids[i := TEMPORARY_ID];
      }
      if ids[0] == TEMPORARY_ID {
        table := table - {key};
      } else {
        table := table[key := ids];
      }
      return true;
    }
  }
}
