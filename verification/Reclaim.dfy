/** The container-marker manifest and the index cleaning of do_delete, as loops over hash tables. */
module Reclaim {
  import opened Common
  import opened Containers
  import opened Machine
  import opened StoreInvariant
  import opened Safety
  import KvStore

  lemma {:induction false} Pick(s: set<int>)
    requires s != {}
    ensures exists x :: x in s
  {
    if forall x :: x !in s {
      assert false;
    }
  }

  /** update_manifest: every container the backup used is marked with its job id. */
  method UpdateManifest(manifest: map<int, int>, monitor: set<int>, job: int) returns (m: map<int, int>)
    ensures m == manifest + map id | id in monitor :: job
  {
    m := manifest;
    var todo := monitor;
    while todo != {}
      invariant todo <= monitor
      invariant m == manifest + map id | id in monitor - todo :: job
      decreases |todo|
    {
      Pick(todo);
      var id :| id in todo;
      m := m[id := job];
      todo := todo - {id};
    }
    assert monitor - {} == monitor;
  }

  /** trunc_manifest: split the records at `jobid`. */
  method TruncManifest(manifest: map<int, int>, jobid: int) returns (m: map<int, int>, dead: set<int>)
    ensures dead == set id | id in manifest && manifest[id] <= jobid
    ensures m == manifest - dead
  {
    m, dead := map[], {};
    var todo := manifest.Keys;
    while todo != {}
      invariant todo <= manifest.Keys
      invariant dead == set id | id in manifest.Keys - todo && manifest[id] <= jobid
      invariant m == map id | id in manifest.Keys - todo && manifest[id] > jobid :: manifest[id]
      decreases |todo|
    {
      Pick(todo);
      var id :| id in todo;
      if manifest[id] <= jobid {
        dead := dead + {id};
      } else {
        m := m[id := manifest[id]];
      }
      todo := todo - {id};
    }
  }

  /** With one id per key, a table is a map from keys to ids. */
  function Heads(t: KvStore.Table): map<Key, int>
    requires forall k | k in t :: |t[k]| == 1
  {
    map k | k in t :: t[k][0]
  }

  ghost predicate OneEach(t: KvStore.Table) {
    forall k | k in t :: |t[k]| == 1 && t[k][0] != TEMPORARY_ID
  }

  /** One-id lists: an update overwrites, and a delete never fails and removes at most that entry. */
  lemma {:induction false} OneIdPerKey(t: KvStore.Table, key: Key, id: int)
    requires OneEach(t) && id != TEMPORARY_ID
    ensures OneEach(KvStore.Update(t, 1, key, id))
    ensures Heads(KvStore.Update(t, 1, key, id)) == Heads(t)[key := id]
    ensures KvStore.Delete(t, key, id).Done?
    ensures OneEach(KvStore.Delete(t, key, id).value)
    ensures Heads(KvStore.Delete(t, key, id).value)
         == if key in t && t[key][0] == id then Heads(t) - {key} else Heads(t)
  {
    if key in t {
      assert KvStore.IndexOf(t[key], id) == if t[key][0] == id then 0 else 1;
    }
  }

  /** container_meta_foreach(delete_an_entry): drop every entry of `fps` that points to `id`. */
  method CleanContainer(t: KvStore.Table, id: int, fps: set<Fp>, keySize: nat) returns (u: KvStore.Table)
    requires OneEach(t) && id != TEMPORARY_ID
    ensures OneEach(u)
    ensures forall k :: k in u <==> k in t && !(t[k][0] == id && exists fp :: fp in fps && KeyOf(fp, keySize) == k)
    ensures forall k | k in u :: u[k] == t[k]
  {
    u := t;
    var todo := fps;
    while todo != {}
      invariant OneEach(u) && todo <= fps
      invariant forall k :: k in u <==>
                  k in t && !(t[k][0] == id && exists fp :: fp in fps - todo && KeyOf(fp, keySize) == k)
      invariant forall k | k in u :: u[k] == t[k]
      decreases |todo|
    {
      var fp :| fp in todo;
      ghost var before, w := u, todo;
      var key := KeyOf(fp, keySize);
      OneIdPerKey(u, key, id);
      u := KvStore.Delete(u, key, id).value;
      todo := todo - {fp};
      DeleteOne(before, u, key, id);
      forall k | k in t
        ensures (exists g :: g in fps - todo && KeyOf(g, keySize) == k) <==>
                (k == key || exists g :: g in fps - w && KeyOf(g, keySize) == k)
      {
        assert fps - todo == (fps - w) + {fp};
        if k == key {
          assert fp in fps - todo && KeyOf(fp, keySize) == k;
        }
      }
    }
    assert fps - {} == fps;
  }

  lemma {:induction false} DeleteOne(t: KvStore.Table, u: KvStore.Table, key: Key, id: int)
    requires OneEach(t) && id != TEMPORARY_ID && KvStore.Delete(t, key, id) == Done(u)
    ensures forall k :: k in u <==> k in t && !(t[k][0] == id && k == key)
    ensures forall k | k in u :: u[k] == t[k]
  {
    if key in t {
      assert KvStore.IndexOf(t[key], id) == if t[key][0] == id then 0 else 1;
    }
  }

  /** Every entry that names a container is under a fingerprint of that container, so cleaning it leaves none. */
  lemma {:induction false} EntriesGone(cfg: Config, t: KvStore.Table, disk: map<int, Container>, before: KvStore.Table,
                                       u: KvStore.Table, id: int)
    requires OneEach(t) && OneEach(before) && KvOk(cfg, disk, Heads(t)) && id in disk
    requires forall k | k in before :: k in t && before[k] == t[k]
    requires forall k :: k in u <==> k in before && !(before[k][0] == id
                                                      && exists fp :: fp in disk[id].entries.Keys && KeyOf(fp, cfg.keySize) == k)
    ensures forall k :: k in u <==> k in before && before[k][0] != id
  {
    hide KeyOf;
    forall k | k in before && before[k][0] == id
      ensures k !in u
    {
      assert Heads(t)[k] == id;
      var fp :| fp in disk[id].entries && KeyOf(fp, cfg.keySize) == k;
      assert fp in disk[id].entries.Keys;
    }
  }

  lemma {:induction false} CleanedOne(t: KvStore.Table, before: KvStore.Table, u: KvStore.Table, dead: set<int>,
                                      todo: set<int>, id: int)
    requires OneEach(t) && OneEach(before) && id in todo && todo <= dead
    requires forall k :: k in before <==> k in t && t[k][0] !in dead - todo
    requires forall k | k in before :: before[k] == t[k]
    requires forall k :: k in u <==> k in before && before[k][0] != id
    ensures forall k :: k in u <==> k in t && t[k][0] !in dead - (todo - {id})
  {
    assert dead - (todo - {id}) == (dead - todo) + {id};
  }

  /**
   * do_delete for physical locality: for each reclaimed container, read its metadata and delete its
   * entries. The result is the index without the reclaimed ids, as in Machine.Delete.
   */
  method CleanIndex(cfg: Config, t: KvStore.Table, disk: map<int, Container>, dead: set<int>) returns (u: KvStore.Table)
    requires OneEach(t) && KvOk(cfg, disk, Heads(t)) && dead <= disk.Keys && TEMPORARY_ID !in dead
    ensures OneEach(u)
    ensures Heads(u) == map k | k in Heads(t) && Heads(t)[k] !in dead :: Heads(t)[k]
  {
    hide KvOk;
    u := t;
    var todo := dead;
    while todo != {}
      invariant OneEach(u) && todo <= dead
      invariant forall k :: k in u <==> k in t && t[k][0] !in dead - todo
      invariant forall k | k in u :: u[k] == t[k]
      decreases |todo|
    {
      Pick(todo);
      var id :| id in todo;
      ghost var before := u;
      u := CleanContainer(u, id, disk[id].entries.Keys, cfg.keySize);
      EntriesGone(cfg, t, disk, before, u, id);
      CleanedOne(t, before, u, dead, todo, id);
      todo := todo - {id};
    }
    assert dead - {} == dead;
  }

  /** do_delete as a whole, between backups: exactly one Delete step of the machine. */
  method DoDelete(cfg: Config, ghost content: Content, st: State, t: KvStore.Table, jobid: int)
    returns (u: KvStore.Table, st': State)
    requires Inv(cfg, content, st) && !st.running && 0 <= jobid < st.nextJob
    requires OneEach(t) && Heads(t) == st.index.kv
    ensures Delete(st, jobid) == Done(st')
    ensures OneEach(u) && Heads(u) == st'.index.kv
  {
    var m, dead := TruncManifest(st.manifest, jobid);
    DeadOnDisk(cfg, content, st);
    hide Inv, KvOk;
    assert forall id | id in dead :: id in st.store.disk.Keys && id >= 0;
    u := CleanIndex(cfg, t, st.store.disk, dead);
    st' := st.(manifest := m, index := st.index.(kv := Heads(u)), store := st.store.(disk := st.store.disk - dead),
               jobs := map j | j in st.jobs && j > jobid :: st.jobs[j]);
  }

  lemma {:induction false} DeadOnDisk(cfg: Config, content: Content, st: State)
    requires Inv(cfg, content, st) && !st.running
    ensures forall id | id in st.manifest :: id in st.store.disk && id >= 0
    ensures KvOk(cfg, st.store.disk, st.index.kv)
  {
    assert ClosedOf(st.store) == st.store.disk;
    HeldIds(st.store, content);
  }
}
