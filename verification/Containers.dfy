/** Containers: the open one, those queued for the append thread, those on disk. */
module Containers {
  import opened Common

  /** `order` keeps the fingerprints in the order they were added (storage_buffer.chunks). */
  datatype Container = Container(id: int, order: seq<Fp>, entries: map<Fp, Bytes>, dataSize: nat)

  function NewContainer(id: int): Container {
    Container(id, [], map[], 0)
  }

  /** container_overflow: no room for `size` more bytes or for one more 28-byte entry. */
  predicate Overflow(c: Container, size: int) {
    || c.dataSize + size > CONTAINER_SIZE - CONTAINER_META_SIZE
    || (|c.entries| + 1) * 28 + 16 > CONTAINER_META_SIZE
  }

  /** add_chunk_to_container on a container that does not hold `fp` yet. */
  function Add(c: Container, fp: Fp, data: Bytes): Container {
    Container(c.id, c.order + [fp], c.entries[fp := data], c.dataSize + |data|)
  }

  /**
   * `pending` is the append thread's queue, `written` says that its top is already on disk but
   * not popped, and `nextId` is container_count.
   */
  datatype Store = Store(open: Option<Container>, nextId: nat, pending: seq<Container>, written: bool,
                         disk: map<int, Container>)

  const EMPTY := Store(None, 0, [], false, map[])

  /** Every container that was handed to the append thread, whether or not it reached the disk. */
  function Closed(disk: map<int, Container>, pending: seq<Container>): map<int, Container> {
    if pending == [] then disk
    else
      var c := pending[|pending| - 1];
      Closed(disk, pending[..|pending| - 1])[c.id := c]
  }

  /** retrieve_container_meta_by_id: the queue first, then the file. */
  function Retrieve(s: Store, id: int): Outcome<Container> {
    var i := FindPending(s.pending, id);
    if i < |s.pending| then Done(s.pending[i])
    else if id in s.disk then Done(s.disk[id])
    else Crash
  }

  /** queue_find with container_check_id. */
  function FindPending(q: seq<Container>, id: int): (i: nat)
    ensures i <= |q|
    ensures i < |q| ==> q[i].id == id
    ensures forall j | 0 <= j < i :: q[j].id != id
  {
    if q == [] then 0 else if q[0].id == id then 0 else 1 + FindPending(q[1..], id)
  }

  /** The append thread writes the top of the queue, and only then pops it. */
  function AppendWrite(s: Store): Store {
    if s.pending == [] || s.written then s
    else s.(disk := s.disk[s.pending[0].id := s.pending[0]], written := true)
  }

  function AppendPop(s: Store): Store {
    if s.pending == [] || !s.written then s
    else s.(pending := s.pending[1..], written := false)
  }

  /** Ids in the queue are distinct, and a written top is what the disk holds. */
  ghost predicate QueueOk(s: Store) {
    && (forall i, j | 0 <= i < j < |s.pending| :: s.pending[i].id != s.pending[j].id)
    && (s.written ==> s.pending != [] && s.pending[0].id in s.disk && s.disk[s.pending[0].id] == s.pending[0])
    && (forall i | (if s.written then 1 else 0) <= i < |s.pending| :: s.pending[i].id !in s.disk)
  }

  lemma {:induction false} ClosedSnoc(disk: map<int, Container>, pending: seq<Container>, c: Container)
    ensures Closed(disk, pending + [c]) == Closed(disk, pending)[c.id := c]
  {
    assert (pending + [c])[..|pending|] == pending;
  }

  lemma {:induction false} ClosedHead(disk: map<int, Container>, pending: seq<Container>)
    requires pending != []
    ensures Closed(disk, pending) == Closed(disk[pending[0].id := pending[0]], pending[1..])
    decreases |pending|
  {
    var n := |pending| - 1;
    if n == 0 {
      assert pending[..0] == [] && pending[1..] == [];
    } else {
      ClosedHead(disk, pending[..n]);
      assert pending[..n][1..] == pending[1..][..n - 1];
      assert pending[1..][n - 1] == pending[n];
    }
  }

  /** Neither append step changes which containers are visible, nor their contents. */
  lemma {:induction false} AppendKeepsClosed(s: Store)
    requires QueueOk(s)
    ensures QueueOk(AppendWrite(s)) && QueueOk(AppendPop(s))
    ensures Closed(AppendWrite(s).disk, AppendWrite(s).pending) == Closed(s.disk, s.pending)
    ensures Closed(AppendPop(s).disk, AppendPop(s).pending) == Closed(s.disk, s.pending)
  {
    if s.pending != [] {
      var c := s.pending[0];
      ClosedHead(s.disk, s.pending);
      ClosedHead(s.disk[c.id := c], s.pending);
      assert s.disk[c.id := c][c.id := c] == s.disk[c.id := c];
      if s.written {
        assert s.disk[c.id := c] == s.disk;
      }
    }
  }

  lemma {:induction false} ClosedLookup(disk: map<int, Container>, pending: seq<Container>, id: int)
    requires forall i, j | 0 <= i < j < |pending| :: pending[i].id != pending[j].id
    ensures var i := FindPending(pending, id);
            var closed := Closed(disk, pending);
            && (i < |pending| ==> id in closed && closed[id] == pending[i])
            && (i == |pending| ==> (id in closed <==> id in disk) && (id in disk ==> closed[id] == disk[id]))
    decreases |pending|
  {
    if pending != [] {
      var n := |pending| - 1;
      ClosedLookup(disk, pending[..n], id);
      assert forall j | 0 <= j < n :: pending[..n][j] == pending[j];
    }
  }

  /** A retrieve at any moment returns the closed container. */
  lemma {:induction false} RetrieveIsClosed(s: Store, id: int)
    requires QueueOk(s) && id in Closed(s.disk, s.pending)
    ensures Retrieve(s, id) == Done(Closed(s.disk, s.pending)[id])
  {
    ClosedLookup(s.disk, s.pending, id);
  }

  datatype AppendStep = Write | Pop

  function AppendRun(s: Store, steps: seq<AppendStep>): Store {
    if steps == [] then s
    else
      var t := AppendRun(s, steps[..|steps| - 1]);
      if steps[|steps| - 1].Write? then AppendWrite(t) else AppendPop(t)
  }

  lemma {:induction false} AppendRunGrowsDisk(s: Store, steps: seq<AppendStep>)
    requires QueueOk(s)
    ensures QueueOk(AppendRun(s, steps))
    ensures Closed(AppendRun(s, steps).disk, AppendRun(s, steps).pending) == Closed(s.disk, s.pending)
    ensures forall id | id in s.disk && id !in PendingIds(s.pending) ::
              id in AppendRun(s, steps).disk && AppendRun(s, steps).disk[id] == s.disk[id]
    ensures PendingIds(AppendRun(s, steps).pending) <= PendingIds(s.pending)
  {
    if steps != [] {
      AppendRunGrowsDisk(s, steps[..|steps| - 1]);
      AppendKeepsClosed(AppendRun(s, steps[..|steps| - 1]));
    }
  }

  function PendingIds(q: seq<Container>): set<int> {
    set c | c in q :: c.id
  }

  /**
   * The metadata read is two critical sections: the queue is searched under the queue's mutex, the
   * file is read under the file's. Whatever the append thread does in between, a container that
   * was closed and missed in the queue is read from the file, and it is the right one.
   */
  lemma {:induction false} ContainerAlwaysVisible(s: Store, steps: seq<AppendStep>, id: int)
    requires QueueOk(s) && id in Closed(s.disk, s.pending)
    requires FindPending(s.pending, id) == |s.pending|
    ensures var t := AppendRun(s, steps);
            id in t.disk && t.disk[id] == Closed(s.disk, s.pending)[id]
  {
    ClosedLookup(s.disk, s.pending, id);
    AppendRunGrowsDisk(s, steps);
  }

  /** What each container holds, the open one included. */
  function Held(s: Store): map<int, map<Fp, Bytes>> {
    var closed := Closed(s.disk, s.pending);
    var all := map id | id in closed :: closed[id].entries;
    if s.open.None? then all else all[s.open.value.id := s.open.value.entries]
  }
}
