/** The whole store as a step system: request handlers, sweeps, replicas and faults interleave at every await. */
module StoreSystem {
  import opened Types
  import opened Seqs
  import opened Chunker
  import opened ChunkStores
  import opened Replication
  import opened Metadata

  type TaskId = nat

  /** What stays fixed in a run: the digest, each chunk's preference list, the nodes, the write quorum, the chunk
      size. */
  datatype Config = Config(sha: Bytes -> Hash, lists: Hash -> seq<NodeId>, nodes: set<NodeId>, w: nat, size: nat)
  {
    ghost predicate Valid() {
      && size > 0
      && (forall h :: NoDup(lists(h)) && Elems(lists(h)) <= nodes)
      && (forall b :: ValidName(sha(b)))
    }

    /** The nodes that chunk i of a manifest is sent to; nobody once the manifest is exhausted. */
    function Targets(hashes: seq<Hash>, i: nat): set<NodeId> {
      if i < |hashes| then Elems(lists(hashes[i])) else {}
    }
  }

  /** One chunk's read in a download: on replica k of its list, or settled. */
  datatype Cell = Trying(k: nat, lastNotFound: bool) | Got(buf: Bytes) | Null | Threw

  datatype Task =
    // a POST (no target) or PUT: chunk `next` is being put, or all are and the commit is due
    | Upload(target: Option<FileId>, prev: Option<VersionId>, body: Bytes,
             next: nat, waiting: set<NodeId>, acks: set<NodeId>)
    // all chunks of one version are being read
    | Download(hashes: seq<Hash>, cells: seq<Cell>)
    // the head of the queue is being deleted from its replicas
    | Sweep(queue: seq<Hash>, waiting: set<NodeId>)

  datatype State = State(
    meta: Meta,
    disks: Cluster,
    tasks: map<TaskId, Task>,
    fileIds: set<FileId>,             // every id ever generated
    versionIds: set<VersionId>)

  datatype Event =
    | StartPost(t: TaskId, body: Bytes)
    | StartPut(t: TaskId, f: FileId, body: Bytes)
    | ReplicaPut(t: TaskId, d: NodeId, stored: bool, acked: bool)
    | PutDone(t: TaskId)
    | Commit(t: TaskId, f: FileId, v: VersionId)
    | StartDownload(t: TaskId, f: FileId)
    | ReadReply(t: TaskId, i: nat, answer: Answer)
    | FinishDownload(t: TaskId)
    | StartSweep(t: TaskId, order: seq<Hash>)
    | ReplicaDelete(t: TaskId, d: NodeId, arrived: bool)
    | ReapHead(t: TaskId)
    | Fault(d: NodeId, h: Hash, content: Option<Bytes>)
    | Abort(t: TaskId)

  function Initial(c: Config): State {
    State(NO_META, map d | d in c.nodes :: map[], map[], {}, {})
  }

  /** The manifest an upload is writing. */
  function Hashes(c: Config, body: Bytes): seq<Hash>
    requires c.size > 0
  {
    Manifest(body, c.size, c.sha)
  }

  function Piece(c: Config, body: Bytes, i: nat): (p: Bytes)
    requires c.size > 0 && i < |Hashes(c, body)|
    ensures c.sha(p) == Hashes(c, body)[i]
  {
    Pieces(body, c.size)[i]
  }

  predicate IsUpload(s: State, t: TaskId) {
    t in s.tasks && s.tasks[t].Upload?
  }

  predicate IsDownload(s: State, t: TaskId) {
    t in s.tasks && s.tasks[t].Download?
  }

  predicate IsSweep(s: State, t: TaskId) {
    t in s.tasks && s.tasks[t].Sweep? && s.tasks[t].queue != []
  }

  /** Putting chunk i of a body: every replica of its list still owes an answer. */
  function Putting(c: Config, target: Option<FileId>, prev: Option<VersionId>, body: Bytes, i: nat): Task
    requires c.size > 0
  {
    Upload(target, prev, body, i, c.Targets(Hashes(c, body), i), {})
  }

  /** The tables after the block that ends a POST or PUT. */
  function Committed(c: Config, m: Meta, u: Task, f: FileId, v: VersionId): Meta
    requires c.size > 0 && u.Upload?
  {
    var created := if u.target.None? then CreateFile(m, f) else m;
    var committed := CommitVersion(created, f, v, Hashes(c, u.body), |u.body|);
    if u.prev.Some? then DeleteVersion(committed, u.prev.value) else committed
  }

  /** A chunk's read before replica k, given whether the replica before said not found. */
  function Settle(list: seq<NodeId>, k: nat, lastNotFound: bool): Cell {
    if k < |list| then Trying(k, lastNotFound) else if lastNotFound then Null else Threw
  }

  function AfterAnswer(c: Config, hash: Hash, cell: Cell, answer: Answer): Cell
    requires cell.Trying?
  {
    if Good(answer, hash, c.sha) then Got(answer.buf)
    else Settle(c.lists(hash), cell.k + 1, answer.NotFound?)
  }

  /** The bytes a download replies with, if it does not fail. */
  function Assembled(cells: seq<Cell>): Option<Bytes> {
    if forall i :: 0 <= i < |cells| ==> cells[i].Got?
    then Some(Flatten(Buffers(cells)))
    else None
  }

  function Buffers(cells: seq<Cell>): (parts: seq<Bytes>)
    requires forall i :: 0 <= i < |cells| ==> cells[i].Got?
    ensures |parts| == |cells| && forall i :: 0 <= i < |cells| ==> parts[i] == cells[i].buf
  {
    seq(|cells|, i requires 0 <= i < |cells| => cells[i].buf)
  }

  predicate Enabled(c: Config, s: State, e: Event)
    requires c.size > 0
  {
    match e
    case StartPost(t, body) => t !in s.tasks
    case StartPut(t, f, body) => t !in s.tasks
    case ReplicaPut(t, d, stored, acked) =>
      && IsUpload(s, t) && s.tasks[t].next < |Hashes(c, s.tasks[t].body)|
      && d in s.tasks[t].waiting && d in s.disks && (acked ==> stored)
    case PutDone(t) =>
      IsUpload(s, t) && s.tasks[t].next < |Hashes(c, s.tasks[t].body)| && s.tasks[t].waiting == {}
    case Commit(t, f, v) =>
      && IsUpload(s, t) && s.tasks[t].next >= |Hashes(c, s.tasks[t].body)|
      && v !in s.versionIds
      && (match s.tasks[t].target case None => f !in s.fileIds case Some(g) => f == g)
    case StartDownload(t, f) => t !in s.tasks
    case ReadReply(t, i, answer) =>
      IsDownload(s, t) && i < |s.tasks[t].cells| && i < |s.tasks[t].hashes| && s.tasks[t].cells[i].Trying?
    case FinishDownload(t) =>
      && IsDownload(s, t)
      && ((exists i :: 0 <= i < |s.tasks[t].cells| && s.tasks[t].cells[i].Threw?)
          || forall i :: 0 <= i < |s.tasks[t].cells| ==> !s.tasks[t].cells[i].Trying?)
    case StartSweep(t, order) => t !in s.tasks && NoDup(order) && Elems(order) == Orphans(s.meta)
    case ReplicaDelete(t, d, arrived) => IsSweep(s, t) && d in s.tasks[t].waiting && d in s.disks
    case ReapHead(t) => IsSweep(s, t) && s.tasks[t].waiting == {}
    case Fault(d, h, content) => d in s.disks
    case Abort(t) => t in s.tasks
  }

  function Apply(c: Config, s: State, e: Event): State
    requires c.size > 0 && Enabled(c, s, e)
  {
    match e
    case StartPost(t, body) => s.(tasks := s.tasks[t := Putting(c, None, None, body, 0)])
    case StartPut(t, f, body) =>
      if f !in s.meta.files then s
      else s.(tasks := s.tasks[t := Putting(c, Some(f), s.meta.files[f], body, 0)])
    case ReplicaPut(t, d, stored, acked) => AfterReplicaPut(c, s, t, d, stored, acked)
    case PutDone(t) =>
      var u := s.tasks[t];
      if |u.acks| < c.w then s.(tasks := s.tasks - {t})
      else s.(tasks := s.tasks[t := Putting(c, u.target, u.prev, u.body, u.next + 1)])
    case Commit(t, f, v) =>
      s.(meta := Committed(c, s.meta, s.tasks[t], f, v), tasks := s.tasks - {t},
         fileIds := s.fileIds + {f}, versionIds := s.versionIds + {v})
    case StartDownload(t, f) => AfterStartDownload(c, s, t, f)
    case ReadReply(t, i, answer) =>
      var task := s.tasks[t];
      var cell := AfterAnswer(c, task.hashes[i], task.cells[i], answer);
      s.(tasks := s.tasks[t := Download(task.hashes, task.cells[i := cell])])
    case FinishDownload(t) => s.(tasks := s.tasks - {t})
    case StartSweep(t, order) => s.(tasks := WithSweep(c, s.tasks, t, order))
    case ReplicaDelete(t, d, arrived) =>
      var task := s.tasks[t];
      var h := task.queue[0];
      var after := s.(tasks := s.tasks[t := Sweep(task.queue, task.waiting - {d})]);
      if arrived then after.(disks := s.disks[d := s.disks[d] - {h}]) else after
    case ReapHead(t) =>
      s.(meta := Reap(s.meta, s.tasks[t].queue[0]), tasks := WithSweep(c, s.tasks, t, s.tasks[t].queue[1..]))
    case Fault(d, h, content) =>
      s.(disks := s.disks[d := AfterFault(s.disks[d], h, content)])
    case Abort(t) => s.(tasks := s.tasks - {t})
  }

  /** A fault rewrites one file, or removes it. */
  function AfterFault(disk: Disk, h: Hash, content: Option<Bytes>): Disk {
    if content.Some? then disk[h := content.value] else disk - {h}
  }

  /** A replica answers a PUT, or times out: the chunk may have reached its disk either way. */
  function AfterReplicaPut(c: Config, s: State, t: TaskId, d: NodeId, stored: bool, acked: bool): State
    requires c.size > 0 && Enabled(c, s, ReplicaPut(t, d, stored, acked))
  {
    var u := s.tasks[t];
    var h, data := Hashes(c, u.body)[u.next], Piece(c, u.body, u.next);
    var acks := if acked then u.acks + {d} else u.acks;
    var after := s.(tasks := s.tasks[t := u.(waiting := u.waiting - {d}, acks := acks)]);
    if !stored then after
    else after.(disks := s.disks[d := DiskAfterPut(s.disks[d], h, data, c.sha)])
  }

  function AfterStartDownload(c: Config, s: State, t: TaskId, f: FileId): State {
    if f !in s.meta.files || s.meta.files[f].None? || s.meta.files[f].value !in s.meta.versions then s
    else
      var hashes := s.meta.versions[s.meta.files[f].value].chunks;
      var cells := seq(|hashes|, i requires 0 <= i < |hashes| => Settle(c.lists(hashes[i]), 0, false));
      s.(tasks := s.tasks[t := Download(hashes, cells)])
  }

  /** A sweep with the given chunks left to do; it is over when none is. */
  function WithSweep(c: Config, tasks: map<TaskId, Task>, t: TaskId, queue: seq<Hash>): map<TaskId, Task> {
    if queue == [] then tasks - {t} else tasks[t := Sweep(queue, Elems(c.lists(queue[0])))]
  }

  /** The state a run of events leads to, if every event is possible when it occurs. */
  function Exec(c: Config, es: seq<Event>): Option<State>
    requires c.size > 0
  {
    if es == [] then Some(Initial(c))
    else
      var before := Exec(c, es[..|es| - 1]);
      if before.Some? && Enabled(c, before.value, es[|es| - 1])
      then Some(Apply(c, before.value, es[|es| - 1])) else None
  }

  lemma ExecSnoc(c: Config, es: seq<Event>, e: Event)
    requires c.size > 0
    ensures Exec(c, es + [e]) ==
            if Exec(c, es).Some? && Enabled(c, Exec(c, es).value, e) then Some(Apply(c, Exec(c, es).value, e)) else None
  {
    assert (es + [e])[..|es|] == es;
  }

  /** One more event. */
  lemma Then(c: Config, es: seq<Event>, s: State, e: Event, after: State)
    requires c.size > 0 && Exec(c, es) == Some(s) && Enabled(c, s, e) && after == Apply(c, s, e)
    ensures Exec(c, es + [e]) == Some(after)
  {
    ExecSnoc(c, es, e);
  }
}
