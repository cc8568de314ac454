/** The step system and the methods agree: the events of one request or sweep, with no other between them, do what the
    method does, and a client is told the same. */
module Alone {
  import opened Types
  import opened Seqs
  import opened Chunker
  import opened ChunkStores
  import opened Metadata
  import opened Replication
  import opened StoreSystem
  import opened Stepwise
  import Refinement
  import GarbageCollector
  import Servers

  type Outcome = Servers.Outcome

  type Deliveries = (nat, NodeId) -> Delivery

  type Answers = (nat, NodeId) -> Answer

  lemma {:induction false} NodesStay(c: Config, es: seq<Event>)
    requires c.size > 0 && Exec(c, es).Some?
    ensures Exec(c, es).value.disks.Keys == c.nodes
  {
    if es == [] {
    } else {
      NodesStay(c, es[..|es| - 1]);
      StepKeepsNodes(c, Exec(c, es[..|es| - 1]).value, es[|es| - 1]);
    }
  }

  lemma StepKeepsNodes(c: Config, s: State, e: Event)
    requires c.size > 0 && Enabled(c, s, e)
    ensures Apply(c, s, e).disks.Keys == s.disks.Keys
  {
  }

  // ---------- uploads ----------

  /** s, while task t has put the first k pieces of a body. */
  function UploadedSoFar(c: Config, s: State, t: TaskId, target: Option<FileId>, prev: Option<VersionId>, body: Bytes,
                     k: nat, delivery: Deliveries): State
    requires c.size > 0 && k <= |Pieces(body, c.size)|
  {
    s.(disks := Servers.AfterPieces(c, s.disks, Pieces(body, c.size), k, delivery),
       tasks := s.tasks[t := Putting(c, target, prev, body, k)])
  }

  /** The events of the put of piece k: its replicas' answers, then the end of the wait. */
  function PieceEvents(c: Config, t: TaskId, body: Bytes, k: nat, delivery: Deliveries): seq<Event>
    requires c.size > 0 && k < |Pieces(body, c.size)|
  {
    PutEvents(t, c.lists(Hashes(c, body)[k]), Servers.Deliveries(delivery, k)) + [PutDone(t)]
  }

  function PiecesEvents(c: Config, t: TaskId, body: Bytes, k: nat, delivery: Deliveries): seq<Event>
    requires c.size > 0 && k <= |Pieces(body, c.size)|
  {
    if k == 0 then [] else PiecesEvents(c, t, body, k - 1, delivery) + PieceEvents(c, t, body, k - 1, delivery)
  }

  lemma {:induction false} PiecesKeepNodes(c: Config, nodes: Cluster, pieces: seq<Bytes>, k: nat, delivery: Deliveries)
    requires k <= |pieces|
    ensures Servers.AfterPieces(c, nodes, pieces, k, delivery).Keys == nodes.Keys
  {
    if k == 0 {
    } else {
      PiecesKeepNodes(c, nodes, pieces, k - 1, delivery);
    }
  }

  /** The answers to piece k's puts. */
  lemma PieceAnswered(c: Config, es: seq<Event>, s: State, t: TaskId, target: Option<FileId>, prev: Option<VersionId>,
                      body: Bytes, k: nat, delivery: Deliveries)
    requires c.Valid() && s.disks.Keys == c.nodes && k < |Pieces(body, c.size)|
    requires Exec(c, es) == Some(UploadedSoFar(c, s, t, target, prev, body, k, delivery))
    ensures var now, h := UploadedSoFar(c, s, t, target, prev, body, k, delivery), Hashes(c, body)[k];
            var deliveries, u := Servers.Deliveries(delivery, k), now.tasks[t];
            Exec(c, es + PutEvents(t, c.lists(h), deliveries)) ==
              Some(s.(disks := Servers.AfterPieces(c, s.disks, Pieces(body, c.size), k + 1, delivery),
                      tasks := s.tasks[t := u.(waiting := {},
                          acks := Servers.AcksOf(c, s.disks, Pieces(body, c.size), k, delivery))]))
  {
    hide Exec;
    var now, h, data := UploadedSoFar(c, s, t, target, prev, body, k, delivery), Hashes(c, body)[k], Piece(c, body, k);
    var list, deliveries, u := c.lists(h), Servers.Deliveries(delivery, k), now.tasks[t];
    assert NoDup(list) && Elems(list) <= c.nodes && ValidName(c.sha(data));
    PiecesKeepNodes(c, s.disks, Pieces(body, c.size), k, delivery);
    AnswersAddUp(c, es, now, t, list, h, data, deliveries);
    OrderDoesNotMatter(now.disks, list, list, h, data, c.sha, deliveries);
    assert u.waiting - Elems(list) == {} && u.acks + Answering(list, deliveries) == Answering(list, deliveries);
    assert now.tasks[t := u.(waiting := {}, acks := Answering(list, deliveries))]
        == s.tasks[t := u.(waiting := {}, acks := Answering(list, deliveries))];
  }

  /** The end of a chunk's wait: on to the next piece, or the request is over. */
  lemma WaitEnds(c: Config, s: State, t: TaskId, u: Task, nodes: Cluster)
    requires c.size > 0 && t !in s.tasks && u.Upload? && u.next < |Hashes(c, u.body)| && u.waiting == {}
    ensures var answered := s.(disks := nodes, tasks := s.tasks[t := u]);
            && Enabled(c, answered, PutDone(t))
            && Apply(c, answered, PutDone(t)) ==
                 if |u.acks| >= c.w
                 then s.(disks := nodes, tasks := s.tasks[t := Putting(c, u.target, u.prev, u.body, u.next + 1)])
                 else s.(disks := nodes)
  {
    var answered := s.(disks := nodes, tasks := s.tasks[t := u]);
    var next := Putting(c, u.target, u.prev, u.body, u.next + 1);
    assert answered.tasks - {t} == s.tasks;
    assert answered.tasks[t := next] == s.tasks[t := next];
  }

  lemma PieceAlone(c: Config, es: seq<Event>, s: State, t: TaskId, target: Option<FileId>, prev: Option<VersionId>,
                   body: Bytes, k: nat, delivery: Deliveries)
    requires c.Valid() && s.disks.Keys == c.nodes && t !in s.tasks && k < |Pieces(body, c.size)|
    requires Exec(c, es) == Some(UploadedSoFar(c, s, t, target, prev, body, k, delivery))
    ensures var nodes := Servers.AfterPieces(c, s.disks, Pieces(body, c.size), k + 1, delivery);
            Exec(c, es + PieceEvents(c, t, body, k, delivery)) ==
              Some(if Servers.PutOf(c, s.disks, Pieces(body, c.size), k, delivery).Quorum?
                   then s.(disks := nodes, tasks := s.tasks[t := Putting(c, target, prev, body, k + 1)])
                   else s.(disks := nodes))
  {
    hide Exec, Enabled, Apply;
    var events := PutEvents(t, c.lists(Hashes(c, body)[k]), Servers.Deliveries(delivery, k));
    var nodes := Servers.AfterPieces(c, s.disks, Pieces(body, c.size), k + 1, delivery);
    var acks := Servers.AcksOf(c, s.disks, Pieces(body, c.size), k, delivery);
    var u := Putting(c, target, prev, body, k).(waiting := {}, acks := acks);
    PieceAnswered(c, es, s, t, target, prev, body, k, delivery);
    WaitEnds(c, s, t, u, nodes);
    ExecSnoc(c, es + events, PutDone(t));
    assert es + events + [PutDone(t)] == es + PieceEvents(c, t, body, k, delivery);
    assert Servers.PutOf(c, s.disks, Pieces(body, c.size), k, delivery).Quorum? <==> |acks| >= c.w;
  }

  lemma PiecesEventsNext(c: Config, es: seq<Event>, t: TaskId, body: Bytes, k: nat, delivery: Deliveries)
    requires c.size > 0 && k < |Pieces(body, c.size)|
    ensures es + PiecesEvents(c, t, body, k, delivery) + PieceEvents(c, t, body, k, delivery)
         == es + PiecesEvents(c, t, body, k + 1, delivery)
  {
  }

  lemma QuorumsBeforeLast(c: Config, nodes: Cluster, pieces: seq<Bytes>, k: nat, delivery: Deliveries)
    requires 0 < k <= |pieces| && Servers.QuorumsBefore(c, nodes, pieces, k, delivery)
    ensures Servers.QuorumsBefore(c, nodes, pieces, k - 1, delivery)
    ensures Servers.PutOf(c, nodes, pieces, k - 1, delivery).Quorum?
  {
  }

  lemma OneMorePiece(c: Config, es: seq<Event>, s: State, t: TaskId, target: Option<FileId>, prev: Option<VersionId>,
                     body: Bytes, k: nat, delivery: Deliveries)
    requires c.Valid() && s.disks.Keys == c.nodes && t !in s.tasks && 0 < k <= |Pieces(body, c.size)|
    requires Exec(c, es + PiecesEvents(c, t, body, k - 1, delivery))
          == Some(UploadedSoFar(c, s, t, target, prev, body, k - 1, delivery))
    requires Servers.PutOf(c, s.disks, Pieces(body, c.size), k - 1, delivery).Quorum?
    ensures Exec(c, es + PiecesEvents(c, t, body, k, delivery))
         == Some(UploadedSoFar(c, s, t, target, prev, body, k, delivery))
  {
    hide Exec;
    PieceAlone(c, es + PiecesEvents(c, t, body, k - 1, delivery), s, t, target, prev, body, k - 1, delivery);
    PiecesEventsNext(c, es, t, body, k - 1, delivery);
  }

  lemma {:induction false} PiecesAlone(c: Config, es: seq<Event>, s: State, t: TaskId, target: Option<FileId>,
                                       prev: Option<VersionId>, body: Bytes, k: nat, delivery: Deliveries)
    requires c.Valid() && s.disks.Keys == c.nodes && t !in s.tasks && k <= |Pieces(body, c.size)|
    requires Exec(c, es) == Some(UploadedSoFar(c, s, t, target, prev, body, 0, delivery))
    requires Servers.QuorumsBefore(c, s.disks, Pieces(body, c.size), k, delivery)
    ensures Exec(c, es + PiecesEvents(c, t, body, k, delivery))
         == Some(UploadedSoFar(c, s, t, target, prev, body, k, delivery))
  {
    hide Exec;
    if k == 0 {
      assert es + [] == es;
    } else {
      QuorumsBeforeLast(c, s.disks, Pieces(body, c.size), k, delivery);
      PiecesAlone(c, es, s, t, target, prev, body, k - 1, delivery);
      OneMorePiece(c, es, s, t, target, prev, body, k, delivery);
    }
  }

  /** How many pieces go out: all, or as far as the one that missed its quorum. */
  function Sent(c: Config, body: Bytes, outcome: Outcome): (k: nat)
    requires c.size > 0
    ensures k <= |Pieces(body, c.size)|
  {
    match outcome
    case Uploaded(_) => |Pieces(body, c.size)|
    case UploadFailed(at) => if at < |Pieces(body, c.size)| then at + 1 else 0
  }

  /** The pieces of an upload that has begun, put one after another, leave the nodes as uploadChunks does: with the
      commit due if every piece reached its quorum, and with the task gone otherwise. */
  lemma UploadAlone(c: Config, es: seq<Event>, s: State, t: TaskId, target: Option<FileId>, prev: Option<VersionId>,
                    body: Bytes, delivery: Deliveries, outcome: Outcome, after: Cluster)
    requires c.Valid() && s.disks.Keys == c.nodes && t !in s.tasks
    requires Exec(c, es) == Some(UploadedSoFar(c, s, t, target, prev, body, 0, delivery))
    requires Servers.IsUpload(c, s.disks, body, delivery, outcome, after)
    ensures Exec(c, es + PiecesEvents(c, t, body, Sent(c, body, outcome), delivery)) ==
              Some(if outcome.Uploaded?
                   then s.(disks := after,
                           tasks := s.tasks[t := Putting(c, target, prev, body, |Hashes(c, body)|)])
                   else s.(disks := after))
  {
    hide Exec;
    match outcome
    case Uploaded(_) => PiecesAlone(c, es, s, t, target, prev, body, |Pieces(body, c.size)|, delivery);
    case UploadFailed(at) =>
      PiecesAlone(c, es, s, t, target, prev, body, at, delivery);
      PieceAlone(c, es + PiecesEvents(c, t, body, at, delivery), s, t, target, prev, body, at, delivery);
      PiecesEventsNext(c, es, t, body, at, delivery);
  }

  /** The events of a POST or PUT that begins with the given request. */
  function RequestEvents(c: Config, start: Event, t: TaskId, f: FileId, v: VersionId, body: Bytes,
                         delivery: Deliveries, outcome: Outcome): seq<Event>
    requires c.size > 0
  {
    [start] + PiecesEvents(c, t, body, Sent(c, body, outcome), delivery)
      + if outcome.Uploaded? then [Commit(t, f, v)] else []
  }

  /** What a POST or PUT leaves: on success the tables of its commit and two ids used, otherwise only the nodes have
      changed. */
  function Served(c: Config, s: State, target: Option<FileId>, prev: Option<VersionId>, body: Bytes, f: FileId,
                  v: VersionId, outcome: Outcome, after: Cluster): State
    requires c.size > 0
  {
    if outcome.Uploaded?
    then State(Committed(c, s.meta, Putting(c, target, prev, body, 0), f, v), after, s.tasks, s.fileIds + {f},
               s.versionIds + {v})
    else s.(disks := after)
  }

  /** The commit of an upload that has put all its pieces. */
  lemma DueCommit(c: Config, es: seq<Event>, s: State, t: TaskId, target: Option<FileId>, prev: Option<VersionId>,
                  body: Bytes, f: FileId, v: VersionId, outcome: Outcome, after: Cluster)
    requires c.Valid() && t !in s.tasks && v !in s.versionIds && outcome.Uploaded?
    requires if target.Some? then target.value == f else f !in s.fileIds
    requires Exec(c, es) == Some(s.(disks := after,
                                    tasks := s.tasks[t := Putting(c, target, prev, body, |Hashes(c, body)|)]))
    ensures Exec(c, es + [Commit(t, f, v)]) == Some(Served(c, s, target, prev, body, f, v, outcome, after))
  {
    hide Exec;
    var due := Exec(c, es).value;
    assert due.tasks - {t} == s.tasks;
    Then(c, es, due, Commit(t, f, v), Served(c, s, target, prev, body, f, v, outcome, after));
  }

  lemma RequestEventsAre(c: Config, es: seq<Event>, start: Event, t: TaskId, f: FileId, v: VersionId, body: Bytes,
                         delivery: Deliveries, outcome: Outcome)
    requires c.size > 0
    ensures var sent := es + [start] + PiecesEvents(c, t, body, Sent(c, body, outcome), delivery);
            es + RequestEvents(c, start, t, f, v, body, delivery, outcome)
            == if outcome.Uploaded? then sent + [Commit(t, f, v)] else sent
  {
  }

  lemma RequestAlone(c: Config, es: seq<Event>, s: State, start: Event, t: TaskId, target: Option<FileId>,
                     prev: Option<VersionId>, body: Bytes, f: FileId, v: VersionId, delivery: Deliveries,
                     outcome: Outcome, after: Cluster)
    requires c.Valid() && Exec(c, es) == Some(s) && t !in s.tasks && v !in s.versionIds
    requires if target.Some? then target.value == f else f !in s.fileIds
    requires Exec(c, es + [start]) == Some(UploadedSoFar(c, s, t, target, prev, body, 0, delivery))
    requires Servers.IsUpload(c, s.disks, body, delivery, outcome, after)
    ensures Exec(c, es + RequestEvents(c, start, t, f, v, body, delivery, outcome))
         == Some(Served(c, s, target, prev, body, f, v, outcome, after))
  {
    hide Exec;
    NodesStay(c, es);
    UploadAlone(c, es + [start], s, t, target, prev, body, delivery, outcome, after);
    RequestEventsAre(c, es, start, t, f, v, body, delivery, outcome);
    if outcome.Uploaded? {
      DueCommit(c, es + [start] + PiecesEvents(c, t, body, Sent(c, body, outcome), delivery), s, t, target, prev, body,
                f, v, outcome, after);
    }
  }

  /** A POST's events on their own leave the nodes and tables that the method PostFile promises. */
  lemma LonePostIsPostFile(c: Config, es: seq<Event>, s: State, t: TaskId, body: Bytes, f: FileId, v: VersionId,
                           delivery: Deliveries, outcome: Outcome, after: Cluster)
    requires c.Valid() && Exec(c, es) == Some(s) && t !in s.tasks && f !in s.fileIds && v !in s.versionIds
    requires Servers.IsUpload(c, s.disks, body, delivery, outcome, after)
    ensures Exec(c, es + RequestEvents(c, StartPost(t, body), t, f, v, body, delivery, outcome))
         == Some(Served(c, s, None, None, body, f, v, outcome, after))
  {
    hide Exec;
    Then(c, es, s, StartPost(t, body), UploadedSoFar(c, s, t, None, None, body, 0, delivery));
    RequestAlone(c, es, s, StartPost(t, body), t, None, None, body, f, v, delivery, outcome, after);
  }

  /** A PUT's events on their own leave the nodes and tables that the method PutFile promises: the version it remembers
      is the file's current one. A PUT to an unknown file changes nothing. */
  lemma LonePutIsPutFile(c: Config, es: seq<Event>, s: State, t: TaskId, body: Bytes, f: FileId, v: VersionId,
                         delivery: Deliveries, outcome: Outcome, after: Cluster)
    requires c.Valid() && Exec(c, es) == Some(s) && t !in s.tasks && v !in s.versionIds
    requires Servers.IsUpload(c, s.disks, body, delivery, outcome, after)
    ensures f in s.meta.files ==>
              Exec(c, es + RequestEvents(c, StartPut(t, f, body), t, f, v, body, delivery, outcome))
              == Some(Served(c, s, Some(f), s.meta.files[f], body, f, v, outcome, after))
    ensures f !in s.meta.files ==> Exec(c, es + [StartPut(t, f, body)]) == Some(s)
  {
    hide Exec;
    if f in s.meta.files {
      Then(c, es, s, StartPut(t, f, body), UploadedSoFar(c, s, t, Some(f), s.meta.files[f], body, 0, delivery));
      RequestAlone(c, es, s, StartPut(t, f, body), t, Some(f), s.meta.files[f], body, f, v, delivery, outcome, after);
    } else {
      Then(c, es, s, StartPut(t, f, body), s);
    }
  }

  // ---------- sweeps ----------

  function DeleteEvents(t: TaskId, list: seq<NodeId>, reachable: set<NodeId>): (es: seq<Event>)
    ensures |es| == |list|
  {
    seq(|list|, i requires 0 <= i < |list| => ReplicaDelete(t, list[i], list[i] in reachable))
  }

  function AfterDeletes(s: State, t: TaskId, list: seq<NodeId>, reachable: set<NodeId>): State
    requires IsSweep(s, t)
  {
    var w := s.tasks[t];
    s.(disks := ClusterAfterDelete(s.disks, list, w.queue[0], reachable),
       tasks := s.tasks[t := Sweep(w.queue, w.waiting - Elems(list))])
  }

  lemma DeleteApplies(c: Config, s: State, t: TaskId, list: seq<NodeId>, d: NodeId, reachable: set<NodeId>)
    requires c.size > 0 && IsSweep(s, t) && d !in list && d in s.tasks[t].waiting && d in s.disks
    ensures var before, e := AfterDeletes(s, t, list, reachable), ReplicaDelete(t, d, d in reachable);
            Enabled(c, before, e) && Apply(c, before, e) == AfterDeletes(s, t, list + [d], reachable)
  {
    var before, after := AfterDeletes(s, t, list, reachable), AfterDeletes(s, t, list + [d], reachable);
    var w := s.tasks[t];
    assert w.waiting - Elems(list) - {d} == w.waiting - Elems(list + [d]);
    assert before.disks[d] == s.disks[d];
    assert after.disks == if d in reachable then before.disks[d := s.disks[d] - {w.queue[0]}] else before.disks;
    assert before.tasks[t := after.tasks[t]] == after.tasks;
  }

  lemma NoDeletes(s: State, t: TaskId, reachable: set<NodeId>)
    requires IsSweep(s, t)
    ensures AfterDeletes(s, t, [], reachable) == s
  {
    assert ClusterAfterDelete(s.disks, [], s.tasks[t].queue[0], reachable) == s.disks;
    assert s.tasks[t].waiting - Elems([]) == s.tasks[t].waiting;
    assert s.tasks[t := s.tasks[t]] == s.tasks;
  }

  lemma OneMoreDelete(c: Config, es: seq<Event>, s: State, t: TaskId, list: seq<NodeId>, d: NodeId,
                      reachable: set<NodeId>)
    requires c.size > 0 && IsSweep(s, t) && d !in list && d in s.tasks[t].waiting && d in s.disks
    requires Exec(c, es + DeleteEvents(t, list, reachable)) == Some(AfterDeletes(s, t, list, reachable))
    ensures Exec(c, es + DeleteEvents(t, list + [d], reachable)) == Some(AfterDeletes(s, t, list + [d], reachable))
  {
    hide Exec;
    var e := ReplicaDelete(t, d, d in reachable);
    DeleteApplies(c, s, t, list, d, reachable);
    ExecSnoc(c, es + DeleteEvents(t, list, reachable), e);
    assert es + DeleteEvents(t, list, reachable) + [e] == es + DeleteEvents(t, list + [d], reachable);
  }

  lemma {:induction false} DeletesAddUp(c: Config, es: seq<Event>, s: State, t: TaskId, list: seq<NodeId>,
                                        reachable: set<NodeId>)
    requires c.Valid() && Exec(c, es) == Some(s) && IsSweep(s, t)
    requires NoDup(list) && Elems(list) <= s.tasks[t].waiting && Elems(list) <= s.disks.Keys
    ensures Exec(c, es + DeleteEvents(t, list, reachable)) == Some(AfterDeletes(s, t, list, reachable))
  {
    hide Exec;
    if list == [] {
      NoDeletes(s, t, reachable);
      assert es + DeleteEvents(t, list, reachable) == es;
    } else {
      var before, d := list[..|list| - 1], list[|list| - 1];
      assert list == before + [d] && d in Elems(list) && Elems(before) <= Elems(list);
      DeletesAddUp(c, es, s, t, before, reachable);
      OneMoreDelete(c, es, s, t, before, d, reachable);
    }
  }

  /** s, while sweep t has dealt with the first i chunks of its list. */
  function Sweeping(c: Config, s: State, t: TaskId, order: seq<Hash>, i: nat, reachable: Hash -> set<NodeId>): State
    requires i <= |order|
  {
    s.(disks := GarbageCollector.SweptInOrder(s.disks, order[..i], c.lists, reachable),
       meta := GarbageCollector.ReapedInOrder(s.meta, order[..i]),
       tasks := WithSweep(c, s.tasks, t, order[i..]))
  }

  function SweepEvents(c: Config, t: TaskId, order: seq<Hash>, reachable: Hash -> set<NodeId>): seq<Event> {
    if order == [] then []
    else
      var h := order[|order| - 1];
      SweepEvents(c, t, order[..|order| - 1], reachable) + DeleteEvents(t, c.lists(h), reachable(h)) + [ReapHead(t)]
  }

  /** A sweep that has dealt with a chunk reaps its row and goes on to the next. */
  lemma HeadReaped(c: Config, s: State, t: TaskId, order: seq<Hash>, i: nat, reachable: Hash -> set<NodeId>)
    requires c.size > 0 && i < |order|
    ensures var now := Sweeping(c, s, t, order, i, reachable);
            && IsSweep(now, t) && now.tasks[t] == Sweep(order[i..], Elems(c.lists(order[i])))
            && var cleared := AfterDeletes(now, t, c.lists(order[i]), reachable(order[i]));
               && Enabled(c, cleared, ReapHead(t))
               && Apply(c, cleared, ReapHead(t)) == Sweeping(c, s, t, order, i + 1, reachable)
  {
    var now := Sweeping(c, s, t, order, i, reachable);
    assert order[i..][0] == order[i] && order[i..][1..] == order[i + 1..] && order[..i + 1][..i] == order[..i];
    var cleared := AfterDeletes(now, t, c.lists(order[i]), reachable(order[i]));
    assert cleared.tasks[t].waiting == {};
    assert WithSweep(c, cleared.tasks, t, order[i + 1..]) == WithSweep(c, s.tasks, t, order[i + 1..]);
  }

  lemma ChunkSwept(c: Config, es: seq<Event>, s: State, t: TaskId, order: seq<Hash>, i: nat,
                   reachable: Hash -> set<NodeId>)
    requires c.Valid() && s.disks.Keys == c.nodes && i < |order|
    requires Exec(c, es) == Some(Sweeping(c, s, t, order, i, reachable))
    ensures Exec(c, es + DeleteEvents(t, c.lists(order[i]), reachable(order[i])) + [ReapHead(t)])
         == Some(Sweeping(c, s, t, order, i + 1, reachable))
  {
    hide Exec, Enabled, Apply;
    var now, list := Sweeping(c, s, t, order, i, reachable), c.lists(order[i]);
    assert NoDup(list) && Elems(list) <= c.nodes;
    HeadReaped(c, s, t, order, i, reachable);
    DeletesAddUp(c, es, now, t, list, reachable(order[i]));
    ExecSnoc(c, es + DeleteEvents(t, list, reachable(order[i])), ReapHead(t));
  }

  lemma OneMoreChunk(c: Config, es: seq<Event>, s: State, t: TaskId, order: seq<Hash>, i: nat,
                     reachable: Hash -> set<NodeId>)
    requires c.Valid() && s.disks.Keys == c.nodes && i < |order|
    requires Exec(c, es + SweepEvents(c, t, order[..i], reachable)) == Some(Sweeping(c, s, t, order, i, reachable))
    ensures Exec(c, es + SweepEvents(c, t, order[..i + 1], reachable))
         == Some(Sweeping(c, s, t, order, i + 1, reachable))
  {
    hide Exec;
    var h, before := order[i], SweepEvents(c, t, order[..i], reachable);
    ChunkSwept(c, es + before, s, t, order, i, reachable);
    assert order[..i + 1][..i] == order[..i];
    assert es + before + DeleteEvents(t, c.lists(h), reachable(h)) + [ReapHead(t)]
        == es + SweepEvents(c, t, order[..i + 1], reachable);
  }

  lemma {:induction false} ChunksSwept(c: Config, es: seq<Event>, s: State, t: TaskId, order: seq<Hash>, i: nat,
                                       reachable: Hash -> set<NodeId>)
    requires c.Valid() && s.disks.Keys == c.nodes && i <= |order|
    requires Exec(c, es) == Some(Sweeping(c, s, t, order, 0, reachable))
    ensures Exec(c, es + SweepEvents(c, t, order[..i], reachable)) == Some(Sweeping(c, s, t, order, i, reachable))
  {
    hide Exec;
    if i == 0 {
      assert es + SweepEvents(c, t, order[..0], reachable) == es;
    } else {
      ChunksSwept(c, es, s, t, order, i - 1, reachable);
      OneMoreChunk(c, es, s, t, order, i - 1, reachable);
    }
  }

  /** A sweep's events on their own, in whatever order it lists the orphans, leave the nodes and tables that the method
      RunGarbageCollection promises. */
  lemma LoneSweepIsRunGarbageCollection(c: Config, es: seq<Event>, s: State, t: TaskId, order: seq<Hash>,
                                        reachable: Hash -> set<NodeId>)
    requires c.Valid() && Exec(c, es) == Some(s) && Enabled(c, s, StartSweep(t, order))
    ensures Exec(c, es + [StartSweep(t, order)] + SweepEvents(c, t, order, reachable))
         == Some(s.(disks := GarbageCollector.Swept(s.disks, Orphans(s.meta), c.lists, reachable),
                    meta := s.meta.(refcounts := s.meta.refcounts - Orphans(s.meta))))
  {
    hide Exec;
    NodesStay(c, es);
    assert order[..0] == [] && order[0..] == order && order[..|order|] == order && order[|order|..] == [];
    Then(c, es, s, StartSweep(t, order), Sweeping(c, s, t, order, 0, reachable));
    ChunksSwept(c, es + [StartSweep(t, order)], s, t, order, |order|, reachable);
    GarbageCollector.SweepInAnyOrder(s.disks, order, c.lists, reachable);
    GarbageCollector.ReapInAnyOrder(s.meta, order);
    assert s.tasks - {t} == s.tasks;
  }

  // ---------- downloads ----------

  /** The answers to one chunk's read, until it is settled. */
  function ReadEvents(c: Config, t: TaskId, i: nat, hash: Hash, cell: Cell, answer: NodeId -> Answer): seq<Event>
    decreases if cell.Trying? && cell.k < |c.lists(hash)| then |c.lists(hash)| - cell.k else 0
  {
    if cell.Trying? && cell.k < |c.lists(hash)|
    then
      var a := answer(c.lists(hash)[cell.k]);
      [ReadReply(t, i, a)] + ReadEvents(c, t, i, hash, AfterAnswer(c, hash, cell, a), answer)
    else []
  }

  function WithCell(s: State, t: TaskId, i: nat, cell: Cell): State
    requires IsDownload(s, t) && i < |s.tasks[t].cells|
  {
    s.(tasks := s.tasks[t := Download(s.tasks[t].hashes, s.tasks[t].cells[i := cell])])
  }

  lemma OneReply(c: Config, s: State, t: TaskId, i: nat, cell: Cell, answer: Answer)
    requires c.size > 0 && IsDownload(s, t) && i < |s.tasks[t].cells| && i < |s.tasks[t].hashes| && cell.Trying?
    ensures var now := WithCell(s, t, i, cell);
            && Enabled(c, now, ReadReply(t, i, answer))
            && Apply(c, now, ReadReply(t, i, answer))
                == WithCell(s, t, i, AfterAnswer(c, s.tasks[t].hashes[i], cell, answer))
  {
    var next := AfterAnswer(c, s.tasks[t].hashes[i], cell, answer);
    var now, after := WithCell(s, t, i, cell), WithCell(s, t, i, next);
    assert now.tasks[t].cells[i := next] == after.tasks[t].cells;
    assert now.tasks[t := after.tasks[t]] == after.tasks;
  }

  lemma ReplyAlone(c: Config, es: seq<Event>, s: State, t: TaskId, i: nat, cell: Cell, answer: Answer)
    requires c.size > 0 && IsDownload(s, t) && i < |s.tasks[t].cells| && i < |s.tasks[t].hashes| && cell.Trying?
    requires Exec(c, es) == Some(WithCell(s, t, i, cell))
    ensures Exec(c, es + [ReadReply(t, i, answer)])
         == Some(WithCell(s, t, i, AfterAnswer(c, s.tasks[t].hashes[i], cell, answer)))
  {
    hide Exec;
    OneReply(c, s, t, i, cell, answer);
    ExecSnoc(c, es, ReadReply(t, i, answer));
  }

  lemma {:induction false} ReadAlone(c: Config, es: seq<Event>, s: State, t: TaskId, i: nat, cell: Cell,
                                     answer: NodeId -> Answer)
    requires c.Valid() && IsDownload(s, t) && i < |s.tasks[t].cells| && i < |s.tasks[t].hashes|
    requires Exec(c, es) == Some(WithCell(s, t, i, cell))
    ensures Exec(c, es + ReadEvents(c, t, i, s.tasks[t].hashes[i], cell, answer))
         == Some(WithCell(s, t, i, Settled(c, s.tasks[t].hashes[i], cell, answer)))
    decreases if cell.Trying? && cell.k < |c.lists(s.tasks[t].hashes[i])|
              then |c.lists(s.tasks[t].hashes[i])| - cell.k else 0
  {
    hide Exec;
    var hash := s.tasks[t].hashes[i];
    if cell.Trying? && cell.k < |c.lists(hash)| {
      var a := answer(c.lists(hash)[cell.k]);
      var next := AfterAnswer(c, hash, cell, a);
      ReplyAlone(c, es, s, t, i, cell, a);
      ReadAlone(c, es + [ReadReply(t, i, a)], s, t, i, next, answer);
      assert es + [ReadReply(t, i, a)] + ReadEvents(c, t, i, hash, next, answer)
          == es + ReadEvents(c, t, i, hash, cell, answer);
    } else {
      assert es + [] == es;
    }
  }

  /** The cells once the first n chunks have been read and the others not begun. */
  function CellsAfter(c: Config, hashes: seq<Hash>, found: seq<Read>, n: nat): (cells: seq<Cell>)
    requires |found| == |hashes|
    ensures |cells| == |hashes|
  {
    seq(|hashes|, i requires 0 <= i < |hashes| =>
      if i < n then CellOf(found[i]) else Settle(c.lists(hashes[i]), 0, false))
  }

  function ReadsEvents(c: Config, t: TaskId, hashes: seq<Hash>, n: nat, answer: Answers): seq<Event>
    requires n <= |hashes|
  {
    if n == 0 then []
    else
      var h := hashes[n - 1];
      ReadsEvents(c, t, hashes, n - 1, answer)
        + ReadEvents(c, t, n - 1, h, Settle(c.lists(h), 0, false), Servers.GetAnswers(answer, n - 1))
  }

  function Downloading(c: Config, s: State, t: TaskId, hashes: seq<Hash>, found: seq<Read>, n: nat): State
    requires |found| == |hashes|
  {
    s.(tasks := s.tasks[t := Download(hashes, CellsAfter(c, hashes, found, n))])
  }

  /** Chunk n's read is begun, and then settled. */
  lemma NextCell(c: Config, s: State, t: TaskId, hashes: seq<Hash>, found: seq<Read>, n: nat)
    requires |found| == |hashes| && n < |hashes|
    ensures var now := Downloading(c, s, t, hashes, found, n);
            && WithCell(now, t, n, Settle(c.lists(hashes[n]), 0, false)) == now
            && WithCell(now, t, n, CellOf(found[n])) == Downloading(c, s, t, hashes, found, n + 1)
  {
    var now := Downloading(c, s, t, hashes, found, n);
    assert now.tasks[t].cells[n := Settle(c.lists(hashes[n]), 0, false)] == now.tasks[t].cells;
    assert now.tasks[t := now.tasks[t]] == now.tasks;
    assert now.tasks[t].cells[n := CellOf(found[n])] == CellsAfter(c, hashes, found, n + 1);
    assert WithCell(now, t, n, CellOf(found[n])).tasks == Downloading(c, s, t, hashes, found, n + 1).tasks;
  }

  lemma ChunkReadAlone(c: Config, es: seq<Event>, s: State, t: TaskId, hashes: seq<Hash>, found: seq<Read>, n: nat,
                       answer: NodeId -> Answer)
    requires c.Valid() && |found| == |hashes| && n < |hashes|
    requires IsRead(c.lists(hashes[n]), hashes[n], answer, c.sha, found[n])
    requires Exec(c, es) == Some(Downloading(c, s, t, hashes, found, n))
    ensures Exec(c, es + ReadEvents(c, t, n, hashes[n], Settle(c.lists(hashes[n]), 0, false), answer))
         == Some(Downloading(c, s, t, hashes, found, n + 1))
  {
    hide Exec;
    NextCell(c, s, t, hashes, found, n);
    StepwiseReadIsGetChunk(c, hashes[n], answer, found[n]);
    ReadAlone(c, es, Downloading(c, s, t, hashes, found, n), t, n, Settle(c.lists(hashes[n]), 0, false), answer);
  }

  lemma ReadsEventsNext(c: Config, es: seq<Event>, t: TaskId, hashes: seq<Hash>, n: nat, answer: Answers)
    requires n < |hashes|
    ensures es + ReadsEvents(c, t, hashes, n, answer)
              + ReadEvents(c, t, n, hashes[n], Settle(c.lists(hashes[n]), 0, false), Servers.GetAnswers(answer, n))
         == es + ReadsEvents(c, t, hashes, n + 1, answer)
  {
  }

  lemma OneMoreRead(c: Config, es: seq<Event>, s: State, t: TaskId, hashes: seq<Hash>, found: seq<Read>, n: nat,
                    answer: Answers)
    requires c.Valid() && |found| == |hashes| && 0 < n <= |hashes|
    requires IsRead(c.lists(hashes[n - 1]), hashes[n - 1], Servers.GetAnswers(answer, n - 1), c.sha, found[n - 1])
    requires Exec(c, es + ReadsEvents(c, t, hashes, n - 1, answer)) == Some(Downloading(c, s, t, hashes, found, n - 1))
    ensures Exec(c, es + ReadsEvents(c, t, hashes, n, answer)) == Some(Downloading(c, s, t, hashes, found, n))
  {
    hide Exec;
    ChunkReadAlone(c, es + ReadsEvents(c, t, hashes, n - 1, answer), s, t, hashes, found, n - 1,
                   Servers.GetAnswers(answer, n - 1));
    ReadsEventsNext(c, es, t, hashes, n - 1, answer);
  }

  lemma {:induction false} ReadsAlone(c: Config, es: seq<Event>, s: State, t: TaskId, hashes: seq<Hash>,
                                      found: seq<Read>, n: nat, answer: Answers)
    requires c.Valid() && |found| == |hashes| && n <= |hashes|
    requires forall i :: 0 <= i < |hashes| ==>
               IsRead(c.lists(hashes[i]), hashes[i], Servers.GetAnswers(answer, i), c.sha, found[i])
    requires Exec(c, es) == Some(Downloading(c, s, t, hashes, found, 0))
    ensures Exec(c, es + ReadsEvents(c, t, hashes, n, answer)) == Some(Downloading(c, s, t, hashes, found, n))
  {
    hide Exec;
    if n == 0 {
      assert es + [] == es;
    } else {
      ReadsAlone(c, es, s, t, hashes, found, n - 1, answer);
      OneMoreRead(c, es, s, t, hashes, found, n, answer);
    }
  }

  /** The reply that the method gives, as clients of the step system observe it. */
  function Shown(t: TaskId, r: Servers.Response): Refinement.Obs {
    if r.Body? then Refinement.Returned(t, r.bytes) else Refinement.ReadFailed(t)
  }

  /** Once every chunk has been read, the reply is the method's. */
  lemma FinishedAlone(c: Config, s: State, t: TaskId, hashes: seq<Hash>, answer: Answers, found: seq<Read>,
                      r: Servers.Response)
    requires c.size > 0 && t !in s.tasks && Servers.IsDownload(c, hashes, answer, found, r)
    ensures var read := Downloading(c, s, t, hashes, found, |hashes|);
            && Enabled(c, read, FinishDownload(t)) && Apply(c, read, FinishDownload(t)) == s
            && Refinement.Observe(c, read, FinishDownload(t)) == Shown(t, r)
  {
    var cells := CellsAfter(c, hashes, found, |hashes|);
    forall i | 0 <= i < |cells| ensures cells[i] == CellOf(found[i]) && !cells[i].Trying? {
    }
    assert Downloading(c, s, t, hashes, found, |hashes|).tasks - {t} == s.tasks;
    if r.Body? {
      assert Buffers(cells) == Servers.BytesRead(found);
    }
  }

  lemma BegunAlone(c: Config, es: seq<Event>, s: State, t: TaskId, f: FileId, p: VersionId, found: seq<Read>)
    requires c.Valid() && Exec(c, es) == Some(s) && t !in s.tasks
    requires f in s.meta.files && s.meta.files[f] == Some(p) && p in s.meta.versions
    requires |found| == |s.meta.versions[p].chunks|
    ensures Exec(c, es + [StartDownload(t, f)]) == Some(Downloading(c, s, t, s.meta.versions[p].chunks, found, 0))
  {
    hide Exec;
    var hashes := s.meta.versions[p].chunks;
    assert AfterStartDownload(c, s, t, f).tasks[t].cells == CellsAfter(c, hashes, found, 0);
    Then(c, es, s, StartDownload(t, f), Downloading(c, s, t, hashes, found, 0));
  }

  /** A download's events on their own end with the reply of the method Download: the bytes, or a failure. */
  lemma LoneDownloadIsDownload(c: Config, es: seq<Event>, s: State, t: TaskId, f: FileId, p: VersionId,
                               answer: Answers, found: seq<Read>, r: Servers.Response)
    requires c.Valid() && Exec(c, es) == Some(s) && t !in s.tasks
    requires f in s.meta.files && s.meta.files[f] == Some(p) && p in s.meta.versions
    requires Servers.IsDownload(c, s.meta.versions[p].chunks, answer, found, r)
    ensures var hashes := s.meta.versions[p].chunks;
            var read := es + [StartDownload(t, f)] + ReadsEvents(c, t, hashes, |hashes|, answer);
            && Exec(c, read).Some? && Enabled(c, Exec(c, read).value, FinishDownload(t))
            && Refinement.Observe(c, Exec(c, read).value, FinishDownload(t)) == Shown(t, r)
            && Apply(c, Exec(c, read).value, FinishDownload(t)) == s
  {
    hide Exec;
    var hashes := s.meta.versions[p].chunks;
    BegunAlone(c, es, s, t, f, p, found);
    ReadsAlone(c, es + [StartDownload(t, f)], s, t, hashes, found, |hashes|, answer);
    FinishedAlone(c, s, t, hashes, answer, found, r);
  }
}
