/** The steps of an interleaved chunk read or write add up to what the coordinator does in one call. */
module Stepwise {
  import opened Types
  import opened Seqs
  import opened ChunkStores
  import opened Replication
  import opened StoreSystem

  // ---------- reading ----------

  /** A chunk's read carried on to its end, against nodes that answer as given. */
  function Settled(c: Config, hash: Hash, cell: Cell, answer: NodeId -> Answer): Cell
    decreases if cell.Trying? && cell.k < |c.lists(hash)| then |c.lists(hash)| - cell.k else 0
  {
    if cell.Trying? && cell.k < |c.lists(hash)|
    then Settled(c, hash, AfterAnswer(c, hash, cell, answer(c.lists(hash)[cell.k])), answer)
    else cell
  }

  /** What getChunk does with the same answers: its bytes, null, or its exception. */
  function CellOf(r: Read): Cell {
    match r
    case Found(buf) => Got(buf)
    case Missing => Null
    case Unavailable(_) => Threw
  }

  lemma {:induction false} SettledFrom(c: Config, hash: Hash, k: nat, answer: NodeId -> Answer, r: Read)
    requires IsRead(c.lists(hash), hash, answer, c.sha, r) && k <= |c.lists(hash)|
    requires forall j :: 0 <= j < k ==> !Good(answer(c.lists(hash)[j]), hash, c.sha)
    ensures Settled(c, hash, Settle(c.lists(hash), k, k > 0 && answer(c.lists(hash)[k - 1]).NotFound?), answer)
        == CellOf(r)
    decreases |c.lists(hash)| - k
  {
    var list := c.lists(hash);
    if k == |list| {
      assert forall d :: d in list ==> !Good(answer(d), hash, c.sha);
    } else if !Good(answer(list[k]), hash, c.sha) {
      SettledFrom(c, hash, k + 1, answer, r);
    } else {
      assert list[k] in list;
    }
  }

  /** The interleaved read of a chunk ends as getChunk would on the same answers. */
  lemma StepwiseReadIsGetChunk(c: Config, hash: Hash, answer: NodeId -> Answer, r: Read)
    requires IsRead(c.lists(hash), hash, answer, c.sha, r)
    ensures Settled(c, hash, Settle(c.lists(hash), 0, false), answer) == CellOf(r)
  {
    SettledFrom(c, hash, 0, answer, r);
  }

  // ---------- writing ----------

  /** The answers of some replicas to the put of one chunk, in the order in which they come. */
  function PutEvents(t: TaskId, order: seq<NodeId>, delivery: NodeId -> Delivery): (es: seq<Event>)
    ensures |es| == |order|
  {
    seq(|order|, i requires 0 <= i < |order| =>
      ReplicaPut(t, order[i], !delivery(order[i]).Undelivered?, delivery(order[i]).Answered?))
  }

  function Answering(order: seq<NodeId>, delivery: NodeId -> Delivery): set<NodeId> {
    set d | d in order && delivery(d).Answered?
  }

  /** The chunk that an upload is putting. */
  predicate Puts(c: Config, s: State, t: TaskId, h: Hash, data: Bytes)
    requires c.size > 0
  {
    && IsUpload(s, t) && s.tasks[t].next < |Hashes(c, s.tasks[t].body)|
    && h == Hashes(c, s.tasks[t].body)[s.tasks[t].next] && data == Piece(c, s.tasks[t].body, s.tasks[t].next)
  }

  function AfterAnswers(c: Config, s: State, t: TaskId, order: seq<NodeId>, h: Hash, data: Bytes,
                     delivery: NodeId -> Delivery): State
    requires IsUpload(s, t)
  {
    var u := s.tasks[t];
    s.(disks := ClusterAfterPut(s.disks, order, h, data, c.sha, delivery),
       tasks := s.tasks[t := u.(waiting := u.waiting - Elems(order), acks := u.acks + Answering(order, delivery))])
  }

  lemma OneMoreDisk(nodes: Cluster, order: seq<NodeId>, d: NodeId, h: Hash, data: Bytes, sha: Bytes -> Hash,
                    delivery: NodeId -> Delivery)
    requires d in nodes && d !in order
    ensures ClusterAfterPut(nodes, order + [d], h, data, sha, delivery)
         == ClusterAfterPut(nodes, order, h, data, sha, delivery)
              [d := NodeAfterPut(nodes[d], h, data, sha, delivery(d))]
    ensures ClusterAfterPut(nodes, order, h, data, sha, delivery)[d] == nodes[d]
  {
  }

  lemma OneMoreTask(u: Task, order: seq<NodeId>, d: NodeId, delivery: NodeId -> Delivery)
    requires u.Upload?
    ensures u.waiting - Elems(order) - {d} == u.waiting - Elems(order + [d])
    ensures u.acks + Answering(order + [d], delivery)
         == if delivery(d).Answered? then u.acks + Answering(order, delivery) + {d}
             else u.acks + Answering(order, delivery)
  {
  }

  lemma OneMoreAnswer(c: Config, s: State, t: TaskId, order: seq<NodeId>, d: NodeId, h: Hash, data: Bytes,
                      delivery: NodeId -> Delivery)
    requires c.Valid() && Puts(c, s, t, h, data)
    requires d !in order && d in s.tasks[t].waiting && d in s.disks
    ensures var before := AfterAnswers(c, s, t, order, h, data, delivery);
            var e := ReplicaPut(t, d, !delivery(d).Undelivered?, delivery(d).Answered?);
            Enabled(c, before, e) && Apply(c, before, e) == AfterAnswers(c, s, t, order + [d], h, data, delivery)
  {
    var before := AfterAnswers(c, s, t, order, h, data, delivery);
    OneMoreDisk(s.disks, order, d, h, data, c.sha, delivery);
    OneMoreTask(s.tasks[t], order, d, delivery);
    assert before.disks[d := before.disks[d]] == before.disks;
    assert s.tasks[t := before.tasks[t]] == before.tasks;
  }

  lemma NoAnswers(c: Config, s: State, t: TaskId, h: Hash, data: Bytes, delivery: NodeId -> Delivery)
    requires IsUpload(s, t)
    ensures AfterAnswers(c, s, t, [], h, data, delivery) == s
  {
    var u := s.tasks[t];
    assert ClusterAfterPut(s.disks, [], h, data, c.sha, delivery) == s.disks;
    assert u.waiting - Elems([]) == u.waiting && u.acks + Answering([], delivery) == u.acks;
    assert s.tasks[t := u] == s.tasks;
  }

  lemma PutEventsNext(es: seq<Event>, t: TaskId, before: seq<NodeId>, d: NodeId, delivery: NodeId -> Delivery)
    ensures es + PutEvents(t, before + [d], delivery)
         == es + PutEvents(t, before, delivery) + [ReplicaPut(t, d, !delivery(d).Undelivered?, delivery(d).Answered?)]
  {
  }

  /** In whatever order they come, the answers leave the disks as one call does and the acknowledgements in the task.
      */
  lemma {:induction false} AnswersAddUp(c: Config, es: seq<Event>, s: State, t: TaskId, order: seq<NodeId>,
                                        h: Hash, data: Bytes, delivery: NodeId -> Delivery)
    requires c.Valid() && Exec(c, es) == Some(s) && Puts(c, s, t, h, data)
    requires NoDup(order) && Elems(order) <= s.tasks[t].waiting && Elems(order) <= s.disks.Keys
    ensures Exec(c, es + PutEvents(t, order, delivery)) == Some(AfterAnswers(c, s, t, order, h, data, delivery))
  {
    if order == [] {
      NoAnswers(c, s, t, h, data, delivery);
      assert es + PutEvents(t, order, delivery) == es;
    } else {
      var before, d := order[..|order| - 1], order[|order| - 1];
      assert order == before + [d] && d in Elems(order) && Elems(before) <= Elems(order);
      AnswersAddUp(c, es, s, t, before, h, data, delivery);
      OneMoreAnswer(c, s, t, before, d, h, data, delivery);
      PutEventsNext(es, t, before, d, delivery);
      Then(c, es + PutEvents(t, before, delivery), AfterAnswers(c, s, t, before, h, data, delivery),
           ReplicaPut(t, d, !delivery(d).Undelivered?, delivery(d).Answered?),
           AfterAnswers(c, s, t, order, h, data, delivery));
    }
  }

  lemma OrderDoesNotMatter(nodes: Cluster, order: seq<NodeId>, list: seq<NodeId>, h: Hash, data: Bytes,
                           sha: Bytes -> Hash, delivery: NodeId -> Delivery)
    requires Elems(order) == Elems(list) <= nodes.Keys && sha(data) == h && ValidName(h)
    ensures ClusterAfterPut(nodes, order, h, data, sha, delivery)
        == ClusterAfterPut(nodes, list, h, data, sha, delivery)
    ensures Answering(order, delivery) == Acks(nodes, list, h, data, sha, delivery)
  {
    assert forall d :: d in order <==> d in Elems(order);
    assert forall d :: d in list <==> d in Elems(list);
  }

  lemma QuorumGoesOn(c: Config, s: State, t: TaskId, h: Hash, data: Bytes)
    requires c.size > 0 && Puts(c, s, t, h, data) && s.tasks[t].waiting == {}
    ensures Enabled(c, s, PutDone(t))
    ensures IsUpload(Apply(c, s, PutDone(t)), t) <==> |s.tasks[t].acks| >= c.w
  {
  }

  /** A chunk's put, its replicas answering in any order, is putChunk: the same disks, the same acknowledgements, and
      the upload goes on exactly when the call would succeed. */
  lemma {:induction false} StepwisePutIsPutChunk(c: Config, es: seq<Event>, s: State, t: TaskId, order: seq<NodeId>,
                                                 h: Hash, data: Bytes, delivery: NodeId -> Delivery)
    requires c.Valid() && Exec(c, es) == Some(s) && Puts(c, s, t, h, data)
    requires s.tasks[t].waiting == Elems(c.lists(h)) && s.tasks[t].acks == {} && Elems(c.lists(h)) <= s.disks.Keys
    requires NoDup(order) && Elems(order) == Elems(c.lists(h))
    ensures Exec(c, es + PutEvents(t, order, delivery)).Some?
    ensures var after := Exec(c, es + PutEvents(t, order, delivery)).value;
            && after.disks == ClusterAfterPut(s.disks, c.lists(h), h, data, c.sha, delivery)
            && IsUpload(after, t) && after.tasks[t].acks == Acks(s.disks, c.lists(h), h, data, c.sha, delivery)
            && Enabled(c, after, PutDone(t))
            && (IsUpload(Apply(c, after, PutDone(t)), t) <==>
                PutResultOf(s.disks, c.lists(h), h, data, c.sha, delivery, c.w).Quorum?)
  {
    var after := AfterAnswers(c, s, t, order, h, data, delivery);
    AnswersAddUp(c, es, s, t, order, h, data, delivery);
    assert ValidName(c.sha(data));
    OrderDoesNotMatter(s.disks, order, c.lists(h), h, data, c.sha, delivery);
    assert after.tasks[t].waiting == {} && after.tasks[t].acks == Answering(order, delivery);
    QuorumGoesOn(c, after, t, h, data);
  }
}
