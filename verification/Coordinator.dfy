/** The Coordinator object: its view of the storage nodes, and its put, get and delete of one chunk. */
module Coordinators {
  import opened Types
  import opened Seqs
  import opened Placement
  import opened Proximity
  import opened HashRings
  import opened ChunkStores
  import opened Replication

  lemma PutToNext(c: Cluster, list: seq<NodeId>, i: nat, hash: Hash, buf: Bytes, sha: Bytes -> Hash,
                  delivery: NodeId -> Delivery)
    requires NoDup(list) && i < |list|
    ensures var d, now := list[i], ClusterAfterPut(c, list[..i], hash, buf, sha, delivery);
            && (d in c ==> now[d] == c[d])
            && ClusterAfterPut(c, list[..i + 1], hash, buf, sha, delivery)
               == if d in c then now[d := NodeAfterPut(c[d], hash, buf, sha, delivery(d))] else now
  {
    assert list[..i + 1] == list[..i] + [list[i]];
    assert list[i] !in list[..i];
  }

  lemma AcksNext(c: Cluster, list: seq<NodeId>, i: nat, hash: Hash, buf: Bytes, sha: Bytes -> Hash,
                 delivery: NodeId -> Delivery)
    requires i < |list|
    ensures var d := list[i];
            var ok := d in c && ReplyOf(c[d], hash, buf, sha, delivery(d)).ok;
            && Acks(c, list[..i + 1], hash, buf, sha, delivery)
               == Acks(c, list[..i], hash, buf, sha, delivery) + (if ok then {d} else {})
            && NewWrites(c, list[..i + 1], hash, buf, sha, delivery)
               == NewWrites(c, list[..i], hash, buf, sha, delivery)
                  + (if ok && !ReplyOf(c[d], hash, buf, sha, delivery(d)).deduped then {d} else {})
  {
    assert list[..i + 1] == list[..i] + [list[i]];
  }

  /** The nodes of a list that a delete reaches. */
  function Reached(c: Cluster, list: seq<NodeId>, reachable: set<NodeId>): set<NodeId> {
    set d | d in list && d in c && d in reachable
  }

  lemma DeleteOnNext(c: Cluster, list: seq<NodeId>, i: nat, hash: Hash, reachable: set<NodeId>)
    requires NoDup(list) && i < |list|
    ensures var d, now := list[i], ClusterAfterDelete(c, list[..i], hash, reachable);
            ClusterAfterDelete(c, list[..i + 1], hash, reachable)
            == if d in c && d in reachable then now[d := now[d] - {hash}] else now
    ensures var d := list[i];
            && d !in Reached(c, list[..i], reachable)
            && Reached(c, list[..i + 1], reachable)
               == Reached(c, list[..i], reachable) + if d in c && d in reachable then {d} else {}
  {
    assert list[..i + 1] == list[..i] + [list[i]];
    assert list[i] !in list[..i];
  }

  /** A delete takes the chunk from exactly the listed nodes that it reaches, and leaves every other file alone. */
  lemma DeleteMeaning(c: Cluster, list: seq<NodeId>, hash: Hash, reachable: set<NodeId>)
    ensures var after := ClusterAfterDelete(c, list, hash, reachable);
            && after.Keys == c.Keys && HoldersOf(after, hash) == HoldersOf(c, hash) - Reached(c, list, reachable)
            && forall d, g :: d in c && g in c[d] && g != hash ==> g in after[d] && after[d][g] == c[d][g]
    ensures Elems(list) <= c.Keys && Elems(list) <= reachable ==> Reached(c, list, reachable) == Elems(list)
  {
    assert forall d :: d in list ==> d in Elems(list);
  }

  class Coordinator {
    const ring: HashRing
    const n: nat
    const w: nat
    const sha: Bytes -> Hash

    /** The storage nodes at the other end of the network. */
    var cluster: Cluster
    var dedupBytesSaved: nat

    ghost predicate Valid()
      reads ring
    {
      ring.Valid()
    }

    function Replicas(hash: Hash): (list: seq<NodeId>)
      reads ring
      ensures NoDup(list)
    {
      Prefs(ring.ring, ring.layout.positionFor(hash), n)
    }

    constructor (ring: HashRing, n: nat, w: nat, sha: Bytes -> Hash, cluster: Cluster)
      requires ring.Valid()
      ensures Valid() && this.ring == ring && this.n == n && this.w == w && this.sha == sha
      ensures this.cluster == cluster && dedupBytesSaved == 0
    {
      this.ring, this.n, this.w, this.sha := ring, n, w, sha;
      this.cluster, dedupBytesSaved := cluster, 0;
    }

    /** One replica's PUT. An acknowledgement means that the node has a file of that name: one written now with these
        bytes, or one found there and left as it was. No acknowledgement means nothing about the node. */
    method PutToNode(d: NodeId, hash: Hash, buf: Bytes, delivery: Delivery) returns (reply: PutReply)
      modifies this`cluster
      ensures reply == if d in old(cluster) then ReplyOf(old(cluster)[d], hash, buf, sha, delivery)
          else PutReply(false, false)
      ensures cluster == if d in old(cluster)
                         then old(cluster)[d := NodeAfterPut(old(cluster)[d], hash, buf, sha, delivery)]
                         else old(cluster)
      ensures cluster.Keys == old(cluster).Keys && forall e :: e in cluster && e != d ==> cluster[e] == old(cluster)[e]
      ensures reply.ok ==> d in cluster && hash in cluster[d] && sha(buf) == hash && delivery.Answered?
      ensures reply.ok && reply.deduped ==> hash in old(cluster)[d] && cluster == old(cluster)
      ensures reply.ok && !reply.deduped ==> hash !in old(cluster)[d] && cluster[d] == old(cluster)[d][hash := buf]
      ensures delivery.AnswerLost? && d in cluster && sha(buf) == hash && ValidName(hash) ==>
          !reply.ok && hash in cluster[d]
      ensures delivery.Undelivered? ==> !reply.ok && cluster == old(cluster)
    {
      if d !in cluster || delivery.Undelivered? {
        return PutReply(false, false);
      }
      var outcome := PutOutcome(cluster[d], hash, buf, sha);
      cluster := cluster[d := DiskAfterPut(cluster[d], hash, buf, sha)];
      if delivery.AnswerLost? || outcome.Mismatch? || outcome.BadPutName? {
        return PutReply(false, false);
      }
      return PutReply(true, outcome.Deduped?);
    }

    /** The replicas' PUTs of one chunk; the order of their replies does not matter. */
    method FanOutPut(list: seq<NodeId>, hash: Hash, buf: Bytes, delivery: NodeId -> Delivery)
      returns (acks: set<NodeId>, newWrites: set<NodeId>)
      requires NoDup(list)
      modifies this`cluster
      ensures cluster == ClusterAfterPut(old(cluster), list, hash, buf, sha, delivery)
      ensures acks == Acks(old(cluster), list, hash, buf, sha, delivery)
      ensures newWrites == NewWrites(old(cluster), list, hash, buf, sha, delivery)
    {
      ghost var was := cluster;
      acks, newWrites := {}, {};
      for i := 0 to |list|
        invariant cluster == ClusterAfterPut(was, list[..i], hash, buf, sha, delivery)
        invariant acks == Acks(was, list[..i], hash, buf, sha, delivery)
        invariant newWrites == NewWrites(was, list[..i], hash, buf, sha, delivery)
      {
        PutToNext(was, list, i, hash, buf, sha, delivery);
        AcksNext(was, list, i, hash, buf, sha, delivery);
        var reply := PutToNode(list[i], hash, buf, delivery(list[i]));
        if reply.ok {
          acks := acks + {list[i]};
          if !reply.deduped {
            newWrites := newWrites + {list[i]};
          }
        }
      }
      assert list[..|list|] == list;
    }

    method PutChunk(hash: Hash, buf: Bytes, delivery: NodeId -> Delivery) returns (r: Write)
      requires Valid()
      modifies this
      ensures r == PutResultOf(old(cluster), Replicas(hash), hash, buf, sha, delivery, w)
      ensures cluster == ClusterAfterPut(old(cluster), Replicas(hash), hash, buf, sha, delivery)
      ensures dedupBytesSaved == old(dedupBytesSaved) + if r.Quorum? && r.deduped then |buf| else 0
      ensures r.Quorum? ==>
          && |r.acks| >= w && r.acks <= Elems(Replicas(hash)) && r.acks <= cluster.Keys
          && (forall d :: d in r.acks ==> delivery(d).Answered? && hash in cluster[d])
          && (r.deduped <==> forall d :: d in r.acks ==> hash in old(cluster)[d])
      ensures r.NoQuorum? ==> r.got < w
    {
      var list := ring.PreferenceList(hash, n);
      PutResultMeaning(cluster, list, hash, buf, sha, delivery, w);
      var acks, newWrites := FanOutPut(list, hash, buf, delivery);
      if |acks| < w {
        return NoQuorum(|acks|);
      }
      if newWrites == {} {
        dedupBytesSaved := dedupBytesSaved + |buf|;
      }
      return Quorum(acks, newWrites == {});
    }

    /** answer says what each node would reply during this call. */
    method GetChunk(hash: Hash, answer: NodeId -> Answer) returns (r: Read)
      requires Valid()
      ensures IsRead(Replicas(hash), hash, answer, sha, r)
    {
      var list := ring.PreferenceList(hash, n);
      var lastIsNotFound := false;
      for i := 0 to |list|
        invariant forall j :: 0 <= j < i ==> !Good(answer(list[j]), hash, sha)
        invariant lastIsNotFound <==> i > 0 && answer(list[i - 1]).NotFound?
      {
        var result := answer(list[i]);
        if result.Payload? {
          if sha(result.buf) == hash {
            return Found(result.buf);
          }
          lastIsNotFound := false;
        } else {
          lastIsNotFound := result.NotFound?;
        }
      }
      return if lastIsNotFound then Missing else Unavailable(|list|);
    }

    method FanOutDelete(list: seq<NodeId>, hash: Hash, reachable: set<NodeId>) returns (count: nat)
      requires NoDup(list)
      modifies this`cluster
      ensures cluster == ClusterAfterDelete(old(cluster), list, hash, reachable)
      ensures count == |Reached(old(cluster), list, reachable)|
    {
      ghost var was := cluster;
      count := 0;
      for i := 0 to |list|
        invariant cluster == ClusterAfterDelete(was, list[..i], hash, reachable)
        invariant count == |Reached(was, list[..i], reachable)|
      {
        DeleteOnNext(was, list, i, hash, reachable);
        if list[i] in cluster && list[i] in reachable {
          cluster := cluster[list[i] := cluster[list[i]] - {hash}];
          count := count + 1;
        }
      }
      assert list[..|list|] == list;
    }

    /** Returns how many replicas were reached, whether or not they held the chunk. */
    method DeleteChunk(hash: Hash, reachable: set<NodeId>) returns (count: nat)
      requires Valid()
      modifies this
      ensures cluster == ClusterAfterDelete(old(cluster), Replicas(hash), hash, reachable)
      ensures count == |Reached(old(cluster), Replicas(hash), reachable)|
      ensures dedupBytesSaved == old(dedupBytesSaved)
    {
      var list := ring.PreferenceList(hash, n);
      count := FanOutDelete(list, hash, reachable);
    }
  }
  // ---------- which nodes a coordinator talks to ----------

  /** A chunk's replicas are the coordinator's n nodes nearest clockwise of the chunk's name, or all the nodes if there
      are fewer; the write quorum plays no part in it. */
  lemma ReplicasAreNearest(coordinator: Coordinator, hash: Hash)
    requires coordinator.Valid()
    ensures var ring, p, list := coordinator.ring.ring, coordinator.ring.layout.positionFor(hash),
                                 coordinator.Replicas(hash);
            && |list| == Smaller(coordinator.n, |NodesOn(ring)|)
            && NoDup(list) && Elems(list) <= NodesOn(ring)
            && ByDistance(list, ring, p) && NobodyNearer(list, ring, p)
  {
    PrefsAreNearest(coordinator.ring.ring, coordinator.ring.layout.positionFor(hash), coordinator.n);
  }

  /** With every node of the ring answering, a put is acknowledged by n nodes, or by all of them if there are fewer,
      and leaves the chunk on every one of them; it succeeds exactly when that number reaches the write quorum. */
  lemma AnsweredPutReachesAll(coordinator: Coordinator, c: Cluster, hash: Hash, buf: Bytes,
                              delivery: NodeId -> Delivery)
    requires coordinator.Valid() && coordinator.sha(buf) == hash && ValidName(hash)
    requires forall d :: d in NodesOn(coordinator.ring.ring) ==> d in c && delivery(d).Answered?
    ensures var list, copies := coordinator.Replicas(hash), Smaller(coordinator.n, |NodesOn(coordinator.ring.ring)|);
            var after := ClusterAfterPut(c, list, hash, buf, coordinator.sha, delivery);
            var r := PutResultOf(c, list, hash, buf, coordinator.sha, delivery, coordinator.w);
            && HoldersOf(after, hash) == HoldersOf(c, hash) + Elems(list) && |Elems(list)| == copies
            && (r.Quorum? <==> coordinator.w <= copies)
            && (r.Quorum? ==> r.acks == Elems(list))
  {
    var list := coordinator.Replicas(hash);
    ReplicasAreNearest(coordinator, hash);
    NoDupCard(list);
    forall d | d in list ensures d in c && delivery(d).Answered? {
      assert d in Elems(list);
    }
    AllAnswer(c, list, hash, buf, coordinator.sha, delivery);
  }

  /** With every node of the ring reached, a delete leaves the chunk on no node of the ring that a put of it uses. */
  lemma ReachedDeleteClearsAll(coordinator: Coordinator, c: Cluster, hash: Hash, reachable: set<NodeId>)
    requires coordinator.Valid()
    requires forall d :: d in NodesOn(coordinator.ring.ring) ==> d in c && d in reachable
    ensures var list := coordinator.Replicas(hash);
            && HoldersOf(ClusterAfterDelete(c, list, hash, reachable), hash) == HoldersOf(c, hash) - Elems(list)
            && |Reached(c, list, reachable)| == Smaller(coordinator.n, |NodesOn(coordinator.ring.ring)|)
  {
    var list := coordinator.Replicas(hash);
    ReplicasAreNearest(coordinator, hash);
    NoDupCard(list);
    DeleteMeaning(c, list, hash, reachable);
  }
}
