/** Conservation of bytes under deduplication, for uploads that do not overlap while every replica answers. */
module Dedup {
  import opened Types
  import opened Seqs
  import opened ChunkStores
  import opened Replication
  import opened RingSpec
  import opened Placement
  import opened Chunker

  /** The nodes, and the dedupBytesSaved counter. */
  datatype Ledger = Ledger(cluster: Cluster, saved: nat)

  function AfterPut(led: Ledger, buf: Bytes, lists: Hash -> seq<NodeId>, sha: Bytes -> Hash, w: nat): Ledger {
    var everyone := (d: NodeId) => Answered;
    var r := PutResultOf(led.cluster, lists(sha(buf)), sha(buf), buf, sha, everyone, w);
    Ledger(ClusterAfterPut(led.cluster, lists(sha(buf)), sha(buf), buf, sha, everyone),
           led.saved + if r.Quorum? && r.deduped then |buf| else 0)
  }

  function AfterPuts(led: Ledger, bufs: seq<Bytes>, lists: Hash -> seq<NodeId>, sha: Bytes -> Hash, w: nat): Ledger {
    if bufs == [] then led
    else AfterPut(AfterPuts(led, bufs[..|bufs| - 1], lists, sha, w), bufs[|bufs| - 1], lists, sha, w)
  }

  /** One file after another, each chunk by chunk. */
  function AfterUploads(led: Ledger, files: seq<Bytes>, size: nat, lists: Hash -> seq<NodeId>, sha: Bytes -> Hash,
                        w: nat): Ledger
    requires size > 0
  {
    if files == [] then led
    else
      var before := AfterUploads(led, files[..|files| - 1], size, lists, sha, w);
      AfterPuts(before, Pieces(files[|files| - 1], size), lists, sha, w)
  }

  function TotalBytes(bufs: seq<Bytes>): nat {
    if bufs == [] then 0 else TotalBytes(bufs[..|bufs| - 1]) + |bufs[|bufs| - 1]|
  }

  /** Every node holds the same files. */
  ghost predicate Mirrored(c: Cluster) {
    forall d, e :: d in c && e in c ==> c[d] == c[e]
  }

  /** Every chunk's list names all the nodes. */
  ghost predicate ListsAreEveryone(lists: Hash -> seq<NodeId>, nodes: set<NodeId>) {
    forall h :: Elems(lists(h)) == nodes
  }

  ghost predicate Digests(sha: Bytes -> Hash) {
    forall b :: ValidName(sha(b))
  }

  /** With as many replicas as nodes, preference lists do name all the nodes. */
  lemma FullListsAreEveryone(r: Ring, p: Position, n: nat)
    requires n >= |NodesOn(r)|
    ensures Elems(Prefs(r, p, n)) == NodesOn(r)
  {
    DistinctMembers(Clockwise(r, p));
    ClockwiseMembers(r, p);
    NoDupCard(Distinct(Clockwise(r, p)));
    assert NodesOn(Clockwise(r, p)) == NodesOn(r);
  }

  lemma GrowthAt(disk: Disk, buf: Bytes, sha: Bytes -> Hash)
    requires Digests(sha)
    ensures DiskBytes(DiskAfterPut(disk, sha(buf), buf, sha)) == DiskBytes(disk) + if sha(buf) in disk then 0 else |buf|
  {
    if sha(buf) !in disk {
      var after := disk[sha(buf) := buf];
      DiskBytesWithout(after, sha(buf));
      assert after - {sha(buf)} == disk;
    }
  }

  /** What a put that every node answers leaves: the bytes where they were missing, credit where they were missing
      nowhere. */
  lemma PutEverywhere(led: Ledger, buf: Bytes, lists: Hash -> seq<NodeId>, sha: Bytes -> Hash, w: nat)
    requires w <= |led.cluster|
    requires ListsAreEveryone(lists, led.cluster.Keys) && Digests(sha)
    ensures var h, after := sha(buf), AfterPut(led, buf, lists, sha, w);
            && after.cluster.Keys == led.cluster.Keys
            && (forall d :: d in led.cluster ==> after.cluster[d] == DiskAfterPut(led.cluster[d], h, buf, sha))
            && after.saved == led.saved + if forall d :: d in led.cluster ==> h in led.cluster[d] then |buf| else 0
  {
    var h, c := sha(buf), led.cluster;
    var everyone := (d: NodeId) => Answered;
    forall d | d in c ensures d in lists(h) {
      assert d in Elems(lists(h));
    }
    assert Acks(c, lists(h), h, buf, sha, everyone) == c.Keys;
    assert forall d :: d in NewWrites(c, lists(h), h, buf, sha, everyone) <==> d in c && h !in c[d];
  }

  lemma {:induction false} PutOnMirrors(led: Ledger, buf: Bytes, lists: Hash -> seq<NodeId>, sha: Bytes -> Hash, w: nat)
    requires Mirrored(led.cluster) && 0 < |led.cluster| && w <= |led.cluster|
    requires ListsAreEveryone(lists, led.cluster.Keys) && Digests(sha)
    ensures var after := AfterPut(led, buf, lists, sha, w);
            && Mirrored(after.cluster) && after.cluster.Keys == led.cluster.Keys
            && (forall d :: d in led.cluster ==>
                  DiskBytes(after.cluster[d]) + after.saved == DiskBytes(led.cluster[d]) + led.saved + |buf|)
  {
    PutEverywhere(led, buf, lists, sha, w);
    forall d | d in led.cluster
      ensures DiskBytes(DiskAfterPut(led.cluster[d], sha(buf), buf, sha))
           == DiskBytes(led.cluster[d]) + if sha(buf) in led.cluster[d] then 0 else |buf|
    {
      GrowthAt(led.cluster[d], buf, sha);
    }
  }

  lemma {:induction false} PutsConserveBytes(led: Ledger, bufs: seq<Bytes>, lists: Hash -> seq<NodeId>,
                                             sha: Bytes -> Hash, w: nat)
    requires Mirrored(led.cluster) && 0 < |led.cluster| && w <= |led.cluster|
    requires ListsAreEveryone(lists, led.cluster.Keys) && Digests(sha)
    ensures var after := AfterPuts(led, bufs, lists, sha, w);
            && Mirrored(after.cluster) && after.cluster.Keys == led.cluster.Keys
            && (forall d :: d in led.cluster ==>
                  DiskBytes(after.cluster[d]) + after.saved == DiskBytes(led.cluster[d]) + led.saved + TotalBytes(bufs))
  {
    if bufs == [] {
    } else {
      var mid := AfterPuts(led, bufs[..|bufs| - 1], lists, sha, w);
      PutsConserveBytes(led, bufs[..|bufs| - 1], lists, sha, w);
      assert |mid.cluster| == |mid.cluster.Keys| == |led.cluster|;
      PutOnMirrors(mid, bufs[|bufs| - 1], lists, sha, w);
    }
  }

  lemma {:induction false} TotalOfFlattened(bufs: seq<Bytes>)
    ensures TotalBytes(bufs) == |Flatten(bufs)|
  {
    if bufs == [] {
    } else {
      TotalOfFlattened(bufs[1..]);
      TotalFromFront(bufs);
    }
  }

  lemma {:induction false} TotalFromFront(bufs: seq<Bytes>)
    requires bufs != []
    ensures TotalBytes(bufs) == |bufs[0]| + TotalBytes(bufs[1..])
  {
    if |bufs| > 1 {
      TotalFromFront(bufs[..|bufs| - 1]);
      assert bufs[..|bufs| - 1][1..] == bufs[1..][..|bufs[1..]| - 1];
    }
  }

  /** Bytes uploaded equal the bytes each replica reports plus the bytes credited to deduplication, repeats within one
      file and across files included. */
  lemma {:induction false} UploadsConserveBytes(led: Ledger, files: seq<Bytes>, size: nat, lists: Hash -> seq<NodeId>,
                                                sha: Bytes -> Hash, w: nat)
    requires size > 0
    requires Mirrored(led.cluster) && 0 < |led.cluster| && w <= |led.cluster|
    requires ListsAreEveryone(lists, led.cluster.Keys) && Digests(sha)
    ensures var after := AfterUploads(led, files, size, lists, sha, w);
            && Mirrored(after.cluster) && after.cluster.Keys == led.cluster.Keys
            && (forall d :: d in led.cluster ==>
                  DiskBytes(after.cluster[d]) + after.saved
                      == DiskBytes(led.cluster[d]) + led.saved + TotalBytes(files))
  {
    if files == [] {
    } else {
      var last := files[|files| - 1];
      var mid := AfterUploads(led, files[..|files| - 1], size, lists, sha, w);
      UploadsConserveBytes(led, files[..|files| - 1], size, lists, sha, w);
      assert |mid.cluster| == |mid.cluster.Keys| == |led.cluster|;
      PutsConserveBytes(mid, Pieces(last, size), lists, sha, w);
      TotalOfFlattened(Pieces(last, size));
      PiecesRebuild(last, size);
    }
  }

  // ---------- exactly when one put keeps the balance ----------

  ghost predicate KeepsBalance(before: Ledger, after: Ledger, uploaded: nat) {
    forall d :: d in before.cluster ==>
      d in after.cluster &&
      DiskBytes(after.cluster[d]) + after.saved == DiskBytes(before.cluster[d]) + before.saved + uploaded
  }

  /** With full lists and every replica answering, a put keeps the balance exactly when the nodes agreed about the
      chunk beforehand: all of them had it, or none had. */
  lemma {:induction false} PutConservesIff(led: Ledger, buf: Bytes, lists: Hash -> seq<NodeId>, sha: Bytes -> Hash,
                                           w: nat)
    requires buf != [] && w <= |led.cluster|
    requires ListsAreEveryone(lists, led.cluster.Keys) && Digests(sha)
    ensures KeepsBalance(led, AfterPut(led, buf, lists, sha, w), |buf|) <==>
              (forall d :: d in led.cluster ==> sha(buf) in led.cluster[d])
              || (forall d :: d in led.cluster ==> sha(buf) !in led.cluster[d])
  {
    var h, after := sha(buf), AfterPut(led, buf, lists, sha, w);
    PutEverywhere(led, buf, lists, sha, w);
    forall d | d in led.cluster
      ensures DiskBytes(after.cluster[d]) == DiskBytes(led.cluster[d]) + if h in led.cluster[d] then 0 else |buf|
    {
      GrowthAt(led.cluster[d], buf, sha);
    }
  }

  // ---------- puts that overlap ----------

  /** Put number `put` reaches a node. */
  datatype Arrival = Arrival(put: nat, node: NodeId)

  predicate Addressed(c: Cluster, bufs: seq<Bytes>, a: Arrival) {
    a.put < |bufs| && a.node in c
  }

  /** Every put reaches every node once; the order says how the puts overlap. */
  ghost predicate Complete(c: Cluster, bufs: seq<Bytes>, order: seq<Arrival>) {
    NoDup(order) && forall a :: a in order <==> Addressed(c, bufs, a)
  }

  /** The nodes after the arrivals, in order. */
  function Landed(c: Cluster, bufs: seq<Bytes>, order: seq<Arrival>, sha: Bytes -> Hash): (r: Cluster)
    ensures r.Keys == c.Keys
  {
    if order == [] then c
    else
      var before, a := Landed(c, bufs, order[..|order| - 1], sha), order[|order| - 1];
      if !Addressed(c, bufs, a) then before
      else before[a.node := NodeAfterPut(before[a.node], sha(bufs[a.put]), bufs[a.put], sha, Answered)]
  }

  /** The puts that node d answered with a new write. */
  function NewAt(c: Cluster, bufs: seq<Bytes>, order: seq<Arrival>, sha: Bytes -> Hash, d: NodeId): set<nat>
    requires d in c
  {
    if order == [] then {}
    else
      var before, a := order[..|order| - 1], order[|order| - 1];
      NewAt(c, bufs, before, sha, d)
      + if Addressed(c, bufs, a) && a.node == d
           && ReplyOf(Landed(c, bufs, before, sha)[d], sha(bufs[a.put]), bufs[a.put], sha, Answered)
               == PutReply(true, false)
        then {a.put} else {}
  }

  ghost predicate NewNowhere(c: Cluster, bufs: seq<Bytes>, order: seq<Arrival>, sha: Bytes -> Hash, j: nat) {
    forall d :: d in c ==> j !in NewAt(c, bufs, order, sha, d)
  }

  /** The puts that no node answered with a new write: those whose bytes are counted as saved. */
  ghost function Credited(c: Cluster, bufs: seq<Bytes>, order: seq<Arrival>, sha: Bytes -> Hash): set<nat> {
    set j | 0 <= j < |bufs| && NewNowhere(c, bufs, order, sha, j)
  }

  /** The bytes of some of the puts. */
  function BytesOf(bufs: seq<Bytes>, puts: set<nat>): nat {
    if bufs == [] then 0
    else BytesOf(bufs[..|bufs| - 1], puts) + if |bufs| - 1 in puts then |bufs[|bufs| - 1]| else 0
  }

  lemma {:induction false} BytesOfBoth(bufs: seq<Bytes>, a: set<nat>, b: set<nat>)
    requires a !! b
    ensures BytesOf(bufs, a + b) == BytesOf(bufs, a) + BytesOf(bufs, b)
  {
    if bufs == [] {
    } else {
      BytesOfBoth(bufs[..|bufs| - 1], a, b);
    }
  }

  lemma {:induction false} BytesOfOne(bufs: seq<Bytes>, j: nat)
    requires j < |bufs|
    ensures BytesOf(bufs, {j}) == |bufs[j]|
  {
    if j < |bufs| - 1 {
      BytesOfOne(bufs[..|bufs| - 1], j);
    } else {
      BytesOfNone(bufs[..j], {j});
    }
  }

  lemma {:induction false} BytesOfNone(bufs: seq<Bytes>, puts: set<nat>)
    requires forall j :: 0 <= j < |bufs| ==> j !in puts
    ensures BytesOf(bufs, puts) == 0
  {
    if bufs == [] {
    } else {
      BytesOfNone(bufs[..|bufs| - 1], puts);
    }
  }

  /** Some puts carry all the bytes exactly when every other put is empty. */
  lemma {:induction false} BytesOfAllIff(bufs: seq<Bytes>, puts: set<nat>)
    ensures BytesOf(bufs, puts) <= TotalBytes(bufs)
    ensures BytesOf(bufs, puts) == TotalBytes(bufs) <==> forall j :: 0 <= j < |bufs| && j !in puts ==> bufs[j] == []
  {
    if bufs == [] {
    } else {
      var before := bufs[..|bufs| - 1];
      BytesOfAllIff(before, puts);
      assert forall j :: 0 <= j < |before| ==> before[j] == bufs[j];
    }
  }

  /** A node grows by the bytes of the puts it answered with a new write, and it answers each put at most once. */
  lemma {:induction false} NodeGrowth(c: Cluster, bufs: seq<Bytes>, order: seq<Arrival>, sha: Bytes -> Hash, d: NodeId)
    requires Digests(sha) && NoDup(order) && d in c
    ensures DiskBytes(Landed(c, bufs, order, sha)[d]) == DiskBytes(c[d]) + BytesOf(bufs, NewAt(c, bufs, order, sha, d))
    ensures forall j :: j in NewAt(c, bufs, order, sha, d) ==> Arrival(j, d) in order && j < |bufs|
  {
    if order == [] {
      BytesOfNone(bufs, {});
    } else {
      var before, a := order[..|order| - 1], order[|order| - 1];
      NodeGrowth(c, bufs, before, sha, d);
      assert order == before + [a] && a !in before;
      if Addressed(c, bufs, a) && a.node == d {
        var disk, news := Landed(c, bufs, before, sha)[d], NewAt(c, bufs, before, sha, d);
        assert a == Arrival(a.put, d) && a.put !in news;
        GrowthAt(disk, bufs[a.put], sha);
        if sha(bufs[a.put]) !in disk {
          BytesOfBoth(bufs, news, {a.put});
          BytesOfOne(bufs, a.put);
        } else {
          assert news + {} == news;
        }
      } else {
        assert NewAt(c, bufs, before, sha, d) + {} == NewAt(c, bufs, before, sha, d);
      }
    }
  }

  /** Each node's growth plus the bytes counted as saved is what was uploaded. */
  ghost predicate Balanced(c: Cluster, bufs: seq<Bytes>, order: seq<Arrival>, sha: Bytes -> Hash) {
    forall d :: d in c ==>
      DiskBytes(Landed(c, bufs, order, sha)[d]) + BytesOf(bufs, Credited(c, bufs, order, sha))
      == DiskBytes(c[d]) + TotalBytes(bufs)
  }

  /** All nodes gave the put the same answer. */
  ghost predicate Unanimous(c: Cluster, bufs: seq<Bytes>, order: seq<Arrival>, sha: Bytes -> Hash, j: nat) {
    forall d, e :: d in c && e in c ==> (j in NewAt(c, bufs, order, sha, d) <==> j in NewAt(c, bufs, order, sha, e))
  }

  lemma BalancedAtIff(c: Cluster, bufs: seq<Bytes>, order: seq<Arrival>, sha: Bytes -> Hash, d: NodeId)
    requires Digests(sha) && NoDup(order) && d in c
    ensures DiskBytes(Landed(c, bufs, order, sha)[d]) + BytesOf(bufs, Credited(c, bufs, order, sha))
              == DiskBytes(c[d]) + TotalBytes(bufs)
        <==> forall j :: 0 <= j < |bufs| && bufs[j] != [] ==>
               j in NewAt(c, bufs, order, sha, d) || j in Credited(c, bufs, order, sha)
  {
    var news, credited := NewAt(c, bufs, order, sha, d), Credited(c, bufs, order, sha);
    NodeGrowth(c, bufs, order, sha, d);
    BytesOfBoth(bufs, news, credited);
    BytesOfAllIff(bufs, news + credited);
  }

  /** However puts overlap, with every replica answering each: bytes uploaded equal each node's growth plus the bytes
      counted as saved exactly when every put that carries bytes got the same answer from all nodes. */
  lemma BalancedIffUnanimous(c: Cluster, bufs: seq<Bytes>, order: seq<Arrival>, sha: Bytes -> Hash)
    requires Digests(sha) && Complete(c, bufs, order)
    ensures Balanced(c, bufs, order, sha) <==>
            forall j :: 0 <= j < |bufs| && bufs[j] != [] ==> Unanimous(c, bufs, order, sha, j)
  {
    forall d | d in c
      ensures DiskBytes(Landed(c, bufs, order, sha)[d]) + BytesOf(bufs, Credited(c, bufs, order, sha))
                == DiskBytes(c[d]) + TotalBytes(bufs)
          <==> forall j :: 0 <= j < |bufs| && bufs[j] != [] ==>
                 j in NewAt(c, bufs, order, sha, d) || j in Credited(c, bufs, order, sha)
    {
      BalancedAtIff(c, bufs, order, sha, d);
    }
    forall j | 0 <= j < |bufs|
      ensures Unanimous(c, bufs, order, sha, j) <==>
              forall d :: d in c ==> j in NewAt(c, bufs, order, sha, d) || j in Credited(c, bufs, order, sha)
    {
      if Unanimous(c, bufs, order, sha, j) && j !in Credited(c, bufs, order, sha) {
        var d :| d in c && j in NewAt(c, bufs, order, sha, d);
      }
    }
  }

  // ---------- the same, foreseen ----------

  /** Put j is the first of those with its digest to reach node d. */
  ghost predicate FirstThere(bufs: seq<Bytes>, order: seq<Arrival>, sha: Bytes -> Hash, j: nat, d: NodeId)
    requires j < |bufs|
  {
    exists i :: 0 <= i < |order| && order[i] == Arrival(j, d) && NoneBefore(bufs, order[..i], sha, sha(bufs[j]), d)
  }

  /** No put with digest h is among the arrivals at d. */
  ghost predicate NoneBefore(bufs: seq<Bytes>, order: seq<Arrival>, sha: Bytes -> Hash, h: Hash, d: NodeId) {
    forall a :: a in order && a.node == d && a.put < |bufs| ==> sha(bufs[a.put]) != h
  }

  lemma {:induction false} LandedAt(c: Cluster, bufs: seq<Bytes>, order: seq<Arrival>, sha: Bytes -> Hash, d: NodeId,
                                    h: Hash)
    requires Digests(sha) && d in c
    ensures h in Landed(c, bufs, order, sha)[d] <==> h in c[d] || !NoneBefore(bufs, order, sha, h, d)
  {
    if order == [] {
    } else {
      var before, a := order[..|order| - 1], order[|order| - 1];
      LandedAt(c, bufs, before, sha, d, h);
      assert order == before + [a];
      assert NoneBefore(bufs, order, sha, h, d) <==>
             NoneBefore(bufs, before, sha, h, d) && !(a.node == d && a.put < |bufs| && sha(bufs[a.put]) == h);
    }
  }

  /** A node answers a put with a new write exactly when it did not have the chunk at first and no other put brought
      it. */
  lemma {:induction false} NewAtIff(c: Cluster, bufs: seq<Bytes>, order: seq<Arrival>, sha: Bytes -> Hash, d: NodeId,
                                    j: nat)
    requires Digests(sha) && d in c && j < |bufs|
    ensures j in NewAt(c, bufs, order, sha, d) <==> sha(bufs[j]) !in c[d] && FirstThere(bufs, order, sha, j, d)
  {
    if order == [] {
    } else {
      var before, a := order[..|order| - 1], order[|order| - 1];
      NewAtIff(c, bufs, before, sha, d, j);
      LandedAt(c, bufs, before, sha, d, sha(bufs[j]));
      FirstThereNext(bufs, order, sha, j, d);
    }
  }

  lemma FirstThereNext(bufs: seq<Bytes>, order: seq<Arrival>, sha: Bytes -> Hash, j: nat, d: NodeId)
    requires j < |bufs| && order != []
    ensures var before, a := order[..|order| - 1], order[|order| - 1];
            FirstThere(bufs, order, sha, j, d) <==>
            FirstThere(bufs, before, sha, j, d)
                || (a == Arrival(j, d) && NoneBefore(bufs, before, sha, sha(bufs[j]), d))
  {
    var before, a := order[..|order| - 1], order[|order| - 1];
    forall i | 0 <= i < |before| ensures before[i] == order[i] && before[..i] == order[..i] {
    }
  }

  /** A node that is given the chunk anew by put j. */
  ghost predicate GivenAnew(c: Cluster, bufs: seq<Bytes>, order: seq<Arrival>, sha: Bytes -> Hash, d: NodeId, j: nat)
    requires d in c && j < |bufs|
  {
    sha(bufs[j]) !in c[d] && FirstThere(bufs, order, sha, j, d)
  }

  /** The balance, foreseen from the nodes and the order of arrival alone: it holds exactly when for every put that
      carries bytes all nodes agree on whether it is the first to bring them the chunk, which they did not have. */
  lemma BalancedIffForeseen(c: Cluster, bufs: seq<Bytes>, order: seq<Arrival>, sha: Bytes -> Hash)
    requires Digests(sha) && Complete(c, bufs, order)
    ensures Balanced(c, bufs, order, sha) <==>
            forall j, d, e :: 0 <= j < |bufs| && bufs[j] != [] && d in c && e in c ==>
              (GivenAnew(c, bufs, order, sha, d, j) <==> GivenAnew(c, bufs, order, sha, e, j))
  {
    BalancedIffUnanimous(c, bufs, order, sha);
    forall d, j | d in c && 0 <= j < |bufs|
      ensures j in NewAt(c, bufs, order, sha, d) <==> GivenAnew(c, bufs, order, sha, d, j)
    {
      NewAtIff(c, bufs, order, sha, d, j);
    }
  }

  /** Two uploads of one new chunk to two nodes; the first reaches node a first, the second reaches node b first. */
  function CrossedOrder(a: NodeId, b: NodeId): seq<Arrival> {
    [Arrival(0, a), Arrival(1, b), Arrival(1, a), Arrival(0, b)]
  }

  lemma CrossedAnswers(c: Cluster, a: NodeId, b: NodeId, buf: Bytes, sha: Bytes -> Hash)
    requires Digests(sha) && a != b && c.Keys == {a, b} && sha(buf) !in c[a] && sha(buf) !in c[b]
    ensures NewAt(c, [buf, buf], CrossedOrder(a, b), sha, a) == {0}
    ensures NewAt(c, [buf, buf], CrossedOrder(a, b), sha, b) == {1}
  {
    var o := CrossedOrder(a, b);
    assert o[..3][..2] == o[..2] && o[..2][..1] == o[..1] && o[..1][..0] == [];
    assert o[..4] == o && o[..|o| - 1] == o[..3];
    assert NewAt(c, [buf, buf], o[..1], sha, a) == {0} && NewAt(c, [buf, buf], o[..1], sha, b) == {};
    assert NewAt(c, [buf, buf], o[..2], sha, a) == {0} && NewAt(c, [buf, buf], o[..2], sha, b) == {1};
    assert NewAt(c, [buf, buf], o[..3], sha, a) == {0} && NewAt(c, [buf, buf], o[..3], sha, b) == {1};
  }

  lemma CrossedOrderIsComplete(c: Cluster, a: NodeId, b: NodeId, buf: Bytes)
    requires a != b && c.Keys == {a, b}
    ensures Complete(c, [buf, buf], CrossedOrder(a, b))
  {
    forall x ensures x in CrossedOrder(a, b) <==> Addressed(c, [buf, buf], x) {
      assert x == Arrival(x.put, x.node);
    }
  }

  lemma TwiceTheBytes(buf: Bytes)
    ensures TotalBytes([buf, buf]) == 2 * |buf|
  {
    var one, two := [buf], [buf, buf];
    assert one[..|one| - 1] == [] && two[..|two| - 1] == one;
    assert TotalBytes(one) == |buf|;
  }

  /** If each node wrote one of two puts of the same bytes anew, nobody is credited. */
  lemma SplitAnswers(c: Cluster, a: NodeId, b: NodeId, buf: Bytes, order: seq<Arrival>, sha: Bytes -> Hash)
    requires Digests(sha) && a != b && c.Keys == {a, b} && NoDup(order) && buf != []
    requires NewAt(c, [buf, buf], order, sha, a) == {0} && NewAt(c, [buf, buf], order, sha, b) == {1}
    ensures forall d :: d in c ==> DiskBytes(Landed(c, [buf, buf], order, sha)[d]) == DiskBytes(c[d]) + |buf|
    ensures BytesOf([buf, buf], Credited(c, [buf, buf], order, sha)) == 0
    ensures !Balanced(c, [buf, buf], order, sha)
  {
    TwiceTheBytes(buf);
    var bufs := [buf, buf];
    NodeGrowth(c, bufs, order, sha, a);
    NodeGrowth(c, bufs, order, sha, b);
    BytesOfOne(bufs, 0);
    BytesOfOne(bufs, 1);
    assert a in c && b in c;
    assert Credited(c, bufs, order, sha) == {};
    BytesOfNone(bufs, {});
  }

  /** Each node keeps one copy of the bytes uploaded twice, and nothing is counted as saved. */
  lemma OverlappingUploadsGoUncredited(c: Cluster, a: NodeId, b: NodeId, buf: Bytes, sha: Bytes -> Hash)
    requires Digests(sha) && a != b && c.Keys == {a, b} && sha(buf) !in c[a] && sha(buf) !in c[b] && buf != []
    ensures Complete(c, [buf, buf], CrossedOrder(a, b))
    ensures forall d :: d in c ==>
        DiskBytes(Landed(c, [buf, buf], CrossedOrder(a, b), sha)[d]) == DiskBytes(c[d]) + |buf|
    ensures BytesOf([buf, buf], Credited(c, [buf, buf], CrossedOrder(a, b), sha)) == 0
    ensures TotalBytes([buf, buf]) == 2 * |buf|
    ensures !Balanced(c, [buf, buf], CrossedOrder(a, b), sha)
  {
    CrossedOrderIsComplete(c, a, b, buf);
    CrossedAnswers(c, a, b, buf, sha);
    SplitAnswers(c, a, b, buf, CrossedOrder(a, b), sha);
    TwiceTheBytes(buf);
  }
}
