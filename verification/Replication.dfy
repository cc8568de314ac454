/** Quorum writes and failover reads as values: what a write leaves on the nodes and what a read makes of their
    answers. */
module Replication {
  import opened Types
  import opened Seqs
  import opened ChunkStores
  import opened Placement
  import Chunker

  type Cluster = map<NodeId, Disk>

  /** How one replica's PUT fares: answered in time, carried out with the answer lost, or never carried out. */
  datatype Delivery = Answered | AnswerLost | Undelivered

  datatype PutReply = PutReply(ok: bool, deduped: bool)

  datatype Write = Quorum(acks: set<NodeId>, deduped: bool) | NoQuorum(got: nat)

  // ---------- writing ----------

  function NodeAfterPut(disk: Disk, hash: Hash, buf: Bytes, sha: Bytes -> Hash, delivery: Delivery): Disk {
    if delivery.Undelivered? then disk else DiskAfterPut(disk, hash, buf, sha)
  }

  function ReplyOf(disk: Disk, hash: Hash, buf: Bytes, sha: Bytes -> Hash, delivery: Delivery): PutReply {
    if !delivery.Answered? then PutReply(false, false)
    else
      var o := PutOutcome(disk, hash, buf, sha);
      PutReply(o.Written? || o.Deduped?, o.Deduped?)
  }

  function ClusterAfterPut(c: Cluster, list: seq<NodeId>, hash: Hash, buf: Bytes, sha: Bytes -> Hash,
                           delivery: NodeId -> Delivery): Cluster {
    map d | d in c :: if d in list then NodeAfterPut(c[d], hash, buf, sha, delivery(d)) else c[d]
  }

  /** The nodes whose acknowledgement arrives. */
  function Acks(c: Cluster, list: seq<NodeId>, hash: Hash, buf: Bytes, sha: Bytes -> Hash,
                delivery: NodeId -> Delivery): set<NodeId> {
    set d | d in list && d in c && ReplyOf(c[d], hash, buf, sha, delivery(d)).ok
  }

  /** The acknowledging nodes that wrote the chunk for the first time. */
  function NewWrites(c: Cluster, list: seq<NodeId>, hash: Hash, buf: Bytes, sha: Bytes -> Hash,
                     delivery: NodeId -> Delivery): set<NodeId> {
    set d | d in Acks(c, list, hash, buf, sha, delivery) && !ReplyOf(c[d], hash, buf, sha, delivery(d)).deduped
  }

  function PutResultOf(c: Cluster, list: seq<NodeId>, hash: Hash, buf: Bytes, sha: Bytes -> Hash,
                       delivery: NodeId -> Delivery, w: nat): Write {
    var acks := Acks(c, list, hash, buf, sha, delivery);
    if |acks| < w then NoQuorum(|acks|)
    else Quorum(acks, NewWrites(c, list, hash, buf, sha, delivery) == {})
  }

  /** For arbitrary deliveries: the acknowledging nodes are the listed ones that carried the put out in time; they all
      have the chunk; with w of them the put succeeds, with fewer it reports their number; and the chunk's bytes count
      as saved exactly when every acknowledging node had it before, whatever the other nodes did. */
  lemma PutResultMeaning(c: Cluster, list: seq<NodeId>, hash: Hash, buf: Bytes, sha: Bytes -> Hash,
                         delivery: NodeId -> Delivery, w: nat)
    ensures var acks := Acks(c, list, hash, buf, sha, delivery);
            var after, r := ClusterAfterPut(c, list, hash, buf, sha, delivery),
                            PutResultOf(c, list, hash, buf, sha, delivery, w);
            && (forall d :: d in acks <==>
                  d in list && d in c && delivery(d).Answered? && sha(buf) == hash && ValidName(hash))
            && (forall d :: d in acks ==> hash in after[d])
            && r == if |acks| < w then NoQuorum(|acks|) else Quorum(acks, forall d :: d in acks ==> hash in c[d])
  {
    var acks := Acks(c, list, hash, buf, sha, delivery);
    forall d | d in acks
      ensures d in NewWrites(c, list, hash, buf, sha, delivery) <==> hash !in c[d]
    {
    }
  }

  /** The nodes that hold a file of that name. */
  function HoldersOf(c: Cluster, hash: Hash): set<NodeId> {
    set d | d in c && hash in c[d]
  }

  /** When all the listed nodes answer, they all acknowledge and all end up with the chunk. */
  lemma AllAnswer(c: Cluster, list: seq<NodeId>, hash: Hash, buf: Bytes, sha: Bytes -> Hash,
                  delivery: NodeId -> Delivery)
    requires sha(buf) == hash && ValidName(hash)
    requires forall d :: d in list ==> d in c && delivery(d).Answered?
    ensures Acks(c, list, hash, buf, sha, delivery) == Elems(list)
    ensures HoldersOf(ClusterAfterPut(c, list, hash, buf, sha, delivery), hash) == HoldersOf(c, hash) + Elems(list)
  {
  }

  function ClusterAfterDelete(c: Cluster, list: seq<NodeId>, hash: Hash, reachable: set<NodeId>): Cluster {
    map d | d in c :: if d in list && d in reachable then c[d] - {hash} else c[d]
  }

  // ---------- reading ----------

  /** What a node may answer to a GET; nothing ties the bytes to the hash. */
  datatype Answer = Payload(buf: Bytes) | NotFound | Corrupt | HttpError(status: nat) | NetError

  datatype Read = Found(buf: Bytes) | Missing | Unavailable(attempts: nat)

  predicate Good(a: Answer, hash: Hash, sha: Bytes -> Hash) {
    a.Payload? && sha(a.buf) == hash
  }

  /** r is the outcome of trying the list in order: the first good answer, or else the verdict of the last node tried.
      */
  ghost predicate IsRead(list: seq<NodeId>, hash: Hash, answer: NodeId -> Answer, sha: Bytes -> Hash, r: Read) {
    match r
    case Found(buf) =>
      exists i :: 0 <= i < |list| && Good(answer(list[i]), hash, sha) && answer(list[i]).buf == buf
                  && forall j :: 0 <= j < i ==> !Good(answer(list[j]), hash, sha)
    case Missing =>
      && (forall d :: d in list ==> !Good(answer(d), hash, sha))
      && list != [] && answer(list[|list| - 1]).NotFound?
    case Unavailable(attempts) =>
      && (forall d :: d in list ==> !Good(answer(d), hash, sha))
      && attempts == |list|
      && (list == [] || !answer(list[|list| - 1]).NotFound?)
  }

  lemma ReadIsDetermined(list: seq<NodeId>, hash: Hash, answer: NodeId -> Answer, sha: Bytes -> Hash, r: Read, s: Read)
    requires IsRead(list, hash, answer, sha, r) && IsRead(list, hash, answer, sha, s)
    ensures r == s
  {
    if r.Found? && s.Found? {
      var i :| 0 <= i < |list| && Good(answer(list[i]), hash, sha) && answer(list[i]).buf == r.buf
               && forall j :: 0 <= j < i ==> !Good(answer(list[j]), hash, sha);
      var k :| 0 <= k < |list| && Good(answer(list[k]), hash, sha) && answer(list[k]).buf == s.buf
               && forall j :: 0 <= j < k ==> !Good(answer(list[j]), hash, sha);
      assert i == k;
    }
  }

  /** For arbitrary answers: bytes come back exactly when some listed node supplies matching ones, and then they
      match. */
  lemma FoundIffSomeGood(list: seq<NodeId>, hash: Hash, answer: NodeId -> Answer, sha: Bytes -> Hash, r: Read)
    requires IsRead(list, hash, answer, sha, r)
    ensures r.Found? <==> exists d :: d in list && Good(answer(d), hash, sha)
    ensures r.Found? ==> sha(r.buf) == hash && exists d :: d in list && answer(d) == Payload(r.buf)
  {
    if r.Found? {
      var i :| 0 <= i < |list| && Good(answer(list[i]), hash, sha) && answer(list[i]).buf == r.buf;
      assert list[i] in list;
    }
  }

  /** What a node that works answers. */
  function HonestAnswer(disk: Disk, hash: Hash, sha: Bytes -> Hash): Answer {
    match GetOutcome(disk, hash, sha)
    case Chunk(buf) => Payload(buf)
    case Absent => NotFound
    case CorruptCopy(_) => Corrupt
    case BadGetName => HttpError(500)
  }

  predicate HasSound(c: Cluster, d: NodeId, hash: Hash, sha: Bytes -> Hash) {
    d in c && hash in c[d] && sha(c[d][hash]) == hash
  }

  /** Against nodes that all work, a read finds bytes exactly when some listed node has a sound copy. Otherwise it is
      "missing" exactly when the last node tried has no copy at all, and an error when that copy is corrupt or there
      is nobody to ask. */
  lemma HonestReadOutcome(c: Cluster, list: seq<NodeId>, hash: Hash, sha: Bytes -> Hash, answer: NodeId -> Answer,
                          r: Read)
    requires ValidName(hash) && IsRead(list, hash, answer, sha, r)
    requires forall d :: d in list ==> d in c && answer(d) == HonestAnswer(c[d], hash, sha)
    ensures r.Found? <==> exists d :: d in list && HasSound(c, d, hash, sha)
    ensures r.Missing? <==> !r.Found? && list != [] && hash !in c[list[|list| - 1]]
    ensures r.Unavailable? ==> r.attempts == |list|
  {
    FoundIffSomeGood(list, hash, answer, sha, r);
    forall d | d in list ensures Good(answer(d), hash, sha) <==> HasSound(c, d, hash, sha) {
    }
    if list != [] {
      assert list[|list| - 1] in list;
    }
  }

  /** A chunk deleted from every node of its list reads as missing; what any node says of other chunks is unchanged. */
  lemma {:induction false} DeletedReadsAsMissing(c: Cluster, list: seq<NodeId>, hash: Hash, sha: Bytes -> Hash,
                                                 reachable: set<NodeId>, answer: NodeId -> Answer, r: Read)
    requires ValidName(hash) && list != []
    requires forall d :: d in list ==> d in c && d in reachable
    requires forall d :: d in list ==>
               d in c && answer(d) == HonestAnswer(ClusterAfterDelete(c, list, hash, reachable)[d], hash, sha)
    requires IsRead(list, hash, answer, sha, r)
    ensures r == Missing
    ensures forall d, g :: d in c && g != hash ==>
              HonestAnswer(ClusterAfterDelete(c, list, hash, reachable)[d], g, sha) == HonestAnswer(c[d], g, sha)
  {
    var after := ClusterAfterDelete(c, list, hash, reachable);
    HonestReadOutcome(after, list, hash, sha, answer, r);
    assert list[|list| - 1] in list;
  }

  /** No listed node's answer passes for these bytes without being them. */
  ghost predicate NoForgery(list: seq<NodeId>, buf: Bytes, answer: NodeId -> Answer, sha: Bytes -> Hash) {
    forall d :: d in list && Good(answer(d), sha(buf), sha) ==> answer(d).buf == buf
  }

  lemma CollisionFreeMeansNoForgery(list: seq<NodeId>, buf: Bytes, answer: NodeId -> Answer, sha: Bytes -> Hash,
                                    strings: set<Bytes>)
    requires Chunker.CollisionFree(sha, strings) && buf in strings
    requires forall d :: d in list && answer(d).Payload? ==> answer(d).buf in strings
    ensures NoForgery(list, buf, answer, sha)
  {
  }

  /** If some listed node answers well, and none forges, the read returns the original. */
  lemma GoodNodeGivesOriginal(list: seq<NodeId>, buf: Bytes, answer: NodeId -> Answer, sha: Bytes -> Hash, r: Read,
                              d: NodeId)
    requires IsRead(list, sha(buf), answer, sha, r)
    requires d in list && Good(answer(d), sha(buf), sha) && NoForgery(list, buf, answer, sha)
    ensures r == Found(buf)
  {
    FoundIffSomeGood(list, sha(buf), answer, sha, r);
    var e :| e in list && answer(e) == Payload(r.buf);
    assert Good(answer(e), sha(buf), sha);
  }

  lemma OneOutside<T>(a: set<T>, b: set<T>) returns (x: T)
    requires |b| < |a|
    ensures x in a && x !in b
  {
    if a <= b {
      SubsetCard(a, b);
    }
    x :| x in a && x !in b;
  }

  /** The nodes of a set that are faulty now or already held a corrupt copy of the chunk. */
  function Unsound(nodes: set<NodeId>, c: Cluster, hash: Hash, sha: Bytes -> Hash, faulty: set<NodeId>): set<NodeId> {
    set d | d in nodes && (d in faulty || (d in c && hash in c[d] && sha(c[d][hash]) != hash))
  }

  /** A node that acknowledged a chunk and is sound answers well afterwards. */
  lemma SoundAckAnswers(c: Cluster, list: seq<NodeId>, buf: Bytes, sha: Bytes -> Hash,
                        delivery: NodeId -> Delivery, faulty: set<NodeId>, d: NodeId)
    requires ValidName(sha(buf)) && d in Acks(c, list, sha(buf), buf, sha, delivery)
    requires d !in Unsound(Acks(c, list, sha(buf), buf, sha, delivery), c, sha(buf), sha, faulty)
    ensures d in list && d in c && d !in faulty
    ensures Good(HonestAnswer(ClusterAfterPut(c, list, sha(buf), buf, sha, delivery)[d], sha(buf), sha), sha(buf), sha)
  {
    assert ClusterAfterPut(c, list, sha(buf), buf, sha, delivery)[d] == DiskAfterPut(c[d], sha(buf), buf, sha);
  }

  /** The listed nodes that are not faulty answer with what they hold. */
  ghost predicate AnswersFrom(nodes: Cluster, list: seq<NodeId>, hash: Hash, sha: Bytes -> Hash,
                              answer: NodeId -> Answer, faulty: set<NodeId>) {
    forall d :: d in list && d in nodes && d !in faulty ==> answer(d) == HonestAnswer(nodes[d], hash, sha)
  }

  /** After a successful write through one list, a read through another that still names all but m of the
      acknowledging nodes returns exactly the bytes written, while fewer than w - m of them misbehave or already held
      a corrupt copy. */
  lemma ReadThroughOtherList(c: Cluster, list: seq<NodeId>, other: seq<NodeId>, m: nat, buf: Bytes, sha: Bytes -> Hash,
                             delivery: NodeId -> Delivery, w: nat, answer: NodeId -> Answer, faulty: set<NodeId>,
                             r: Read)
    requires ValidName(sha(buf))
    requires PutResultOf(c, list, sha(buf), buf, sha, delivery, w).Quorum?
    requires var acks := Acks(c, list, sha(buf), buf, sha, delivery);
             |acks * Elems(other)| >= |acks| - m && |Unsound(acks, c, sha(buf), sha, faulty)| + m < w
    requires AnswersFrom(ClusterAfterPut(c, list, sha(buf), buf, sha, delivery), other, sha(buf), sha, answer, faulty)
    requires NoForgery(other, buf, answer, sha)
    requires IsRead(other, sha(buf), answer, sha, r)
    ensures r == Found(buf)
  {
    var acks := Acks(c, list, sha(buf), buf, sha, delivery);
    var d := OneOutside(acks * Elems(other), Unsound(acks, c, sha(buf), sha, faulty));
    SoundAckAnswers(c, list, buf, sha, delivery, faulty, d);
    GoodNodeGivesOriginal(other, buf, answer, sha, r, d);
  }

  /** After a successful write, while fewer than w of the acknowledging nodes misbehave or already held a corrupt
      copy, a read returns exactly the bytes written; the misbehaving nodes may answer anything. */
  lemma QuorumReadBack(c: Cluster, list: seq<NodeId>, buf: Bytes, sha: Bytes -> Hash,
                       delivery: NodeId -> Delivery, w: nat,
                       answer: NodeId -> Answer, faulty: set<NodeId>, r: Read)
    requires ValidName(sha(buf))
    requires PutResultOf(c, list, sha(buf), buf, sha, delivery, w).Quorum?
    requires |Unsound(Acks(c, list, sha(buf), buf, sha, delivery), c, sha(buf), sha, faulty)| < w
    requires AnswersFrom(ClusterAfterPut(c, list, sha(buf), buf, sha, delivery), list, sha(buf), sha, answer, faulty)
    requires NoForgery(list, buf, answer, sha)
    requires IsRead(list, sha(buf), answer, sha, r)
    ensures r == Found(buf)
  {
    var acks := Acks(c, list, sha(buf), buf, sha, delivery);
    assert acks * Elems(list) == acks;
    ReadThroughOtherList(c, list, list, 0, buf, sha, delivery, w, answer, faulty, r);
  }

  /** The same when the byte strings concerned do not share a digest. */
  lemma CollisionFreeReadBack(c: Cluster, list: seq<NodeId>, buf: Bytes, sha: Bytes -> Hash,
                              delivery: NodeId -> Delivery, w: nat,
                              answer: NodeId -> Answer, faulty: set<NodeId>, strings: set<Bytes>, r: Read)
    requires ValidName(sha(buf))
    requires PutResultOf(c, list, sha(buf), buf, sha, delivery, w).Quorum?
    requires |Unsound(Acks(c, list, sha(buf), buf, sha, delivery), c, sha(buf), sha, faulty)| < w
    requires AnswersFrom(ClusterAfterPut(c, list, sha(buf), buf, sha, delivery), list, sha(buf), sha, answer, faulty)
    requires Chunker.CollisionFree(sha, strings) && buf in strings
    requires forall d :: d in list && answer(d).Payload? ==> answer(d).buf in strings
    requires IsRead(list, sha(buf), answer, sha, r)
    ensures r == Found(buf)
  {
    CollisionFreeMeansNoForgery(list, buf, answer, sha, strings);
    QuorumReadBack(c, list, buf, sha, delivery, w, answer, faulty, r);
  }

  function ListOf(m: Members, l: Layout, hash: Hash, n: nat): seq<NodeId> {
    Prefs(m.ring, l.positionFor(hash), n)
  }

  /** A chunk written with a quorum outlives m membership changes, in any order and with no data moved: while fewer
      than w - m of the acknowledging nodes misbehave or already held a corrupt copy, a read through the changed list
      still returns exactly the bytes written. The ring was reached by any history. */
  lemma {:induction false} ReadSurvivesChurn(history: seq<Change>, cs: seq<Change>, l: Layout, n: nat, w: nat,
                                             h: Hash, list: seq<NodeId>, changed: seq<NodeId>, c: Cluster,
                                             after: Cluster, buf: Bytes, sha: Bytes -> Hash,
                                             delivery: NodeId -> Delivery, acks: set<NodeId>, deduped: bool,
                                             answer: NodeId -> Answer, faulty: set<NodeId>, r: Read)
    requires h == sha(buf) && ValidName(h)
    requires list == ListOf(After(EMPTY, history, l), l, h, n)
    requires changed == ListOf(After(EMPTY, history + cs, l), l, h, n)
    requires after == ClusterAfterPut(c, list, h, buf, sha, delivery)
    requires PutResultOf(c, list, h, buf, sha, delivery, w) == Quorum(acks, deduped)
    requires |Unsound(acks, c, h, sha, faulty)| + |cs| < w
    requires AnswersFrom(after, changed, h, sha, answer, faulty) && NoForgery(changed, buf, answer, sha)
    requires IsRead(changed, h, answer, sha, r)
    ensures r == Found(buf)
  {
    AfterIsWellFormed(EMPTY, history, l);
    AfterAppend(EMPTY, history, cs, l);
    ChurnKeepsReplicas(After(EMPTY, history, l), cs, l, l.positionFor(h), n, acks);
    ReadThroughOtherList(c, list, changed, |cs|, buf, sha, delivery, w, answer, faulty, r);
  }
}
