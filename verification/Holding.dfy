/** Exactly when a run keeps the copies that its versions rest on, and exactly when it keeps live data on a quorum. */
module Holding {
  import opened Types
  import opened ChunkStores
  import opened Placement
  import opened StoreSystem
  import opened Consistency
  import opened Reliance

  // ---------- every acknowledged copy ----------

  /** Every copy that somebody relies on is sound, unless a fault took it. */
  ghost predicate Kept(c: Config, s: State, b: Book) {
    forall r :: r in b.relied ==> r in b.taken || SoundCopy(c, s, r.node, r.hash)
  }

  /** Nobody relies on the copy of h at d any more, except those a fault took it from. */
  ghost predicate Spares(b: Book, d: NodeId, h: Hash) {
    forall r :: r in b.relied && r.node == d && r.hash == h ==> r in b.taken
  }

  /** If event e is a delete that arrives, it spares what is relied on. */
  ghost predicate DeleteSpares(c: Config, s: State, b: Book, e: Event)
    requires c.size > 0
  {
    e.ReplicaDelete? && e.arrived && Enabled(c, s, e) ==> Spares(b, e.d, s.tasks[e.t].queue[0])
  }

  /** The copies other than that of h at d are as they were. */
  ghost predicate OnlyCopy(c: Config, s: State, after: State, d: NodeId, h: Hash) {
    forall n, g :: n != d || g != h ==> (SoundCopy(c, s, n, g) <==> SoundCopy(c, after, n, g))
  }

  lemma PutTouchesOneCopy(c: Config, s: State, e: Event)
    requires c.Valid() && Enabled(c, s, e) && e.ReplicaPut?
    ensures OnlyCopy(c, s, Apply(c, s, e), e.d, Hashes(c, s.tasks[e.t].body)[s.tasks[e.t].next])
    ensures var u := s.tasks[e.t];
            var h, data := Hashes(c, u.body)[u.next], Piece(c, u.body, u.next);
            if e.stored then Apply(c, s, e).disks[e.d] == DiskAfterPut(s.disks[e.d], h, data, c.sha)
            else Apply(c, s, e).disks == s.disks
  {
  }

  lemma PutKeepsKept(c: Config, s: State, b: Book, e: Event)
    requires c.Valid() && Kept(c, s, b) && Enabled(c, s, e) && e.ReplicaPut?
    ensures Kept(c, Apply(c, s, e), NextBook(c, s, b, e))
  {
    var u := s.tasks[e.t];
    var h, data := Hashes(c, u.body)[u.next], Piece(c, u.body, u.next);
    assert c.sha(data) == h && ValidName(c.sha(data));
    PutTouchesOneCopy(c, s, e);
  }

  lemma FaultKeepsKept(c: Config, s: State, b: Book, e: Event)
    requires c.Valid() && Kept(c, s, b) && Enabled(c, s, e) && e.Fault?
    ensures Kept(c, Apply(c, s, e), NextBook(c, s, b, e))
  {
    assert OnlyCopy(c, s, Apply(c, s, e), e.d, e.h);
  }

  lemma CommitKeepsKept(c: Config, s: State, b: Book, e: Event)
    requires c.Valid() && Kept(c, s, b) && Enabled(c, s, e) && e.Commit?
    ensures Kept(c, Apply(c, s, e), NextBook(c, s, b, e))
  {
    var next := NextBook(c, s, b, e);
    forall r | r in next.relied ensures r in next.taken || SoundCopy(c, Apply(c, s, e), r.node, r.hash) {
      HandedMembers(b.relied, e.t, e.v, r);
      HandedMembers(b.taken, e.t, e.v, r);
      if r in Handed(b.relied, e.t, e.v) {
        assert Trust(ByUpload(e.t), r.node, r.hash) in b.relied;
      }
    }
  }

  lemma OtherStepKeepsKept(c: Config, s: State, b: Book, e: Event)
    requires c.Valid() && Kept(c, s, b) && Enabled(c, s, e)
    requires !e.ReplicaPut? && !e.Fault? && !e.Commit? && !(e.ReplicaDelete? && e.arrived)
    ensures Kept(c, Apply(c, s, e), NextBook(c, s, b, e))
  {
    assert Apply(c, s, e).disks == s.disks;
  }

  lemma DeleteKeepsKeptIff(c: Config, s: State, b: Book, e: Event)
    requires c.Valid() && Kept(c, s, b) && Enabled(c, s, e) && e.ReplicaDelete? && e.arrived
    ensures Kept(c, Apply(c, s, e), NextBook(c, s, b, e)) <==> Spares(b, e.d, s.tasks[e.t].queue[0])
  {
    var after, head := Apply(c, s, e), s.tasks[e.t].queue[0];
    assert OnlyCopy(c, s, after, e.d, head) && !SoundCopy(c, after, e.d, head);
  }

  lemma StepKeepsKeptIff(c: Config, s: State, b: Book, e: Event)
    requires c.Valid() && Kept(c, s, b) && Enabled(c, s, e)
    ensures Kept(c, Apply(c, s, e), NextBook(c, s, b, e)) <==> DeleteSpares(c, s, b, e)
  {
    match e
    case ReplicaPut(_, _, _, _) => PutKeepsKept(c, s, b, e);
    case Fault(_, _, _) => FaultKeepsKept(c, s, b, e);
    case Commit(_, _, _) => CommitKeepsKept(c, s, b, e);
    case ReplicaDelete(_, _, arrived) =>
      if arrived {
        DeleteKeepsKeptIff(c, s, b, e);
      } else {
        OtherStepKeepsKept(c, s, b, e);
      }
    case _ => OtherStepKeepsKept(c, s, b, e);
  }

  /** Every delete of the run that arrives hits a copy that nobody relies on. */
  ghost predicate EveryDeleteSpares(c: Config, es: seq<Event>)
    requires c.size > 0
  {
    es == [] ||
    (EveryDeleteSpares(c, es[..|es| - 1]) &&
     (Exec(c, es[..|es| - 1]).Some? ==>
        DeleteSpares(c, Exec(c, es[..|es| - 1]).value, BookOf(c, es[..|es| - 1]), es[|es| - 1])))
  }

  ghost predicate AlwaysKept(c: Config, es: seq<Event>)
    requires c.size > 0
  {
    (Exec(c, es).Some? ==> Kept(c, Exec(c, es).value, BookOf(c, es))) && (es == [] || AlwaysKept(c, es[..|es| - 1]))
  }

  /** In any run, overlapping or not: every acknowledged copy behind a live version or an upload in progress stays
      sound until a fault takes it, exactly when every delete that arrives hits a copy that nobody relies on. */
  lemma {:induction false} AlwaysKeptIff(c: Config, es: seq<Event>)
    requires c.Valid() && Exec(c, es).Some?
    ensures AlwaysKept(c, es) <==> EveryDeleteSpares(c, es)
  {
    if es == [] {
    } else {
      var before := es[..|es| - 1];
      AlwaysKeptIff(c, before);
      if AlwaysKept(c, before) {
        assert Kept(c, Exec(c, before).value, BookOf(c, before));
        StepKeepsKeptIff(c, Exec(c, before).value, BookOf(c, before), es[|es| - 1]);
      }
    }
  }

  // ---------- live data alone ----------

  /** The listed nodes with a sound copy, or from which a fault took a copy that the holder could count on. */
  function Holders(c: Config, s: State, b: Book, holder: Holder, h: Hash): set<NodeId> {
    set d | d in c.lists(h) && (SoundCopy(c, s, d, h) || Trust(holder, d, h) in b.taken)
  }

  /** Every chunk of every live version is on a write quorum, apart from copies that a fault took from that version.
      */
  ghost predicate LiveHeld(c: Config, s: State, b: Book) {
    forall v, h :: v in s.meta.versions && h in s.meta.versions[v].chunks ==> |Holders(c, s, b, ByVersion(v), h)| >= c.w
  }

  /** What is left of the holders once d's copy is deleted. */
  function HoldersBut(c: Config, s: State, b: Book, holder: Holder, h: Hash, d: NodeId): set<NodeId> {
    set n | n in Holders(c, s, b, holder, h) && (n != d || Trust(holder, n, h) in b.taken)
  }

  /** A delete that arrives leaves each live version of its chunk a quorum; a commit finds each of its chunks on one.
      */
  ghost predicate LiveSpares(c: Config, s: State, b: Book, e: Event)
    requires c.size > 0
  {
    match e
    case ReplicaDelete(t, d, arrived) =>
      arrived && Enabled(c, s, e) ==>
        forall v :: v in s.meta.versions && s.tasks[t].queue[0] in s.meta.versions[v].chunks ==>
          |HoldersBut(c, s, b, ByVersion(v), s.tasks[t].queue[0], d)| >= c.w
    case Commit(t, f, v) =>
      Enabled(c, s, e) ==>
        forall h :: h in Hashes(c, s.tasks[t].body) ==> |Holders(c, s, b, ByUpload(t), h)| >= c.w
    case _ => true
  }

  /** A step that changes no version and takes no holder from a live one. */
  lemma LiveStaysHeld(c: Config, s: State, after: State, b: Book, next: Book)
    requires LiveHeld(c, s, b) && after.meta.versions == s.meta.versions
    requires forall v, h :: v in s.meta.versions && h in s.meta.versions[v].chunks ==>
               Holders(c, s, b, ByVersion(v), h) <= Holders(c, after, next, ByVersion(v), h)
    ensures LiveHeld(c, after, next)
  {
    forall v, h | v in s.meta.versions && h in s.meta.versions[v].chunks
      ensures |Holders(c, after, next, ByVersion(v), h)| >= c.w
    {
      SubsetCard(Holders(c, s, b, ByVersion(v), h), Holders(c, after, next, ByVersion(v), h));
    }
  }

  lemma PutKeepsLiveHeld(c: Config, s: State, b: Book, e: Event)
    requires c.Valid() && LiveHeld(c, s, b) && Enabled(c, s, e) && e.ReplicaPut?
    ensures LiveHeld(c, Apply(c, s, e), NextBook(c, s, b, e))
  {
    var after, next, u := Apply(c, s, e), NextBook(c, s, b, e), s.tasks[e.t];
    var h, data := Hashes(c, u.body)[u.next], Piece(c, u.body, u.next);
    assert c.sha(data) == h && ValidName(c.sha(data));
    PutTouchesOneCopy(c, s, e);
    assert SoundCopy(c, s, e.d, h) ==> SoundCopy(c, after, e.d, h);
    assert forall r :: r in b.taken && r !in next.taken ==> SoundCopy(c, after, r.node, r.hash);
    LiveStaysHeld(c, s, after, b, next);
  }

  lemma FaultKeepsLiveHeld(c: Config, s: State, b: Book, e: Event)
    requires c.Valid() && LiveHeld(c, s, b) && Enabled(c, s, e) && e.Fault?
    ensures LiveHeld(c, Apply(c, s, e), NextBook(c, s, b, e))
  {
    var after, next := Apply(c, s, e), NextBook(c, s, b, e);
    assert OnlyCopy(c, s, after, e.d, e.h);
    assert forall r :: r in b.taken && r !in next.taken ==> SoundCopy(c, after, r.node, r.hash);
    forall v, h | v in s.meta.versions && h in s.meta.versions[v].chunks
      ensures Holders(c, s, b, ByVersion(v), h) <= Holders(c, after, next, ByVersion(v), h)
    {
      if SoundCopy(c, s, e.d, e.h) && !SoundCopy(c, after, e.d, e.h) && h == e.h {
        assert Trust(ByVersion(v), e.d, h) in Counting(c, s, b, e.d, h);
      }
    }
    LiveStaysHeld(c, s, after, b, next);
  }

  lemma OtherStepKeepsLiveHeld(c: Config, s: State, b: Book, e: Event)
    requires c.Valid() && LiveHeld(c, s, b) && Enabled(c, s, e)
    requires !e.ReplicaPut? && !e.Fault? && !e.Commit? && !(e.ReplicaDelete? && e.arrived)
    ensures LiveHeld(c, Apply(c, s, e), NextBook(c, s, b, e))
  {
    var after, next := Apply(c, s, e), NextBook(c, s, b, e);
    assert after.disks == s.disks;
    assert forall r :: r in b.taken && r.holder.ByVersion? ==> r in next.taken;
    LiveStaysHeld(c, s, after, b, next);
  }

  lemma DeleteKeepsLiveHeldIff(c: Config, s: State, b: Book, e: Event)
    requires c.Valid() && LiveHeld(c, s, b) && Enabled(c, s, e) && e.ReplicaDelete? && e.arrived
    ensures LiveHeld(c, Apply(c, s, e), NextBook(c, s, b, e)) <==> LiveSpares(c, s, b, e)
  {
    var after, head := Apply(c, s, e), s.tasks[e.t].queue[0];
    assert OnlyCopy(c, s, after, e.d, head) && !SoundCopy(c, after, e.d, head);
    forall holder, h
      ensures Holders(c, after, b, holder, h)
           == if h == head then HoldersBut(c, s, b, holder, h, e.d) else Holders(c, s, b, holder, h)
    {
    }
  }

  /** A commit turns what its upload holds into what the version holds, and changes nothing for the others. */
  lemma CommitHolders(c: Config, s: State, b: Book, e: Event, v: VersionId, h: Hash)
    requires c.Valid() && Consistent(s) && Grounded(c, s, b) && Enabled(c, s, e) && e.Commit?
    requires v in Apply(c, s, e).meta.versions
    ensures Holders(c, Apply(c, s, e), NextBook(c, s, b, e), ByVersion(v), h)
         == Holders(c, s, b, if v == e.v then ByUpload(e.t) else ByVersion(v), h)
  {
    CommitEffect(c, s, e.t, e.f, e.v);
    var next := NextBook(c, s, b, e);
    var was := if v == e.v then ByUpload(e.t) else ByVersion(v);
    forall d ensures Trust(ByVersion(v), d, h) in next.taken <==> Trust(was, d, h) in b.taken {
      HandedMembers(b.taken, e.t, e.v, Trust(ByVersion(v), d, h));
      assert Trust(ByVersion(e.v), d, h) in b.taken ==> RealHolder(c, s, Trust(ByVersion(e.v), d, h));
    }
  }

  lemma CommitKeepsLiveHeldIff(c: Config, s: State, b: Book, e: Event)
    requires c.Valid() && Consistent(s) && Grounded(c, s, b) && LiveHeld(c, s, b) && Enabled(c, s, e) && e.Commit?
    ensures LiveHeld(c, Apply(c, s, e), NextBook(c, s, b, e)) <==> LiveSpares(c, s, b, e)
  {
    var after, next, hashes := Apply(c, s, e), NextBook(c, s, b, e), Hashes(c, s.tasks[e.t].body);
    CommitEffect(c, s, e.t, e.f, e.v);
    forall v, h | v in after.meta.versions && h in after.meta.versions[v].chunks
      ensures Holders(c, after, next, ByVersion(v), h)
           == Holders(c, s, b, if v == e.v then ByUpload(e.t) else ByVersion(v), h)
      ensures v != e.v ==> |Holders(c, after, next, ByVersion(v), h)| >= c.w
    {
      CommitHolders(c, s, b, e, v, h);
    }
    assert e.v in after.meta.versions && after.meta.versions[e.v].chunks == hashes;
  }

  lemma StepKeepsLiveHeldIff(c: Config, s: State, b: Book, e: Event)
    requires c.Valid() && Consistent(s) && Grounded(c, s, b) && LiveHeld(c, s, b) && Enabled(c, s, e)
    ensures LiveHeld(c, Apply(c, s, e), NextBook(c, s, b, e)) <==> LiveSpares(c, s, b, e)
  {
    match e
    case ReplicaPut(_, _, _, _) => PutKeepsLiveHeld(c, s, b, e);
    case Fault(_, _, _) => FaultKeepsLiveHeld(c, s, b, e);
    case Commit(_, _, _) => CommitKeepsLiveHeldIff(c, s, b, e);
    case ReplicaDelete(_, _, arrived) =>
      if arrived {
        DeleteKeepsLiveHeldIff(c, s, b, e);
      } else {
        OtherStepKeepsLiveHeld(c, s, b, e);
      }
    case _ => OtherStepKeepsLiveHeld(c, s, b, e);
  }

  ghost predicate EveryStepSparesLive(c: Config, es: seq<Event>)
    requires c.size > 0
  {
    es == [] ||
    (EveryStepSparesLive(c, es[..|es| - 1]) &&
     (Exec(c, es[..|es| - 1]).Some? ==>
        LiveSpares(c, Exec(c, es[..|es| - 1]).value, BookOf(c, es[..|es| - 1]), es[|es| - 1])))
  }

  ghost predicate AlwaysLiveHeld(c: Config, es: seq<Event>)
    requires c.size > 0
  {
    && (Exec(c, es).Some? ==> LiveHeld(c, Exec(c, es).value, BookOf(c, es)))
    && (es == [] || AlwaysLiveHeld(c, es[..|es| - 1]))
  }

  /** In any run, overlapping or not: live data is on its quorum throughout, apart from copies that a fault took,
      exactly when every delete that arrives leaves each live version of its chunk a quorum and every commit finds
      each of its chunks on one. */
  lemma {:induction false} AlwaysLiveHeldIff(c: Config, es: seq<Event>)
    requires c.Valid() && Exec(c, es).Some?
    ensures AlwaysLiveHeld(c, es) <==> EveryStepSparesLive(c, es)
  {
    if es == [] {
    } else {
      var before := es[..|es| - 1];
      AlwaysLiveHeldIff(c, before);
      RunsAreConsistent(c, before);
      VersionsAreBacked(c, before);
      if AlwaysLiveHeld(c, before) {
        assert LiveHeld(c, Exec(c, before).value, BookOf(c, before));
        StepKeepsLiveHeldIff(c, Exec(c, before).value, BookOf(c, before), es[|es| - 1]);
      }
    }
  }

  // ---------- the first condition is the stronger one ----------

  /** If every acknowledged copy is kept, live data is on its quorum. */
  lemma KeptMeansLiveHeld(c: Config, s: State, b: Book)
    requires c.size > 0 && Grounded(c, s, b) && Backed(c, s, b) && Kept(c, s, b)
    ensures LiveHeld(c, s, b)
  {
    forall v, h | v in s.meta.versions && h in s.meta.versions[v].chunks
      ensures |Holders(c, s, b, ByVersion(v), h)| >= c.w
    {
      assert VersionBacked(c, b, v, s.meta.versions[v]);
      forall d | d in Relying(b, ByVersion(v), h) ensures d in Holders(c, s, b, ByVersion(v), h) {
        RelyingMembers(b, ByVersion(v), h, d);
      }
      SubsetCard(Relying(b, ByVersion(v), h), Holders(c, s, b, ByVersion(v), h));
    }
  }

  lemma {:induction false} SparingDeletesKeepLiveHeld(c: Config, es: seq<Event>)
    requires c.Valid() && Exec(c, es).Some? && EveryDeleteSpares(c, es)
    ensures AlwaysLiveHeld(c, es)
  {
    AlwaysKeptIff(c, es);
    VersionsAreBacked(c, es);
    KeptMeansLiveHeld(c, Exec(c, es).value, BookOf(c, es));
    if es == [] {
    } else {
      SparingDeletesKeepLiveHeld(c, es[..|es| - 1]);
    }
  }

  // ---------- faults are what takes copies ----------

  ghost predicate AllSound(c: Config, s: State) {
    forall d, h :: d in s.disks && h in s.disks[d] ==> c.sha(s.disks[d][h]) == h
  }

  lemma PutTakesNothing(c: Config, s: State, b: Book, e: Event)
    requires c.Valid() && AllSound(c, s) && b.taken == {} && Enabled(c, s, e) && e.ReplicaPut?
    ensures AllSound(c, Apply(c, s, e)) && NextBook(c, s, b, e).taken == {}
  {
    var u := s.tasks[e.t];
    assert ValidName(c.sha(Piece(c, u.body, u.next)));
  }

  lemma StepTakesNothing(c: Config, s: State, b: Book, e: Event)
    requires c.Valid() && AllSound(c, s) && b.taken == {} && Enabled(c, s, e) && !e.Fault?
    ensures AllSound(c, Apply(c, s, e)) && NextBook(c, s, b, e).taken == {}
  {
    if e.ReplicaPut? {
      PutTakesNothing(c, s, b, e);
    } else if e.ReplicaDelete? {
      assert NextBook(c, s, b, e) == b;
    } else {
      assert Apply(c, s, e).disks == s.disks;
    }
  }

  /** While no fault occurs nothing is taken from anybody, and every stored file is sound. */
  lemma {:induction false} NothingTakenWithoutFaults(c: Config, es: seq<Event>, k: nat)
    requires c.Valid() && Exec(c, es).Some? && k <= |es| && Exec(c, es[..k]).Some?
    requires AllSound(c, Exec(c, es[..k]).value) && BookOf(c, es[..k]).taken == {}
    requires forall j :: k <= j < |es| ==> !es[j].Fault?
    ensures AllSound(c, Exec(c, es).value) && BookOf(c, es).taken == {}
  {
    if k == |es| {
      assert es[..k] == es;
    } else {
      var before := es[..|es| - 1];
      assert before[..k] == es[..k];
      NothingTakenWithoutFaults(c, before, k);
      StepTakesNothing(c, Exec(c, before).value, BookOf(c, before), es[|es| - 1]);
    }
  }
}
