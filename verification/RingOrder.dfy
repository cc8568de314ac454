/** The ring depends on which nodes are members, not on how they arrived, exactly when nodes share no position. */
module RingOrder {
  import opened Types
  import opened Seqs
  import opened RingSpec
  import opened Placement

  /** No point of x lies on a point of y. */
  predicate Apart(x: NodeId, y: NodeId, l: Layout) {
    forall v, w :: v in l.Points(x) && w in l.Points(y) ==> v.position != w.position
  }

  predicate NoCrossTies(nodes: set<NodeId>, l: Layout) {
    forall x, y :: x in nodes && y in nodes && x != y ==> Apart(x, y, l)
  }

  lemma OwnEntryIsPoint(m: Members, l: Layout, v: VNode)
    requires WellFormed(m, l) && v in m.ring
    ensures v in l.Points(v.nodeId)
  {
    FilterMembers(m.ring, Of(v.nodeId));
    SortMembers(l.Points(v.nodeId));
  }

  /** The first entry of one ring occurs in any ring with the same subsequence for every node. */
  lemma HeadOccurs(a: Ring, b: Ring)
    requires a != []
    requires forall x :: Filter(a, Of(x)) == Filter(b, Of(x))
    ensures a[0] in b
  {
    var x := a[0].nodeId;
    HeadOfFilter(a, Of(x));
    FilterMembers(b, Of(x));
    assert a[0] in Filter(b, Of(x));
  }

  /** Two sorted rings with the same subsequence for every node, and no ties across nodes, are equal. */
  lemma {:induction false} SameSubsequencesSameRing(a: Ring, b: Ring)
    requires Sorted(a) && Sorted(b)
    requires forall x :: Filter(a, Of(x)) == Filter(b, Of(x))
    requires forall v, w :: v in a && w in a && v.nodeId != w.nodeId ==> v.position != w.position
    ensures a == b
  {
    if a == [] {
      if b != [] {
        HeadOccurs(b, a);
      }
    } else {
      HeadOccurs(a, b);
      HeadOccurs(b, a);
      var x, y := a[0].nodeId, b[0].nodeId;
      assert a[0].position == b[0].position;
      assert x == y;
      HeadOfFilter(a, Of(x));
      HeadOfFilter(b, Of(x));
      forall z ensures Filter(a[1..], Of(z)) == Filter(b[1..], Of(z)) {
        if z != x {
          TailOfFilter(a, Of(z));
          TailOfFilter(b, Of(z));
        }
      }
      SameSubsequencesSameRing(a[1..], b[1..]);
    }
  }

  lemma MembersDetermineRing(a: Members, b: Members, l: Layout)
    requires WellFormed(a, l) && WellFormed(b, l) && a.nodes == b.nodes
    requires NoCrossTies(a.nodes, l)
    ensures a.ring == b.ring
  {
    forall v, w | v in a.ring && w in a.ring && v.nodeId != w.nodeId ensures v.position != w.position {
      OwnEntryIsPoint(a, l, v);
      OwnEntryIsPoint(a, l, w);
      assert Apart(v.nodeId, w.nodeId, l);
    }
    forall x ensures Filter(a.ring, Of(x)) == Filter(b.ring, Of(x)) {
      if x !in a.nodes {
        FilterNone(a.ring, Of(x));
        FilterNone(b.ring, Of(x));
      }
    }
    SameSubsequencesSameRing(a.ring, b.ring);
  }

  /** A position shared by two nodes lists them in order of arrival. */
  lemma TieShowsArrival(x: NodeId, y: NodeId, l: Layout, p: Position)
    requires x != y
    ensures Filter(After(EMPTY, [Add(x), Add(y)], l).ring, At(p))
         == Filter(l.Points(x), At(p)) + Filter(l.Points(y), At(p))
  {
    var cs := [Add(x), Add(y)];
    assert cs[..1] == [Add(x)];
    assert [Add(x)][..0] == [];
    var px, py := l.Points(x), l.Points(y);
    assert [] + px == px;
    assert After(EMPTY, [Add(x)], l) == Members(StableSort(px), {x});
    assert After(EMPTY, cs, l).ring == StableSort(StableSort(px) + py);
    SortIsStable(StableSort(px) + py, p);
    FilterAppend(StableSort(px), py, At(p));
    SortIsStable(px, p);
  }

  lemma TiedNodesRememberOrder(x: NodeId, y: NodeId, l: Layout)
    requires x != y && !Apart(x, y, l)
    ensures After(EMPTY, [Add(x), Add(y)], l).ring != After(EMPTY, [Add(y), Add(x)], l).ring
  {
    var v, w :| v in l.Points(x) && w in l.Points(y) && v.position == w.position;
    var p := v.position;
    TieShowsArrival(x, y, l, p);
    TieShowsArrival(y, x, l, p);
    FilterMembers(l.Points(x), At(p));
    FilterMembers(l.Points(y), At(p));
    var fx, fy := Filter(l.Points(x), At(p)), Filter(l.Points(y), At(p));
    assert v in fx && w in fy;
    assert (fx + fy)[0] == fx[0] && fx[0] in fx;
    assert (fy + fx)[0] == fy[0] && fy[0] in fy;
  }

  lemma TwoAdds(x: NodeId, y: NodeId, l: Layout)
    requires x != y
    ensures After(EMPTY, [Add(x), Add(y)], l).nodes == {x, y}
  {
    assert [Add(x), Add(y)][..1] == [Add(x)];
    assert [Add(x)][..0] == [];
    assert After(EMPTY, [], l) == EMPTY;
    assert After(EMPTY, [Add(x)], l) == Step(EMPTY, Add(x), l);
    assert {} + {x} == {x};
  }

  ghost predicate HistoryFree(nodes: set<NodeId>, l: Layout) {
    forall h, k :: After(EMPTY, h, l).nodes == After(EMPTY, k, l).nodes <= nodes
                   ==> After(EMPTY, h, l).ring == After(EMPTY, k, l).ring
  }

  /** Among a set of nodes, every two histories of adds and removes that end with the same members build the same
      array if and only if no two of the nodes share a position. */
  lemma HistoryFreeIffNoCrossTies(nodes: set<NodeId>, l: Layout)
    ensures HistoryFree(nodes, l) <==> NoCrossTies(nodes, l)
  {
    if NoCrossTies(nodes, l) {
      forall h, k | After(EMPTY, h, l).nodes == After(EMPTY, k, l).nodes <= nodes
        ensures After(EMPTY, h, l).ring == After(EMPTY, k, l).ring
      {
        AfterIsWellFormed(EMPTY, h, l);
        AfterIsWellFormed(EMPTY, k, l);
        MembersDetermineRing(After(EMPTY, h, l), After(EMPTY, k, l), l);
      }
    } else {
      var x, y :| x in nodes && y in nodes && x != y && !Apart(x, y, l);
      TiedNodesRememberOrder(x, y, l);
      TwoAdds(x, y, l);
      TwoAdds(y, x, l);
    }
  }
}
