/** Which nodes a history of additions and removals leaves on the ring, and what each change does to the lists. */
module Histories {
  import opened Types
  import opened Seqs
  import opened RingSpec
  import opened Placement

  /** The last change that concerns x added it. */
  ghost predicate AddedLast(cs: seq<Change>, x: NodeId) {
    exists i :: 0 <= i < |cs| && cs[i] == Add(x) && forall j :: i < j < |cs| ==> cs[j] != Remove(x)
  }

  /** The ring that a history builds from nothing. */
  function RingAfter(cs: seq<Change>, l: Layout): Ring {
    After(EMPTY, cs, l).ring
  }

  lemma AddedLastNext(cs: seq<Change>, e: Change, x: NodeId)
    ensures AddedLast(cs + [e], x) <==> e == Add(x) || (AddedLast(cs, x) && e != Remove(x))
  {
    var all := cs + [e];
    if e == Add(x) {
      assert all[|cs|] == Add(x);
    } else if AddedLast(cs, x) && e != Remove(x) {
      var i :| 0 <= i < |cs| && cs[i] == Add(x) && forall j :: i < j < |cs| ==> cs[j] != Remove(x);
      assert all[i] == Add(x);
    }
    if AddedLast(all, x) && e != Add(x) {
      var i :| 0 <= i < |all| && all[i] == Add(x) && forall j :: i < j < |all| ==> all[j] != Remove(x);
      assert cs[i] == Add(x) && all[|cs|] == e;
      assert forall j :: i < j < |cs| ==> cs[j] == all[j];
    }
  }

  /** The members after a history are exactly the nodes whose last change was an addition. */
  lemma {:induction false} MembersAreAddedLast(cs: seq<Change>, l: Layout, x: NodeId)
    ensures x in After(EMPTY, cs, l).nodes <==> AddedLast(cs, x)
  {
    if cs == [] {
    } else {
      var before, e := cs[..|cs| - 1], cs[|cs| - 1];
      MembersAreAddedLast(before, l, x);
      AddedLastNext(before, e, x);
      assert before + [e] == cs;
    }
  }

  lemma EveryMemberHasPoints(m: Members, l: Layout)
    requires WellFormed(m, l) && l.vnodesPerNode > 0
    ensures NodesOn(m.ring) == m.nodes
  {
    forall x | x in m.nodes ensures x in NodesOn(m.ring) {
      var points := l.Points(x);
      SortMembers(points);
      FilterMembers(m.ring, Of(x));
      assert points[0] in StableSort(points);
      assert points[0] in m.ring;
    }
  }

  lemma NoPointsNoEntries(m: Members, l: Layout)
    requires WellFormed(m, l) && l.vnodesPerNode == 0
    ensures m.ring == []
  {
    if m.ring != [] {
      FilterMembers(m.ring, Of(m.ring[0].nodeId));
    }
  }

  /** The ring has entries of exactly these nodes, and preference lists name no other; removed nodes are nowhere. */
  lemma RingNamesMembers(cs: seq<Change>, l: Layout, p: Position, n: nat, x: NodeId)
    ensures x in NodesOn(RingAfter(cs, l)) <==> AddedLast(cs, x) && l.vnodesPerNode > 0
    ensures x in Prefs(RingAfter(cs, l), p, n) ==> AddedLast(cs, x)
    ensures AddedLast(cs, x) && l.vnodesPerNode > 0 && n >= |After(EMPTY, cs, l).nodes| ==>
              x in Prefs(RingAfter(cs, l), p, n)
  {
    var m := After(EMPTY, cs, l);
    AfterIsWellFormed(EMPTY, cs, l);
    MembersAreAddedLast(cs, l, x);
    if l.vnodesPerNode > 0 {
      EveryMemberHasPoints(m, l);
    } else {
      NoPointsNoEntries(m, l);
    }
    ListedAreOnRing(m.ring, p, n);
  }

  lemma ListedAreOnRing(r: Ring, p: Position, n: nat)
    ensures Elems(Prefs(r, p, n)) <= NodesOn(r)
    ensures n >= |NodesOn(r)| ==> Elems(Prefs(r, p, n)) == NodesOn(r)
  {
    var d := Distinct(Clockwise(r, p));
    DistinctMembers(Clockwise(r, p));
    ClockwiseMembers(r, p);
    NoDupCard(d);
    assert NodesOn(Clockwise(r, p)) == NodesOn(r);
    forall x | x in Prefs(r, p, n) ensures x in NodesOn(r) {
      assert x in Elems(d);
    }
  }

  lemma OneMoreChange(cs: seq<Change>, e: Change, l: Layout)
    ensures After(EMPTY, cs + [e], l) == Step(After(EMPTY, cs, l), e, l)
  {
    assert (cs + [e])[..|cs|] == cs;
  }

  lemma WithoutStranger(m: Members, l: Layout, x: NodeId)
    requires WellFormed(m, l) && x !in m.nodes
    ensures Without(m.ring, x) == m.ring
  {
    FilterAll(m.ring, NotOf(x));
  }

  /** After a history that ends with the removal of x, no entry and no list names x, the other entries stand as they
      did, and each list is the one-longer list without x, cut to length. */
  lemma RemovalAfterHistory(cs: seq<Change>, l: Layout, x: NodeId, p: Position, n: nat)
    ensures var was, now := RingAfter(cs, l), RingAfter(cs + [Remove(x)], l);
            && x !in NodesOn(now) && x !in Prefs(now, p, n)
            && now == Filter(was, NotOf(x))
            && Prefs(now, p, n) == Take(Filter(Prefs(was, p, n + 1), Other(x)), n)
            && (x !in Prefs(was, p, n) ==> Prefs(now, p, n) == Prefs(was, p, n))
  {
    AddedLastNext(cs, Remove(x), x);
    RingNamesMembers(cs + [Remove(x)], l, p, n, x);
    OneMoreChange(cs, Remove(x), l);
    AfterIsWellFormed(EMPTY, cs, l);
    if x !in After(EMPTY, cs, l).nodes {
      WithoutStranger(After(EMPTY, cs, l), l, x);
    }
    RemovalShiftsList(RingAfter(cs, l), x, p, n);
  }

  /** Adding a node that is not a member and removing it again restores the array exactly. */
  lemma AddThenRemoveRestores(cs: seq<Change>, l: Layout, x: NodeId)
    requires !AddedLast(cs, x)
    ensures After(EMPTY, cs + [Add(x), Remove(x)], l) == After(EMPTY, cs, l)
  {
    var m := After(EMPTY, cs, l);
    MembersAreAddedLast(cs, l, x);
    AfterIsWellFormed(EMPTY, cs, l);
    OneMoreChange(cs, Add(x), l);
    OneMoreChange(cs + [Add(x)], Remove(x), l);
    assert cs + [Add(x)] + [Remove(x)] == cs + [Add(x), Remove(x)];
    RemoveUndoesAdd(m.ring, x, l.Points(x));
    assert m.nodes + {x} - {x} == m.nodes;
  }

  /** Adding a member changes nothing; adding another node leaves a list alone or slips the node in at one place, and
      a list with room takes it. */
  lemma AdditionAfterHistory(cs: seq<Change>, l: Layout, x: NodeId, p: Position, n: nat)
    ensures AddedLast(cs, x) ==> RingAfter(cs + [Add(x)], l) == RingAfter(cs, l)
    ensures var list, base := Prefs(RingAfter(cs + [Add(x)], l), p, n), Prefs(RingAfter(cs, l), p, n);
            !AddedLast(cs, x) ==>
              && (x !in list ==> list == base)
              && (x in list ==> exists i :: InsertedAt(list, base, x, i, n))
              && (|base| < n && l.vnodesPerNode > 0 ==> x in list)
  {
    var m := After(EMPTY, cs, l);
    MembersAreAddedLast(cs, l, x);
    AfterIsWellFormed(EMPTY, cs, l);
    OneMoreChange(cs, Add(x), l);
    if !AddedLast(cs, x) {
      AdditionInsertsNode(m.ring, x, l.Points(x), p, n);
      if |Prefs(m.ring, p, n)| < n && l.vnodesPerNode > 0 {
        AdditionFillsRoom(m.ring, x, l.Points(x), p, n);
      }
    }
  }
}
