/** The consistent-hash ring as a value: what the HashRing class computes, and what that computation guarantees. */
module RingSpec {
  import opened Types
  import opened Seqs

  const RING_SIZE: nat := 0x1_0000_0000

  type Position = p: nat | p < RING_SIZE

  datatype VNode = VNode(position: Position, nodeId: NodeId)

  type Ring = seq<VNode>

  predicate Sorted(r: Ring) {
    forall i, j :: 0 <= i < j < |r| ==> r[i].position <= r[j].position
  }

  // ---------- virtual nodes ----------

  function Decimal(n: nat): string {
    if n < 10 then ["0123456789"[n]] else Decimal(n / 10) + ["0123456789"[n % 10]]
  }

  function VNodeKey(x: NodeId, i: nat): string {
    x + "#vnode" + Decimal(i)
  }

  /** The points a node contributes, in the order addNode pushes them. */
  function VNodes(x: NodeId, count: nat, positionFor: string -> Position): (r: Ring)
    ensures |r| == count
    ensures forall v :: v in r ==> v.nodeId == x
  {
    if count == 0 then []
    else VNodes(x, count - 1, positionFor) + [VNode(positionFor(VNodeKey(x, count - 1)), x)]
  }

  /** The number that a string of digits spells. */
  function Value(s: string): nat {
    if s == "" then 0 else 10 * Value(s[..|s| - 1]) + Digit(s[|s| - 1])
  }

  function Digit(c: char): nat {
    if '0' <= c <= '9' then (c - '0') as nat else 0
  }

  /** The spelling is made of digits, does not begin with a zero unless it is "0", and reads back as the number. */
  lemma {:induction false} DecimalReadsBack(n: nat)
    ensures Value(Decimal(n)) == n
    ensures Decimal(n) != "" && (Decimal(n)[0] == '0' ==> Decimal(n) == "0")
    ensures forall c :: c in Decimal(n) ==> '0' <= c <= '9'
  {
    if n < 10 {
      assert Decimal(n)[..0] == "" && Value("") == 0;
    } else {
      var s := Decimal(n);
      DecimalReadsBack(n / 10);
      assert s[..|s| - 1] == Decimal(n / 10);
      assert "0"[..0] == "" && Value("0") == 0;
      assert Decimal(n / 10)[0] == s[0];
    }
  }

  /** No two points of a node are hashed from the same key. */
  lemma KeysAreDistinct(x: NodeId, i: nat, j: nat)
    requires VNodeKey(x, i) == VNodeKey(x, j)
    ensures i == j
  {
    var prefix := x + "#vnode";
    assert Decimal(i) == VNodeKey(x, i)[|prefix|..];
    assert Decimal(j) == VNodeKey(x, j)[|prefix|..];
    DecimalReadsBack(i);
    DecimalReadsBack(j);
  }

  /** Point i of a node lies at the hash of the node's name, "#vnode" and the spelling of i. */
  lemma {:induction false} PointAt(x: NodeId, count: nat, positionFor: string -> Position, i: nat)
    requires i < count
    ensures VNodes(x, count, positionFor)[i] == VNode(positionFor(x + "#vnode" + Decimal(i)), x)
  {
    if i < count - 1 {
      PointAt(x, count - 1, positionFor, i);
    }
  }

  // ---------- the stable sort ----------

  /** Insertion after every entry that is not strictly later. */
  function Insert(r: Ring, e: VNode): (s: Ring)
  {
    if r == [] || r[|r| - 1].position <= e.position then r + [e]
    else Insert(r[..|r| - 1], e) + [r[|r| - 1]]
  }

  function StableSort(s: Ring): (r: Ring) {
    if s == [] then [] else Insert(StableSort(s[..|s| - 1]), s[|s| - 1])
  }

  function At(p: Position): VNode -> bool {
    (v: VNode) => v.position == p
  }

  lemma {:induction false} InsertSorted(r: Ring, e: VNode)
    requires Sorted(r)
    ensures Sorted(Insert(r, e))
  {
    if r == [] || r[|r| - 1].position <= e.position {
    } else {
      var t, l := r[..|r| - 1], r[|r| - 1];
      InsertSorted(t, e);
      InsertMembers(t, e);
      var s := Insert(t, e);
      forall i | 0 <= i < |s| ensures s[i].position <= l.position {
        assert s[i] in s;
      }
    }
  }

  lemma {:induction false} InsertPermutes(r: Ring, e: VNode)
    ensures multiset(Insert(r, e)) == multiset(r) + multiset{e}
  {
    if r == [] || r[|r| - 1].position <= e.position {
    } else {
      InsertPermutes(r[..|r| - 1], e);
      assert r == r[..|r| - 1] + [r[|r| - 1]];
    }
  }

  lemma {:induction false} InsertMembers(r: Ring, e: VNode)
    ensures forall v :: v in Insert(r, e) <==> v in r || v == e
  {
    if r == [] || r[|r| - 1].position <= e.position {
    } else {
      InsertMembers(r[..|r| - 1], e);
      assert r == r[..|r| - 1] + [r[|r| - 1]];
    }
  }

  lemma InsertAtEnd(r: Ring, e: VNode)
    requires forall v :: v in r ==> v.position <= e.position
    ensures Insert(r, e) == r + [e]
  {
    assert r != [] ==> r[|r| - 1] in r;
  }

  lemma InsertBeforeEnd(t: Ring, l: VNode, e: VNode)
    requires l.position > e.position
    ensures Insert(t + [l], e) == Insert(t, e) + [l]
  {
    assert (t + [l])[..|t|] == t;
  }

  /** Filtering after an insertion is inserting into the filtered ring. */
  lemma {:induction false} FilterInsert(r: Ring, e: VNode, f: VNode -> bool)
    requires Sorted(r)
    ensures Filter(Insert(r, e), f) == if f(e) then Insert(Filter(r, f), e) else Filter(r, f)
  {
    if r == [] || r[|r| - 1].position <= e.position {
      FilterMembers(r, f);
      FilterSnoc(r, e, f);
      InsertAtEnd(Filter(r, f), e);
    } else {
      var t, l := r[..|r| - 1], r[|r| - 1];
      FilterInsert(t, e, f);
      FilterSnoc(Insert(t, e), l, f);
      if f(l) {
        InsertBeforeEnd(Filter(t, f), l, e);
      }
    }
  }

  lemma {:induction false} SortIsSorted(s: Ring)
    ensures Sorted(StableSort(s))
  {
    if s == [] {
    } else {
      SortIsSorted(s[..|s| - 1]);
      InsertSorted(StableSort(s[..|s| - 1]), s[|s| - 1]);
    }
  }

  lemma {:induction false} SortPermutes(s: Ring)
    ensures multiset(StableSort(s)) == multiset(s)
  {
    if s == [] {
    } else {
      SortPermutes(s[..|s| - 1]);
      InsertPermutes(StableSort(s[..|s| - 1]), s[|s| - 1]);
      assert s == s[..|s| - 1] + [s[|s| - 1]];
    }
  }

  lemma SortMembers(s: Ring)
    ensures forall v :: v in StableSort(s) <==> v in s
  {
    SortPermutes(s);
    forall v ensures v in StableSort(s) <==> v in s {
      assert v in StableSort(s) <==> v in multiset(StableSort(s));
      assert v in s <==> v in multiset(s);
    }
  }

  lemma {:induction false} FilterSort(s: Ring, f: VNode -> bool)
    ensures Filter(StableSort(s), f) == StableSort(Filter(s, f))
  {
    if s == [] {
    } else {
      var t, e := s[..|s| - 1], s[|s| - 1];
      FilterSort(t, f);
      SortIsSorted(t);
      FilterInsert(StableSort(t), e, f);
      if f(e) {
        assert (Filter(t, f) + [e])[..|Filter(t, f) + [e]| - 1] == Filter(t, f);
      }
    }
  }

  lemma {:induction false} SortOfSorted(s: Ring)
    requires Sorted(s)
    ensures StableSort(s) == s
  {
    if s == [] {
    } else {
      var t, e := s[..|s| - 1], s[|s| - 1];
      SortOfSorted(t);
      assert t == [] || t[|t| - 1].position <= e.position;
      assert s == t + [e];
    }
  }

  /** Sorting keeps the order of entries that share a position. */
  lemma SortIsStable(s: Ring, p: Position)
    ensures Filter(StableSort(s), At(p)) == Filter(s, At(p))
  {
    FilterSort(s, At(p));
    var same := Filter(s, At(p));
    FilterMembers(s, At(p));
    forall i | 0 <= i < |same| ensures same[i].position == p {
      assert same[i] in same;
    }
    SortOfSorted(same);
  }

  lemma HeadOfFilter(s: Ring, f: VNode -> bool)
    requires s != [] && f(s[0])
    ensures Filter(s, f) != [] && Filter(s, f)[0] == s[0]
    ensures Filter(s, f)[1..] == Filter(s[1..], f)
  {
    assert s == [s[0]] + s[1..];
    FilterAppend([s[0]], s[1..], f);
    FilterSingle(s[0], f);
  }

  lemma TailOfFilter(s: Ring, f: VNode -> bool)
    requires s != [] && !f(s[0])
    ensures Filter(s, f) == Filter(s[1..], f)
  {
    assert s == [s[0]] + s[1..];
    FilterAppend([s[0]], s[1..], f);
    FilterSingle(s[0], f);
  }

  /** Being sorted and stable leaves only one result: any stable sort is this one. */
  lemma {:induction false} StableSortIsUnique(a: Ring, b: Ring)
    requires Sorted(a) && Sorted(b)
    requires forall p: Position :: Filter(a, At(p)) == Filter(b, At(p))
    ensures a == b
    decreases |a|
  {
    if a == [] {
      if b != [] {
        assert Filter(a, At(b[0].position)) == [];
        HeadOfFilter(b, At(b[0].position));
      }
    } else {
      var p := a[0].position;
      HeadOfFilter(a, At(p));
      FilterMembers(b, At(p));
      assert a[0] in Filter(b, At(p));
      var q := b[0].position;
      HeadOfFilter(b, At(q));
      FilterMembers(a, At(q));
      assert b[0] in Filter(a, At(q));
      assert p == q;
      forall o: Position ensures Filter(a[1..], At(o)) == Filter(b[1..], At(o)) {
        if o == p {
        } else {
          TailOfFilter(a, At(o));
          TailOfFilter(b, At(o));
        }
      }
      StableSortIsUnique(a[1..], b[1..]);
    }
  }
}
