/** Vocabulary shared by every component of the object store. */
module Types {
  newtype Byte = x: int | 0 <= x < 256

  type Bytes = seq<Byte>

  /** A chunk's name: the hexadecimal SHA-256 digest of its contents. */
  type Hash = string

  type NodeId = string

  type FileId = string

  type VersionId = string

  datatype Option<+T> = None | Some(value: T)
}

/** Sequences: filtering, duplicate-freedom and prefixes. */
module Seqs {
  function Filter<T>(s: seq<T>, f: T -> bool): (r: seq<T>)
  {
    if s == [] then []
    else if f(s[|s| - 1]) then Filter(s[..|s| - 1], f) + [s[|s| - 1]]
    else Filter(s[..|s| - 1], f)
  }

  predicate NoDup<T(==)>(s: seq<T>) {
    forall i, j :: 0 <= i < j < |s| ==> s[i] != s[j]
  }

  function Take<T>(s: seq<T>, n: nat): (r: seq<T>) {
    if n < |s| then s[..n] else s
  }

  function Elems<T(==)>(s: seq<T>): (r: set<T>) {
    set x | x in s
  }

  lemma FilterSnoc<T>(s: seq<T>, e: T, f: T -> bool)
    ensures Filter(s + [e], f) == if f(e) then Filter(s, f) + [e] else Filter(s, f)
  {
    assert (s + [e])[..|s|] == s;
  }

  lemma {:induction false} FilterAppend<T>(a: seq<T>, b: seq<T>, f: T -> bool)
    ensures Filter(a + b, f) == Filter(a, f) + Filter(b, f)
  {
    if b == [] {
      assert a + b == a;
    } else {
      FilterAppend(a, b[..|b| - 1], f);
      assert (a + b)[..|a + b| - 1] == a + b[..|b| - 1];
    }
  }

  lemma {:induction false} FilterMembers<T>(s: seq<T>, f: T -> bool)
    ensures forall x :: x in Filter(s, f) <==> x in s && f(x)
  {
    if s == [] {
    } else {
      FilterMembers(s[..|s| - 1], f);
      assert s == s[..|s| - 1] + [s[|s| - 1]];
    }
  }

  lemma {:induction false} FilterAll<T>(s: seq<T>, f: T -> bool)
    requires forall x :: x in s ==> f(x)
    ensures Filter(s, f) == s
  {
    if s == [] {
    } else {
      FilterAll(s[..|s| - 1], f);
      assert s == s[..|s| - 1] + [s[|s| - 1]];
    }
  }

  lemma {:induction false} FilterNone<T>(s: seq<T>, f: T -> bool)
    requires forall x :: x in s ==> !f(x)
    ensures Filter(s, f) == []
  {
    if s == [] {
    } else {
      FilterNone(s[..|s| - 1], f);
    }
  }

  lemma {:induction false} FilterCommutes<T>(s: seq<T>, f: T -> bool, g: T -> bool)
    ensures Filter(Filter(s, f), g) == Filter(Filter(s, g), f)
  {
    if s == [] {
    } else {
      var t, e := s[..|s| - 1], s[|s| - 1];
      FilterCommutes(t, f, g);
      FilterSnoc(Filter(t, f), e, g);
      FilterSnoc(Filter(t, g), e, f);
    }
  }

  lemma FilterSingle<T>(e: T, f: T -> bool)
    ensures Filter([e], f) == if f(e) then [e] else []
  {
    assert [e][..0] == [];
  }

  lemma {:induction false} FilterNoDup<T>(s: seq<T>, f: T -> bool)
    requires NoDup(s)
    ensures NoDup(Filter(s, f))
  {
    if s == [] {
    } else {
      FilterNoDup(s[..|s| - 1], f);
      FilterMembers(s[..|s| - 1], f);
    }
  }

  /** A sequence has no duplicates exactly when it has as many different elements as places. */
  lemma {:induction false} NoDupCard<T>(s: seq<T>)
    ensures |Elems(s)| <= |s|
    ensures NoDup(s) <==> |Elems(s)| == |s|
  {
    if s == [] {
    } else {
      var t, e := s[..|s| - 1], s[|s| - 1];
      NoDupCard(t);
      assert s == t + [e];
      assert Elems(s) == Elems(t) + {e};
      if e in t {
        var i :| 0 <= i < |t| && t[i] == e;
        assert s[i] == s[|s| - 1];
        assert Elems(s) == Elems(t);
      }
    }
  }

  function Other<T(==)>(x: T): T -> bool {
    y => y != x
  }

  lemma {:induction false} WithoutAt<T>(a: seq<T>, x: T, b: seq<T>)
    requires x !in a && x !in b
    ensures Filter(a + [x] + b, Other(x)) == a + b
  {
    var s := a + [x] + b;
    if b == [] {
      assert s[..|s| - 1] == a;
      FilterAll(a, Other(x));
    } else {
      var c := b[..|b| - 1];
      assert s[..|s| - 1] == a + [x] + c;
      WithoutAt(a, x, c);
      assert b == c + [b[|b| - 1]];
    }
  }

  lemma {:induction false} WithoutLength<T>(s: seq<T>, x: T)
    requires NoDup(s)
    ensures |s| - 1 <= |Filter(s, Other(x))|
  {
    if s == [] {
    } else {
      var t, e := s[..|s| - 1], s[|s| - 1];
      if e == x {
        FilterAll(t, Other(x));
      } else {
        WithoutLength(t, x);
      }
    }
  }

  /** Dropping one element before or after cutting to length: cutting one later first changes nothing. */
  lemma TakeWithout<T>(s: seq<T>, x: T, n: nat)
    requires NoDup(s)
    ensures Take(Filter(s, Other(x)), n) == Take(Filter(Take(s, n + 1), Other(x)), n)
  {
    if |s| > n + 1 {
      var a, b := s[..n + 1], s[n + 1..];
      assert s == a + b;
      FilterAppend(a, b, Other(x));
      assert NoDup(a);
      WithoutLength(a, x);
      var fa, fb := Filter(a, Other(x)), Filter(b, Other(x));
      assert (fa + fb)[..n] == fa[..n];
    }
  }
}
