/** Sums and counts over sequences, and sequences without repetition. */
module Sequences {

  function Sum<T>(s: seq<T>, f: T -> nat): nat {
    if s == [] then 0 else f(s[0]) + Sum(s[1..], f)
  }

  lemma {:induction false} SumAppend<T>(s: seq<T>, t: seq<T>, f: T -> nat)
    ensures Sum(s + t, f) == Sum(s, f) + Sum(t, f)
    decreases |s|
  {
    if s == [] {
      assert s + t == t;
    } else {
      assert (s + t)[1..] == s[1..] + t;
      SumAppend(s[1..], t, f);
    }
  }

  lemma {:induction false} SumSnoc<T>(s: seq<T>, i: nat, f: T -> nat)
    requires i < |s|
    ensures Sum(s[..i + 1], f) == Sum(s[..i], f) + f(s[i])
  {
    assert s[..i + 1] == s[..i] + [s[i]];
    SumAppend(s[..i], [s[i]], f);
    assert [s[i]][1..] == [];
  }

  lemma {:induction false} SumWithout<T>(s: seq<T>, i: nat, f: T -> nat)
    requires i < |s|
    ensures Sum(s, f) == f(s[i]) + Sum(s[..i] + s[i + 1..], f)
  {
    assert s == s[..i] + s[i..];
    SumAppend(s[..i], s[i..], f);
    SumAppend(s[..i], s[i + 1..], f);
    assert s[i..][1..] == s[i + 1..];
  }

  lemma {:induction false} MultisetWithout<T>(s: seq<T>, i: nat)
    requires i < |s|
    ensures multiset(s[..i] + s[i + 1..]) == multiset(s) - multiset{s[i]}
  {
    assert s == s[..i] + [s[i]] + s[i + 1..];
  }

  /** Permutations with the last value of one taken out of both. */
  lemma {:induction false} TakeOutLast<T>(s: seq<T>, t: seq<T>) returns (i: nat)
    requires s != [] && multiset(s) == multiset(t)
    ensures i < |t| && t[i] == s[|s| - 1]
    ensures t == t[..i] + [t[i]] + t[i + 1..]
    ensures multiset(s[..|s| - 1]) == multiset(t[..i] + t[i + 1..])
  {
    var n := |s| - 1;
    assert s[n] in multiset(s);
    i :| 0 <= i < |t| && t[i] == s[n];
    MultisetWithout(t, i);
    MultisetWithout(s, n);
    assert s[..n] + s[n + 1..] == s[..n];
  }

  /** A sum does not depend on the order of its terms. */
  lemma {:induction false} SumPermutation<T>(s: seq<T>, t: seq<T>, f: T -> nat)
    requires multiset(s) == multiset(t)
    ensures Sum(s, f) == Sum(t, f)
    decreases |s|
  {
    if s == [] {
      assert |t| == |multiset(t)| == 0;
    } else {
      assert s[0] in multiset(s);
      var i :| 0 <= i < |t| && t[i] == s[0];
      var rest := t[..i] + t[i + 1..];
      SumWithout(t, i, f);
      MultisetWithout(s, 0);
      MultisetWithout(t, i);
      assert s[..0] + s[1..] == s[1..];
      assert multiset(s[1..]) == multiset(rest);
      SumPermutation(s[1..], rest, f);
    }
  }

  ghost predicate NoDup<T>(s: seq<T>) {
    forall i, j | 0 <= i < j < |s| :: s[i] != s[j]
  }

  ghost function Elements<T>(s: seq<T>): set<T> {
    set x | x in s
  }

  lemma {:induction false} NoDupSize<T>(s: seq<T>)
    ensures |Elements(s)| <= |s|
    ensures |Elements(s)| == |s| <==> NoDup(s)
    decreases |s|
  {
    if s != [] {
      var rest := s[..|s| - 1];
      var x := s[|s| - 1];
      assert s == rest + [x];
      NoDupSize(rest);
      assert Elements(s) == Elements(rest) + {x};
      if x in rest {
        assert Elements(s) == Elements(rest);
        var i :| 0 <= i < |rest| && rest[i] == x;
        assert s[i] == s[|s| - 1];
      }
    }
  }

  /** Pigeonhole: as many distinct values as there are positions for them fill every position. */
  lemma {:induction false} Pigeonhole<T>(s: seq<T>, t: seq<T>)
    requires NoDup(s) && |s| == |t| && forall x <- s :: x in t
    ensures NoDup(t) && forall x <- t :: x in s
  {
    NoDupSize(s);
    NoDupSize(t);
    assert Elements(s) <= Elements(t);
    SubsetSize(Elements(s), Elements(t));
    assert Elements(s) == Elements(t);
    forall x <- t ensures x in s { assert x in Elements(t); }
  }

  lemma {:induction false} SubsetSize<T>(a: set<T>, b: set<T>)
    requires a <= b
    ensures |a| <= |b| && (|a| == |b| ==> a == b)
  {
    assert b == a + (b - a);
    if |a| == |b| { assert b - a == {}; }
  }

  lemma {:induction false} NoDupMultiset<T>(s: seq<T>, x: T)
    requires NoDup(s)
    ensures multiset(s)[x] == if x in s then 1 else 0
    decreases |s|
  {
    if s != [] {
      assert s == [s[0]] + s[1..];
      NoDupMultiset(s[1..], x);
    }
  }

  /** Distinct sequences over the same values are permutations of each other. */
  lemma {:induction false} SameElementsPermute<T>(s: seq<T>, t: seq<T>)
    requires NoDup(s) && NoDup(t)
    requires (forall x <- s :: x in t) && (forall x <- t :: x in s)
    ensures multiset(s) == multiset(t)
  {
    forall x: T | x in multiset(s) || x in multiset(t)
      ensures multiset(s)[x] == multiset(t)[x]
    {
      NoDupMultiset(s, x);
      NoDupMultiset(t, x);
    }
  }
}
