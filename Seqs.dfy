/** Facts about sequences used by the graph and text models. */
module Seqs {

  /** No element occurs twice. */
  predicate NoDup<T(==)>(s: seq<T>) {
    forall i, j :: 0 <= i < j < |s| ==> s[i] != s[j]
  }

  /** Both halves of a duplicate-free concatenation are duplicate-free, and disjoint. */
  lemma NoDupSplit<T>(a: seq<T>, b: seq<T>)
    requires NoDup(a + b)
    ensures NoDup(a) && NoDup(b)
    ensures forall x :: x in a ==> x !in b
  {
    forall i, j | 0 <= i < j < |a| ensures a[i] != a[j] {
      assert (a + b)[i] == a[i] && (a + b)[j] == a[j];
    }
    forall i, j | 0 <= i < j < |b| ensures b[i] != b[j] {
      assert (a + b)[|a| + i] == b[i] && (a + b)[|a| + j] == b[j];
    }
    forall i, j | 0 <= i < |a| && 0 <= j < |b| ensures a[i] != b[j] {
      assert (a + b)[i] == a[i] && (a + b)[|a| + j] == b[j];
    }
  }

  /** The set of elements. */
  function Elems<T>(s: seq<T>): set<T> {
    set x | x in s
  }

  /** Growing a prefix by one adds that element. */
  lemma ElemsPrefixStep<T>(s: seq<T>, i: nat)
    requires i < |s|
    ensures Elems(s[..i + 1]) == Elems(s[..i]) + {s[i]}
  {
    assert s[..i + 1] == s[..i] + [s[i]];
  }

  lemma ElemsSnoc<T>(s: seq<T>, c: T)
    ensures Elems(s + [c]) == Elems(s) + {c}
  {
  }

  lemma InterSnoc<T>(a: set<T>, c: T, b: set<T>)
    ensures (a + {c}) * b == if c in b then (a * b) + {c} else a * b
  {
  }

  /** The elements of `s` that satisfy `p`, in their order in `s` (a list comprehension with a filter). */
  function Where<T(!new)>(s: seq<T>, p: T -> bool): (r: seq<T>)
    ensures forall x :: x in r <==> x in s && p(x)
    ensures |r| <= |s|
    ensures NoDup(s) ==> NoDup(r)
  {
    if s == [] then []
    else
      var prev := Where(s[..|s| - 1], p);
      var x := s[|s| - 1];
      assert forall y :: y in s <==> y in s[..|s| - 1] || y == x;
      if p(x) then prev + [x] else prev
  }

  /** A sequence is empty exactly when it has no elements. */
  lemma EmptyIffNoElems<T>(s: seq<T>)
    ensures s == [] <==> Elems(s) == {}
  {
    if s != [] {
      assert s[0] in Elems(s);
    }
  }

  /** Filtering with two predicates that agree on the elements gives the same result. */
  lemma {:induction false} WhereCongruent<T(!new)>(s: seq<T>, p: T -> bool, p': T -> bool)
    requires forall x :: x in s ==> p(x) == p'(x)
    ensures Where(s, p) == Where(s, p')
  {
    if s != [] {
      WhereCongruent(s[..|s| - 1], p, p');
    }
  }

  /** A duplicate-free sequence has as many distinct elements as positions, any other fewer. */
  lemma {:induction false} ElemsCard<T>(s: seq<T>)
    ensures |Elems(s)| <= |s|
    ensures |Elems(s)| == |s| <==> NoDup(s)
  {
    if s != [] {
      var s', c := s[..|s| - 1], s[|s| - 1];
      ElemsCard(s');
      assert s == s' + [c];
      assert Elems(s) == Elems(s') + {c};
      if c in s' {
        assert Elems(s) == Elems(s');
        var i :| 0 <= i < |s'| && s'[i] == c;
        assert s[i] == s[|s| - 1];
      } else {
        assert NoDup(s) <==> NoDup(s');
      }
    }
  }

  /** A part of `b` has at most `|b|` elements, exactly `|b|` when it is all of `b`. */
  lemma InterCard<T>(a: set<T>, b: set<T>)
    ensures |a * b| <= |b|
    ensures |a * b| == |b| <==> b <= a
  {
    assert b == (a * b) + (b - a);
    assert (a * b) * (b - a) == {};
    if |a * b| == |b| {
      assert |b - a| == 0;
    }
  }

  /** A duplicate-free sequence of members of `s` is no longer than `s` is large. */
  lemma NoDupBounded<T>(xs: seq<T>, s: set<T>)
    requires NoDup(xs) && Elems(xs) <= s
    ensures |xs| <= |s|
  {
    ElemsCard(xs);
    InterCard(Elems(xs), s);
    assert Elems(xs) * s == Elems(xs);
  }
}
