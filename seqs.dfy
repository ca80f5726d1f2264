/** Sequence helpers shared by the model: sums folded left to right (the
    shape of the source's `for` loops and `reduce` calls), removal of every
    occurrence of a value (the shape of `filter(id => id !== x)`), and
    duplicate-freedom. */
module Seqs {

  /** Elements pairwise different. */
  predicate Distinct<T(==)>(s: seq<T>)
  {
    forall i, j :: 0 <= i < j < |s| ==> s[i] != s[j]
  }

  /** Sum of `f` over `s`, adding the elements in order. */
  function Sum<T>(s: seq<T>, f: T -> real): real
  {
    if s == [] then 0.0 else Sum(s[..|s| - 1], f) + f(s[|s| - 1])
  }

  lemma {:induction false} SumConcat<T>(a: seq<T>, b: seq<T>, f: T -> real)
    ensures Sum(a + b, f) == Sum(a, f) + Sum(b, f)
    decreases |b|
  {
    if b == [] {
      assert a + b == a;
    } else {
      var b' := b[..|b| - 1];
      assert (a + b)[..|a + b| - 1] == a + b';
      SumConcat(a, b', f);
    }
  }

  lemma SumSingleton<T>(x: T, f: T -> real)
    ensures Sum([x], f) == f(x)
  {
    assert [x][..0] == [];
  }

  lemma SumCons<T>(x: T, s: seq<T>, f: T -> real)
    ensures Sum([x] + s, f) == f(x) + Sum(s, f)
  {
    SumConcat([x], s, f);
    SumSingleton(x, f);
  }

  /** A sum does not depend on the order of its terms. */
  lemma {:induction false} SumPermutation<T>(a: seq<T>, b: seq<T>, f: T -> real)
    requires multiset(a) == multiset(b)
    ensures Sum(a, f) == Sum(b, f)
    decreases |a|
  {
    if a == [] {
      assert |b| == |multiset(b)| == 0;
    } else {
      var x := a[|a| - 1];
      var a' := a[..|a| - 1];
      assert a == a' + [x];
      assert x in multiset(b);
      var l, r := SplitAround(b, x);
      assert multiset(a') == multiset(a) - multiset([x]);
      assert multiset(l + r) == multiset(b) - multiset([x]);
      SumPermutation(a', l + r, f);
      SumMiddle(l, x, r, f);
      SumSnoc(a', x, f);
    }
  }

  /** An element of `b` splits it into the part before and the part after. */
  lemma SplitAround<T>(b: seq<T>, x: T) returns (l: seq<T>, r: seq<T>)
    requires x in multiset(b)
    ensures b == l + [x] + r
  {
    var k :| 0 <= k < |b| && b[k] == x;
    l, r := b[..k], b[k + 1..];
  }

  /** Taking a middle term out of a sum. */
  lemma SumMiddle<T>(l: seq<T>, x: T, r: seq<T>, f: T -> real)
    ensures Sum(l + [x] + r, f) == Sum(l + r, f) + f(x)
  {
    SumConcat(l + [x], r, f);
    SumSnoc(l, x, f);
    SumConcat(l, r, f);
  }

  lemma SumSnoc<T>(l: seq<T>, x: T, f: T -> real)
    ensures Sum(l + [x], f) == Sum(l, f) + f(x)
  {
    assert (l + [x])[..|l|] == l;
  }

  /** Summing `f + g` term by term is summing `f` and `g` separately. */
  lemma {:induction false} SumPointwise<T>(s: seq<T>, f: T -> real, g: T -> real, h: T -> real)
    requires forall x :: x in s ==> h(x) == f(x) + g(x)
    ensures Sum(s, h) == Sum(s, f) + Sum(s, g)
    decreases |s|
  {
    if s != [] {
      SumPointwise(s[..|s| - 1], f, g, h);
    }
  }

  /** Terms that agree on every element give the same sum. */
  lemma {:induction false} SumCongruent<T>(s: seq<T>, f: T -> real, g: T -> real)
    requires forall x :: x in s ==> f(x) == g(x)
    ensures Sum(s, f) == Sum(s, g)
    decreases |s|
  {
    if s != [] {
      SumCongruent(s[..|s| - 1], f, g);
    }
  }

  /** Terms that are all zero sum to zero. */
  lemma {:induction false} SumZero<T>(s: seq<T>, f: T -> real)
    requires forall x :: x in s ==> f(x) == 0.0
    ensures Sum(s, f) == 0.0
    decreases |s|
  {
    if s != [] {
      SumZero(s[..|s| - 1], f);
    }
  }

  /** A non-zero sum has a non-zero term. */
  lemma SumNonZero<T>(s: seq<T>, f: T -> real)
    requires Sum(s, f) != 0.0
    ensures exists x :: x in s && f(x) != 0.0
  {
    if forall x :: x in s ==> f(x) == 0.0 {
      SumZero(s, f);
    }
  }

  /** Over a duplicate-free sequence, a term that is `a` at `x` and zero
      elsewhere sums to `a` when `x` occurs and to zero otherwise. */
  lemma {:induction false} SumIndicator<T>(s: seq<T>, x: T, a: real, h: T -> real)
    requires Distinct(s)
    requires forall y :: y in s ==> h(y) == if y == x then a else 0.0
    ensures Sum(s, h) == if x in s then a else 0.0
    decreases |s|
  {
    if s != [] {
      var init := s[..|s| - 1];
      assert s == init + [s[|s| - 1]];
      SumIndicator(init, x, a, h);
    }
  }

  /** `s` with every occurrence of `x` dropped, the others kept in order. */
  function Without<T(==)>(s: seq<T>, x: T): (r: seq<T>)
    ensures |r| <= |s|
  {
    if s == [] then []
    else (if s[0] == x then [] else [s[0]]) + Without(s[1..], x)
  }

  /** `Without(s, x)` holds exactly the elements of `s` other than `x`. */
  lemma {:induction false} WithoutMembers<T>(s: seq<T>, x: T)
    ensures forall y :: y in Without(s, x) <==> y in s && y != x
    decreases |s|
  {
    if s != [] {
      WithoutMembers(s[1..], x);
      assert forall y :: y in s <==> y == s[0] || y in s[1..];
    }
  }

  lemma {:induction false} WithoutAbsent<T>(s: seq<T>, x: T)
    requires x !in s
    ensures Without(s, x) == s
    decreases |s|
  {
    if s != [] {
      WithoutAbsent(s[1..], x);
    }
  }

  lemma {:induction false} WithoutConcat<T>(a: seq<T>, b: seq<T>, x: T)
    ensures Without(a + b, x) == Without(a, x) + Without(b, x)
    decreases |a|
  {
    if a == [] {
      assert a + b == b;
    } else {
      var head := if a[0] == x then [] else [a[0]];
      assert (a + b)[0] == a[0] && (a + b)[1..] == a[1..] + b;
      assert Without(a + b, x) == head + Without(a[1..] + b, x);
      WithoutConcat(a[1..], b, x);
      assert Without(a, x) == head + Without(a[1..], x);
    }
  }

  lemma {:induction false} WithoutDistinct<T>(s: seq<T>, x: T)
    requires Distinct(s)
    ensures Distinct(Without(s, x))
    decreases |s|
  {
    if s != [] {
      WithoutDistinct(s[1..], x);
      WithoutMembers(s[1..], x);
      assert s[0] !in s[1..];
      var rest := Without(s[1..], x);
      if s[0] != x {
        forall i, j | 0 <= i < j < |[s[0]] + rest|
          ensures ([s[0]] + rest)[i] != ([s[0]] + rest)[j]
        {
          if i == 0 {
            assert ([s[0]] + rest)[j] in rest;
          }
        }
      }
    }
  }
}
