/** Counting arguments on finite sets and sequences of naturals. */
module Counting {

  predicate Distinct<T(==)>(s: seq<T>) {
    forall i, j :: 0 <= i < j < |s| ==> s[i] != s[j]
  }

  lemma DistinctSnoc<T>(s: seq<T>, x: T)
    requires Distinct(s) && x !in s
    ensures Distinct(s + [x])
  {
  }

  function RangeSet(n: nat): (r: set<nat>)
    ensures forall x: nat :: x in r <==> x < n
  {
    if n == 0 then {} else RangeSet(n - 1) + {n - 1}
  }

  function Elements(s: seq<nat>): (r: set<nat>)
    ensures forall x :: x in r <==> x in s
  {
    set x | x in s
  }

  lemma CardRemove<T>(a: set<T>, x: T)
    requires x in a
    ensures |a - {x}| == |a| - 1
  {
  }

  lemma CardAdd<T>(a: set<T>, x: T)
    requires x !in a
    ensures |a + {x}| == |a| + 1
  {
  }

  lemma {:induction false} RangeSetCard(n: nat)
    ensures |RangeSet(n)| == n
  {
    if n > 0 {
      var r := RangeSet(n - 1);
      RangeSetCard(n - 1);
      assert n - 1 !in r;
      CardAdd(r, n - 1);
      assert RangeSet(n) == r + {n - 1};
    }
  }

  /** A sequence without repeats has as many elements as entries. */
  lemma {:induction false} DistinctElementsCard(s: seq<nat>)
    requires Distinct(s)
    ensures |Elements(s)| == |s|
  {
    if s != [] {
      var init := s[..|s| - 1];
      assert Distinct(init);
      DistinctElementsCard(init);
      assert Elements(s) == Elements(init) + {s[|s| - 1]};
      CardAdd(Elements(init), s[|s| - 1]);
    }
  }

  lemma {:induction false} SubsetCard<T>(a: set<T>, b: set<T>)
    ensures a <= b ==> |a| <= |b|
    decreases |b|
  {
    if a <= b && b != {} {
      var x :| x in b;
      SubsetCard(a - {x}, b - {x});
      CardRemove(b, x);
      if x in a {
        CardRemove(a, x);
      }
    }
  }

  /**
   * `n` different values below `n` are all the values below `n`: a sequence
   * of `n` distinct entries, each below `n`, contains every one of them.
   */
  lemma Pigeonhole(s: seq<nat>, n: nat)
    requires |s| == n && Distinct(s)
    requires forall i :: 0 <= i < |s| ==> s[i] < n
    ensures forall y: nat :: y < n ==> y in s
  {
    DistinctElementsCard(s);
    RangeSetCard(n);
    forall y: nat | y < n
      ensures y in s
    {
      var rest := RangeSet(n) - {y};
      CardRemove(RangeSet(n), y);
      SubsetCard(Elements(s), rest);
    }
  }

  /** Distinct entries below `n` that include every value below `n` number exactly `n`. */
  lemma DistinctCoverCard(s: seq<nat>, n: nat)
    requires Distinct(s)
    requires forall i :: 0 <= i < |s| ==> s[i] < n
    requires forall y: nat :: y < n ==> y in s
    ensures |s| == n
  {
    DistinctElementsCard(s);
    RangeSetCard(n);
    assert Elements(s) == RangeSet(n);
  }
}
