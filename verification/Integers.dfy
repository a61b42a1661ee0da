/** Bounds of integers and ranges of them. */
module Integers {

  function Min(a: nat, b: nat): nat { if a <= b then a else b }

  function Clamp(x: int, lo: int, hi: int): int { if x < lo then lo else if x > hi then hi else x }

  function Range(from: int, end: int): (r: seq<int>)
    requires from <= end
    ensures |r| == end - from && forall i :: 0 <= i < |r| ==> r[i] == from + i
  {
    seq(end - from, i => from + i)
  }

  lemma RangeMembers(from: int, end: int)
    requires from <= end
    ensures forall j :: j in Range(from, end) <==> from <= j < end
  {
    forall j | from <= j < end ensures j in Range(from, end) { assert Range(from, end)[j - from] == j; }
  }

  ghost predicate Increasing(xs: seq<int>) { forall i, j :: 0 <= i < j < |xs| ==> xs[i] < xs[j] }

  /** Two increasing lists of the same integers are the same list. */
  lemma {:induction false} IncreasingUnique(xs: seq<int>, ys: seq<int>)
    requires Increasing(xs) && Increasing(ys) && forall x :: x in xs <==> x in ys
    ensures xs == ys
    decreases |xs|
  {
    assert |xs| > 0 ==> xs[0] in xs && ys != [];
    assert |ys| > 0 ==> ys[0] in ys && xs != [];
    if xs != [] {
      assert xs[0] in ys && ys[0] in xs;
      var a, b := xs[1..], ys[1..];
      assert xs == [xs[0]] + a && ys == [ys[0]] + b;
      assert xs[0] == ys[0];
      forall x ensures x in a <==> x in b {
        assert x in xs <==> x == xs[0] || x in a;
        assert x in ys <==> x == ys[0] || x in b;
      }
      IncreasingUnique(a, b);
    }
  }
}
