/** The deterministic order of arm sides: left, right, then any other names alphabetically. */
module Sides {
  import opened Sequences

  /** Code-point order of two names, as Python compares strings. */
  predicate NameBefore(a: string, b: string) {
    if b == [] then false
    else if a == [] then true
    else if a[0] != b[0] then a[0] < b[0]
    else NameBefore(a[1..], b[1..])
  }

  function Rank(side: string): nat { if side == "left" then 0 else if side == "right" then 1 else 99 }

  /** `a` sorts strictly before `b` under the key `(order.get(side, 99), side)`. */
  predicate Before(a: string, b: string) {
    Rank(a) < Rank(b) || (Rank(a) == Rank(b) && NameBefore(a, b))
  }

  lemma {:induction false} NamesCompare(a: string, b: string)
    ensures NameBefore(a, b) ==> !NameBefore(b, a) && a != b
    ensures a == b || NameBefore(a, b) || NameBefore(b, a)
    decreases |a|
  {
    if a != [] && b != [] {
      NamesCompare(a[1..], b[1..]);
      if a[1..] == b[1..] && a[0] == b[0] {
        assert a == [a[0]] + a[1..] == b;
      }
    }
  }

  lemma {:induction false} NamesChain(a: string, b: string, c: string)
    requires NameBefore(a, b) && NameBefore(b, c)
    ensures NameBefore(a, c)
    decreases |a|
  {
    if a != [] && a[0] == b[0] == c[0] { NamesChain(a[1..], b[1..], c[1..]); }
  }

  lemma Compare(a: string, b: string)
    ensures Before(a, b) ==> !Before(b, a) && a != b
    ensures a == b || Before(a, b) || Before(b, a)
  {
    NamesCompare(a, b);
  }

  lemma Chain(a: string, b: string, c: string)
    requires Before(a, b) && Before(b, c)
    ensures Before(a, c)
  {
    if Rank(a) == Rank(b) == Rank(c) { NamesChain(a, b, c); }
  }

  ghost predicate Ordered(xs: seq<string>) {
    forall i, j :: 0 <= i < j < |xs| ==> Before(xs[i], xs[j])
  }

  ghost predicate SameNames(xs: seq<string>, ys: seq<string>) {
    forall x :: x in xs <==> x in ys
  }

  /** The place of `x` in an ordered list. */
  method Position(xs: seq<string>, x: string) returns (i: nat)
    requires Ordered(xs) && x !in xs
    ensures i <= |xs|
    ensures forall k :: 0 <= k < i ==> Before(xs[k], x)
    ensures forall k :: i <= k < |xs| ==> Before(x, xs[k])
  {
    i := 0;
    while i < |xs| && Before(xs[i], x)
      invariant i <= |xs| && forall k :: 0 <= k < i ==> Before(xs[k], x)
    {
      i := i + 1;
    }
    if i < |xs| {
      Compare(xs[i], x);
      forall k | i < k < |xs| ensures Before(x, xs[k]) { Chain(x, xs[i], xs[k]); }
    }
  }

  lemma Inserted(xs: seq<string>, x: string, i: nat)
    requires Ordered(xs) && i <= |xs|
    requires forall k :: 0 <= k < i ==> Before(xs[k], x)
    requires forall k :: i <= k < |xs| ==> Before(x, xs[k])
    ensures Ordered(xs[..i] + [x] + xs[i..]) && SameNames(xs[..i] + [x] + xs[i..], xs + [x])
  {
    assert xs == xs[..i] + xs[i..];
  }

  /** `sorted_sides` on the keys of a mapping, in whatever order the mapping lists them. */
  method SortedSides(names: seq<string>) returns (sorted: seq<string>)
    requires Distinct(names)
    ensures Ordered(sorted) && SameNames(sorted, names)
  {
    sorted := [];
    for n := 0 to |names|
      invariant Ordered(sorted) && SameNames(sorted, names[..n])
    {
      assert names[..n + 1] == names[..n] + [names[n]];
      assert names[n] !in names[..n];
      var i := Position(sorted, names[n]);
      Inserted(sorted, names[n], i);
      sorted := sorted[..i] + [names[n]] + sorted[i..];
    }
    assert names[..|names|] == names;
  }

  /** Deterministic: two ordered lists of the same names are the same list. */
  lemma {:induction false} OrderIsUnique(xs: seq<string>, ys: seq<string>)
    requires Ordered(xs) && Ordered(ys) && SameNames(xs, ys)
    ensures xs == ys
    decreases |xs|
  {
    assert |xs| > 0 ==> xs[0] in xs && ys != [];
    assert |ys| > 0 ==> ys[0] in ys && xs != [];
    if xs != [] {
      HeadsAgree(xs, ys);
      assert xs == [xs[0]] + xs[1..] && ys == [ys[0]] + ys[1..];
      OrderedHead(xs);
      OrderedHead(ys);
      forall x ensures x in xs[1..] <==> x in ys[1..] {
        assert x in xs <==> x == xs[0] || x in xs[1..];
        assert x in ys <==> x == ys[0] || x in ys[1..];
      }
      OrderIsUnique(xs[1..], ys[1..]);
    }
  }

  lemma OrderedHead(xs: seq<string>)
    requires Ordered(xs) && xs != []
    ensures Ordered(xs[1..]) && xs[0] !in xs[1..]
  {
    forall i | 0 < i < |xs| ensures xs[i] != xs[0] { Compare(xs[0], xs[i]); }
  }

  lemma HeadsAgree(xs: seq<string>, ys: seq<string>)
    requires Ordered(xs) && Ordered(ys) && SameNames(xs, ys) && xs != [] && ys != []
    ensures xs[0] == ys[0]
  {
    assert xs[0] in ys && ys[0] in xs;
    var i :| 0 <= i < |ys| && ys[i] == xs[0];
    var j :| 0 <= j < |xs| && xs[j] == ys[0];
    if i > 0 && j > 0 { Compare(xs[0], ys[0]); }
  }

  /** `p` is the first place where two names differ, or the end of the shorter one. */
  ghost predicate Parts(a: string, b: string, p: nat) {
    p <= |a| && p <= |b| && a[..p] == b[..p] && (p < |a| && p < |b| ==> a[p] != b[p])
  }

  /** Code-point order: decided at the first difference, a proper prefix first. */
  lemma {:induction false} NamesByFirstDifference(a: string, b: string, p: nat)
    requires Parts(a, b, p) && (p == |a| || p == |b| || a[p] != b[p])
    ensures NameBefore(a, b) <==> p < |b| && (p == |a| || a[p] < b[p])
    decreases p
  {
    if p > 0 {
      assert a[0] == a[..p][0] == b[..p][0] == b[0];
      assert a[1..][..p - 1] == a[..p][1..] && b[1..][..p - 1] == b[..p][1..];
      NamesByFirstDifference(a[1..], b[1..], p - 1);
    }
  }

  /** In an ordered list left comes first, right next, and the others follow by name. */
  lemma LeftThenRight(xs: seq<string>, i: nat)
    requires Ordered(xs) && i < |xs|
    ensures xs[i] == "left" ==> i == 0
    ensures xs[i] == "right" ==> i == if "left" in xs then 1 else 0
    ensures forall j :: i < j < |xs| && xs[i] != "left" && xs[i] != "right" ==> xs[j] != "left" && xs[j] != "right" && NameBefore(xs[i], xs[j])
  {
    if xs[i] == "left" && i > 0 {
      assert Before(xs[0], xs[i]);
      NamesCompare(xs[0], xs[i]);
    }
    if xs[i] == "right" {
      RightAfterLeft(xs, i);
    }
  }

  lemma RightAfterLeft(xs: seq<string>, i: nat)
    requires Ordered(xs) && i < |xs| && xs[i] == "right"
    ensures i == if "left" in xs then 1 else 0
  {
    forall k | 0 <= k < i ensures xs[k] == "left" {
      assert Before(xs[k], xs[i]);
      NamesCompare(xs[k], xs[i]);
    }
    if i > 1 { Compare(xs[0], xs[1]); }
    if k :| 0 <= k < |xs| && xs[k] == "left" {
      Compare(xs[k], xs[i]);
    }
  }
}
