/** Angles in degrees modulo full turns. */
module Angles {
  import opened Reals

  function Turns(k: int): real { 360.0 * k as real }

  /** `(a + 180) % 360 - 180`. */
  function Wrap(a: real): (w: real)
    ensures -180.0 <= w < 180.0
  {
    a - Turns(((a + 180.0) / 360.0).Floor)
  }

  ghost predicate Congruent(a: real, b: real) {
    exists k: int :: a == b + Turns(k)
  }

  lemma CongruentBy(a: real, b: real, k: int)
    requires a == b + Turns(k)
    ensures Congruent(a, b)
  {
  }

  lemma WrapCongruent(a: real)
    ensures Congruent(Wrap(a), a) && Congruent(a, Wrap(a))
  {
    var k := ((a + 180.0) / 360.0).Floor;
    CongruentBy(Wrap(a), a, -k);
    CongruentBy(a, Wrap(a), k);
  }

  lemma CongruentSymmetric(a: real, b: real)
    requires Congruent(a, b)
    ensures Congruent(b, a)
  {
    var k :| a == b + Turns(k);
    CongruentBy(b, a, -k);
  }

  lemma CongruentAdd(a: real, b: real, c: real, d: real)
    requires Congruent(a, b) && Congruent(c, d)
    ensures Congruent(a + c, b + d) && Congruent(a - c, b - d) && Congruent(-a, -b)
  {
    var k :| a == b + Turns(k);
    var n :| c == d + Turns(n);
    CongruentBy(a + c, b + d, k + n);
    CongruentBy(a - c, b - d, k - n);
    CongruentBy(-a, -b, -k);
  }

  lemma CongruentSelf(a: real)
    ensures Congruent(a, a)
  {
    CongruentBy(a, a, 0);
  }

  lemma CongruentTransitive(a: real, b: real, c: real)
    requires Congruent(a, b) && Congruent(b, c)
    ensures Congruent(a, c)
  {
    var k :| a == b + Turns(k);
    var n :| b == c + Turns(n);
    CongruentBy(a, c, k + n);
  }

  /** Two angles in the canonical range are congruent only if they are equal. */
  lemma CanonicalUnique(a: real, b: real)
    requires -180.0 <= a < 180.0 && -180.0 <= b < 180.0 && Congruent(a, b)
    ensures a == b
  {
    var k :| a == b + Turns(k);
    assert k == 0;
  }

  /** Wrapping depends only on the residue class and fixes the canonical range. */
  lemma WrapRespects(a: real, b: real)
    requires Congruent(a, b)
    ensures Wrap(a) == Wrap(b)
    ensures -180.0 <= b < 180.0 ==> Wrap(a) == b
  {
    WrapCongruent(a);
    WrapCongruent(b);
    CongruentTransitive(Wrap(a), a, b);
    if -180.0 <= b < 180.0 { CanonicalUnique(Wrap(a), b); }
    CongruentTransitive(Wrap(a), b, Wrap(b));
    CanonicalUnique(Wrap(a), Wrap(b));
  }

  /** The wrapped representative is the smallest in size. */
  lemma WrapIsShortest(x: real, y: real)
    requires Congruent(x, y)
    ensures Abs(x) >= Abs(Wrap(y))
  {
    WrapRespects(x, y);
    WrapCongruent(x);
    var k :| x == Wrap(x) + Turns(k);
    if k >= 1 {
      assert Turns(k) >= 360.0;
    } else if k <= -1 {
      assert Turns(k) <= -360.0;
    }
  }
}
