/**
 Polynomials over the field, as coefficient sequences with the constant term first.  Values are
 unreduced integers, so that ring identities hold exactly; only zeros are taken modulo P.
 */
module Polynomials {
  import opened Field

  function Eval(f: seq<int>, x: int): int {
    if f == [] then 0 else f[0] + x * Eval(f[1..], x)
  }

  predicate Distinct(xs: seq<Elem>) {
    forall i, j :: 0 <= i < j < |xs| ==> xs[i] != xs[j]
  }

  // ---------------------------------------------------------------- root counting

  /** Synthetic division of f by (x - r), dropping the remainder. */
  function Quotient(f: seq<int>, r: int): (q: seq<int>)
    ensures |q| == if f == [] then 0 else |f| - 1
  {
    if |f| <= 1 then [] else [Eval(f[1..], r)] + Quotient(f[1..], r)
  }

  lemma {:induction false} Factor(f: seq<int>, r: int, x: int)
    ensures Eval(f, x) - Eval(f, r) == (x - r) * Eval(Quotient(f, r), x)
  {
    if |f| == 1 {
      assert Eval(f[1..], x) == Eval(f[1..], r) == 0;
    } else if |f| > 1 {
      var g := f[1..];
      Factor(g, r, x);
      assert Quotient(f, r)[1..] == Quotient(g, r);
      FactorStep(x, r, Eval(g, x), Eval(g, r), Eval(Quotient(g, r), x));
    }
  }

  lemma FactorStep(x: int, r: int, gx: int, gr: int, q: int)
    requires gx - gr == (x - r) * q
    ensures x * gx - r * gr == (x - r) * (gr + x * q)
  {
    assert x * gx - r * gr == (x - r) * gr + x * (gx - gr);
    assert x * ((x - r) * q) == (x - r) * (x * q);
    assert (x - r) * (gr + x * q) == (x - r) * gr + (x - r) * (x * q);
  }

  lemma {:induction false} QuotientTail(f: seq<int>, r: int, i: nat)
    requires i + 1 < |f|
    ensures Quotient(f, r)[i] == Eval(f[i + 1..], r)
  {
    if i > 0 {
      QuotientTail(f[1..], r, i - 1);
      assert f[1..][i..] == f[i + 1..];
    }
  }

  ghost predicate IsZero(f: seq<int>) {
    forall i :: 0 <= i < |f| ==> Same(f[i], 0)
  }

  ghost predicate IsRoot(f: seq<int>, x: int) {
    Same(Eval(f, x), 0)
  }

  lemma RootOfQuotient(f: seq<int>, r: Elem, x: Elem)
    requires IsRoot(f, r) && IsRoot(f, x) && x != r
    ensures IsRoot(Quotient(f, r), x)
  {
    hide Eval, Quotient;
    Factor(f, r, x);
    SameSum(Eval(f, x), 0, Eval(f, r), 0);
    ZeroProduct(x - r, Eval(Quotient(f, r), x));
  }

  lemma ZeroQuotient(f: seq<int>, r: int)
    requires IsRoot(f, r) && IsZero(Quotient(f, r))
    ensures IsZero(f)
  {
    forall i | 0 <= i < |f| ensures Same(f[i], 0) {
      assert Same(Eval(f[i..], r), 0) by {
        if i > 0 { QuotientTail(f, r, i - 1); } else { assert f[0..] == f; }
      }
      assert Same(Eval(f[i + 1..], r), 0) by {
        if i + 1 < |f| { QuotientTail(f, r, i); }
      }
      assert f[i..][1..] == f[i + 1..];
      HeadIsZero(f[i], r, Eval(f[i + 1..], r));
    }
  }

  lemma HeadIsZero(c: int, r: int, tail: int)
    requires Same(c + r * tail, 0) && Same(tail, 0)
    ensures Same(c, 0)
  {
    SameScale(r, tail, 0);
    hide Same;
    SameSum(c + r * tail, 0, r * tail, r * 0);
  }

  /** A polynomial with as many distinct roots as coefficients is the zero polynomial. */
  lemma {:induction false} TooManyRoots(f: seq<int>, xs: seq<Elem>)
    requires |f| <= |xs| && Distinct(xs)
    requires forall i :: 0 <= i < |xs| ==> IsRoot(f, xs[i])
    ensures IsZero(f)
    decreases |f|
  {
    hide IsRoot, Quotient;
    if f != [] {
      hide IsZero;
      var r, rest := xs[|xs| - 1], xs[..|xs| - 1];
      var q := Quotient(f, r);
      forall i | 0 <= i < |rest| ensures IsRoot(q, rest[i]) {
        RootOfQuotient(f, r, rest[i]);
      }
      TooManyRoots(q, rest);
      ZeroQuotient(f, r);
    }
  }

  // ---------------------------------------------------------------- uniqueness

  function Minus(f: seq<int>, g: seq<int>): (d: seq<int>)
    requires |f| == |g|
    ensures |d| == |f|
  {
    seq(|f|, i requires 0 <= i < |f| => f[i] - g[i])
  }

  lemma {:induction false} EvalMinus(f: seq<int>, g: seq<int>, x: int)
    requires |f| == |g|
    ensures Eval(Minus(f, g), x) == Eval(f, x) - Eval(g, x)
  {
    if f != [] {
      EvalMinus(f[1..], g[1..], x);
      assert Minus(f, g)[1..] == Minus(f[1..], g[1..]);
      assert x * (Eval(f[1..], x) - Eval(g[1..], x)) == x * Eval(f[1..], x) - x * Eval(g[1..], x);
    }
  }

  ghost predicate SameCoefficients(f: seq<int>, g: seq<int>) {
    |f| == |g| && forall i :: 0 <= i < |f| ==> Same(f[i], g[i])
  }

  /** The polynomial f takes the value ys[i] at xs[i], for every i. */
  ghost predicate PassesThrough(f: seq<int>, xs: seq<int>, ys: seq<int>)
    requires |xs| == |ys|
  {
    forall i :: 0 <= i < |xs| ==> Same(Eval(f, xs[i]), ys[i])
  }

  /** At most one polynomial with n coefficients passes through n points at distinct positions. */
  lemma Unique(f: seq<int>, g: seq<int>, xs: seq<Elem>, ys: seq<int>)
    requires |f| == |g| <= |xs| == |ys| && Distinct(xs)
    requires PassesThrough(f, xs, ys) && PassesThrough(g, xs, ys)
    ensures SameCoefficients(f, g)
  {
    var d := Minus(f, g);
    forall i | 0 <= i < |xs| ensures IsRoot(d, xs[i]) {
      EvalMinus(f, g, xs[i]);
      hide Eval;
      assert Same(Eval(f, xs[i]), ys[i]) && Same(Eval(g, xs[i]), ys[i]);
    }
    TooManyRoots(d, xs);
    forall i | 0 <= i < |f| ensures Same(f[i], g[i]) {
      assert d[i] == f[i] - g[i] && Same(d[i], 0);
    }
  }

  lemma {:induction false} EvalSameCoefficients(f: seq<int>, g: seq<int>, x: int)
    requires SameCoefficients(f, g)
    ensures Same(Eval(f, x), Eval(g, x))
  {
    if f != [] {
      EvalSameCoefficients(f[1..], g[1..], x);
      SameScale(x, Eval(f[1..], x), Eval(g[1..], x));
      hide Same;
      SameSum(f[0], g[0], x * Eval(f[1..], x), x * Eval(g[1..], x));
    }
  }

  // ---------------------------------------------------------------- building polynomials

  function Scale(f: seq<int>, k: int): (r: seq<int>)
    ensures |r| == |f|
  {
    seq(|f|, i requires 0 <= i < |f| => k * f[i])
  }

  function Plus(f: seq<int>, g: seq<int>): (r: seq<int>)
    requires |f| == |g|
    ensures |r| == |f|
  {
    seq(|f|, i requires 0 <= i < |f| => f[i] + g[i])
  }

  /** The coefficients of (x - a) * f. */
  function MulLinear(f: seq<int>, a: int): (r: seq<int>)
    ensures |r| == |f| + 1
  {
    if f == [] then [0] else
      var tail := MulLinear(f[1..], a);
      [-a * f[0], f[0] + tail[0]] + tail[1..]
  }

  lemma {:induction false} EvalScale(f: seq<int>, k: int, x: int)
    ensures Eval(Scale(f, k), x) == k * Eval(f, x)
  {
    if f != [] {
      EvalScale(f[1..], k, x);
      assert Scale(f, k)[1..] == Scale(f[1..], k);
      ScaleStep(k, f[0], x, Eval(f[1..], x));
    }
  }

  lemma ScaleStep(k: int, c: int, x: int, e: int)
    ensures k * c + x * (k * e) == k * (c + x * e)
  {
  }

  lemma {:induction false} EvalPlus(f: seq<int>, g: seq<int>, x: int)
    requires |f| == |g|
    ensures Eval(Plus(f, g), x) == Eval(f, x) + Eval(g, x)
  {
    if f != [] {
      EvalPlus(f[1..], g[1..], x);
      assert Plus(f, g)[1..] == Plus(f[1..], g[1..]);
      assert x * (Eval(f[1..], x) + Eval(g[1..], x)) == x * Eval(f[1..], x) + x * Eval(g[1..], x);
    }
  }

  lemma {:induction false} EvalMulLinear(f: seq<int>, a: int, x: int)
    ensures Eval(MulLinear(f, a), x) == (x - a) * Eval(f, x)
  {
    if f == [] {
      assert MulLinear(f, a) == [0];
      assert Eval([0], x) == 0;
    } else {
      var tail := MulLinear(f[1..], a);
      EvalMulLinear(f[1..], a, x);
      var r := MulLinear(f, a);
      assert r[1..][1..] == tail[1..];
      assert Eval(r[1..], x) == f[0] + Eval(tail, x);
      MulLinearStep(a, f[0], x, Eval(f[1..], x));
    }
  }

  lemma MulLinearStep(a: int, c: int, x: int, e: int)
    ensures -a * c + x * (c + (x - a) * e) == (x - a) * (c + x * e)
  {
  }

  lemma {:induction false} EvalZeros(n: nat, x: int)
    ensures Eval(seq(n, _ => 0), x) == 0
  {
    if n > 0 {
      EvalZeros(n - 1, x);
      assert seq(n, _ => 0)[1..] == seq(n - 1, _ => 0);
    }
  }
}
