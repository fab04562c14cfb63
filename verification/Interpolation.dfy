/**
 Lagrange interpolation (core.py:450-475).  The two interpolators are loops over field elements;
 the sum they compute is related to the one polynomial through the given points.
 */
module Interpolation {
  import opened Primality
  import opened Wrappers
  import opened Field
  import opened Polynomials

  // ---------------------------------------------------------------- the basis

  /** The product of (q - xs[k]) over k < n other than j. */
  function ProdExcept(xs: seq<Elem>, q: int, j: nat, n: nat): int
    requires n <= |xs|
  {
    if n == 0 then 1
    else if n - 1 == j then ProdExcept(xs, q, j, n - 1)
    else ProdExcept(xs, q, j, n - 1) * (q - xs[n - 1])
  }

  function Denominator(xs: seq<Elem>, j: nat): Elem
    requires j < |xs|
  {
    ProdExcept(xs, xs[j], j, |xs|) % P
  }

  /** The inverse of the denominator; 0 where there is none. */
  function Weight(xs: seq<Elem>, j: nat): Elem
    requires j < |xs|
  {
    var r := InvMod(Denominator(xs, j));
    if r.Ok? then r.value else 0
  }

  /** The j-th Lagrange basis polynomial at q. */
  function Basis(xs: seq<Elem>, j: nat, q: int): int
    requires j < |xs|
  {
    ProdExcept(xs, q, j, |xs|) * Weight(xs, j)
  }

  function BasisSum(xs: seq<Elem>, ys: seq<int>, q: int, n: nat): int
    requires n <= |xs| == |ys|
  {
    if n == 0 then 0 else BasisSum(xs, ys, q, n - 1) + ys[n - 1] * Basis(xs, n - 1, q)
  }

  /** The value at q of the interpolating polynomial. */
  function Interpolated(xs: seq<Elem>, ys: seq<int>, q: int): Elem
    requires |xs| == |ys|
  {
    BasisSum(xs, ys, q, |xs|) % P
  }

  // ---------------------------------------------------------------- when the denominators vanish

  lemma {:induction false} ProdNonZero(xs: seq<Elem>, q: Elem, j: nat, n: nat)
    requires n <= |xs|
    ensures Same(ProdExcept(xs, q, j, n), 0) <==> exists k :: 0 <= k < n && k != j && xs[k] == q
  {
    if n > 0 {
      ProdNonZero(xs, q, j, n - 1);
      if n - 1 != j {
        var p, d := ProdExcept(xs, q, j, n - 1), q - xs[n - 1];
        if Same(p, 0) {
          SameScale(d, p, 0);
        } else if xs[n - 1] == q {
          assert p * d == 0;
        } else if Same(p * d, 0) {
          ZeroProduct(p, d);
        }
      }
    }
  }

  lemma DenominatorZero(xs: seq<Elem>, j: nat)
    requires j < |xs|
    ensures Denominator(xs, j) == 0 <==> exists k :: 0 <= k < |xs| && k != j && xs[k] == xs[j]
    ensures Distinct(xs) ==> Denominator(xs, j) != 0
  {
    ProdNonZero(xs, xs[j], j, |xs|);
    var p := ProdExcept(xs, xs[j], j, |xs|);
    assert Same(p, 0) <==> p % P == 0;
  }

  lemma WeightInverts(xs: seq<Elem>, j: nat)
    requires j < |xs| && Distinct(xs)
    ensures Same(ProdExcept(xs, xs[j], j, |xs|) * Weight(xs, j), 1)
  {
    DenominatorZero(xs, j);
    WeightFromDenominator(xs, j);
  }

  // ---------------------------------------------------------------- values at the nodes

  lemma BasisAtNode(xs: seq<Elem>, j: nat, i: nat)
    requires i < |xs| && j < |xs| && Distinct(xs)
    ensures Same(Basis(xs, j, xs[i]), if i == j then 1 else 0)
  {
    if i == j {
      WeightInverts(xs, j);
    } else {
      ProdNonZero(xs, xs[i], j, |xs|);
      hide ProdExcept, Weight;
      SameScale(Weight(xs, j), ProdExcept(xs, xs[i], j, |xs|), 0);
    }
  }

  lemma {:induction false} SumAtNode(xs: seq<Elem>, ys: seq<int>, i: nat, n: nat)
    requires n <= |xs| == |ys| && i < |xs| && Distinct(xs)
    ensures Same(BasisSum(xs, ys, xs[i], n), if i < n then ys[i] else 0)
  {
    if n > 0 {
      SumAtNode(xs, ys, i, n - 1);
      BasisAtNode(xs, n - 1, i);
      hide Basis, Same;
      var y, b, v := ys[n - 1], Basis(xs, n - 1, xs[i]), if i == n - 1 then 1 else 0;
      SameScale(y, b, v);
      SameSum(BasisSum(xs, ys, xs[i], n - 1), if i < n - 1 then ys[i] else 0, y * b, y * v);
    }
  }

  // ---------------------------------------------------------------- the interpolating polynomial

  function ProdCoefficients(xs: seq<Elem>, j: nat, n: nat): (f: seq<int>)
    requires n <= |xs|
    ensures |f| == if j < n then n else n + 1
  {
    if n == 0 then [1]
    else if n - 1 == j then ProdCoefficients(xs, j, n - 1)
    else MulLinear(ProdCoefficients(xs, j, n - 1), xs[n - 1])
  }

  lemma EvalOne(q: int)
    ensures Eval([1], q) == 1
  {
    assert Eval([1][1..], q) == 0;
  }

  lemma {:induction false} EvalProdCoefficients(xs: seq<Elem>, j: nat, n: nat, q: int)
    requires n <= |xs|
    ensures Eval(ProdCoefficients(xs, j, n), q) == ProdExcept(xs, q, j, n)
  {
    EvalOne(q);
    hide Eval, MulLinear;
    if n > 0 {
      EvalProdCoefficients(xs, j, n - 1, q);
      if n - 1 != j {
        EvalMulLinear(ProdCoefficients(xs, j, n - 1), xs[n - 1], q);
      }
    }
  }

  function SumCoefficients(xs: seq<Elem>, ys: seq<int>, n: nat): (f: seq<int>)
    requires n <= |xs| == |ys|
    ensures |f| == |xs|
  {
    if n == 0 then seq(|xs|, _ => 0)
    else Plus(SumCoefficients(xs, ys, n - 1),
              Scale(ProdCoefficients(xs, n - 1, |xs|), ys[n - 1] * Weight(xs, n - 1)))
  }

  lemma EvalTerm(xs: seq<Elem>, y: int, j: nat, q: int)
    requires j < |xs|
    ensures Eval(Scale(ProdCoefficients(xs, j, |xs|), y * Weight(xs, j)), q) == y * Basis(xs, j, q)
  {
    hide Eval, Scale, ProdExcept, ProdCoefficients, Weight;
    var f, w, p := ProdCoefficients(xs, j, |xs|), Weight(xs, j), ProdExcept(xs, q, j, |xs|);
    EvalProdCoefficients(xs, j, |xs|, q);
    EvalScale(f, y * w, q);
    assert (y * w) * p == y * (p * w);
  }

  lemma {:induction false} EvalSumCoefficients(xs: seq<Elem>, ys: seq<int>, n: nat, q: int)
    requires n <= |xs| == |ys|
    ensures Eval(SumCoefficients(xs, ys, n), q) == BasisSum(xs, ys, q, n)
  {
    EvalZeros(|xs|, q);
    hide Eval, Plus, Scale, Basis, ProdCoefficients, Weight;
    if n > 0 {
      EvalSumCoefficients(xs, ys, n - 1, q);
      EvalTerm(xs, ys[n - 1], n - 1, q);
      EvalPlus(SumCoefficients(xs, ys, n - 1),
               Scale(ProdCoefficients(xs, n - 1, |xs|), ys[n - 1] * Weight(xs, n - 1)), q);
    }
  }

  /** The coefficients of the polynomial of degree below |xs| through the points. */
  function Interpolant(xs: seq<Elem>, ys: seq<int>): (f: seq<int>)
    requires |xs| == |ys|
    ensures |f| == |xs|
  {
    SumCoefficients(xs, ys, |xs|)
  }

  /** Existence: the interpolant passes through its points, and is what Interpolated evaluates. */
  lemma InterpolantExists(xs: seq<Elem>, ys: seq<int>)
    requires |xs| == |ys| && Distinct(xs)
    ensures PassesThrough(Interpolant(xs, ys), xs, ys)
    ensures forall q: int :: Interpolated(xs, ys, q) == Eval(Interpolant(xs, ys), q) % P
  {
    forall q: int ensures Interpolated(xs, ys, q) == Eval(Interpolant(xs, ys), q) % P {
      EvalSumCoefficients(xs, ys, |xs|, q);
    }
    forall i | 0 <= i < |xs| ensures Same(Eval(Interpolant(xs, ys), xs[i]), ys[i]) {
      EvalSumCoefficients(xs, ys, |xs|, xs[i]);
      SumAtNode(xs, ys, i, |xs|);
    }
  }

  /** Interpolation recovers, at every position, the polynomial its points were taken from. */
  lemma Recovers(f: seq<int>, xs: seq<Elem>, ys: seq<int>, q: int)
    requires |f| == |xs| == |ys| && Distinct(xs) && PassesThrough(f, xs, ys)
    ensures Interpolated(xs, ys, q) == Eval(f, q) % P
  {
    InterpolantExists(xs, ys);
    var g := Interpolant(xs, ys);
    Unique(g, f, xs, ys);
    EvalSameCoefficients(g, f, q);
    hide Interpolated, Interpolant;
    SameRemainders(Eval(g, q), Eval(f, q));
  }

  /** The interpolated value at a node is the value given there. */
  lemma NodeValue(xs: seq<Elem>, ys: seq<Elem>, i: nat)
    requires |xs| == |ys| && Distinct(xs) && i < |xs|
    ensures Interpolated(xs, ys, xs[i]) == ys[i]
  {
    InterpolantExists(xs, ys);
    hide Interpolated, Interpolant, Eval;
    SameRemainders(Eval(Interpolant(xs, ys), xs[i]), ys[i]);
  }

  lemma SameRemainders(a: int, b: int)
    ensures Same(a, b) <==> a % P == b % P
  {
  }

  // ---------------------------------------------------------------- the two loops

  /** _lagrange_at_zero multiplies by the negated differences; true while their number is even. */
  predicate Even(j: nat, n: nat) {
    if n == 0 then true else if n - 1 == j then Even(j, n - 1) else !Even(j, n - 1)
  }

  function Signed(even: bool, a: int): int {
    if even then a else -a
  }

  lemma ProductStep(acc: int, even: bool, p: int, factor: int, d: int)
    requires Same(acc, Signed(even, p)) && Same(factor, -d)
    ensures Same(acc * factor, Signed(!even, p * d))
  {
    hide Same;
    SameProduct(acc, Signed(even, p), factor, -d);
    assert Signed(even, p) * -d == Signed(!even, p * d);
  }

  lemma PlainStep(acc: int, p: int, factor: int, d: int)
    requires Same(acc, p) && Same(factor, d)
    ensures Same(acc * factor, p * d)
  {
    hide Same;
    SameProduct(acc, p, factor, d);
  }

  lemma InverseUnique(d: int, a: int, b: int)
    requires Same(d * a, 1) && Same(d * b, 1)
    ensures Same(a, b)
  {
    assert d * (a - b) == d * a - d * b;
    if Same(d, 0) { SameScale(a, d, 0); }
    ZeroProduct(d, a - b);
  }

  lemma SameNegate(a: int, b: int)
    requires Same(-a, b)
    ensures Same(a, -b)
  {
  }

  lemma NegativeInverse(e: int, d: int, v: int, w: int)
    requires Same(e, -d) && Same(e * v, 1) && Same(d * w, 1)
    ensures Same(v, -w)
  {
    hide Same;
    SameSymInverse(e, d, v);
    InverseUnique(d, -v, w);
    SameNegate(v, w);
  }

  lemma SameSymInverse(e: int, d: int, v: int)
    requires Same(e, -d) && Same(e * v, 1)
    ensures Same(d * -v, 1)
  {
    SameInverse(-d, e, v);
    assert -d * v == d * -v;
  }

  lemma SignedInverse(even: bool, e: int, d: int, v: int, w: int)
    requires Same(e, Signed(even, d)) && Same(e * v, 1) && Same(d * w, 1)
    ensures Same(v, Signed(even, w))
  {
    if even {
      hide Same;
      SameInverse(d, e, v);
      InverseUnique(d, v, w);
    } else {
      NegativeInverse(e, d, v, w);
    }
  }

  lemma SignsCancel(even: bool, num: int, n: int, v: int, w: int)
    requires Same(num, Signed(even, n)) && Same(v, Signed(even, w))
    ensures Same(num * v, n * w)
  {
    hide Same;
    SameProduct(num, Signed(even, n), v, Signed(even, w));
    assert Signed(even, n) * Signed(even, w) == n * w;
  }

  lemma WeightFromDenominator(xs: seq<Elem>, j: nat)
    requires j < |xs| && Denominator(xs, j) != 0
    ensures Same(ProdExcept(xs, xs[j], j, |xs|) * Weight(xs, j), 1)
  {
    var p := ProdExcept(xs, xs[j], j, |xs|);
    Reduction(p);
    hide ProdExcept;
    SameInverse(p, Denominator(xs, j), Weight(xs, j));
  }

  lemma SignedTerm(xs: seq<Elem>, j: nat, num: Elem, den: Elem)
    requires j < |xs|
    requires Same(num, Signed(Even(j, |xs|), ProdExcept(xs, 0, j, |xs|)))
    requires Same(den, Signed(Even(j, |xs|), ProdExcept(xs, xs[j], j, |xs|)))
    ensures InvMod(den).Ok? <==> Denominator(xs, j) != 0
    ensures InvMod(den).Ok? ==> Same(num * InvMod(den).value, Basis(xs, j, 0))
  {
    hide ProdExcept, InvMod, Weight, Even, Signed, Same;
    var n, d, even := ProdExcept(xs, 0, j, |xs|), ProdExcept(xs, xs[j], j, |xs|), Even(j, |xs|);
    SignedZero(even, den, d);
    if den != 0 {
      WeightFromDenominator(xs, j);
      SignedInverse(even, den, d, InvMod(den).value, Weight(xs, j));
      SignsCancel(even, num, n, InvMod(den).value, Weight(xs, j));
    }
  }

  lemma SignedZero(even: bool, den: Elem, d: int)
    requires Same(den, Signed(even, d))
    ensures den == 0 <==> d % P == 0
  {
  }

  /** The factor num * invmod(den) of one term of _lagrange_at_zero. */
  method ZeroTerm(xs: seq<Elem>, j: nat) returns (r: Result<Elem>)
    requires j < |xs|
    ensures r.Ok? <==> Denominator(xs, j) != 0
    ensures r.Ok? ==> Same(r.value, Basis(xs, j, 0))
    ensures r.Err? ==> r.error == ValueError
  {
    hide MulMod, SubMod, InvMod, Same, Signed, Weight;
    var num: Elem, den: Elem := 1, 1;
    SignedOne(xs, j);
    for k := 0 to |xs|
      invariant Same(num, Signed(Even(j, k), ProdExcept(xs, 0, j, k)))
      invariant Same(den, Signed(Even(j, k), ProdExcept(xs, xs[j], j, k)))
    {
      if k != j {
        NegatedDifferences(xs[k], xs[j]);
        ghost var a: int, b: int := xs[k], xs[j];
        ProductStep(num, Even(j, k), ProdExcept(xs, 0, j, k), xs[k], 0 - a);
        ProductStep(den, Even(j, k), ProdExcept(xs, xs[j], j, k), SubMod(xs[k], xs[j]), b - a);
        MulModSame(num, xs[k], Signed(Even(j, k + 1), ProdExcept(xs, 0, j, k + 1)));
        MulModSame(den, SubMod(xs[k], xs[j]), Signed(Even(j, k + 1), ProdExcept(xs, xs[j], j, k + 1)));
        num := MulMod(num, xs[k]);
        den := MulMod(den, SubMod(xs[k], xs[j]));
      }
    }
    SignedTerm(xs, j, num, den);
    var inverse := InvMod(den);
    if inverse.Err? { return Err(ValueError); }
    MulModSame(num, inverse.value, Basis(xs, j, 0));
    return Ok(MulMod(num, inverse.value));
  }

  lemma SignedOne(xs: seq<Elem>, j: nat)
    ensures forall q: int :: Same(1, Signed(Even(j, 0), ProdExcept(xs, q, j, 0)))
  {
  }

  lemma NegatedDifferences(a: Elem, b: Elem)
    ensures var x: int, y: int := a, b; Same(a, -(0 - x)) && Same(SubMod(a, b), -(y - x))
  {
  }

  lemma MulModSame(a: Elem, b: Elem, c: int)
    requires Same(a * b, c)
    ensures Same(MulMod(a, b), c)
  {
    hide MulMod, Same;
    SameTrans(MulMod(a, b), a * b, c);
  }

  /** One turn of the outer loop: total = addmod(total, mulmod(ys[j], term)). */
  lemma TotalStep(total: Elem, sum: int, y: Elem, term: Elem, b: int)
    requires Same(total, sum) && Same(term, b)
    ensures Same(AddMod(total, MulMod(y, term)), sum + y * b)
  {
    hide Same, AddMod, MulMod;
    SameScale(y, term, b);
    SameTrans(MulMod(y, term), y * term, y * b);
    SameSum(total, sum, MulMod(y, term), y * b);
    SameTrans(AddMod(total, MulMod(y, term)), total + MulMod(y, term), sum + y * b);
  }

  lemma AllInvertible(xs: seq<Elem>)
    ensures Distinct(xs) <==> forall j :: 0 <= j < |xs| ==> Denominator(xs, j) != 0
  {
    forall j | 0 <= j < |xs| ensures Distinct(xs) ==> Denominator(xs, j) != 0 {
      DenominatorZero(xs, j);
    }
    if !Distinct(xs) {
      var i, j :| 0 <= i < j < |xs| && xs[i] == xs[j];
      DenominatorZero(xs, i);
    }
  }

  lemma ReducedSum(total: Elem, sum: int)
    requires Same(total, sum)
    ensures total == sum % P
  {
  }

  /** _lagrange_at_zero: the value at 0 of the interpolating polynomial, unless two nodes coincide. */
  method LagrangeAtZero(xs: seq<Elem>, ys: seq<Elem>) returns (r: Result<Elem>)
    requires |xs| == |ys|
    ensures r == if Distinct(xs) then Ok(Interpolated(xs, ys, 0)) else Err(ValueError)
  {
    hide MulMod, AddMod, Same, Basis;
    AllInvertible(xs);
    var total: Elem := 0;
    SameRefl(0);
    for j := 0 to |xs|
      invariant Same(total, BasisSum(xs, ys, 0, j))
      invariant forall i :: 0 <= i < j ==> Denominator(xs, i) != 0
    {
      var term := ZeroTerm(xs, j);
      if term.Err? { return term; }
      TotalStep(total, BasisSum(xs, ys, 0, j), ys[j], term.value, Basis(xs, j, 0));
      total := AddMod(total, MulMod(ys[j], term.value));
    }
    ReducedSum(total, BasisSum(xs, ys, 0, |xs|));
    return Ok(total);
  }

  /** The factor num * invmod(den) of one term of _evaluate_at. */
  method TermAt(xs: seq<Elem>, xq: Elem, j: nat) returns (r: Result<Elem>)
    requires j < |xs|
    ensures r.Ok? <==> Denominator(xs, j) != 0
    ensures r.Ok? ==> Same(r.value, Basis(xs, j, xq))
    ensures r.Err? ==> r.error == ValueError
  {
    hide MulMod, SubMod, InvMod, Same, Weight;
    var num: Elem, den: Elem := 1, 1;
    SameRefl(1);
    for k := 0 to |xs|
      invariant Same(num, ProdExcept(xs, xq, j, k))
      invariant Same(den, ProdExcept(xs, xs[j], j, k))
    {
      if k != j {
        ghost var q: int, a: int, b: int := xq, xs[k], xs[j];
        PlainStep(num, ProdExcept(xs, xq, j, k), SubMod(xq, xs[k]), q - a);
        PlainStep(den, ProdExcept(xs, xs[j], j, k), SubMod(xs[j], xs[k]), b - a);
        MulModSame(num, SubMod(xq, xs[k]), ProdExcept(xs, xq, j, k + 1));
        MulModSame(den, SubMod(xs[j], xs[k]), ProdExcept(xs, xs[j], j, k + 1));
        num := MulMod(num, SubMod(xq, xs[k]));
        den := MulMod(den, SubMod(xs[j], xs[k]));
      }
    }
    ReducedSum(den, ProdExcept(xs, xs[j], j, |xs|));
    var inverse := InvMod(den);
    if inverse.Err? { return Err(ValueError); }
    WeightIs(xs, j);
    SameScale(inverse.value, num, ProdExcept(xs, xq, j, |xs|));
    MulModSame(num, inverse.value, Basis(xs, j, xq));
    return Ok(MulMod(num, inverse.value));
  }

  lemma SameRefl(a: int)
    ensures Same(a, a)
  {
  }

  lemma WeightIs(xs: seq<Elem>, j: nat)
    requires j < |xs| && Denominator(xs, j) != 0
    ensures Weight(xs, j) == InvMod(Denominator(xs, j)).value
  {
  }

  /** _evaluate_at: the value at xq of the interpolating polynomial, unless two nodes coincide. */
  method EvaluateAt(xs: seq<Elem>, ys: seq<Elem>, xq: Elem) returns (r: Result<Elem>)
    requires |xs| == |ys|
    ensures r == if Distinct(xs) then Ok(Interpolated(xs, ys, xq)) else Err(ValueError)
  {
    hide MulMod, AddMod, Same, Basis;
    AllInvertible(xs);
    var total: Elem := 0;
    SameRefl(0);
    for j := 0 to |xs|
      invariant Same(total, BasisSum(xs, ys, xq, j))
      invariant forall i :: 0 <= i < j ==> Denominator(xs, i) != 0
    {
      var term := TermAt(xs, xq, j);
      if term.Err? { return term; }
      TotalStep(total, BasisSum(xs, ys, xq, j), ys[j], term.value, Basis(xs, j, xq));
      total := AddMod(total, MulMod(ys[j], term.value));
    }
    ReducedSum(total, BasisSum(xs, ys, xq, |xs|));
    return Ok(total);
  }

  // ---------------------------------------------------------------- errors

  /** The deviation of the j-th point from f, weighted by its basis polynomial at 0. */
  function ErrorTerm(xs: seq<Elem>, ys: seq<int>, f: seq<int>, j: nat): int
    requires j < |xs| == |ys|
  {
    (ys[j] - Eval(f, xs[j])) * Basis(xs, j, 0)
  }

  function ErrorSum(xs: seq<Elem>, ys: seq<int>, f: seq<int>, n: nat): int
    requires n <= |xs| == |ys|
  {
    if n == 0 then 0
    else ErrorSum(xs, ys, f, n - 1) + ErrorTerm(xs, ys, f, n - 1)
  }

  function ValuesAt(f: seq<int>, xs: seq<Elem>): (ys: seq<int>)
    ensures |ys| == |xs|
  {
    seq(|xs|, i requires 0 <= i < |xs| => Eval(f, xs[i]))
  }

  lemma {:induction false} SumOfErrors(xs: seq<Elem>, ys: seq<int>, f: seq<int>, n: nat)
    requires n <= |xs| == |ys|
    ensures BasisSum(xs, ys, 0, n) == BasisSum(xs, ValuesAt(f, xs), 0, n) + ErrorSum(xs, ys, f, n)
  {
    hide Eval, Basis;
    if n > 0 {
      SumOfErrors(xs, ys, f, n - 1);
      var y, v, b := ys[n - 1], Eval(f, xs[n - 1]), Basis(xs, n - 1, 0);
      assert (y - v) * b == y * b - v * b;
    }
  }

  /** The exact error formula: what interpolating ys at 0 gives beyond f(0). */
  lemma ErrorFormula(xs: seq<Elem>, ys: seq<int>, f: seq<int>)
    requires |f| == |xs| == |ys| && Distinct(xs)
    ensures Interpolated(xs, ys, 0) == (Eval(f, 0) + ErrorSum(xs, ys, f, |xs|)) % P
  {
    var vs := ValuesAt(f, xs);
    assert PassesThrough(f, xs, vs);
    Recovers(f, xs, vs, 0);
    SumOfErrors(xs, ys, f, |xs|);
    hide BasisSum, ErrorSum, Eval;
    var e := ErrorSum(xs, ys, f, |xs|);
    SumOfRemainders(BasisSum(xs, vs, 0, |xs|), Eval(f, 0), e);
  }

  lemma SumOfRemainders(a: int, b: int, e: int)
    requires a % P == b % P
    ensures (a + e) % P == (b + e) % P
  {
  }

  lemma BasisNonZero(xs: seq<Elem>, j: nat)
    requires j < |xs| && Distinct(xs) && 0 !in xs
    ensures !Same(Basis(xs, j, 0), 0)
  {
    ProdNonZero(xs, 0, j, |xs|);
    var p, w := ProdExcept(xs, 0, j, |xs|), Weight(xs, j);
    assert !Same(p, 0);
    if Same(p * w, 0) {
      ZeroProduct(p, w);
      WeightInverts(xs, j);
      ZeroHasNoInverse(ProdExcept(xs, xs[j], j, |xs|), w);
    }
  }

  lemma ZeroHasNoInverse(d: int, w: int)
    requires Same(d * w, 1)
    ensures !Same(w, 0)
  {
    if Same(w, 0) { SameScale(d, w, 0); }
  }

  lemma ErrorTermVanishes(xs: seq<Elem>, ys: seq<int>, f: seq<int>, j: nat)
    requires j < |xs| == |ys| && Distinct(xs) && 0 !in xs
    ensures Same(ErrorTerm(xs, ys, f, j), 0) <==> Same(Eval(f, xs[j]), ys[j])
  {
    hide Eval, Basis;
    var e, b := ys[j] - Eval(f, xs[j]), Basis(xs, j, 0);
    assert Same(e, 0) <==> Same(Eval(f, xs[j]), ys[j]);
    if Same(e, 0) {
      SameScale(b, e, 0);
    } else if Same(e * b, 0) {
      BasisNonZero(xs, j);
      ZeroProduct(e, b);
    }
  }

  lemma {:induction false} SingleError(xs: seq<Elem>, ys: seq<int>, f: seq<int>, j: nat, n: nat)
    requires n <= |xs| == |ys| && j < |xs| && Distinct(xs) && 0 !in xs
    requires forall i :: 0 <= i < |xs| && i != j ==> Same(Eval(f, xs[i]), ys[i])
    ensures Same(ErrorSum(xs, ys, f, n), if j < n then ErrorTerm(xs, ys, f, j) else 0)
  {
    hide Eval, ErrorTerm;
    if n > 0 {
      SingleError(xs, ys, f, j, n - 1);
      ErrorTermVanishes(xs, ys, f, n - 1);
    }
  }

  /** One point off the curve always moves the value at 0. */
  lemma OneErrorIsVisible(xs: seq<Elem>, ys: seq<int>, f: seq<int>, j: nat)
    requires |f| == |xs| == |ys| && j < |xs| && Distinct(xs) && 0 !in xs
    requires forall i :: 0 <= i < |xs| && i != j ==> Same(Eval(f, xs[i]), ys[i])
    requires !Same(Eval(f, xs[j]), ys[j])
    ensures Interpolated(xs, ys, 0) != Eval(f, 0) % P
  {
    hide ErrorSum, Eval, Interpolated, ErrorTerm, Same;
    ErrorFormula(xs, ys, f);
    SingleError(xs, ys, f, j, |xs|);
    ErrorTermVanishes(xs, ys, f, j);
    NonZeroShift(Eval(f, 0), ErrorSum(xs, ys, f, |xs|), ErrorTerm(xs, ys, f, j));
  }

  lemma NonZeroShift(a: int, s: int, e: int)
    requires Same(s, e) && !Same(e, 0)
    ensures (a + s) % P != a % P
  {
  }
}
