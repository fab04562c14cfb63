/** Arithmetic modulo P (core.py:62-76), related to arithmetic on the integers. */
module Field {
  import opened Primality
  import opened Wrappers

  type Elem = x: int | 0 <= x < P

  /** Congruence modulo P: the same field element, whatever the representatives. */
  predicate Same(a: int, b: int) {
    (a - b) % P == 0
  }

  function AddMod(a: Elem, b: Elem): (r: Elem)
    ensures Same(r, a + b)
  {
    var s := a + b;
    if s >= P then s - P else s
  }

  function SubMod(a: Elem, b: Elem): (r: Elem)
    ensures Same(r, a - b)
  {
    if a >= b then a - b else a + P - b
  }

  function MulMod(a: Elem, b: Elem): (r: Elem)
    ensures Same(r, a * b)
  {
    Reduction(a * b);
    (a * b) % P
  }

  // ---------------------------------------------------------------- congruence

  lemma Reduction(a: int)
    ensures Same(a % P, a)
  {
  }

  lemma SameElem(a: Elem, b: Elem)
    requires Same(a, b)
    ensures a == b
  {
  }

  lemma SameSym(a: int, b: int)
    requires Same(a, b)
    ensures Same(b, a)
  {
  }

  lemma SameTrans(a: int, b: int, c: int)
    requires Same(a, b) && Same(b, c)
    ensures Same(a, c)
  {
  }

  lemma SameSum(a: int, b: int, c: int, d: int)
    requires Same(a, b) && Same(c, d)
    ensures Same(a + c, b + d) && Same(a - c, b - d)
  {
  }

  lemma SameScale(k: int, a: int, b: int)
    requires Same(a, b)
    ensures Same(k * a, k * b) && Same(a * k, b * k)
  {
    var c := (a - b) / P;
    assert k * a - k * b == k * (c * P) == (k * c) * P;
  }

  lemma SameProduct(a: int, b: int, c: int, d: int)
    requires Same(a, b) && Same(c, d)
    ensures Same(a * c, b * d)
  {
    hide Same;
    SameScale(c, a, b);
    SameScale(b, c, d);
    SameTrans(a * c, b * c, b * d);
  }

  // ---------------------------------------------------------------- inverses

  /** Extended Euclid: the greatest common divisor with its Bezout coefficients. */
  function Egcd(a: nat, b: nat): (r: (nat, int, int))
    ensures r.1 * a + r.2 * b == r.0
    decreases b
  {
    if b == 0 then (a, 1, 0) else
      var r := Egcd(b, a % b);
      BezoutStep(r.1, r.2, a, b, a / b);
      (r.0, r.2, r.1 - (a / b) * r.2)
  }

  lemma BezoutStep(s: int, t: int, a: int, b: int, q: int)
    ensures t * a + (s - q * t) * b == s * b + t * (a - q * b)
  {
  }

  lemma {:induction false} EgcdDivides(a: nat, b: nat)
    ensures Divides(Egcd(a, b).0, a) && Divides(Egcd(a, b).0, b)
    decreases b
  {
    var g := Egcd(a, b).0;
    if b == 0 {
      MultipleIsDivisible(a, 1);
      MultipleIsDivisible(a, 0);
    } else {
      EgcdDivides(b, a % b);
      DividesProduct(g, b, a / b);
      DividesSum(g, (a / b) * b, a % b);
    }
  }

  lemma CoprimeToP(a: Elem)
    requires a != 0
    ensures Egcd(a, P).0 == 1
  {
    var g := Egcd(a, P).0;
    EgcdDivides(a, P);
    hide Egcd;
    PIsPrime();
    SmallMultiple(g, a);
    SmallMultiple(g, P);
    ZeroDividesOnlyZero(a);
    assert g != 0;
    hide Divides;
  }

  lemma ZeroDividesOnlyZero(n: int)
    requires n != 0
    ensures !Divides(0, n)
  {
  }

  /** pow(a, -1, P). */
  function InvMod(a: Elem): (r: Result<Elem>)
    ensures r.Ok? <==> a != 0
    ensures r.Ok? ==> Same(a * r.value, 1)
    ensures r.Err? ==> r.error == ValueError
  {
    if a == 0 then Err(ValueError) else
      InverseStep(a);
      Ok(Egcd(a, P).1 % P)
  }

  lemma InverseStep(a: Elem)
    requires a != 0
    ensures Same(a * (Egcd(a, P).1 % P), 1)
  {
    CoprimeToP(a);
    hide Egcd;
    ReducedInverse(a, Egcd(a, P).1, Egcd(a, P).2);
  }

  lemma ReducedInverse(a: int, s: int, t: int)
    requires s * a + t * P == 1
    ensures Same(a * (s % P), 1)
  {
    var c := s / P;
    assert a * (s % P) == a * s - (a * c) * P;
    assert a * (s % P) - 1 == -(t + a * c) * P;
  }

  lemma SameInverse(a: int, e: int, v: int)
    requires Same(e, a) && Same(e * v, 1)
    ensures Same(a * v, 1)
  {
    SameScale(v, e, a);
    hide Same;
    SameSym(e * v, a * v);
    SameTrans(a * v, e * v, 1);
  }

  lemma CancelUnit(a: int, b: int, v: int)
    requires Same(a * v, 1) && Same(a * b, 0)
    ensures Same(b, 0)
  {
    var k, m := (a * v - 1) / P, (a * b) / P;
    assert (a * v) * b - b == (k * P) * b;
    assert (a * b) * v == (m * P) * v;
    assert (a * v) * b == (a * b) * v;
    assert b == (m * v - k * b) * P;
  }

  /** A field has no zero divisors. */
  lemma ZeroProduct(a: int, b: int)
    requires Same(a * b, 0) && !Same(a, 0)
    ensures Same(b, 0)
  {
    Reduction(a);
    var e: Elem := a % P;
    var v := InvMod(e).value;
    hide Same, InvMod;
    SameInverse(a, e, v);
    CancelUnit(a, b, v);
  }
}
