/**
 The modulus of the sharing field, 2^61 - 1, is prime.

 The proof is the Lucas-Lehmer argument carried out on the exact integers
 x_n + y_n * sqrt(3) == (2 + sqrt(3))^n.  Suppose q divides P and q * q <= P.  The powers with
 exponents 0 .. 2^61 - 1 are pairwise different modulo q, so there are at most q * q of them;
 but 2^61 > P.
 */
module Primality {

  /** The order of the field: core.py's P. */
  const P: int := 0x1FFF_FFFF_FFFF_FFFF

  function Times(k: int, d: int): int {
    k * d
  }

  ghost predicate Divides(d: int, n: int) {
    exists k :: n == Times(k, d)
  }

  ghost predicate IsPrime(p: int) {
    p >= 2 && forall d :: 1 < d < p ==> !Divides(d, p)
  }

  // ---------------------------------------------------------------- divisibility

  lemma MultipleIsDivisible(d: int, k: int)
    ensures Divides(d, k * d)
  {
    assert k * d == Times(k, d);
  }

  lemma DividesSum(d: int, a: int, b: int)
    requires Divides(d, a) && Divides(d, b)
    ensures Divides(d, a + b) && Divides(d, a - b)
  {
    var i :| a == Times(i, d);
    var j :| b == Times(j, d);
    assert a + b == Times(i + j, d) && a - b == Times(i - j, d);
  }

  lemma DividesProduct(d: int, a: int, k: int)
    requires Divides(d, a)
    ensures Divides(d, k * a)
  {
    var i :| a == Times(i, d);
    assert k * a == Times(k * i, d);
  }

  lemma DividesTransitive(d: int, m: int, n: int)
    requires Divides(d, m) && Divides(m, n)
    ensures Divides(d, n)
  {
    var k :| n == Times(k, m);
    DividesProduct(d, m, k);
  }

  // ---------------------------------------------------------------- powers of 2 + sqrt(3)

  function X(n: nat): int {
    if n == 0 then 1 else 2 * X(n - 1) + 3 * Y(n - 1)
  }

  function Y(n: nat): int {
    if n == 0 then 0 else X(n - 1) + 2 * Y(n - 1)
  }

  lemma AdditionStep(x: int, y: int, u: int, v: int)
    ensures 2 * (x * u + 3 * y * v) + 3 * (x * v + y * u) == (2 * x + 3 * y) * u + 3 * (x + 2 * y) * v
    ensures (x * u + 3 * y * v) + 2 * (x * v + y * u) == (2 * x + 3 * y) * v + (x + 2 * y) * u
  {
  }

  lemma {:induction false} Addition(m: nat, n: nat)
    ensures X(m + n) == X(m) * X(n) + 3 * Y(m) * Y(n)
    ensures Y(m + n) == X(m) * Y(n) + Y(m) * X(n)
    decreases m
  {
    if m > 0 {
      Addition(m - 1, n);
      AdditionStep(X(m - 1), Y(m - 1), X(n), Y(n));
      Recurrence(m);
      Recurrence(m + n);
      hide *;
    }
  }

  lemma Recurrence(n: nat)
    requires n > 0
    ensures X(n) == 2 * X(n - 1) + 3 * Y(n - 1)
    ensures Y(n) == X(n - 1) + 2 * Y(n - 1)
  {
  }

  lemma {:induction false} Norm(n: nat)
    ensures X(n) * X(n) - 3 * Y(n) * Y(n) == 1
  {
    if n > 0 {
      Norm(n - 1);
      var x, y := X(n - 1), Y(n - 1);
      assert (2 * x + 3 * y) * (2 * x + 3 * y) - 3 * (x + 2 * y) * (x + 2 * y) == x * x - 3 * y * y;
    }
  }

  /** (2 + sqrt(3))^n is 1 modulo q. */
  ghost predicate IsUnity(q: int, n: nat) {
    Divides(q, X(n) - 1) && Divides(q, Y(n))
  }

  lemma UnitySum(q: int, m: nat, n: nat)
    requires IsUnity(q, m)
    ensures IsUnity(q, m + n) <==> IsUnity(q, n)
  {
    assert Divides(q, X(m + n) - X(n)) && Divides(q, Y(m + n) - Y(n)) by {
      UnityDifference(q, m, n);
    }
    hide Divides, X, Y;
    if IsUnity(q, n) {
      DividesSum(q, X(m + n) - X(n), X(n) - 1);
      DividesSum(q, Y(m + n) - Y(n), Y(n));
    }
    if IsUnity(q, m + n) {
      DividesSum(q, X(m + n) - 1, X(m + n) - X(n));
      DividesSum(q, Y(m + n), Y(m + n) - Y(n));
    }
  }

  lemma UnityDifference(q: int, m: nat, n: nat)
    requires IsUnity(q, m)
    ensures Divides(q, X(m + n) - X(n)) && Divides(q, Y(m + n) - Y(n))
  {
    hide Divides, X, Y;
    var x, y, u, v := X(m), Y(m), X(n), Y(n);
    Addition(m, n);
    DividesProduct(q, x - 1, u);
    DividesProduct(q, y, 3 * v);
    DividesSum(q, u * (x - 1), 3 * v * y);
    assert X(m + n) - u == u * (x - 1) + 3 * v * y;
    DividesProduct(q, x - 1, v);
    DividesProduct(q, y, u);
    DividesSum(q, v * (x - 1), u * y);
    assert Y(m + n) - v == v * (x - 1) + u * y;
  }

  lemma ConjugateStep(q: int, x: int, y: int, u: int, v: int)
    requires x * x - 3 * y * y == 1
    requires Divides(q, x * u + 3 * y * v - x) && Divides(q, x * v + y * u - y)
    ensures Divides(q, u - 1) && Divides(q, v)
  {
    hide Divides;
    var e, f := x * u + 3 * y * v - x, x * v + y * u - y;
    DividesProduct(q, e, x);
    DividesProduct(q, f, 3 * y);
    DividesSum(q, x * e, 3 * y * f);
    assert x * e - 3 * y * f == (x * x - 3 * y * y) * (u - 1);
    DividesProduct(q, f, x);
    DividesProduct(q, e, y);
    DividesSum(q, x * f, y * e);
    assert x * f - y * e == (x * x - 3 * y * y) * v;
  }

  /** Two equal residues leave a unity at the distance between their exponents. */
  lemma EqualPowersGiveUnity(q: int, i: nat, d: nat)
    requires Divides(q, X(i + d) - X(i)) && Divides(q, Y(i + d) - Y(i))
    ensures IsUnity(q, d)
  {
    hide Divides, X, Y;
    Addition(i, d);
    Norm(i);
    ConjugateStep(q, X(i), Y(i), X(d), Y(d));
  }

  // ---------------------------------------------------------------- the Lucas-Lehmer chain

  function Two(k: nat): nat {
    if k == 0 then 1 else 2 * Two(k - 1)
  }

  ghost predicate Residue(k: nat, v: int) {
    X(Two(k)) % P == v
  }

  lemma ResidueOfMultiple(z: int, w: int)
    ensures (z * P + w) % P == w % P
  {
  }

  lemma DoubleStep(x: int, c: int, v: int)
    requires x == c * P + v
    ensures (2 * x * x - 1) % P == (2 * v * v - 1) % P
  {
    var z := 2 * c * c * P + 4 * c * v;
    assert 2 * x * x - 1 == z * P + (2 * v * v - 1) by {
      assert 2 * (c * P + v) * (c * P + v) == z * P + 2 * v * v;
    }
    ResidueOfMultiple(z, 2 * v * v - 1);
  }

  lemma Double(k: nat, v: int, w: int)
    requires Residue(k, v) && (2 * v * v - 1) % P == w
    ensures Residue(k + 1, w)
  {
    assert Two(k + 1) == Two(k) + Two(k);
    hide X, Y, Two;
    var x := X(Two(k));
    Addition(Two(k), Two(k));
    Norm(Two(k));
    assert X(Two(k + 1)) == 2 * x * x - 1;
    DoubleStep(x, x / P, v);
  }

  lemma ResidueStart()
    ensures Residue(0, 2)
  {
    Recurrence(1);
  }

  lemma Chain20()
    ensures Residue(20, 2034043623188865761)
  {
    ResidueStart();
    hide Residue, X, Y, Two;
    Double(0, 2, 7);
    Double(1, 7, 97);
    Double(2, 97, 18817);
    Double(3, 18817, 708158977);
    Double(4, 708158977, 1002978273411373057);
    Double(5, 1002978273411373057, 1333101558513341943);
    Double(6, 1333101558513341943, 1163872878403631248);
    Double(7, 1163872878403631248, 870301294542472710);
    Double(8, 870301294542472710, 668599038410218302);
    Double(9, 668599038410218302, 1123675173060782859);
    Double(10, 1123675173060782859, 1194507440334860369);
    Double(11, 1194507440334860369, 1444283141344868264);
    Double(12, 1444283141344868264, 194884099829779256);
    Double(13, 194884099829779256, 1982963284900496294);
    Double(14, 1982963284900496294, 1807447098448149489);
    Double(15, 1807447098448149489, 2183055788699894597);
    Double(16, 2183055788699894597, 2016913957174956877);
    Double(17, 2016913957174956877, 1714673123263240666);
    Double(18, 1714673123263240666, 360221003414372104);
    Double(19, 360221003414372104, 2034043623188865761);
  }

  lemma Chain40()
    ensures Residue(40, 1416016965693751907)
  {
    Chain20();
    hide Residue, X, Y, Two;
    Double(20, 2034043623188865761, 1490439398729056550);
    Double(21, 1490439398729056550, 1354542574075171749);
    Double(22, 1354542574075171749, 11609214649851827);
    Double(23, 11609214649851827, 2304590893190031769);
    Double(24, 2304590893190031769, 2056921163954736577);
    Double(25, 2056921163954736577, 1058606903481469780);
    Double(26, 1058606903481469780, 304211074482155449);
    Double(27, 304211074482155449, 997236385118778536);
    Double(28, 997236385118778536, 1405457070935788472);
    Double(29, 1405457070935788472, 729343132446919930);
    Double(30, 729343132446919930, 414471841255899732);
    Double(31, 414471841255899732, 936949902950055720);
    Double(32, 936949902950055720, 1050083319764579717);
    Double(33, 1050083319764579717, 845168819036962996);
    Double(34, 845168819036962996, 2078152909156170434);
    Double(35, 2078152909156170434, 327845933615092827);
    Double(36, 327845933615092827, 1809414184693770105);
    Double(37, 1809414184693770105, 1430436135455646856);
    Double(38, 1430436135455646856, 180522217599613937);
    Double(39, 180522217599613937, 1416016965693751907);
  }

  lemma Chain59()
    ensures Residue(59, 0)
  {
    Chain40();
    hide Residue, X, Y, Two;
    Double(40, 1416016965693751907, 661718435476064437);
    Double(41, 661718435476064437, 1598506083236333336);
    Double(42, 1598506083236333336, 1245842688023955290);
    Double(43, 1245842688023955290, 1264323635369985294);
    Double(44, 1264323635369985294, 495519807010911007);
    Double(45, 495519807010911007, 240856760280678712);
    Double(46, 240856760280678712, 1825411611660549916);
    Double(47, 1825411611660549916, 985449985507600183);
    Double(48, 985449985507600183, 1689228240845821282);
    Double(49, 1689228240845821282, 2107251993284587371);
    Double(50, 2107251993284587371, 1584816739008709096);
    Double(51, 1584816739008709096, 2252191332132215105);
    Double(52, 2252191332132215105, 1920320346880967552);
    Double(53, 1920320346880967552, 1281498681413237723);
    Double(54, 1281498681413237723, 1049177855366493244);
    Double(55, 1049177855366493244, 697323983679957246);
    Double(56, 697323983679957246, 1693317751237720973);
    Double(57, 1693317751237720973, 1073741824);
    Double(58, 1073741824, 0);
  }

  const HALF_ORDER: nat := 0x1000_0000_0000_0000

  lemma HalfOrderIsPower()
    ensures Two(60) == HALF_ORDER && Two(59) == HALF_ORDER / 2
  {
    assert Two(10) == 1024;
    TwoSum(10, 10); TwoSum(20, 20); TwoSum(40, 20);
    assert Two(60) == 2 * Two(59);
  }

  lemma {:induction false} TwoSum(m: nat, n: nat)
    ensures Two(m + n) == Two(m) * Two(n)
  {
    if m > 0 {
      TwoSum(m - 1, n);
      assert Two(m + n) == 2 * Two(m - 1 + n);
      assert 2 * (Two(m - 1) * Two(n)) == Two(m) * Two(n);
    }
  }

  // ---------------------------------------------------------------- the order of 2 + sqrt(3)

  /** Half way round, the power is -1, so it is no unity modulo a divisor other than 1 and 2. */
  lemma HalfOrderIsNotUnity(q: int)
    requires Divides(q, P) && q > 2
    ensures !IsUnity(q, HALF_ORDER)
    ensures IsUnity(q, 2 * HALF_ORDER)
  {
    hide X, Y, Two, Divides;
    HalfOrderIsPower();
    Chain59();
    var h := HALF_ORDER / 2;
    var x, y := X(h), Y(h);
    assert x == (x / P) * P by { assert Residue(59, 0); }
    MultipleIsDivisible(P, x / P);
    DividesTransitive(q, P, x);
    Addition(h, h);
    Norm(h);
    DividesProduct(q, x, 2 * x);
    assert X(HALF_ORDER) + 1 == 2 * x * x;
    DividesProduct(q, x, 2 * y);
    assert Y(HALF_ORDER) == 2 * y * x;
    Squared(q);
    if Divides(q, X(HALF_ORDER) - 1) {
      DividesSum(q, X(HALF_ORDER) + 1, X(HALF_ORDER) - 1);
      SmallMultiple(q, 2);
    }
  }

  lemma Squared(q: int)
    requires Divides(q, X(HALF_ORDER) + 1) && Divides(q, Y(HALF_ORDER))
    ensures IsUnity(q, 2 * HALF_ORDER)
  {
    hide X, Y, Divides;
    var x, y := X(HALF_ORDER), Y(HALF_ORDER);
    Addition(HALF_ORDER, HALF_ORDER);
    DividesProduct(q, x + 1, x - 1);
    DividesProduct(q, y, 3 * y);
    DividesSum(q, (x - 1) * (x + 1), 3 * y * y);
    assert (x - 1) * (x + 1) == x * x - 1;
    DividesProduct(q, y, 2 * x);
  }

  lemma MultipleSize(k: int, q: int)
    requires q > 0
    ensures k <= 0 ==> k * q <= 0
    ensures k >= 1 ==> k * q >= q
    ensures k >= 2 ==> k * q >= 2 * q
  {
  }

  lemma SmallMultiple(q: int, n: int)
    requires Divides(q, n) && 0 < n
    ensures q <= n
  {
    var k :| n == Times(k, q);
    if q > 0 { MultipleSize(k, q); }
  }

  /** Doubling an exponent modulo the full order ends at the half-order element. */
  lemma {:induction false} NoSmallUnity(q: int, d: nat, k: nat)
    requires Divides(q, P) && q > 2
    requires k <= 60 && Divides(Two(k), d) && 0 < d < 2 * HALF_ORDER
    ensures !IsUnity(q, d)
    decreases 60 - k
  {
    hide X, Y, Two, Divides, IsUnity;
    HalfOrderIsNotUnity(q);
    if d != HALF_ORDER && IsUnity(q, d) {
      var e := Doubled(d);
      DoubledExponent(d, k);
      DoubledUnity(q, d);
      NoSmallUnity(q, e, k + 1);
    }
  }

  function Doubled(d: nat): nat
    requires 0 < d < 2 * HALF_ORDER && d != HALF_ORDER
  {
    if d < HALF_ORDER then 2 * d else 2 * d - 2 * HALF_ORDER
  }

  lemma DoubledUnity(q: int, d: nat)
    requires 0 < d < 2 * HALF_ORDER && d != HALF_ORDER
    requires IsUnity(q, d) && IsUnity(q, 2 * HALF_ORDER)
    ensures IsUnity(q, Doubled(d))
  {
    hide X, Y, Divides, IsUnity;
    UnitySum(q, d, d);
    if d > HALF_ORDER {
      UnitySum(q, 2 * HALF_ORDER, Doubled(d));
    }
  }

  lemma DoubledExponent(d: nat, k: nat)
    requires k <= 60 && Divides(Two(k), d) && 0 < d < 2 * HALF_ORDER && d != HALF_ORDER
    ensures k < 60
    ensures Divides(Two(k + 1), Doubled(d))
  {
    assert Two(k + 1) == 2 * Two(k);
    FullOrderIsMultiple(k);
    hide Two;
    var i :| d == Times(i, Two(k));
    assert 2 * d == Times(i, Two(k + 1)) by { assert 2 * (i * Two(k)) == i * (2 * Two(k)); }
    DividesSum(Two(k + 1), 2 * d, 2 * HALF_ORDER);
    if k == 60 { OnlyMultiple(i, d); }
  }

  lemma FullOrderIsMultiple(k: nat)
    requires k <= 60
    ensures Divides(Two(k + 1), 2 * HALF_ORDER)
    ensures k == 60 ==> Two(k) == HALF_ORDER
  {
    HalfOrderIsPower();
    TwoSum(60 - k, k);
    assert Two(k + 1) == 2 * Two(k);
    hide Two;
    var a, b := Two(60 - k), Two(k);
    assert 2 * (a * b) == a * (2 * b);
    assert 2 * HALF_ORDER == Times(a, Two(k + 1));
  }

  lemma OnlyMultiple(i: int, d: int)
    requires d == i * HALF_ORDER && 0 < d < 2 * HALF_ORDER
    ensures d == HALF_ORDER
  {
  }

  // ---------------------------------------------------------------- counting residues

  /** The pair of residues of the n-th power, as one number below q * q. */
  function Code(q: int, n: nat): int
    requires q > 0
  {
    (X(n) % q) * q + Y(n) % q
  }

  ghost function Codes(q: int, n: nat): set<int>
    requires q > 0
  {
    if n == 0 then {} else Codes(q, n - 1) + {Code(q, n - 1)}
  }

  lemma CodeBound(q: int, a: int, b: int)
    requires 0 <= a < q && 0 <= b < q
    ensures 0 <= a * q + b < q * q
  {
    assert (q - 1 - a) * q >= 0;
    assert (q - 1 - a) * q == q * q - q - a * q;
  }

  lemma CodeIsPair(q: int, a: int, b: int, c: int, d: int)
    requires 0 <= b < q && 0 <= d < q && a * q + b == c * q + d
    ensures a == c && b == d
  {
    assert (a - c) * q == d - b;
    MultipleGap(a - c, q);
  }

  lemma MultipleGap(k: int, q: int)
    requires q > 0
    ensures k >= 1 ==> k * q >= q
    ensures k <= -1 ==> k * q <= -q
  {
  }

  lemma SameRemainder(q: int, a: int, b: int)
    requires q > 0 && a % q == b % q
    ensures Divides(q, b - a)
  {
    assert b - a == Times(b / q - a / q, q);
  }

  lemma DistinctCodes(q: int, i: nat, j: nat)
    requires Divides(q, P) && q > 2 && i < j < i + 2 * HALF_ORDER
    ensures Code(q, i) != Code(q, j)
  {
    hide X, Y, Divides;
    if Code(q, i) == Code(q, j) {
      CodeIsPair(q, X(i) % q, Y(i) % q, X(j) % q, Y(j) % q);
      SameRemainder(q, X(i), X(j));
      SameRemainder(q, Y(i), Y(j));
      EqualPowersGiveUnity(q, i, j - i);
      MultipleIsDivisible(1, j - i);
      NoSmallUnity(q, j - i, 0);
    }
  }

  lemma {:induction false} CodesSize(q: int, n: nat)
    requires Divides(q, P) && q > 2 && n <= 2 * HALF_ORDER
    ensures |Codes(q, n)| == n
    ensures forall r :: r in Codes(q, n) ==> exists i: nat :: i < n && r == Code(q, i)
  {
    hide Code;
    if n > 0 {
      CodesSize(q, n - 1);
      forall i: nat | i < n - 1 ensures Code(q, i) != Code(q, n - 1) {
        DistinctCodes(q, i, n - 1);
      }
    }
  }

  lemma {:induction false} RangeSize(s: set<int>, n: nat)
    requires forall x :: x in s ==> 0 <= x < n
    ensures |s| <= n
  {
    if n > 0 {
      RangeSize(s - {n - 1}, n - 1);
    } else {
      assert forall x :: x !in s;
      assert s == {};
    }
  }

  /** A divisor above 2 is larger than the square root of P: there are too many powers below it. */
  lemma NoSmallDivisor(q: nat)
    requires Divides(q, P) && q > 2
    ensures q * q > P
  {
    CodesSize(q, 2 * HALF_ORDER);
    forall r | r in Codes(q, 2 * HALF_ORDER) ensures 0 <= r < q * q {
      var i: nat :| i < 2 * HALF_ORDER && r == Code(q, i);
      CodeBound(q, X(i) % q, Y(i) % q);
    }
    RangeSize(Codes(q, 2 * HALF_ORDER), q * q);
  }

  /** core.py:17 works modulo a prime: its residues form a field. */
  lemma PIsPrime()
    ensures IsPrime(P)
  {
    forall d | 1 < d < P ensures !Divides(d, P) {
      if Divides(d, P) {
        var k :| P == Times(k, d);
        assert 1 < k < P by { Cofactor(k, d); }
        assert P == Times(d, k);
        NoSmallDivisor(d);
        NoSmallDivisor(k);
        Squares(k, d);
        assert false;
      }
    }
  }

  lemma Cofactor(k: int, d: int)
    requires 1 < d < P && k * d == P
    ensures 1 < k < P && k != 2 && d != 2
  {
    MultipleSize(k, d);
    if k > 0 {
      MultipleSize(d, k);
    }
  }

  lemma Squares(a: nat, b: nat)
    ensures a * a <= a * b || b * b <= a * b
  {
    if a <= b { assert a * a <= a * b; } else { assert b * b <= a * b; }
  }
}
