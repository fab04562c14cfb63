/** The exhaustive subset sweep of recovery (core.py:478-503). */
module Search {
  import opened Wrappers
  import opened Bytes
  import opened Field
  import opened Polynomials
  import opened Interpolation
  import opened Sharing

  // ---------------------------------------------------------------- combinations in order

  /** The increasing choices of r indices from lo .. n - 1. */
  predicate IsChoice(c: seq<nat>, lo: nat, n: nat, r: nat) {
    && |c| == r
    && (forall i :: 0 <= i < r ==> lo <= c[i] < n)
    && (forall i, j :: 0 <= i < j < r ==> c[i] < c[j])
  }

  predicate LexLess(a: seq<nat>, b: seq<nat>) {
    a != [] && b != [] && (a[0] < b[0] || (a[0] == b[0] && LexLess(a[1..], b[1..])))
  }

  function Prepend(i: nat, cs: seq<seq<nat>>): (r: seq<seq<nat>>)
    ensures |r| == |cs|
  {
    seq(|cs|, j requires 0 <= j < |cs| => [i] + cs[j])
  }

  /** itertools.combinations(range(lo, n), r) */
  function Combinations(lo: nat, n: nat, r: nat): seq<seq<nat>>
    decreases n - lo, r
  {
    if r == 0 then [[]]
    else if lo >= n then []
    else Prepend(lo, Combinations(lo + 1, n, r - 1)) + Combinations(lo + 1, n, r)
  }

  lemma {:induction false} EveryCombinationIsChoice(lo: nat, n: nat, r: nat, k: nat)
    requires k < |Combinations(lo, n, r)|
    ensures IsChoice(Combinations(lo, n, r)[k], lo, n, r)
    decreases n - lo, r
  {
    if r > 0 {
      var first := Combinations(lo + 1, n, r - 1);
      if k < |first| {
        EveryCombinationIsChoice(lo + 1, n, r - 1, k);
        assert Combinations(lo, n, r)[k] == [lo] + first[k];
      } else {
        EveryCombinationIsChoice(lo + 1, n, r, k - |first|);
      }
    }
  }

  /** The position of a choice in the enumeration. */
  lemma {:induction false} EveryChoiceIsListed(c: seq<nat>, lo: nat, n: nat, r: nat) returns (k: nat)
    requires IsChoice(c, lo, n, r)
    ensures k < |Combinations(lo, n, r)| && Combinations(lo, n, r)[k] == c
    decreases n - lo, r
  {
    if r == 0 {
      k := 0;
      assert c == [];
    } else {
      ChoiceSteps(c, lo, n, r);
      hide IsChoice, Combinations;
      if c[0] == lo {
        k := EveryChoiceIsListed(c[1..], lo + 1, n, r - 1);
        CombinationsSplit(lo, n, r, k);
      } else {
        k := EveryChoiceIsListed(c, lo + 1, n, r);
        k := k + |Combinations(lo + 1, n, r - 1)|;
        CombinationsSplit(lo, n, r, k);
      }
    }
  }

  lemma CombinationsSplit(lo: nat, n: nat, r: nat, k: nat)
    requires r > 0 && lo < n
    ensures var first, rest := Combinations(lo + 1, n, r - 1), Combinations(lo + 1, n, r);
      && |Combinations(lo, n, r)| == |first| + |rest|
      && (k < |first| ==> Combinations(lo, n, r)[k] == [lo] + first[k])
      && (|first| <= k < |first| + |rest| ==> Combinations(lo, n, r)[k] == rest[k - |first|])
  {
  }

  lemma ChoiceSteps(c: seq<nat>, lo: nat, n: nat, r: nat)
    requires IsChoice(c, lo, n, r) && r > 0
    ensures |c| == r && lo < n && c == [c[0]] + c[1..]
    ensures if c[0] == lo then IsChoice(c[1..], lo + 1, n, r - 1) else IsChoice(c, lo + 1, n, r)
  {
    assert lo <= c[0] < n;
    assert forall i :: 0 < i < r ==> c[0] < c[i];
  }

  lemma {:induction false} CombinationsAscend(lo: nat, n: nat, r: nat, i: nat, j: nat)
    requires i < j < |Combinations(lo, n, r)|
    ensures LexLess(Combinations(lo, n, r)[i], Combinations(lo, n, r)[j])
    decreases n - lo, r
  {
    if r > 0 {
      var first, rest := Combinations(lo + 1, n, r - 1), Combinations(lo + 1, n, r);
      if j < |first| {
        CombinationsAscend(lo + 1, n, r - 1, i, j);
        assert ([lo] + first[i])[1..] == first[i] && ([lo] + first[j])[1..] == first[j];
      } else if i >= |first| {
        CombinationsAscend(lo + 1, n, r, i - |first|, j - |first|);
      } else {
        EveryCombinationIsChoice(lo + 1, n, r, j - |first|);
      }
    }
  }

  lemma {:induction false} LexIrreflexive(a: seq<nat>)
    ensures !LexLess(a, a)
  {
    if a != [] { LexIrreflexive(a[1..]); }
  }

  lemma {:induction false} LexAsymmetric(a: seq<nat>, b: seq<nat>)
    requires LexLess(a, b)
    ensures !LexLess(b, a)
  {
    if a[0] == b[0] { LexAsymmetric(a[1..], b[1..]); }
  }

  // ---------------------------------------------------------------- keys from points

  datatype Point = Point(x: Elem, share: Key, name: string)

  function Xs(points: seq<Point>): (xs: seq<Elem>)
    ensures |xs| == |points|
  {
    seq(|points|, i requires 0 <= i < |points| => points[i].x)
  }

  function Ys(points: seq<Point>, l: nat): (ys: seq<Elem>)
    requires l < 4
    ensures |ys| == |points|
  {
    seq(|points|, i requires 0 <= i < |points| => points[i].share[l])
  }

  /** The key that the points interpolate to; two equal x-coordinates make the inversion raise. */
  function KeyOf(points: seq<Point>): (r: Result<Key>)
    ensures r.Ok? <==> Distinct(Xs(points))
  {
    if Distinct(Xs(points)) then
      var xs := Xs(points);
      Ok(seq(4, l requires 0 <= l < 4 => Interpolated(xs, Ys(points, l), 0)))
    else Err(ValueError)
  }

  /** _key_from_points */
  method KeyFromPoints(points: seq<Point>) returns (r: Result<Key>)
    ensures r == KeyOf(points)
  {
    hide Interpolated;
    var xs := Xs(points);
    var limbs: seq<Elem> := [];
    for limb := 0 to 4
      invariant |limbs| == limb && (limb > 0 ==> Distinct(xs))
      invariant forall l :: 0 <= l < limb ==> limbs[l] == Interpolated(xs, Ys(points, l), 0)
    {
      var y := LagrangeAtZero(xs, Ys(points, limb));
      if y.Err? { return Err(y.error); }
      limbs := limbs + [y.value];
    }
    assert limbs == KeyOf(points).value;
    return Ok(limbs);
  }

  // ---------------------------------------------------------------- the sweep

  predicate InRange(c: seq<nat>, n: nat) {
    forall i :: 0 <= i < |c| ==> c[i] < n
  }

  function Pick(optional: seq<Point>, c: seq<nat>): (r: seq<Point>)
    requires InRange(c, |optional|)
    ensures |r| == |c|
  {
    seq(|c|, i requires 0 <= i < |c| => optional[c[i]])
  }

  datatype Trial = Collides | Fails | Passes

  /** One turn of the sweep, while nothing has been found yet. */
  function Try(sha: Sha256, mandatory: seq<Point>, optional: seq<Point>, c: seq<nat>, cw: bytes): Trial
    requires InRange(c, |optional|)
  {
    match KeyOf(mandatory + Pick(optional, c))
    case Err(_) => Collides
    case Ok(k) => if CheckWord(sha, k) == cw then Passes else Fails
  }

  datatype Sweep = Raises | NoMatch | Match(combo: seq<nat>)

  predicate AllInRange(cs: seq<seq<nat>>, n: nat) {
    forall i :: 0 <= i < |cs| ==> InRange(cs[i], n)
  }

  function Scan(sha: Sha256, mandatory: seq<Point>, optional: seq<Point>, cs: seq<seq<nat>>, cw: bytes, k: nat): Sweep
    requires k <= |cs| && AllInRange(cs, |optional|)
    decreases |cs| - k
  {
    if k == |cs| then NoMatch else
      match Try(sha, mandatory, optional, cs[k], cw)
      case Collides => Raises
      case Passes => Match(cs[k])
      case Fails => Scan(sha, mandatory, optional, cs, cw, k + 1)
  }

  function Need(t: nat, mandatory: nat): nat {
    if t > mandatory then t - mandatory else 0
  }

  lemma ChoicesInRange(n: nat, r: nat)
    ensures AllInRange(Combinations(0, n, r), n)
  {
    forall i | 0 <= i < |Combinations(0, n, r)| ensures InRange(Combinations(0, n, r)[i], n) {
      EveryCombinationIsChoice(0, n, r, i);
    }
  }

  /** What the sweep over all subsets ends with. */
  function SweepOf(sha: Sha256, mandatory: seq<Point>, optional: seq<Point>, t: nat, cw: bytes): Sweep {
    var need := Need(t, |mandatory|);
    if need > |optional| then NoMatch else
      ChoicesInRange(|optional|, need);
      Scan(sha, mandatory, optional, Combinations(0, |optional|, need), cw, 0)
  }

  lemma ScanStep(sha: Sha256, mandatory: seq<Point>, optional: seq<Point>, cs: seq<seq<nat>>, cw: bytes, k: nat)
    requires k <= |cs| && AllInRange(cs, |optional|)
    ensures Scan(sha, mandatory, optional, cs, cw, k) ==
      if k == |cs| then NoMatch
      else if Try(sha, mandatory, optional, cs[k], cw) == Collides then Raises
      else if Try(sha, mandatory, optional, cs[k], cw) == Passes then Match(cs[k])
      else Scan(sha, mandatory, optional, cs, cw, k + 1)
  {
    hide Try, InRange, CheckWord;
  }

  lemma ScanStopsAtFirst(sha: Sha256, mandatory: seq<Point>, optional: seq<Point>, cs: seq<seq<nat>>, cw: bytes)
    returns (j: nat)
    requires AllInRange(cs, |optional|)
    ensures j <= |cs|
    ensures forall i :: 0 <= i < j ==> Try(sha, mandatory, optional, cs[i], cw) == Fails
    ensures Scan(sha, mandatory, optional, cs, cw, 0) ==
      if j == |cs| then NoMatch
      else if Try(sha, mandatory, optional, cs[j], cw) == Passes then Match(cs[j]) else Raises
    ensures j < |cs| ==> Try(sha, mandatory, optional, cs[j], cw) != Fails
  {
    hide Try, Scan, InRange;
    j := 0;
    while j < |cs| && Try(sha, mandatory, optional, cs[j], cw) == Fails
      invariant j <= |cs|
      invariant forall i :: 0 <= i < j ==> Try(sha, mandatory, optional, cs[i], cw) == Fails
      invariant Scan(sha, mandatory, optional, cs, cw, 0) == Scan(sha, mandatory, optional, cs, cw, j)
    {
      ScanStep(sha, mandatory, optional, cs, cw, j);
      j := j + 1;
    }
    ScanStep(sha, mandatory, optional, cs, cw, j);
  }

  /** Every choice below c in the enumeration order was tried and failed. */
  ghost predicate AllBelowFail(sha: Sha256, mandatory: seq<Point>, optional: seq<Point>, c: seq<nat>, cw: bytes) {
    forall b :: IsChoice(b, 0, |optional|, |c|) && LexLess(b, c) && InRange(b, |optional|)
      ==> Try(sha, mandatory, optional, b, cw) == Fails
  }

  ghost predicate IsFirst(sha: Sha256, mandatory: seq<Point>, optional: seq<Point>, t: nat, cw: bytes, c: seq<nat>,
                          what: Trial)
  {
    && IsChoice(c, 0, |optional|, Need(t, |mandatory|)) && InRange(c, |optional|)
    && Try(sha, mandatory, optional, c, cw) == what
    && AllBelowFail(sha, mandatory, optional, c, cw)
  }

  lemma FirstIsUnique(sha: Sha256, mandatory: seq<Point>, optional: seq<Point>, t: nat, cw: bytes,
                      a: seq<nat>, b: seq<nat>, j: nat, u: Trial, v: Trial)
    requires u != Fails && v != Fails
    requires IsFirst(sha, mandatory, optional, t, cw, a, u) && IsFirst(sha, mandatory, optional, t, cw, b, v)
    requires j < |Combinations(0, |optional|, Need(t, |mandatory|))|
    requires a == Combinations(0, |optional|, Need(t, |mandatory|))[j]
    ensures a == b
  {
    hide Try, Combinations, IsChoice, LexLess;
    var n, need := |optional|, Need(t, |mandatory|);
    ChoiceLength(a, 0, n, need);
    ChoiceLength(b, 0, n, need);
    var k := EveryChoiceIsListed(b, 0, n, need);
    if j < k {
      CombinationsAscend(0, n, need, j, k);
    } else if k < j {
      CombinationsAscend(0, n, need, k, j);
    }
  }

  lemma ChoiceLength(c: seq<nat>, lo: nat, n: nat, r: nat)
    requires IsChoice(c, lo, n, r)
    ensures |c| == r
  {
  }

  lemma ListedIsFirst(sha: Sha256, mandatory: seq<Point>, optional: seq<Point>, t: nat, cw: bytes, j: nat)
    requires var cs := Combinations(0, |optional|, Need(t, |mandatory|));
      && j < |cs| && AllInRange(cs, |optional|)
    requires var cs := Combinations(0, |optional|, Need(t, |mandatory|));
      forall i :: 0 <= i < j ==> Try(sha, mandatory, optional, cs[i], cw) == Fails
    ensures var c := Combinations(0, |optional|, Need(t, |mandatory|))[j];
      IsFirst(sha, mandatory, optional, t, cw, c, Try(sha, mandatory, optional, c, cw))
  {
    hide Try, Combinations, IsChoice, LexLess;
    var n, need := |optional|, Need(t, |mandatory|);
    var c := Combinations(0, n, need)[j];
    EveryCombinationIsChoice(0, n, need, j);
    ChoiceLength(c, 0, n, need);
    forall b | IsChoice(b, 0, n, need) && LexLess(b, c) && InRange(b, n)
      ensures Try(sha, mandatory, optional, b, cw) == Fails
    {
      var k := EveryChoiceIsListed(b, 0, n, need);
      if j < k { CombinationsAscend(0, n, need, j, k); LexAsymmetric(b, c); }
      LexIrreflexive(c);
    }
  }

  /**
   The sweep is sound, complete and first-match: it matches exactly the lexicographically first
   choice that passes the check word, raises exactly when a colliding choice comes before every
   passing one, and finds nothing exactly when every choice is tried and fails.
   */
  lemma SweepIsExact(sha: Sha256, mandatory: seq<Point>, optional: seq<Point>, t: nat, cw: bytes)
    ensures forall c :: SweepOf(sha, mandatory, optional, t, cw) == Match(c)
                   <==> IsFirst(sha, mandatory, optional, t, cw, c, Passes)
    ensures SweepOf(sha, mandatory, optional, t, cw) == Raises
       <==> exists c :: IsFirst(sha, mandatory, optional, t, cw, c, Collides)
    ensures SweepOf(sha, mandatory, optional, t, cw) == NoMatch
       <==> forall c :: IsChoice(c, 0, |optional|, Need(t, |mandatory|)) && InRange(c, |optional|)
                        ==> Try(sha, mandatory, optional, c, cw) == Fails
  {
    var n, need := |optional|, Need(t, |mandatory|);
    if need > n {
      forall c | IsChoice(c, 0, n, need) ensures false {
        TooFewToChoose(c, 0, n, need);
      }
    } else {
      ChoicesInRange(n, need);
      var cs := Combinations(0, n, need);
      var j := ScanStopsAtFirst(sha, mandatory, optional, cs, cw);
      hide Try, Combinations, IsChoice, LexLess, Scan;
      if j == |cs| {
        forall c | IsChoice(c, 0, n, need) && InRange(c, n) ensures Try(sha, mandatory, optional, c, cw) == Fails {
          var k := EveryChoiceIsListed(c, 0, n, need);
        }
      } else {
        ListedIsFirst(sha, mandatory, optional, t, cw, j);
        forall c, what | what != Fails && IsFirst(sha, mandatory, optional, t, cw, c, what) ensures c == cs[j] {
          FirstIsUnique(sha, mandatory, optional, t, cw, cs[j], c, j, Try(sha, mandatory, optional, cs[j], cw), what);
        }
      }
    }
  }

  lemma {:induction false} TooFewToChoose(c: seq<nat>, lo: nat, n: nat, r: nat)
    requires IsChoice(c, lo, n, r)
    ensures r > 0 ==> lo + r <= n
  {
    if r > 0 {
      assert lo <= c[0] < n;
      assert forall i :: 0 < i < r ==> c[0] < c[i];
      TooFewToChoose(c[1..], lo + 1, n, r - 1);
    }
  }

  // ---------------------------------------------------------------- the loop

  /** The points that recovered a key, and the names of the optional ones among them. */
  datatype Subset = Subset(points: seq<Point>, names: set<string>)

  function SubsetOf(mandatory: seq<Point>, optional: seq<Point>, c: seq<nat>): Subset
    requires InRange(c, |optional|)
  {
    Subset(mandatory + Pick(optional, c), set i | 0 <= i < |c| :: optional[c[i]].name)
  }

  lemma MatchInRange(sha: Sha256, mandatory: seq<Point>, optional: seq<Point>, t: nat, cw: bytes)
    ensures var s := SweepOf(sha, mandatory, optional, t, cw); s.Match? ==> InRange(s.combo, |optional|)
  {
    SweepIsExact(sha, mandatory, optional, t, cw);
  }

  /** The value of _find_recovering_subset. */
  function FindOf(sha: Sha256, mandatory: seq<Point>, optional: seq<Point>, t: nat, cw: bytes): Result<Option<Subset>> {
    MatchInRange(sha, mandatory, optional, t, cw);
    match SweepOf(sha, mandatory, optional, t, cw)
    case Raises => Err(ValueError)
    case NoMatch => Ok(None)
    case Match(c) => Ok(Some(SubsetOf(mandatory, optional, c)))
  }

  /** _find_recovering_subset: sweeps every combination, remembering the first that passes. */
  method FindRecoveringSubset(sha: Sha256, mandatory: seq<Point>, optional: seq<Point>, t: nat, cw: bytes)
    returns (r: Result<Option<Subset>>)
    ensures r == FindOf(sha, mandatory, optional, t, cw)
  {
    hide KeyOf, CheckWord, Combinations;
    var need := if t > |mandatory| then t - |mandatory| else 0;
    if need > |optional| { return Ok(None); }
    ChoicesInRange(|optional|, need);
    var cs := Combinations(0, |optional|, need);
    var found: Option<Subset> := None;
    ghost var combo: seq<nat> := [];
    for k := 0 to |cs|
      invariant found.None? ==> SweepOf(sha, mandatory, optional, t, cw) == Scan(sha, mandatory, optional, cs, cw, k)
      invariant found.Some? ==> InRange(combo, |optional|) && found.value == SubsetOf(mandatory, optional, combo)
      invariant found.Some? ==> SweepOf(sha, mandatory, optional, t, cw) == Match(combo)
    {
      if found.None? {
        var points := mandatory + Pick(optional, cs[k]);
        var key := KeyFromPoints(points);
        if key.Err? {
          KeyErrorKind(points);
          return Err(key.error);
        }
        if CheckWord(sha, key.value) == cw {
          found := Some(Subset(points, set i | 0 <= i < |cs[k]| :: optional[cs[k][i]].name));
          combo := cs[k];
        }
      }
    }
    return Ok(found);
  }

  lemma KeyErrorKind(points: seq<Point>)
    ensures KeyOf(points).Err? ==> KeyOf(points).error == ValueError
  {
  }
}
