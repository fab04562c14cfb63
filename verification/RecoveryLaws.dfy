/** What recovery guarantees about a key that was shared over the slots of a helper. */
module RecoveryLaws {
  import opened Primality
  import opened Wrappers
  import opened Bytes
  import opened Field
  import opened Polynomials
  import opened Interpolation
  import opened Sharing
  import opened Search
  import opened Factors
  import opened HelperBlob
  import opened Recovery

  // ---------------------------------------------------------------- points on the curves

  /** Four polynomials of degree below t with the limbs of k as constant terms. */
  ghost predicate IsCurves(curves: seq<seq<Elem>>, k: Key, t: nat) {
    |curves| == 4 && t >= 1 && forall l :: 0 <= l < 4 ==> |curves[l]| == t && curves[l][0] == k[l]
  }

  predicate Good(curves: seq<seq<Elem>>, p: Point)
    requires |curves| == 4
  {
    p.share == ShareAt(curves, p.x)
  }

  ghost predicate AllGood(curves: seq<seq<Elem>>, ps: seq<Point>)
    requires |curves| == 4
  {
    forall i :: 0 <= i < |ps| ==> Good(curves, ps[i])
  }

  ghost predicate NonZeroXs(ps: seq<Point>) {
    forall i :: 0 <= i < |ps| ==> ps[i].x != 0
  }

  lemma LimbMatches(curves: seq<seq<Elem>>, ps: seq<Point>, i: nat, l: nat)
    requires |curves| == 4 && i < |ps| && l < 4
    ensures Same(Eval(curves[l], Xs(ps)[i]), Ys(ps, l)[i]) <==> ps[i].share[l] == ShareAt(curves, ps[i].x)[l]
  {
    hide Eval;
    SameRemainders(Eval(curves[l], ps[i].x), ps[i].share[l]);
  }

  lemma GoodPassesThrough(curves: seq<seq<Elem>>, ps: seq<Point>, l: nat)
    requires |curves| == 4 && AllGood(curves, ps) && l < 4
    ensures PassesThrough(curves[l], Xs(ps), Ys(ps, l))
  {
    hide Same, Eval, ShareAt;
    forall i | 0 <= i < |ps| ensures Same(Eval(curves[l], Xs(ps)[i]), Ys(ps, l)[i]) {
      assert Good(curves, ps[i]);
      LimbMatches(curves, ps, i, l);
    }
  }

  lemma LimbAtZero(curves: seq<seq<Elem>>, k: Key, t: nat, l: nat)
    requires IsCurves(curves, k, t) && l < 4
    ensures Eval(curves[l], 0) % P == k[l]
  {
    EvalAtZero(curves[l]);
  }

  /** Reconstruction: any t shares at distinct positions interpolate back to the key. */
  lemma SharesReconstruct(curves: seq<seq<Elem>>, k: Key, t: nat, ps: seq<Point>)
    requires IsCurves(curves, k, t) && AllGood(curves, ps) && |ps| == t && Distinct(Xs(ps))
    ensures KeyOf(ps) == Ok(k)
  {
    forall l | 0 <= l < 4 ensures Interpolated(Xs(ps), Ys(ps, l), 0) == k[l] {
      GoodPassesThrough(curves, ps, l);
      Recovers(curves[l], Xs(ps), Ys(ps, l), 0);
      LimbAtZero(curves, k, t, l);
    }
    hide Interpolated;
    assert KeyOf(ps).value == [k[0], k[1], k[2], k[3]] == k;
  }

  /** Through t good points, a point is on the interpolated curve exactly when it is a share. */
  lemma OnCurveIsGood(curves: seq<seq<Elem>>, k: Key, t: nat, ps: seq<Point>, x: Elem, share: Key)
    requires IsCurves(curves, k, t) && AllGood(curves, ps) && |ps| == t && Distinct(Xs(ps))
    ensures OnCurve(ps, x, share) <==> share == ShareAt(curves, x)
  {
    forall l | 0 <= l < 4 ensures Interpolated(Xs(ps), Ys(ps, l), x) == ShareAt(curves, x)[l] {
      GoodPassesThrough(curves, ps, l);
      Recovers(curves[l], Xs(ps), Ys(ps, l), x);
    }
    hide Interpolated, ShareAt;
    assert share == [share[0], share[1], share[2], share[3]];
    var s := ShareAt(curves, x);
    assert s == [s[0], s[1], s[2], s[3]];
  }

  /** t points of which exactly one is off the curves never interpolate to the key. */
  lemma OneBadPoint(curves: seq<seq<Elem>>, k: Key, t: nat, ps: seq<Point>, j: nat)
    requires IsCurves(curves, k, t) && |ps| == t && Distinct(Xs(ps)) && NonZeroXs(ps)
    requires j < |ps| && !Good(curves, ps[j]) && forall i :: 0 <= i < |ps| && i != j ==> Good(curves, ps[i])
    ensures KeyOf(ps).Ok? && KeyOf(ps).value != k
  {
    var l := BadLimb(ps[j].share, ShareAt(curves, ps[j].x));
    hide Same, Eval, ShareAt, Interpolated;
    var xs, ys := Xs(ps), Ys(ps, l);
    forall i | 0 <= i < |ps| && i != j ensures Same(Eval(curves[l], xs[i]), ys[i]) {
      assert Good(curves, ps[i]);
      LimbMatches(curves, ps, i, l);
    }
    LimbMatches(curves, ps, j, l);
    OneErrorIsVisible(xs, ys, curves[l], j);
    LimbAtZero(curves, k, t, l);
    assert KeyOf(ps).value[l] != k[l];
  }

  lemma BadLimb(a: Key, b: Key) returns (l: nat)
    requires a != b
    ensures l < 4 && a[l] != b[l]
  {
    if a[0] != b[0] { l := 0; }
    else if a[1] != b[1] { l := 1; }
    else if a[2] != b[2] { l := 2; }
    else {
      l := 3;
      assert a == [a[0], a[1], a[2], a[3]];
      assert b == [b[0], b[1], b[2], b[3]];
    }
  }

  // ---------------------------------------------------------------- the sweep over good points

  lemma PickedXs(mandatory: seq<Point>, optional: seq<Point>, c: seq<nat>)
    requires IsChoice(c, 0, |optional|, |c|) && InRange(c, |optional|)
    requires Distinct(Xs(mandatory + optional))
    ensures Distinct(Xs(mandatory + Pick(optional, c)))
  {
    var all, some := mandatory + optional, mandatory + Pick(optional, c);
    var xs, zs := Xs(all), Xs(some);
    var m := |mandatory|;
    forall i, j | 0 <= i < j < |zs| ensures zs[i] != zs[j] {
      var a := if i < m then i else m + c[i - m];
      var b := if j < m then j else m + c[j - m];
      assert zs[i] == xs[a] && zs[j] == xs[b];
      assert a < b;
    }
  }

  /** The indices below n of the good optional points, ascending. */
  function GoodIndices(curves: seq<seq<Elem>>, optional: seq<Point>, n: nat): (c: seq<nat>)
    requires |curves| == 4 && n <= |optional|
    ensures |c| <= n
  {
    if n == 0 then [] else
      GoodIndices(curves, optional, n - 1) + if Good(curves, optional[n - 1]) then [n - 1] else []
  }

  lemma {:induction false} GoodIndicesAre(curves: seq<seq<Elem>>, optional: seq<Point>, n: nat)
    requires |curves| == 4 && n <= |optional|
    ensures var c := GoodIndices(curves, optional, n);
      && IsChoice(c, 0, n, |c|)
      && forall i :: 0 <= i < |c| ==> Good(curves, optional[c[i]])
  {
    hide Good;
    if n > 0 { GoodIndicesAre(curves, optional, n - 1); }
  }

  lemma GoodChoice(curves: seq<seq<Elem>>, optional: seq<Point>, need: nat) returns (c: seq<nat>)
    requires |curves| == 4 && need <= |GoodIndices(curves, optional, |optional|)|
    ensures IsChoice(c, 0, |optional|, need) && InRange(c, |optional|)
    ensures AllGood(curves, Pick(optional, c))
  {
    GoodIndicesAre(curves, optional, |optional|);
    hide Good;
    c := GoodIndices(curves, optional, |optional|)[..need];
  }

  /** Subsets of separated points never make the inversion raise. */
  lemma NoCollision(sha: Sha256, mandatory: seq<Point>, optional: seq<Point>, c: seq<nat>, cw: bytes)
    requires IsChoice(c, 0, |optional|, |c|) && InRange(c, |optional|) && Distinct(Xs(mandatory + optional))
    ensures Try(sha, mandatory, optional, c, cw) != Collides
  {
    hide CheckWord, Pick, Xs;
    PickedXs(mandatory, optional, c);
  }

  /** With enough good points the sweep succeeds, and the key it finds is the shared one. */
  lemma SweepSucceeds(sha: Sha256, curves: seq<seq<Elem>>, k: Key, t: nat, mandatory: seq<Point>, optional: seq<Point>)
    requires IsCurves(curves, k, t) && AllGood(curves, mandatory) && |mandatory| <= t
    requires |mandatory| + |GoodIndices(curves, optional, |optional|)| >= t
    requires Distinct(Xs(mandatory + optional))
    ensures FindOf(sha, mandatory, optional, t, CheckWord(sha, k)).Ok?
    ensures FindOf(sha, mandatory, optional, t, CheckWord(sha, k)).value.Some?
  {
    assert |curves| == 4;
    hide KeyOf, CheckWord, GoodIndices, Xs, Good, IsCurves;
    var cw, need := CheckWord(sha, k), t - |mandatory|;
    var c := GoodChoice(curves, optional, need);
    PickedXs(mandatory, optional, c);
    SharesReconstruct(curves, k, t, mandatory + Pick(optional, c));
    assert Try(sha, mandatory, optional, c, cw) == Passes;
    SweepIsExact(sha, mandatory, optional, t, cw);
    hide Try;
    forall b | IsChoice(b, 0, |optional|, need) && InRange(b, |optional|)
      ensures Try(sha, mandatory, optional, b, cw) != Collides
    {
      NoCollision(sha, mandatory, optional, b, cw);
    }
  }

  /** A choice around one bad hard-locked point fails. */
  lemma ChoiceFails(sha: Sha256, curves: seq<seq<Elem>>, k: Key, t: nat, mandatory: seq<Point>, optional: seq<Point>,
                    j: nat, c: seq<nat>)
    requires IsCurves(curves, k, t) && CheckWordIdentifies(sha, k) && |mandatory| <= t
    requires NonZeroXs(mandatory + optional) && Distinct(Xs(mandatory + optional))
    requires j < |mandatory| && !Good(curves, mandatory[j])
    requires forall i :: 0 <= i < |mandatory| && i != j ==> Good(curves, mandatory[i])
    requires AllGood(curves, optional)
    requires IsChoice(c, 0, |optional|, t - |mandatory|) && InRange(c, |optional|)
    ensures Try(sha, mandatory, optional, c, CheckWord(sha, k)) == Fails
  {
    hide CheckWord, Xs, Good, KeyOf;
    var ps := mandatory + Pick(optional, c);
    PickedXs(mandatory, optional, c);
    forall i | 0 <= i < |ps| && i != j ensures Good(curves, ps[i]) {
      if i >= |mandatory| {
        assert ps[i] == optional[c[i - |mandatory|]];
      }
    }
    forall i | 0 <= i < |ps| ensures ps[i].x != 0 {
      var all := mandatory + optional;
      assert ps[i] == all[if i < |mandatory| then i else |mandatory| + c[i - |mandatory|]];
    }
    OneBadPoint(curves, k, t, ps, j);
  }

  /** One bad hard-locked point can never be recovered around. */
  lemma SweepFails(sha: Sha256, curves: seq<seq<Elem>>, k: Key, t: nat, mandatory: seq<Point>, optional: seq<Point>,
                   j: nat)
    requires IsCurves(curves, k, t) && CheckWordIdentifies(sha, k) && |mandatory| <= t
    requires NonZeroXs(mandatory + optional) && Distinct(Xs(mandatory + optional))
    requires j < |mandatory| && !Good(curves, mandatory[j])
    requires forall i :: 0 <= i < |mandatory| && i != j ==> Good(curves, mandatory[i])
    requires AllGood(curves, optional)
    ensures FindOf(sha, mandatory, optional, t, CheckWord(sha, k)) == Ok(None)
  {
    hide CheckWord, Xs, Good, KeyOf, Try, CheckWordIdentifies, NonZeroXs;
    forall c | IsChoice(c, 0, |optional|, t - |mandatory|) && InRange(c, |optional|)
      ensures Try(sha, mandatory, optional, c, CheckWord(sha, k)) == Fails
    {
      ChoiceFails(sha, curves, k, t, mandatory, optional, j, c);
    }
    SweepIsExact(sha, mandatory, optional, t, CheckWord(sha, k));
  }

  // ---------------------------------------------------------------- genuine helpers

  /** The helper's shares are those of key k on the curves, over the enrolled factors. */
  ghost predicate Genuine(sha: Sha256, h: Helper, k: Key, curves: seq<seq<Elem>>, enrolled: Raw) {
    && SlotNames(h.slots) && IsCurves(curves, k, h.threshold) && h.checkWord == CheckWord(sha, k)
    && (forall i :: 0 <= i < |h.slots| ==> EnrolledSlot(sha, curves, enrolled, h.salt, h.slots[i]))
  }

  predicate EnrolledSlot(sha: Sha256, curves: seq<seq<Elem>>, enrolled: Raw, salt: byte, s: HelperSlot)
    requires IsSlotName(s.name) && |curves| == 4
  {
    IsPresent(enrolled, s) && Good(curves, PointOf(sha, enrolled, salt, s))
  }

  predicate Unchanged(factors: Raw, enrolled: Raw, s: HelperSlot) {
    Get(factors, s.name) == Get(enrolled, s.name)
  }

  /** The slots that are not hard-locked and still have their enrolled value. */
  function UnchangedCount(factors: Raw, enrolled: Raw, slots: seq<HelperSlot>): nat {
    if slots == [] then 0 else
      var last := slots[|slots| - 1];
      UnchangedCount(factors, enrolled, slots[..|slots| - 1])
      + if !last.mandatory && Unchanged(factors, enrolled, last) then 1 else 0
  }

  predicate LocksIntact(factors: Raw, enrolled: Raw, slots: seq<HelperSlot>) {
    forall i :: 0 <= i < |slots| && slots[i].mandatory ==> Unchanged(factors, enrolled, slots[i])
  }

  /** No two present slots derive the same x-coordinate. */
  predicate Separated(sha: Sha256, h: Helper, factors: Raw)
    requires SlotNames(h.slots)
  {
    Distinct(Xs(Points(sha, factors, h.salt, h.slots, true) + Points(sha, factors, h.salt, h.slots, false)))
  }

  lemma GoodIndicesPrefix(curves: seq<seq<Elem>>, ps: seq<Point>, more: seq<Point>, n: nat)
    requires |curves| == 4 && n <= |ps|
    ensures GoodIndices(curves, ps + more, n) == GoodIndices(curves, ps, n)
  {
    hide Good;
    if n > 0 { GoodIndicesPrefix(curves, ps, more, n - 1); }
  }

  lemma {:induction false} UnchangedAreGood(sha: Sha256, curves: seq<seq<Elem>>, enrolled: Raw, salt: byte,
                                            slots: seq<HelperSlot>, factors: Raw)
    requires SlotNames(slots) && |curves| == 4
    requires forall i :: 0 <= i < |slots| ==> EnrolledSlot(sha, curves, enrolled, salt, slots[i])
    ensures var ps := Points(sha, factors, salt, slots, false);
      |GoodIndices(curves, ps, |ps|)| >= UnchangedCount(factors, enrolled, slots)
  {
    if slots != [] {
      var front, last := slots[..|slots| - 1], slots[|slots| - 1];
      UnchangedAreGood(sha, curves, enrolled, salt, front, factors);
      var ps := Points(sha, factors, salt, front, false);
      assert EnrolledSlot(sha, curves, enrolled, salt, last);
      UnchangedIsGood(sha, curves, enrolled, salt, last, factors);
      GoodAppend(curves, ps, PointOf(sha, factors, salt, last));
      hide Good, IsPresent, Unchanged, PointOf, IsSlotName, GoodIndices, EnrolledSlot;
      assert Points(sha, factors, salt, slots, false) ==
        if IsPresent(factors, last) && !last.mandatory then ps + [PointOf(sha, factors, salt, last)] else ps;
    }
  }

  lemma UnchangedIsGood(sha: Sha256, curves: seq<seq<Elem>>, enrolled: Raw, salt: byte, s: HelperSlot, factors: Raw)
    requires IsSlotName(s.name) && |curves| == 4 && EnrolledSlot(sha, curves, enrolled, salt, s)
    ensures Unchanged(factors, enrolled, s) ==> IsPresent(factors, s) && Good(curves, PointOf(sha, factors, salt, s))
  {
    hide Good, DeriveX, IsSlotName;
  }

  lemma GoodAppend(curves: seq<seq<Elem>>, ps: seq<Point>, p: Point)
    requires |curves| == 4
    ensures |GoodIndices(curves, ps + [p], |ps| + 1)|
      == |GoodIndices(curves, ps, |ps|)| + if Good(curves, p) then 1 else 0
  {
    hide Good;
    GoodIndicesPrefix(curves, ps, [p], |ps|);
  }

  lemma {:induction false} IntactLocks(sha: Sha256, curves: seq<seq<Elem>>, enrolled: Raw, salt: byte,
                                       slots: seq<HelperSlot>, factors: Raw)
    requires SlotNames(slots) && |curves| == 4 && LocksIntact(factors, enrolled, slots)
    requires forall i :: 0 <= i < |slots| ==> EnrolledSlot(sha, curves, enrolled, salt, slots[i])
    ensures AllGood(curves, Points(sha, factors, salt, slots, true))
    ensures |Points(sha, factors, salt, slots, true)| == MandatoryCount(slots)
    ensures MissingMandatory(factors, slots) == []
  {
    hide Good, DeriveX, IsSlotName;
    if slots != [] {
      var front, last := slots[..|slots| - 1], slots[|slots| - 1];
      IntactLocks(sha, curves, enrolled, salt, front, factors);
      assert EnrolledSlot(sha, curves, enrolled, salt, last);
    }
  }

  /** With the hard locks and enough other slots unchanged, the sweep over the present points succeeds. */
  lemma EnoughPoints(sha: Sha256, h: Helper, k: Key, curves: seq<seq<Elem>>, enrolled: Raw, factors: Raw)
    requires Genuine(sha, h, k, curves, enrolled)
    requires LocksIntact(factors, enrolled, h.slots) && MandatoryCount(h.slots) <= h.threshold
    requires MandatoryCount(h.slots) + UnchangedCount(factors, enrolled, h.slots) >= h.threshold
    requires Separated(sha, h, factors)
    ensures MissingMandatory(factors, h.slots) == []
    ensures var r := FindOf(sha, Points(sha, factors, h.salt, h.slots, true),
                            Points(sha, factors, h.salt, h.slots, false),
                            h.threshold, CheckWord(sha, k));
      r.Ok? && r.value.Some?
  {
    UnchangedAreGood(sha, curves, enrolled, h.salt, h.slots, factors);
    IntactLocks(sha, curves, enrolled, h.salt, h.slots, factors);
    hide EnrolledSlot, GoodIndices, UnchangedCount, LocksIntact, MandatoryCount, Points, MissingMandatory, CheckWord,
      FindOf, Xs, AllGood, IsCurves;
    SweepSucceeds(sha, curves, k, h.threshold, Points(sha, factors, h.salt, h.slots, true),
                  Points(sha, factors, h.salt, h.slots, false));
  }

  lemma SucceedsWhenEnough(sha: Sha256, h: Helper, k: Key, curves: seq<seq<Elem>>, enrolled: Raw, factors: Raw)
    requires Genuine(sha, h, k, curves, enrolled)
    requires LocksIntact(factors, enrolled, h.slots) && MandatoryCount(h.slots) <= h.threshold
    requires MandatoryCount(h.slots) + UnchangedCount(factors, enrolled, h.slots) >= h.threshold
    requires Separated(sha, h, factors)
    ensures var r := RecoverHelper(sha, h, factors);
      && r.Ok? && r.value.Recovered? && r.value.hwid == HwidOf(sha, r.value.key)
      && CheckWord(sha, r.value.key) == h.checkWord
  {
    EnoughPoints(sha, h, k, curves, enrolled, factors);
    hide UnchangedCount, LocksIntact, MandatoryCount, Points, MissingMandatory, PresentCount, Classified, KeyOf,
      CheckWord, HwidOf, FindOf, Separated, IsCurves, EnrolledSlot, IsSlotName;
    FoundKey(sha, Points(sha, factors, h.salt, h.slots, true), Points(sha, factors, h.salt, h.slots, false),
             h.threshold, h.checkWord);
  }

  /**
   Fault tolerance: while every hard-locked slot and enough of the others keep their enrolled value,
   recovery returns exactly the enrolled key and identifier, whatever the other slots became.
   */
  lemma FaultTolerance(sha: Sha256, h: Helper, k: Key, curves: seq<seq<Elem>>, enrolled: Raw, factors: Raw)
    requires Genuine(sha, h, k, curves, enrolled) && CheckWordIdentifies(sha, k)
    requires LocksIntact(factors, enrolled, h.slots) && MandatoryCount(h.slots) <= h.threshold
    requires MandatoryCount(h.slots) + UnchangedCount(factors, enrolled, h.slots) >= h.threshold
    requires Separated(sha, h, factors)
    ensures var r := RecoverHelper(sha, h, factors);
      r.Ok? && r.value.Recovered? && r.value.key == k && r.value.hwid == HwidOf(sha, k)
  {
    SucceedsWhenEnough(sha, h, k, curves, enrolled, factors);
    hide RecoverHelper, LocksIntact, MandatoryCount, UnchangedCount, Separated, IsCurves, EnrolledSlot, IsSlotName;
  }
}
