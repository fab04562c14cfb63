/**
 The one way an undrifted-enough machine can fail to recover: two present slots whose values now
 derive the same x-coordinate make the inversion raise inside the sweep (core.py:75-76, 450-461, 483-503).
 */
module Collisions {
  import opened Wrappers
  import opened Bytes
  import opened Field
  import opened Polynomials
  import opened Sharing
  import opened Search
  import opened Factors
  import opened HelperBlob
  import opened Recovery
  import opened RecoveryLaws
  import opened Diagnosis
  import opened Classification

  // ---------------------------------------------------------------- the enrolled points that remain

  predicate Remains(factors: Raw, enrolled: Raw, p: Point) {
    Get(factors, p.name) == Get(enrolled, p.name)
  }

  /** The indices below n of the points whose slots still have their enrolled value. */
  function Remaining(factors: Raw, enrolled: Raw, ps: seq<Point>, n: nat): (c: seq<nat>)
    requires n <= |ps|
  {
    if n == 0 then [] else
      Remaining(factors, enrolled, ps, n - 1) + if Remains(factors, enrolled, ps[n - 1]) then [n - 1] else []
  }

  lemma {:induction false} RemainingAre(factors: Raw, enrolled: Raw, ps: seq<Point>, n: nat)
    requires n <= |ps|
    ensures var c := Remaining(factors, enrolled, ps, n);
      && IsChoice(c, 0, n, |c|)
      && forall i :: 0 <= i < |c| ==> Remains(factors, enrolled, ps[c[i]])
  {
    hide Remains;
    if n > 0 { RemainingAre(factors, enrolled, ps, n - 1); }
  }

  lemma RemainingPrefix(factors: Raw, enrolled: Raw, ps: seq<Point>, p: Point, n: nat)
    requires n <= |ps|
    ensures Remaining(factors, enrolled, ps + [p], n) == Remaining(factors, enrolled, ps, n)
  {
    hide Remains;
    if n > 0 { RemainingPrefix(factors, enrolled, ps, p, n - 1); }
  }

  lemma RemainingAppend(factors: Raw, enrolled: Raw, ps: seq<Point>, p: Point)
    ensures |Remaining(factors, enrolled, ps + [p], |ps| + 1)|
         == |Remaining(factors, enrolled, ps, |ps|)| + if Remains(factors, enrolled, p) then 1 else 0
  {
    hide Remains;
    RemainingPrefix(factors, enrolled, ps, p, |ps|);
  }

  lemma {:induction false} EnoughRemain(sha: Sha256, factors: Raw, enrolled: Raw, salt: byte, slots: seq<HelperSlot>)
    requires SlotNames(slots) && forall i :: 0 <= i < |slots| ==> IsPresent(enrolled, slots[i])
    ensures var ps := Points(sha, factors, salt, slots, false);
      |Remaining(factors, enrolled, ps, |ps|)| >= UnchangedCount(factors, enrolled, slots)
  {
    hide DeriveX, PointOf, IsSlotName, Remaining, Remains, IsPresent, Unchanged;
    if slots != [] {
      var front, last := slots[..|slots| - 1], slots[|slots| - 1];
      EnoughRemain(sha, factors, enrolled, salt, front);
      var ps := Points(sha, factors, salt, front, false);
      UnchangedRemains(sha, factors, enrolled, salt, last);
      RemainingAppend(factors, enrolled, ps, PointOf(sha, factors, salt, last));
      assert Points(sha, factors, salt, slots, false) ==
        if IsPresent(factors, last) && !last.mandatory then ps + [PointOf(sha, factors, salt, last)] else ps;
    }
  }

  lemma UnchangedRemains(sha: Sha256, factors: Raw, enrolled: Raw, salt: byte, s: HelperSlot)
    requires IsSlotName(s.name) && IsPresent(enrolled, s)
    ensures Unchanged(factors, enrolled, s) <==> Remains(factors, enrolled, PointOf(sha, factors, salt, s))
    ensures Unchanged(factors, enrolled, s) ==> IsPresent(factors, s)
  {
    hide IsSlotName, DeriveX;
  }

  /** A point whose slot is unchanged is the one that slot had at enrolment. */
  lemma RemainingPoint(sha: Sha256, factors: Raw, enrolled: Raw, salt: byte, slots: seq<HelperSlot>, locked: bool,
                       p: Point)
    requires SlotNames(slots) && p in Points(sha, factors, salt, slots, locked) && Remains(factors, enrolled, p)
    ensures p in Points(sha, enrolled, salt, slots, locked)
  {
    PointsFromSlots(sha, factors, salt, slots, locked);
    PointsFromSlots(sha, enrolled, salt, slots, locked);
    hide Points, IsSlotName, DeriveX;
    var i :| FromSlot(sha, factors, salt, slots, locked, p, i);
    assert FromSlot(sha, enrolled, salt, slots, locked, p, i);
  }

  lemma LocksRemain(sha: Sha256, factors: Raw, enrolled: Raw, salt: byte, slots: seq<HelperSlot>, p: Point)
    requires SlotNames(slots) && LocksIntact(factors, enrolled, slots) && p in Points(sha, factors, salt, slots, true)
    ensures Remains(factors, enrolled, p)
  {
    PointsFromSlots(sha, factors, salt, slots, true);
    hide Points, IsSlotName, DeriveX, IsPresent;
    var i :| FromSlot(sha, factors, salt, slots, true, p, i);
    assert Unchanged(factors, enrolled, slots[i]);
  }

  /** The points that remain, hard-locked and chosen, are apart because they were at enrolment. */
  lemma RemainingAreApart(sha: Sha256, h: Helper, enrolled: Raw, factors: Raw, ps: seq<Point>)
    requires SlotNames(h.slots) && SlotNamesDistinct(h.slots) && Separated(sha, h, enrolled) && NamesDistinct(ps)
    requires var a, b := Points(sha, enrolled, h.salt, h.slots, true), Points(sha, enrolled, h.salt, h.slots, false);
      forall p :: p in ps ==> p in a + b
    ensures Distinct(Xs(ps))
  {
    var a, b := Points(sha, enrolled, h.salt, h.slots, true), Points(sha, enrolled, h.salt, h.slots, false);
    AllPointsDistinct(sha, enrolled, h.salt, h.slots);
    ApartIsDistinct(a + b);
    ApartIsDistinct(ps);
    hide Points, Xs, IsSlotName, NamesDistinct;
  }

  /** Some choice of points passes the check word: hard locks and unchanged optional ones. */
  lemma PassingChoice(sha: Sha256, h: Helper, k: Key, curves: seq<seq<Elem>>, enrolled: Raw,
                      factors: Raw) returns (c: seq<nat>)
    requires Genuine(sha, h, k, curves, enrolled) && SlotsInOrder(h.slots, h.normVersion) && Separated(sha, h, enrolled)
    requires LocksIntact(factors, enrolled, h.slots) && MandatoryCount(h.slots) <= h.threshold
    requires MandatoryCount(h.slots) + UnchangedCount(factors, enrolled, h.slots) >= h.threshold
    ensures var a, b := Points(sha, factors, h.salt, h.slots, true), Points(sha, factors, h.salt, h.slots, false);
      && IsChoice(c, 0, |b|, Need(h.threshold, |a|)) && InRange(c, |b|)
      && Try(sha, a, b, c, h.checkWord) == Passes
  {
    hide Points, IsSlotName, Remains, LocksIntact, EnrolledSlot, CheckWord, SlotNamesDistinct, Separated,
      UnchangedCount, MandatoryCount, Try, Remaining, SlotsInOrder, IsPresent, MissingMandatory, AllGood;
    var a, b := Points(sha, factors, h.salt, h.slots, true), Points(sha, factors, h.salt, h.slots, false);
    var need := h.threshold - MandatoryCount(h.slots);
    EnrolledArePresent(sha, h, k, curves, enrolled);
    EnoughRemain(sha, factors, enrolled, h.salt, h.slots);
    IntactLocks(sha, curves, enrolled, h.salt, h.slots, factors);
    RemainingAre(factors, enrolled, b, |b|);
    OrderedNamesDistinct(h.slots, h.normVersion);
    c := Remaining(factors, enrolled, b, |b|)[..need];
    PassesOverRemaining(sha, h, k, curves, enrolled, factors, c);
  }

  lemma EnrolledArePresent(sha: Sha256, h: Helper, k: Key, curves: seq<seq<Elem>>, enrolled: Raw)
    requires Genuine(sha, h, k, curves, enrolled)
    ensures forall i :: 0 <= i < |h.slots| ==> IsPresent(enrolled, h.slots[i])
  {
    hide IsPresent, Good, CheckWord, IsSlotName;
    forall i | 0 <= i < |h.slots| ensures IsPresent(enrolled, h.slots[i]) {
      assert EnrolledSlot(sha, curves, enrolled, h.salt, h.slots[i]);
    }
  }

  lemma PassesOverRemaining(sha: Sha256, h: Helper, k: Key, curves: seq<seq<Elem>>, enrolled: Raw, factors: Raw,
                            c: seq<nat>)
    requires Genuine(sha, h, k, curves, enrolled) && SlotNamesDistinct(h.slots) && Separated(sha, h, enrolled)
    requires LocksIntact(factors, enrolled, h.slots)
    requires var a, b := Points(sha, factors, h.salt, h.slots, true), Points(sha, factors, h.salt, h.slots, false);
      && IsChoice(c, 0, |b|, |c|) && InRange(c, |b|) && |a| + |c| == h.threshold
      && forall i :: 0 <= i < |c| ==> Remains(factors, enrolled, b[c[i]])
    ensures var a, b := Points(sha, factors, h.salt, h.slots, true), Points(sha, factors, h.salt, h.slots, false);
      Try(sha, a, b, c, h.checkWord) == Passes
  {
    var a, b := Points(sha, factors, h.salt, h.slots, true), Points(sha, factors, h.salt, h.slots, false);
    var ps := a + Pick(b, c);
    AllPointsDistinct(sha, factors, h.salt, h.slots);
    hide Points, IsSlotName, NamesDistinct, Remains, LocksIntact, IsCurves, EnrolledSlot, KeyOf, CheckWord,
      SlotNamesDistinct, Separated;
    PickDistinct(a, b, c);
    forall p: Point | p in ps
      ensures p in Points(sha, enrolled, h.salt, h.slots, true) + Points(sha, enrolled, h.salt, h.slots, false)
    {
      if p in a {
        LocksRemain(sha, factors, enrolled, h.salt, h.slots, p);
        RemainingPoint(sha, factors, enrolled, h.salt, h.slots, true, p);
      } else {
        var i := PickMember(b, c, p);
        RemainingPoint(sha, factors, enrolled, h.salt, h.slots, false, p);
      }
    }
    RemainingAreApart(sha, h, enrolled, factors, ps);
    EnrolledPointsGood(sha, h, k, curves, enrolled, ps);
    SharesReconstruct(curves, k, h.threshold, ps);
  }

  lemma EnrolledPointsGood(sha: Sha256, h: Helper, k: Key, curves: seq<seq<Elem>>, enrolled: Raw, ps: seq<Point>)
    requires Genuine(sha, h, k, curves, enrolled)
    requires forall p: Point :: p in ps ==>
      p in Points(sha, enrolled, h.salt, h.slots, true) + Points(sha, enrolled, h.salt, h.slots, false)
    ensures AllGood(curves, ps)
  {
    PointsFromSlots(sha, enrolled, h.salt, h.slots, true);
    PointsFromSlots(sha, enrolled, h.salt, h.slots, false);
    hide Points, IsSlotName, Good, IsPresent, IsCurves;
    forall n | 0 <= n < |ps| ensures Good(curves, ps[n]) {
      var p := ps[n];
      assert p in ps;
      var locked := p in Points(sha, enrolled, h.salt, h.slots, true);
      var i :| FromSlot(sha, enrolled, h.salt, h.slots, locked, p, i);
      assert EnrolledSlot(sha, curves, enrolled, h.salt, h.slots[i]);
    }
  }

  // ---------------------------------------------------------------- exactly when recovery fails

  /** The first choice of the sweep that does not fail is one over colliding x-coordinates. */
  ghost predicate CollidesFirst(sha: Sha256, h: Helper, factors: Raw)
    requires SlotNames(h.slots)
  {
    exists c :: IsFirst(sha, Points(sha, factors, h.salt, h.slots, true), Points(sha, factors, h.salt, h.slots, false),
                        h.threshold, h.checkWord, c, Collides)
  }

  /**
   Exactly when an undrifted-enough machine fails: if the hard locks and enough other slots are
   unchanged, recovery returns the enrolled key unless the sweep meets a subset with two equal
   x-coordinates before one that passes, and then it raises ValueError.
   */
  lemma OnlyCollisionsSpoil(sha: Sha256, h: Helper, k: Key, curves: seq<seq<Elem>>, enrolled: Raw, factors: Raw)
    requires Genuine(sha, h, k, curves, enrolled) && CheckWordIdentifies(sha, k)
    requires SlotsInOrder(h.slots, h.normVersion) && Separated(sha, h, enrolled)
    requires LocksIntact(factors, enrolled, h.slots) && MandatoryCount(h.slots) <= h.threshold
    requires MandatoryCount(h.slots) + UnchangedCount(factors, enrolled, h.slots) >= h.threshold
    ensures var r := RecoverHelper(sha, h, factors);
      if CollidesFirst(sha, h, factors) then r == Err(ValueError)
      else r.Ok? && r.value.Recovered? && r.value.key == k && r.value.hwid == HwidOf(sha, k)
  {
    hide Points, IsSlotName, LocksIntact, EnrolledSlot, CheckWord, Separated, UnchangedCount, MandatoryCount, Try,
      SlotsInOrder, MissingMandatory, AllGood, IsFirst, IsChoice, InRange, Classified, PresentCount, KeyOf, HwidOf,
      SweepOf;
    var a, b := Points(sha, factors, h.salt, h.slots, true), Points(sha, factors, h.salt, h.slots, false);
    var c := PassingChoice(sha, h, k, curves, enrolled, factors);
    IntactLocks(sha, curves, enrolled, h.salt, h.slots, factors);
    SweepIsExact(sha, a, b, h.threshold, h.checkWord);
    if !CollidesFirst(sha, h, factors) {
      FoundKey(sha, a, b, h.threshold, h.checkWord);
    }
  }

  // ---------------------------------------------------------------- one slot is enough to collide

  /** The first choice of the sweep takes the first optional points. */
  function FirstChoice(need: nat): (c: seq<nat>)
    ensures |c| == need && forall i :: 0 <= i < need ==> c[i] == i
  {
    seq(need, i => i)
  }

  lemma {:induction false} NothingBefore(b: seq<nat>, lo: nat, n: nat, c: seq<nat>)
    requires IsChoice(b, lo, n, |c|) && forall i :: 0 <= i < |c| ==> c[i] == lo + i
    ensures !LexLess(b, c)
    decreases |c|
  {
    if |c| > 0 {
      ChoiceSteps(b, lo, n, |c|);
      if b[0] == lo { NothingBefore(b[1..], lo + 1, n, c[1..]); }
    }
  }

  /**
   One drifted slot can be too many: when the first optional slot now derives the x-coordinate of a
   hard-locked one, recovery raises, however much of the machine is unchanged.
   */
  lemma OneSlotCollides(sha: Sha256, h: Helper, factors: Raw, i: nat)
    requires SlotNames(h.slots)
    requires var a, b := Points(sha, factors, h.salt, h.slots, true), Points(sha, factors, h.salt, h.slots, false);
      i < |a| < h.threshold <= |a| + |b| && b[0].x == a[i].x
    ensures CollidesFirst(sha, h, factors) && RecoverHelper(sha, h, factors) == Err(ValueError)
  {
    var a, b := Points(sha, factors, h.salt, h.slots, true), Points(sha, factors, h.salt, h.slots, false);
    hide Points, CheckWord, MissingMandatory, Classified, PresentCount, IsSlotName, LexLess;
    var c := FirstChoice(h.threshold - |a|);
    assert InRange(c, |b|) && IsChoice(c, 0, |b|, Need(h.threshold, |a|));
    var xs := Xs(a + Pick(b, c));
    assert xs[i] == xs[|a|] && !Distinct(xs);
    forall d | IsChoice(d, 0, |b|, |c|) && InRange(d, |b|) ensures !LexLess(d, c) {
      NothingBefore(d, 0, |b|, c);
    }
    assert IsFirst(sha, a, b, h.threshold, h.checkWord, c, Collides);
    SweepIsExact(sha, a, b, h.threshold, h.checkWord);
  }

  // ---------------------------------------------------------------- one moved slot, exactly

  /** Point j, counted over the hard-locked and then the optional points, lies where optional point i lies. */
  predicate Meets(a: seq<Point>, b: seq<Point>, i: nat, j: nat)
    requires i < |b|
  {
    j < |a| + |b| && j != |a| + i && (a + b)[j].x == b[i].x
  }

  /** Optional point i is the only one off the curves, and the others lie at different positions. */
  ghost predicate OneMoved(curves: seq<seq<Elem>>, a: seq<Point>, b: seq<Point>, i: nat)
    requires |curves| == 4
  {
    var all := a + b;
    && i < |b| && !Good(curves, b[i]) && NonZeroXs(all)
    && (forall u :: 0 <= u < |all| && u != |a| + i ==> Good(curves, all[u]))
    && (forall u, v :: 0 <= u < v < |all| && u != |a| + i && v != |a| + i ==> all[u].x != all[v].x)
  }

  /**
   The sweep meets the collision of optional point i before it can leave i out: i is among the first
   points it takes, and so is the point it collides with, or the sweep comes to that one in time.
   */
  predicate MeetsInTime(a: seq<Point>, b: seq<Point>, t: nat, i: nat)
    requires i < |b|
  {
    && |a| + i < t
    && exists j :: 0 <= j < |a| + |b| && Meets(a, b, i, j) && (j < |a| + i || |a| + i + 1 < t)
  }

  /** The choice takes a point that lies where optional point i lies. */
  predicate TakesMeeting(a: seq<Point>, b: seq<Point>, i: nat, c: seq<nat>)
    requires i < |b|
  {
    exists j :: 0 <= j < |a| + |b| && Meets(a, b, i, j) && (j < |a| || j - |a| in c)
  }

  /** The position, over all points, of the p-th point that a choice takes. */
  function Place(a: seq<Point>, c: seq<nat>, p: nat): nat
    requires p < |a| + |c|
  {
    if p < |a| then p else |a| + c[p - |a|]
  }

  lemma Placed(a: seq<Point>, b: seq<Point>, c: seq<nat>)
    requires IsChoice(c, 0, |b|, |c|) && InRange(c, |b|)
    ensures forall p :: 0 <= p < |a| + |c| ==>
      Place(a, c, p) < |a| + |b| && (a + Pick(b, c))[p] == (a + b)[Place(a, c, p)]
    ensures forall p, q :: 0 <= p < q < |a| + |c| ==> Place(a, c, p) < Place(a, c, q)
  {
  }

  /** What one turn of the sweep does when a single optional point has moved. */
  lemma TrialIsExact(sha: Sha256, curves: seq<seq<Elem>>, k: Key, t: nat, a: seq<Point>, b: seq<Point>, i: nat,
                     c: seq<nat>)
    requires IsCurves(curves, k, t) && CheckWordIdentifies(sha, k) && OneMoved(curves, a, b, i)
    requires IsChoice(c, 0, |b|, |c|) && InRange(c, |b|) && |a| + |c| == t
    ensures Try(sha, a, b, c, CheckWord(sha, k)) ==
      if i !in c then Passes else if TakesMeeting(a, b, i, c) then Collides else Fails
  {
    hide CheckWord, CheckWordIdentifies, KeyOf, Good;
    Placed(a, b, c);
    if i !in c {
      LeftOutPasses(sha, curves, k, t, a, b, i, c);
    } else if TakesMeeting(a, b, i, c) {
      MeetingCollides(a, b, i, c);
    } else {
      MovedFails(sha, curves, k, t, a, b, i, c);
    }
  }

  lemma LeftOutPasses(sha: Sha256, curves: seq<seq<Elem>>, k: Key, t: nat, a: seq<Point>, b: seq<Point>, i: nat,
                      c: seq<nat>)
    requires IsCurves(curves, k, t) && OneMoved(curves, a, b, i)
    requires IsChoice(c, 0, |b|, |c|) && InRange(c, |b|) && |a| + |c| == t && i !in c
    ensures Try(sha, a, b, c, CheckWord(sha, k)) == Passes
  {
    hide CheckWord, KeyOf, Good;
    Placed(a, b, c);
    var ps := a + Pick(b, c);
    forall p | 0 <= p < |ps| ensures Place(a, c, p) != |a| + i && Good(curves, ps[p]) {
      assert p >= |a| ==> c[p - |a|] in c;
    }
    var xs := Xs(ps);
    forall p, q | 0 <= p < q < |xs| ensures xs[p] != xs[q] {
      assert xs[p] == (a + b)[Place(a, c, p)].x && xs[q] == (a + b)[Place(a, c, q)].x;
    }
    SharesReconstruct(curves, k, t, ps);
  }

  lemma MeetingCollides(a: seq<Point>, b: seq<Point>, i: nat, c: seq<nat>)
    requires i < |b| && IsChoice(c, 0, |b|, |c|) && InRange(c, |b|) && i in c && TakesMeeting(a, b, i, c)
    ensures !Distinct(Xs(a + Pick(b, c)))
  {
    var j :| 0 <= j < |a| + |b| && Meets(a, b, i, j) && (j < |a| || j - |a| in c);
    var u :| 0 <= u < |c| && c[u] == i;
    var xs := Xs(a + Pick(b, c));
    assert xs[|a| + u] == b[i].x;
    if j < |a| {
      assert xs[j] == b[i].x;
    } else {
      var v :| 0 <= v < |c| && c[v] == j - |a|;
      assert xs[|a| + v] == b[i].x && v != u;
    }
  }

  lemma MovedFails(sha: Sha256, curves: seq<seq<Elem>>, k: Key, t: nat, a: seq<Point>, b: seq<Point>, i: nat,
                   c: seq<nat>)
    requires IsCurves(curves, k, t) && CheckWordIdentifies(sha, k) && OneMoved(curves, a, b, i)
    requires IsChoice(c, 0, |b|, |c|) && InRange(c, |b|) && |a| + |c| == t && i in c && !TakesMeeting(a, b, i, c)
    ensures Try(sha, a, b, c, CheckWord(sha, k)) == Fails
  {
    hide CheckWord, KeyOf, Good;
    Placed(a, b, c);
    var ps := a + Pick(b, c);
    var u :| 0 <= u < |c| && c[u] == i;
    var xs := Xs(ps);
    forall p | 0 <= p < |ps| && p != |a| + u
      ensures Place(a, c, p) != |a| + i && Good(curves, ps[p]) && ps[p].x != b[i].x
    {
      var j := Place(a, c, p);
      assert p >= |a| ==> c[p - |a|] in c;
      assert !Meets(a, b, i, j);
    }
    forall p, q | 0 <= p < q < |xs| ensures xs[p] != xs[q] {
      assert xs[p] == (a + b)[Place(a, c, p)].x && xs[q] == (a + b)[Place(a, c, q)].x;
    }
    forall p | 0 <= p < |ps| ensures ps[p].x != 0 {
      assert ps[p] == (a + b)[Place(a, c, p)];
    }
    OneBadPoint(curves, k, t, ps, |a| + u);
  }

  /** A choice that skips an index up to p comes after every choice that begins with 0 .. p. */
  lemma {:induction false} SkippingIsLater(d: seq<nat>, c: seq<nat>, lo: nat, n: nat, p: nat)
    requires |c| == |d| && IsChoice(c, lo, n, |c|) && p < |d|
    requires forall q :: 0 <= q <= p ==> d[q] == lo + q
    requires exists q :: 0 <= q <= p && c[q] != lo + q
    ensures LexLess(d, c)
    decreases p
  {
    ChoiceSteps(c, lo, n, |c|);
    if c[0] == lo {
      var q :| 0 <= q <= p && c[q] != lo + q;
      assert q > 0 && c[1..][q - 1] != lo + 1 + (q - 1);
      SkippingIsLater(d[1..], c[1..], lo + 1, n, p - 1);
    }
  }

  /** A choice with 0 .. i that takes the meeting point. */
  lemma EarlyCollision(a: seq<Point>, b: seq<Point>, t: nat, i: nat) returns (d: seq<nat>)
    requires |a| <= t <= |a| + |b| && i < |b| && MeetsInTime(a, b, t, i)
    ensures IsChoice(d, 0, |b|, t - |a|) && InRange(d, |b|) && i < |d| && TakesMeeting(a, b, i, d)
    ensures forall q :: 0 <= q <= i ==> d[q] == q
  {
    var need := t - |a|;
    var j :| 0 <= j < |a| + |b| && Meets(a, b, i, j) && (j < |a| + i || |a| + i + 1 < t);
    if j < |a| + need {
      d := FirstChoice(need);
      assert j >= |a| ==> d[j - |a|] == j - |a|;
    } else {
      d := FirstChoice(need - 1) + [j - |a|];
      assert d[need - 1] == j - |a|;
    }
  }

  lemma MeetsInTimeRaises(sha: Sha256, curves: seq<seq<Elem>>, k: Key, t: nat, a: seq<Point>, b: seq<Point>, i: nat)
    requires IsCurves(curves, k, t) && CheckWordIdentifies(sha, k) && OneMoved(curves, a, b, i)
    requires |a| <= t <= |a| + |b| && MeetsInTime(a, b, t, i)
    ensures exists c :: IsFirst(sha, a, b, t, CheckWord(sha, k), c, Collides)
  {
    hide CheckWord, CheckWordIdentifies, Try, LexLess, OneMoved, TakesMeeting;
    var cw := CheckWord(sha, k);
    var d := EarlyCollision(a, b, t, i);
    TrialIsExact(sha, curves, k, t, a, b, i, d);
    assert i in d by { assert d[i] == i; }
    SweepIsExact(sha, a, b, t, cw);
    if SweepOf(sha, a, b, t, cw).Match? {
      var c := SweepOf(sha, a, b, t, cw).combo;
      assert IsFirst(sha, a, b, t, cw, c, Passes);
      TrialIsExact(sha, curves, k, t, a, b, i, c);
      assert i !in c;
      assert c[i] != i by { assert c[i] in c; }
      SkippingIsLater(d, c, 0, |b|, i);
      assert false;
    }
  }

  /** The first choice that leaves out i, when the meeting point comes too late. */
  function Avoiding(need: nat, i: nat): (d: seq<nat>)
    requires need > 0 && need <= i + 1
    ensures |d| == need && forall q :: 0 <= q < need - 1 ==> d[q] == q
    ensures d[need - 1] == if need == i + 1 then i + 1 else need - 1
  {
    FirstChoice(need - 1) + [if need == i + 1 then i + 1 else need - 1]
  }

  lemma CollisionMeetsInTime(sha: Sha256, curves: seq<seq<Elem>>, k: Key, t: nat, a: seq<Point>, b: seq<Point>, i: nat,
                             c: seq<nat>)
    requires IsCurves(curves, k, t) && CheckWordIdentifies(sha, k) && OneMoved(curves, a, b, i)
    requires |a| <= t < |a| + |b| && IsFirst(sha, a, b, t, CheckWord(sha, k), c, Collides)
    ensures MeetsInTime(a, b, t, i)
  {
    hide CheckWord, CheckWordIdentifies, Try, LexLess, OneMoved;
    var need := t - |a|;
    TrialIsExact(sha, curves, k, t, a, b, i, c);
    assert i in c && TakesMeeting(a, b, i, c);
    var j :| 0 <= j < |a| + |b| && Meets(a, b, i, j) && (j < |a| || j - |a| in c);
    if !MeetsInTime(a, b, t, i) {
      assert i < need ==> j > |a| + i && need == i + 1;
      var d := Avoiding(need, i);
      TrialIsExact(sha, curves, k, t, a, b, i, d);
      AvoidingIsEarlier(need, i, c, |b|, j - |a|);
      assert false;
    }
  }

  lemma AvoidingIsEarlier(need: nat, i: nat, c: seq<nat>, n: nat, e: int)
    requires 0 < need <= i + 1 && IsChoice(c, 0, n, need) && i in c
    requires need == i + 1 ==> e > i && e in c
    ensures LexLess(Avoiding(need, i), c)
  {
    var d := Avoiding(need, i);
    var u :| 0 <= u < need && c[u] == i;
    if need == i + 1 {
      var v :| 0 <= v < need && c[v] == e;
      assert u < v;
      assert c[u] != u;
      SkippingIsLater(d, c, 0, n, need - 2);
    } else {
      assert c[u] != u;
      SkippingIsLater(d, c, 0, n, need - 1);
    }
  }

  // ---------------------------------------------------------------- one moved slot of a machine

  lemma {:induction false} RemainingMisses(factors: Raw, enrolled: Raw, ps: seq<Point>, n: nat, i: nat)
    requires i < n <= |ps| && !Remains(factors, enrolled, ps[i])
    ensures |Remaining(factors, enrolled, ps, n)| < n
  {
    hide Remains;
    RemainingAtMost(factors, enrolled, ps, n - 1);
    if i < n - 1 { RemainingMisses(factors, enrolled, ps, n - 1, i); }
  }

  lemma {:induction false} RemainingAtMost(factors: Raw, enrolled: Raw, ps: seq<Point>, n: nat)
    requires n <= |ps|
    ensures |Remaining(factors, enrolled, ps, n)| <= n
  {
    hide Remains;
    if n > 0 { RemainingAtMost(factors, enrolled, ps, n - 1); }
  }

  /** Optional point i is that of the moved slot called bad. */
  ghost predicate IsMovedPoint(sha: Sha256, h: Helper, factors: Raw, bad: string, i: nat)
    requires SlotNames(h.slots)
  {
    var b := Points(sha, factors, h.salt, h.slots, false);
    i < |b| && b[i].name == bad
  }

  /** A point other than the moved one still has its enrolled slot's value. */
  lemma OthersRemain(sha: Sha256, h: Helper, k: Key, curves: seq<seq<Elem>>, enrolled: Raw, factors: Raw, bad: string,
                     p: Point)
    requires Genuine(sha, h, k, curves, enrolled) && AtMostOneMoved(sha, h, curves, enrolled, factors, bad)
    requires p.name != bad
    requires p in Points(sha, factors, h.salt, h.slots, true) + Points(sha, factors, h.salt, h.slots, false)
    ensures Remains(factors, enrolled, p)
    ensures p in Points(sha, enrolled, h.salt, h.slots, true) + Points(sha, enrolled, h.salt, h.slots, false)
  {
    var locked := p in Points(sha, factors, h.salt, h.slots, true);
    PointsFromSlots(sha, factors, h.salt, h.slots, locked);
    hide Points, IsSlotName, DeriveX, Good, IsCurves, IsPresent;
    var n :| FromSlot(sha, factors, h.salt, h.slots, locked, p, n);
    PointName(sha, factors, h.salt, h.slots[n]);
    assert Unchanged(factors, enrolled, h.slots[n]);
    RemainingPoint(sha, factors, enrolled, h.salt, h.slots, locked, p);
  }

  lemma MovedIsOneMoved(sha: Sha256, h: Helper, k: Key, curves: seq<seq<Elem>>, enrolled: Raw, factors: Raw,
                        bad: string, i: nat)
    requires Genuine(sha, h, k, curves, enrolled) && SlotNamesDistinct(h.slots) && Separated(sha, h, enrolled)
    requires AtMostOneMoved(sha, h, curves, enrolled, factors, bad) && IsMovedPoint(sha, h, factors, bad, i)
    ensures var a, b := Points(sha, factors, h.salt, h.slots, true), Points(sha, factors, h.salt, h.slots, false);
      OneMoved(curves, a, b, i)
  {
    var a, b := Points(sha, factors, h.salt, h.slots, true), Points(sha, factors, h.salt, h.slots, false);
    var all, at := a + b, |a| + i;
    MovedIsOnlyBad(sha, h, k, curves, enrolled, factors, bad);
    AllPointsDistinct(sha, factors, h.salt, h.slots);
    EnrolledApart(sha, h, enrolled);
    hide Points, IsSlotName, Good, IsCurves, EnrolledSlot, Separated, AtMostOneMoved, SlotNamesDistinct, CheckWord;
    assert all[at].name == bad;
    forall u | 0 <= u < |all| ensures all[u].x != 0 && (u != at ==> all[u].name != bad && Good(curves, all[u])) {
      assert all[u] in all;
      if u < at { assert all[u].name != all[at].name; }
      if at < u { assert all[at].name != all[u].name; }
    }
    assert !Good(curves, b[i]) by { assert all[at] in all; }
    forall u, v | 0 <= u < v < |all| && u != at && v != at ensures all[u].x != all[v].x {
      assert all[u] in all && all[v] in all && all[u].name != all[v].name;
      OthersRemain(sha, h, k, curves, enrolled, factors, bad, all[u]);
      OthersRemain(sha, h, k, curves, enrolled, factors, bad, all[v]);
    }
  }

  lemma EnrolledApart(sha: Sha256, h: Helper, enrolled: Raw)
    requires SlotNames(h.slots) && SlotNamesDistinct(h.slots) && Separated(sha, h, enrolled)
    ensures Apart(Points(sha, enrolled, h.salt, h.slots, true) + Points(sha, enrolled, h.salt, h.slots, false))
  {
    AllPointsDistinct(sha, enrolled, h.salt, h.slots);
    hide Points, IsSlotName, NamesDistinct, Xs;
    ApartIsDistinct(Points(sha, enrolled, h.salt, h.slots, true) + Points(sha, enrolled, h.salt, h.slots, false));
  }

  lemma MovedIsNotRemaining(sha: Sha256, h: Helper, k: Key, curves: seq<seq<Elem>>, enrolled: Raw, factors: Raw,
                            p: Point)
    requires Genuine(sha, h, k, curves, enrolled) && !Good(curves, p)
    requires p in Points(sha, factors, h.salt, h.slots, false)
    ensures !Remains(factors, enrolled, p)
  {
    PointsFromSlots(sha, factors, h.salt, h.slots, false);
    hide Points, IsSlotName, DeriveX, ShareAt, IsCurves;
    var n :| FromSlot(sha, factors, h.salt, h.slots, false, p, n);
    PointName(sha, factors, h.salt, h.slots[n]);
    assert EnrolledSlot(sha, curves, enrolled, h.salt, h.slots[n]);
  }

  /** Without the moved slot enough points are left. */
  lemma EnoughBesidesMoved(sha: Sha256, h: Helper, k: Key, curves: seq<seq<Elem>>, enrolled: Raw, factors: Raw, i: nat)
    requires Genuine(sha, h, k, curves, enrolled) && LocksIntact(factors, enrolled, h.slots)
    requires MandatoryCount(h.slots) <= h.threshold
    requires h.threshold <= MandatoryCount(h.slots) + UnchangedCount(factors, enrolled, h.slots)
    requires var b := Points(sha, factors, h.salt, h.slots, false); i < |b| && !Good(curves, b[i])
    ensures var a, b := Points(sha, factors, h.salt, h.slots, true), Points(sha, factors, h.salt, h.slots, false);
      |a| <= h.threshold < |a| + |b|
  {
    hide Points, IsSlotName, Good, EnrolledSlot, MandatoryCount, UnchangedCount, LocksIntact, Remaining, Remains,
      AllGood, MissingMandatory, IsPresent;
    var b := Points(sha, factors, h.salt, h.slots, false);
    EnrolledArePresent(sha, h, k, curves, enrolled);
    EnoughRemain(sha, factors, enrolled, h.salt, h.slots);
    IntactLocks(sha, curves, enrolled, h.salt, h.slots, factors);
    MovedIsNotRemaining(sha, h, k, curves, enrolled, factors, b[i]);
    RemainingMisses(factors, enrolled, b, |b|, i);
  }

  /**
   One moved slot, decided by positions alone: with one optional slot off the curves, everything else
   that is present unchanged and enough of it, recovery raises ValueError if and only if the moved
   slot's x-coordinate is that of another present slot and the sweep meets the two in time. Otherwise
   it returns the enrolled key.
   */
  lemma MovedSlotIsExact(sha: Sha256, h: Helper, k: Key, curves: seq<seq<Elem>>, enrolled: Raw, factors: Raw,
                         bad: string, i: nat)
    requires Genuine(sha, h, k, curves, enrolled) && CheckWordIdentifies(sha, k)
    requires SlotsInOrder(h.slots, h.normVersion) && Separated(sha, h, enrolled)
    requires LocksIntact(factors, enrolled, h.slots)
    requires MandatoryCount(h.slots) <= h.threshold
    requires h.threshold <= MandatoryCount(h.slots) + UnchangedCount(factors, enrolled, h.slots)
    requires AtMostOneMoved(sha, h, curves, enrolled, factors, bad) && IsMovedPoint(sha, h, factors, bad, i)
    ensures var a, b := Points(sha, factors, h.salt, h.slots, true), Points(sha, factors, h.salt, h.slots, false);
      var r := RecoverHelper(sha, h, factors);
      if MeetsInTime(a, b, h.threshold, i) then r == Err(ValueError)
      else r.Ok? && r.value.Recovered? && r.value.key == k && r.value.hwid == HwidOf(sha, k)
  {
    hide Points, IsSlotName, LocksIntact, EnrolledSlot, CheckWord, Separated, UnchangedCount, MandatoryCount,
      SlotsInOrder, RecoverHelper, HwidOf, Good, AtMostOneMoved, IsFirst, MeetsInTime, CheckWordIdentifies;
    var a, b := Points(sha, factors, h.salt, h.slots, true), Points(sha, factors, h.salt, h.slots, false);
    OrderedNamesDistinct(h.slots, h.normVersion);
    MovedIsOneMoved(sha, h, k, curves, enrolled, factors, bad, i);
    EnoughBesidesMoved(sha, h, k, curves, enrolled, factors, i);
    OnlyCollisionsSpoil(sha, h, k, curves, enrolled, factors);
    if MeetsInTime(a, b, h.threshold, i) {
      MeetsInTimeRaises(sha, curves, k, h.threshold, a, b, i);
    } else if CollidesFirst(sha, h, factors) {
      var c :| IsFirst(sha, a, b, h.threshold, h.checkWord, c, Collides);
      CollisionMeetsInTime(sha, curves, k, h.threshold, a, b, i, c);
    }
  }
}
