/** The diagnosis of a changed hard-locked slot is exact (core.py:558-588). */
module Diagnosis {
  import opened Wrappers
  import opened Bytes
  import opened Field
  import opened Polynomials
  import opened Sharing
  import opened Search
  import opened Factors
  import opened HelperBlob
  import opened Recovery
  import opened RecoveryLaws

  // ---------------------------------------------------------------- point lists by name

  ghost predicate NamesDistinct(ps: seq<Point>) {
    forall i, j :: 0 <= i < j < |ps| ==> ps[i].name != ps[j].name
  }

  /** Points of different slots lie at different positions. */
  ghost predicate Apart(ps: seq<Point>) {
    forall p, q :: p in ps && q in ps && p.name != q.name ==> p.x != q.x
  }

  lemma ApartIsDistinct(ps: seq<Point>)
    requires NamesDistinct(ps)
    ensures Apart(ps) <==> Distinct(Xs(ps))
  {
    if Apart(ps) {
      forall i, j | 0 <= i < j < |ps| ensures Xs(ps)[i] != Xs(ps)[j] {
        assert ps[i] in ps && ps[j] in ps;
      }
    }
    if Distinct(Xs(ps)) {
      forall p, q | p in ps && q in ps && p.name != q.name ensures p.x != q.x {
        var i :| 0 <= i < |ps| && ps[i] == p;
        var j :| 0 <= j < |ps| && ps[j] == q;
        assert Xs(ps)[i] == p.x && Xs(ps)[j] == q.x;
      }
    }
  }

  function Without(ps: seq<Point>, name: string): seq<Point> {
    if ps == [] then [] else
      Without(ps[..|ps| - 1], name) + if ps[|ps| - 1].name != name then [ps[|ps| - 1]] else []
  }

  lemma {:induction false} WithoutMembers(ps: seq<Point>, name: string)
    ensures forall p :: p in Without(ps, name) <==> p in ps && p.name != name
  {
    if ps != [] {
      WithoutMembers(ps[..|ps| - 1], name);
      assert ps == ps[..|ps| - 1] + [ps[|ps| - 1]];
    }
  }

  lemma JoinDistinct(a: seq<Point>, b: seq<Point>)
    requires NamesDistinct(a) && NamesDistinct(b)
    requires forall p, q :: p in a && q in b ==> p.name != q.name
    ensures NamesDistinct(a + b)
  {
    var ps := a + b;
    forall i, j | 0 <= i < j < |ps| ensures ps[i].name != ps[j].name {
      if i < |a| <= j {
        assert ps[i] in a && ps[j] in b;
      }
    }
  }

  lemma NoNames()
    ensures NamesDistinct([])
  {
  }

  lemma OneName(p: Point)
    ensures NamesDistinct([p])
  {
  }

  lemma LastIsNew(ps: seq<Point>)
    requires ps != [] && NamesDistinct(ps)
    ensures NamesDistinct(ps[..|ps| - 1])
    ensures forall p :: p in ps[..|ps| - 1] ==> p.name != ps[|ps| - 1].name
  {
  }

  lemma {:induction false} WithoutDistinct(ps: seq<Point>, name: string)
    requires NamesDistinct(ps)
    ensures NamesDistinct(Without(ps, name))
  {
    hide NamesDistinct;
    if ps != [] {
      var front, last := ps[..|ps| - 1], ps[|ps| - 1];
      LastIsNew(ps);
      WithoutDistinct(front, name);
      WithoutMembers(front, name);
      OneName(last);
      var w := Without(front, name);
      JoinDistinct(w, [last]);
      assert Without(ps, name) == if last.name != name then w + [last] else w;
    } else {
      NoNames();
    }
  }

  lemma NotNamed(ps: seq<Point>, name: string)
    ensures HasName(ps, name) <==> exists p :: p in ps && p.name == name
  {
  }

  lemma {:induction false} WithoutSize(ps: seq<Point>, name: string)
    requires NamesDistinct(ps)
    ensures |Without(ps, name)| == |ps| - if HasName(ps, name) then 1 else 0
  {
    hide NamesDistinct, HasName;
    NotNamed(ps, name);
    if ps != [] {
      var front, last := ps[..|ps| - 1], ps[|ps| - 1];
      LastIsNew(ps);
      WithoutSize(front, name);
      NotNamed(front, name);
      assert ps == front + [last];
    }
  }

  // ---------------------------------------------------------------- sweeps by name

  /** Every point is off zero, and on the curves exactly when it is not named bad. */
  ghost predicate OnlyBad(curves: seq<seq<Elem>>, ps: seq<Point>, bad: string)
    requires |curves| == 4
  {
    forall p :: p in ps ==> p.x != 0 && (Good(curves, p) <==> p.name != bad)
  }

  lemma {:induction false} AllIndices(curves: seq<seq<Elem>>, ps: seq<Point>, n: nat)
    requires |curves| == 4 && n <= |ps| && AllGood(curves, ps)
    ensures |GoodIndices(curves, ps, n)| == n
  {
    hide Good;
    if n > 0 { AllIndices(curves, ps, n - 1); }
  }

  lemma BadFails(sha: Sha256, curves: seq<seq<Elem>>, k: Key, t: nat, mandatory: seq<Point>, optional: seq<Point>,
                 bad: string)
    requires IsCurves(curves, k, t) && CheckWordIdentifies(sha, k) && |mandatory| <= t
    requires NamesDistinct(mandatory + optional) && Apart(mandatory + optional)
    requires OnlyBad(curves, mandatory + optional, bad) && HasName(mandatory, bad)
    ensures FindOf(sha, mandatory, optional, t, CheckWord(sha, k)) == Ok(None)
  {
    assert |curves| == 4;
    hide Good, IsCurves, CheckWordIdentifies, FindOf, CheckWord, Xs;
    var all := mandatory + optional;
    var j :| 0 <= j < |mandatory| && mandatory[j].name == bad;
    ApartIsDistinct(all);
    forall i | 0 <= i < |all| ensures all[i].x != 0 && (i != j ==> Good(curves, all[i])) {
      assert all[i] in all && all[j].name == bad;
    }
    assert all[j] in all && all[j] == mandatory[j];
    forall i | 0 <= i < |mandatory| && i != j ensures Good(curves, mandatory[i]) {
      assert all[i] == mandatory[i];
    }
    forall i | 0 <= i < |optional| ensures Good(curves, optional[i]) {
      assert all[|mandatory| + i] == optional[i];
    }
    SweepFails(sha, curves, k, t, mandatory, optional, j);
  }

  lemma GoodSucceeds(sha: Sha256, curves: seq<seq<Elem>>, k: Key, t: nat, mandatory: seq<Point>, optional: seq<Point>)
    requires IsCurves(curves, k, t) && |mandatory| <= t
    requires NamesDistinct(mandatory + optional) && Apart(mandatory + optional)
    requires AllGood(curves, mandatory) && AllGood(curves, optional)
    ensures var r := FindOf(sha, mandatory, optional, t, CheckWord(sha, k));
      r.Ok? && (r.value.Some? <==> |mandatory| + |optional| >= t)
  {
    if |mandatory| + |optional| >= t {
      ApartIsDistinct(mandatory + optional);
      AllIndices(curves, optional, |optional|);
      hide Good, FindOf, CheckWord, Xs, GoodIndices;
      SweepSucceeds(sha, curves, k, t, mandatory, optional);
    }
  }

  // ---------------------------------------------------------------- points of slots

  ghost predicate SlotNamesDistinct(slots: seq<HelperSlot>) {
    forall i, j :: 0 <= i < j < |slots| ==> slots[i].name != slots[j].name
  }

  lemma OrderedNamesDistinct(slots: seq<HelperSlot>, norm: int)
    requires SlotsInOrder(slots, norm)
    ensures SlotNamesDistinct(slots)
  {
    hide Less, Allowed;
    forall i, j | 0 <= i < j < |slots| ensures slots[i].name != slots[j].name {
      LessIrreflexive(slots[i].name);
    }
  }

  ghost predicate FromSlot(sha: Sha256, factors: Raw, salt: byte, slots: seq<HelperSlot>, locked: bool, p: Point,
                           i: int)
    requires SlotNames(slots)
  {
    0 <= i < |slots| && slots[i].mandatory == locked && IsPresent(factors, slots[i])
    && p == PointOf(sha, factors, salt, slots[i])
  }

  lemma {:induction false} PointsFromSlots(sha: Sha256, factors: Raw, salt: byte, slots: seq<HelperSlot>, locked: bool)
    requires SlotNames(slots)
    ensures forall p :: (p in Points(sha, factors, salt, slots, locked)
                         <==> exists i :: FromSlot(sha, factors, salt, slots, locked, p, i))
  {
    hide IsSlotName, PointOf, IsPresent;
    if slots != [] {
      var n := |slots| - 1;
      var front, last := slots[..n], slots[n];
      PointsFromSlots(sha, factors, salt, front, locked);
      forall p ensures p in Points(sha, factors, salt, slots, locked)
        <==> exists i :: FromSlot(sha, factors, salt, slots, locked, p, i)
      {
        if p in Points(sha, factors, salt, front, locked) {
          var i :| FromSlot(sha, factors, salt, front, locked, p, i);
          assert FromSlot(sha, factors, salt, slots, locked, p, i);
        }
        if exists i :: FromSlot(sha, factors, salt, slots, locked, p, i) {
          var i :| FromSlot(sha, factors, salt, slots, locked, p, i);
          if i < n { assert FromSlot(sha, factors, salt, front, locked, p, i); }
        }
        if p in Points(sha, factors, salt, slots, locked) && p !in Points(sha, factors, salt, front, locked) {
          assert FromSlot(sha, factors, salt, slots, locked, p, n);
        }
      }
    }
  }

  lemma {:induction false} PointNamesDistinct(sha: Sha256, factors: Raw, salt: byte, slots: seq<HelperSlot>,
        locked: bool)
    requires SlotNames(slots) && SlotNamesDistinct(slots)
    ensures NamesDistinct(Points(sha, factors, salt, slots, locked))
  {
    NoNames();
    hide IsSlotName, PointOf, IsPresent, NamesDistinct;
    if slots != [] {
      var n := |slots| - 1;
      var front, last := slots[..n], slots[n];
      var ps := Points(sha, factors, salt, front, locked);
      PointNamesDistinct(sha, factors, salt, front, locked);
      NotAmongPoints(sha, factors, salt, slots, locked);
      var p := PointOf(sha, factors, salt, last);
      assert p.name == last.name by { PointName(sha, factors, salt, last); }
      OneName(p);
      JoinDistinct(ps, [p]);
      assert Points(sha, factors, salt, slots, locked) ==
        if IsPresent(factors, last) && last.mandatory == locked then ps + [p] else ps;
    }
  }

  lemma PointName(sha: Sha256, factors: Raw, salt: byte, s: HelperSlot)
    requires IsSlotName(s.name)
    ensures PointOf(sha, factors, salt, s).name == s.name
  {
  }

  lemma NotAmongPoints(sha: Sha256, factors: Raw, salt: byte, slots: seq<HelperSlot>, locked: bool)
    requires SlotNames(slots) && SlotNamesDistinct(slots) && slots != []
    ensures forall p ::
      p in Points(sha, factors, salt, slots[..|slots| - 1], locked) ==> p.name != slots[|slots| - 1].name
  {
    var n := |slots| - 1;
    var front := slots[..n];
    PointsFromSlots(sha, factors, salt, front, locked);
    hide Points, IsSlotName, DeriveX, IsPresent;
    forall p | p in Points(sha, factors, salt, front, locked) ensures p.name != slots[n].name {
      var i :| FromSlot(sha, factors, salt, front, locked, p, i);
      assert front[i] == slots[i];
    }
  }

  lemma AllPointsDistinct(sha: Sha256, factors: Raw, salt: byte, slots: seq<HelperSlot>)
    requires SlotNames(slots) && SlotNamesDistinct(slots)
    ensures NamesDistinct(Points(sha, factors, salt, slots, true) + Points(sha, factors, salt, slots, false))
  {
    var a, b := Points(sha, factors, salt, slots, true), Points(sha, factors, salt, slots, false);
    PointNamesDistinct(sha, factors, salt, slots, true);
    PointNamesDistinct(sha, factors, salt, slots, false);
    PointsFromSlots(sha, factors, salt, slots, true);
    PointsFromSlots(sha, factors, salt, slots, false);
    hide Points, IsSlotName, DeriveX, IsPresent, NamesDistinct;
    forall p, q | p in a && q in b ensures p.name != q.name {
      var i :| FromSlot(sha, factors, salt, slots, true, p, i);
      var j :| FromSlot(sha, factors, salt, slots, false, q, j);
      assert i != j && slots[i].name == p.name && slots[j].name == q.name;
    }
    JoinDistinct(a, b);
  }

  lemma {:induction false} FlagOfSlot(slots: seq<HelperSlot>, i: nat)
    requires i < |slots| && SlotNamesDistinct(slots)
    ensures IsMandatory(slots, slots[i].name) == slots[i].mandatory
  {
    if i > 0 {
      assert slots[0].name != slots[i].name;
      FlagOfSlot(slots[1..], i - 1);
    }
  }

  lemma {:induction false} OthersOfFlag(slots: seq<HelperSlot>, ps: seq<Point>, name: string, flag: bool, locked: bool)
    requires forall p :: p in ps ==> IsMandatory(slots, p.name) == flag
    ensures Others(slots, ps, name, locked) == if flag == locked then Without(ps, name) else []
  {
    if ps != [] {
      var front, last := ps[..|ps| - 1], ps[|ps| - 1];
      assert ps == front + [last];
      OthersOfFlag(slots, front, name, flag, locked);
    }
  }

  lemma {:induction false} OthersJoin(slots: seq<HelperSlot>, a: seq<Point>, b: seq<Point>, name: string, locked: bool)
    ensures Others(slots, a + b, name, locked) == Others(slots, a, name, locked) + Others(slots, b, name, locked)
  {
    hide IsMandatory;
    if b == [] {
      assert a + b == a;
    } else {
      var front, last := b[..|b| - 1], b[|b| - 1];
      OthersJoin(slots, a, front, name, locked);
      assert (a + b)[..|a + b| - 1] == a + front;
    }
  }

  lemma {:induction false} WithoutNothing(ps: seq<Point>, name: string)
    requires !HasName(ps, name)
    ensures Without(ps, name) == ps
  {
    if ps != [] {
      var front, last := ps[..|ps| - 1], ps[|ps| - 1];
      assert forall i :: 0 <= i < |front| ==> front[i] == ps[i];
      WithoutNothing(front, name);
      assert ps == front + [last];
    }
  }

  /** Leaving out a hard-locked slot removes its point from the hard-locked ones and nothing else. */
  lemma OthersAre(sha: Sha256, factors: Raw, salt: byte, slots: seq<HelperSlot>, i: nat)
    requires SlotNames(slots) && SlotNamesDistinct(slots) && i < |slots| && slots[i].mandatory
    ensures var a, b := Points(sha, factors, salt, slots, true), Points(sha, factors, salt, slots, false);
      && Others(slots, a + b, slots[i].name, true) == Without(a, slots[i].name)
      && Others(slots, a + b, slots[i].name, false) == b
  {
    var a, b := Points(sha, factors, salt, slots, true), Points(sha, factors, salt, slots, false);
    var name := slots[i].name;
    PointsFromSlots(sha, factors, salt, slots, true);
    PointsFromSlots(sha, factors, salt, slots, false);
    hide Points, IsSlotName, DeriveX, IsPresent, IsMandatory, Others, Without;
    forall p | p in a ensures IsMandatory(slots, p.name) == true {
      var j :| FromSlot(sha, factors, salt, slots, true, p, j);
      FlagOfSlot(slots, j);
    }
    forall p | p in b ensures IsMandatory(slots, p.name) == false && p.name != name {
      var j :| FromSlot(sha, factors, salt, slots, false, p, j);
      FlagOfSlot(slots, j);
      FlagOfSlot(slots, i);
    }
    NotNamed(b, name);
    OthersJoin(slots, a, b, name, true);
    OthersJoin(slots, a, b, name, false);
    OthersOfFlag(slots, a, name, true, true);
    OthersOfFlag(slots, b, name, false, true);
    OthersOfFlag(slots, a, name, true, false);
    OthersOfFlag(slots, b, name, false, false);
    WithoutNothing(b, name);
  }

  // ---------------------------------------------------------------- the theorem

  /** The only present slot that is off the curves is hard-locked slot c; no hard lock is missing. */
  ghost predicate OnlyLockChanged(sha: Sha256, h: Helper, curves: seq<seq<Elem>>, enrolled: Raw, factors: Raw, c: nat)
    requires SlotNames(h.slots) && |curves| == 4 && c < |h.slots|
  {
    && h.slots[c].mandatory
    && !Good(curves, PointOf(sha, factors, h.salt, h.slots[c]))
    && (forall i :: 0 <= i < |h.slots| && h.slots[i].mandatory ==> IsPresent(factors, h.slots[i]))
    && (forall i ::
          0 <= i < |h.slots| && i != c && IsPresent(factors, h.slots[i]) ==> Unchanged(factors, enrolled, h.slots[i]))
  }

  lemma PointsOnlyBad(sha: Sha256, h: Helper, k: Key, curves: seq<seq<Elem>>, enrolled: Raw, factors: Raw, c: nat)
    requires Genuine(sha, h, k, curves, enrolled) && SlotNamesDistinct(h.slots)
    requires c < |h.slots| && OnlyLockChanged(sha, h, curves, enrolled, factors, c)
    ensures var a, b := Points(sha, factors, h.salt, h.slots, true), Points(sha, factors, h.salt, h.slots, false);
      && OnlyBad(curves, a + b, h.slots[c].name) && HasName(a, h.slots[c].name)
  {
    var a, b := Points(sha, factors, h.salt, h.slots, true), Points(sha, factors, h.salt, h.slots, false);
    var bad := h.slots[c].name;
    PointsFromSlots(sha, factors, h.salt, h.slots, true);
    PointsFromSlots(sha, factors, h.salt, h.slots, false);
    hide Points, IsSlotName, Good;
    forall p: Point | p in a + b ensures p.x != 0 && (Good(curves, p) <==> p.name != bad) {
      var locked := p in a;
      var i :| FromSlot(sha, factors, h.salt, h.slots, locked, p, i);
      assert EnrolledSlot(sha, curves, enrolled, h.salt, h.slots[i]);
      PointName(sha, factors, h.salt, h.slots[i]);
      if i != c {
        assert h.slots[i].name != bad;
        UnchangedIsGood(sha, curves, enrolled, h.salt, h.slots[i], factors);
      }
    }
    var p := PointOf(sha, factors, h.salt, h.slots[c]);
    assert FromSlot(sha, factors, h.salt, h.slots, true, p, c);
    NotNamed(a, bad);
  }

  lemma {:induction false} PointCounts(sha: Sha256, factors: Raw, salt: byte, slots: seq<HelperSlot>)
    requires SlotNames(slots)
    ensures |Points(sha, factors, salt, slots, true)| + |Points(sha, factors, salt, slots, false)|
         == PresentCount(factors, slots)
    ensures |Points(sha, factors, salt, slots, true)| <= MandatoryCount(slots)
  {
    hide IsSlotName, PointOf, IsPresent;
    if slots != [] { PointCounts(sha, factors, salt, slots[..|slots| - 1]); }
  }

  lemma {:induction false} NoneMissing(factors: Raw, slots: seq<HelperSlot>)
    requires forall i :: 0 <= i < |slots| && slots[i].mandatory ==> IsPresent(factors, slots[i])
    ensures MissingMandatory(factors, slots) == []
  {
    hide IsPresent;
    if slots != [] { NoneMissing(factors, slots[..|slots| - 1]); }
  }

  lemma WithoutOnlyBad(curves: seq<seq<Elem>>, a: seq<Point>, b: seq<Point>, name: string, bad: string)
    requires |curves| == 4 && NamesDistinct(a + b) && Apart(a + b) && OnlyBad(curves, a + b, bad)
    ensures var w := Without(a, name);
      NamesDistinct(w + b) && Apart(w + b) && OnlyBad(curves, w + b, bad)
    ensures HasName(a, bad) && name != bad ==> HasName(Without(a, name), bad)
  {
    hide Good;
    var w := Without(a, name);
    WithoutMembers(a, name);
    NotNamed(a, bad);
    NotNamed(w, bad);
    assert NamesDistinct(a) && NamesDistinct(b) by { Halves(a, b); }
    WithoutDistinct(a, name);
    forall p, q | p in a && q in b ensures p.name != q.name { Across(a, b, p, q); }
    JoinDistinct(w, b);
    assert forall p :: p in w + b ==> p in a + b;
  }

  lemma Halves(a: seq<Point>, b: seq<Point>)
    requires NamesDistinct(a + b)
    ensures NamesDistinct(a) && NamesDistinct(b)
  {
    forall i, j | 0 <= i < j < |a| ensures a[i].name != a[j].name {
      assert (a + b)[i] == a[i] && (a + b)[j] == a[j];
    }
    forall i, j | 0 <= i < j < |b| ensures b[i].name != b[j].name {
      assert (a + b)[|a| + i] == b[i] && (a + b)[|a| + j] == b[j];
    }
  }

  lemma Across(a: seq<Point>, b: seq<Point>, p: Point, q: Point)
    requires NamesDistinct(a + b) && p in a && q in b
    ensures p.name != q.name
  {
    var i :| 0 <= i < |a| && a[i] == p;
    var j :| 0 <= j < |b| && b[j] == q;
    assert (a + b)[i] == p && (a + b)[|a| + j] == q;
  }

  /** Leaving out hard-locked slot i lets the rest recover exactly when i is the changed slot. */
  lemma LeavingOut(sha: Sha256, h: Helper, k: Key, curves: seq<seq<Elem>>, factors: Raw, c: nat, i: nat)
    requires SlotNames(h.slots) && SlotNamesDistinct(h.slots) && c < |h.slots| && i < |h.slots| && h.slots[i].mandatory
    requires IsCurves(curves, k, h.threshold) && h.checkWord == CheckWord(sha, k) && CheckWordIdentifies(sha, k)
    requires var a, b := Points(sha, factors, h.salt, h.slots, true), Points(sha, factors, h.salt, h.slots, false);
      && NamesDistinct(a + b) && Apart(a + b) && |a| <= h.threshold
      && OnlyBad(curves, a + b, h.slots[c].name) && HasName(a, h.slots[c].name)
    ensures var a, b := Points(sha, factors, h.salt, h.slots, true), Points(sha, factors, h.salt, h.slots, false);
      RecoversWithout(sha, h, a + b, h.slots[i].name) == Ok(i == c && |a| + |b| - 1 >= h.threshold)
  {
    var a, b := Points(sha, factors, h.salt, h.slots, true), Points(sha, factors, h.salt, h.slots, false);
    var bad, name := h.slots[c].name, h.slots[i].name;
    assert |curves| == 4;
    OthersAre(sha, factors, h.salt, h.slots, i);
    hide Points, Others, Good, FindOf, IsCurves, CheckWordIdentifies, IsSlotName, Without, NamesDistinct, Apart,
      HasName, CheckWord;
    var w := Without(a, name);
    assert NamesDistinct(a) by { Halves(a, b); }
    WithoutOnlyBad(curves, a, b, name, bad);
    WithoutSize(a, name);
    if i == c {
      WithoutMembers(a, name);
      OthersGood(curves, a, b, w, bad);
      GoodSucceeds(sha, curves, k, h.threshold, w, b);
    } else {
      assert name != bad;
      BadFails(sha, curves, k, h.threshold, w, b, bad);
    }
  }

  lemma OthersGood(curves: seq<seq<Elem>>, a: seq<Point>, b: seq<Point>, w: seq<Point>, bad: string)
    requires |curves| == 4 && OnlyBad(curves, a + b, bad) && NamesDistinct(a + b) && HasName(a, bad)
    requires forall p :: p in w <==> p in a && p.name != bad
    ensures AllGood(curves, w) && AllGood(curves, b)
  {
    hide Good;
    var j :| 0 <= j < |a| && a[j].name == bad;
    forall i | 0 <= i < |w| ensures Good(curves, w[i]) {
      assert w[i] in w && w[i] in a + b;
    }
    forall i | 0 <= i < |b| ensures Good(curves, b[i]) {
      assert b[i] in b && b[i] in a + b && a[j] in a;
      Across(a, b, a[j], b[i]);
    }
  }

  /** The diagnostic loop from slot i on, given what leaving out each slot does. */
  lemma {:induction false} CulpritFrom(sha: Sha256, h: Helper, merged: seq<Point>, c: nat, enough: bool, i: nat)
    requires c < |h.slots| && i <= |h.slots| && h.slots[c].mandatory
    requires forall j | 0 <= j < |h.slots| && h.slots[j].mandatory ::
      RecoversWithout(sha, h, merged, h.slots[j].name) == Ok(j == c && enough)
    ensures Culprit(sha, h, merged, i) == Ok(if i <= c && enough then h.slots[c].name else "")
    decreases |h.slots| - i
  {
    hide RecoversWithout, Culprit;
    CulpritStep(sha, h, merged, i);
    if i < |h.slots| {
      CulpritFrom(sha, h, merged, c, enough, i + 1);
    }
  }

  lemma CulpritStep(sha: Sha256, h: Helper, merged: seq<Point>, i: nat)
    requires i <= |h.slots|
    ensures i == |h.slots| ==> Culprit(sha, h, merged, i) == Ok("")
    ensures i < |h.slots| && h.slots[i].mandatory && RecoversWithout(sha, h, merged, h.slots[i].name) == Ok(true)
      ==> Culprit(sha, h, merged, i) == Ok(h.slots[i].name)
    ensures i < |h.slots| && (h.slots[i].mandatory ==> RecoversWithout(sha, h, merged, h.slots[i].name) == Ok(false))
      ==> Culprit(sha, h, merged, i) == Culprit(sha, h, merged, i + 1)
  {
    hide RecoversWithout;
  }

  /**
   The diagnosis is exact: when one present hard-locked slot is off the curves, all other present
   slots are unchanged and no hard lock is missing, recovery never succeeds.  It names precisely
   that slot, whatever its place in stored order, if and only if the other present slots reach the
   threshold on their own; otherwise it reports drift.
   */
  lemma DiagnosisIsExact(sha: Sha256, h: Helper, k: Key, curves: seq<seq<Elem>>, enrolled: Raw, factors: Raw, c: nat)
    requires Genuine(sha, h, k, curves, enrolled) && CheckWordIdentifies(sha, k)
    requires SlotsInOrder(h.slots, h.normVersion) && MandatoryCount(h.slots) <= h.threshold
    requires c < |h.slots| && OnlyLockChanged(sha, h, curves, enrolled, factors, c)
    requires Separated(sha, h, factors)
    ensures var present := PresentCount(factors, h.slots);
      RecoverHelper(sha, h, factors) ==
        Ok(if present - 1 >= h.threshold then Refused(Locked, present, h.threshold, [h.slots[c].name])
           else Refused(Drifted, present, h.threshold, []))
  {
    var a, b := Points(sha, factors, h.salt, h.slots, true), Points(sha, factors, h.salt, h.slots, false);
    OrderedNamesDistinct(h.slots, h.normVersion);
    AllPointsDistinct(sha, factors, h.salt, h.slots);
    ApartIsDistinct(a + b);
    PointsOnlyBad(sha, h, k, curves, enrolled, factors, c);
    PointCounts(sha, factors, h.salt, h.slots);
    NoneMissing(factors, h.slots);
    SlotNameIsAscii(h.slots[c]);
    BadEverywhere(sha, h, k, curves, factors, c);
  }

  lemma BadEverywhere(sha: Sha256, h: Helper, k: Key, curves: seq<seq<Elem>>, factors: Raw, c: nat)
    requires SlotNames(h.slots) && SlotNamesDistinct(h.slots) && c < |h.slots| && h.slots[c].mandatory
    requires h.slots[c].name != ""
    requires IsCurves(curves, k, h.threshold) && h.checkWord == CheckWord(sha, k) && CheckWordIdentifies(sha, k)
    requires MissingMandatory(factors, h.slots) == []
    requires var a, b := Points(sha, factors, h.salt, h.slots, true), Points(sha, factors, h.salt, h.slots, false);
      && NamesDistinct(a + b) && Apart(a + b) && |a| <= h.threshold && |a| + |b| == PresentCount(factors, h.slots)
      && OnlyBad(curves, a + b, h.slots[c].name) && HasName(a, h.slots[c].name)
    ensures var present := PresentCount(factors, h.slots);
      RecoverHelper(sha, h, factors) ==
        Ok(if present - 1 >= h.threshold then Refused(Locked, present, h.threshold, [h.slots[c].name])
           else Refused(Drifted, present, h.threshold, []))
  {
    assert |curves| == 4;
    hide Points, Good, FindOf, IsCurves, CheckWordIdentifies, IsSlotName, NamesDistinct, Apart, HasName, CheckWord,
      RecoversWithout, SlotNamesDistinct, OnlyBad, Culprit, PresentCount, MissingMandatory, Classified;
    var a, b := Points(sha, factors, h.salt, h.slots, true), Points(sha, factors, h.salt, h.slots, false);
    BadFails(sha, curves, k, h.threshold, a, b, h.slots[c].name);
    forall j | 0 <= j < |h.slots| && h.slots[j].mandatory
      ensures RecoversWithout(sha, h, a + b, h.slots[j].name) == Ok(j == c && |a| + |b| - 1 >= h.threshold)
    {
      LeavingOut(sha, h, k, curves, factors, c, j);
    }
    CulpritFrom(sha, h, a + b, c, |a| + |b| - 1 >= h.threshold, 0);
  }

  // ---------------------------------------------------------------- too little is left

  lemma {:induction false} OthersAreFewer(slots: seq<HelperSlot>, points: seq<Point>, name: string)
    ensures |Others(slots, points, name, true)| + |Others(slots, points, name, false)| <= |points|
  {
    hide IsMandatory;
    if points != [] { OthersAreFewer(slots, points[..|points| - 1], name); }
  }

  lemma TooFewFail(sha: Sha256, a: seq<Point>, b: seq<Point>, t: nat, cw: bytes)
    requires |a| + |b| < t
    ensures FindOf(sha, a, b, t, cw) == Ok(None)
  {
    hide Try, LexLess;
    SweepIsExact(sha, a, b, t, cw);
    forall c | IsChoice(c, 0, |b|, Need(t, |a|)) && InRange(c, |b|) ensures false {
      TooFewToChoose(c, 0, |b|, Need(t, |a|));
    }
  }

  lemma {:induction false} NoCulpritAmongFew(sha: Sha256, h: Helper, merged: seq<Point>, i: nat)
    requires i <= |h.slots| && |merged| < h.threshold
    ensures Culprit(sha, h, merged, i) == Ok("")
    decreases |h.slots| - i
  {
    hide FindOf, Others, Culprit;
    CulpritStep(sha, h, merged, i);
    if i < |h.slots| {
      var name := h.slots[i].name;
      OthersAreFewer(h.slots, merged, name);
      TooFewFail(sha, Others(h.slots, merged, name, true), Others(h.slots, merged, name, false), h.threshold,
                 h.checkWord);
      NoCulpritAmongFew(sha, h, merged, i + 1);
    }
  }

  /** A machine with all hard locks but fewer present slots than the threshold is told that it drifted, and how far. */
  lemma TooFewPresentIsDrift(sha: Sha256, h: Helper, factors: Raw)
    requires SlotNames(h.slots) && PresentCount(factors, h.slots) < h.threshold
    requires forall i :: 0 <= i < |h.slots| && h.slots[i].mandatory ==> IsPresent(factors, h.slots[i])
    ensures RecoverHelper(sha, h, factors) == Ok(Refused(Drifted, PresentCount(factors, h.slots), h.threshold, []))
  {
    var a, b := Points(sha, factors, h.salt, h.slots, true), Points(sha, factors, h.salt, h.slots, false);
    hide Points, FindOf, IsPresent, IsSlotName, PresentCount, Culprit, MissingMandatory, Classified, KeyOf;
    NoneMissing(factors, h.slots);
    PointCounts(sha, factors, h.salt, h.slots);
    TooFewFail(sha, a, b, h.threshold, h.checkWord);
    NoCulpritAmongFew(sha, h, a + b, 0);
  }

  /** A blob that is corrupt is refused without a word about slots. */
  lemma CorruptIsRefused(sha: Sha256, blob: bytes, factors: Raw)
    ensures var r := Recover(sha, blob, factors);
      && (Parse(sha, blob) == Err(CorruptHelperError) <==> r == Ok(Refused(Corrupt, 0, 0, [])))
      && (Parse(sha, blob) == Err(UnicodeDecodeError) ==> r == Err(UnicodeDecodeError))
  {
    hide Parse, FindOf, Points, Culprit, Classified, KeyOf, HwidOf;
  }
}
