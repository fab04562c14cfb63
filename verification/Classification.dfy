/** What the live and dead lists of a successful recovery mean (core.py:590-614). */
module Classification {
  import opened Wrappers
  import opened Bytes
  import opened Field
  import opened Polynomials
  import opened Sharing
  import opened Search
  import opened Factors
  import opened HelperBlob
  import opened Recovery
  import opened RecoveryLaws
  import opened Diagnosis

  // ---------------------------------------------------------------- the two lists

  lemma {:induction false} ClassifiedAre(sha: Sha256, factors: Raw, salt: byte, mandatory: seq<Point>, subset: Subset,
                                         slots: seq<HelperSlot>, live: bool)
    requires SlotNames(slots)
    ensures forall a :: (a in Classified(sha, factors, salt, mandatory, subset, slots, live)
      <==> exists i ::
        0 <= i < |slots| && slots[i].name == a && IsLive(sha, factors, salt, mandatory, subset, slots[i]) == live)
  {
    hide IsLive, IsSlotName;
    if slots != [] {
      var n := |slots| - 1;
      ClassifiedAre(sha, factors, salt, mandatory, subset, slots[..n], live);
      forall a ensures a in Classified(sha, factors, salt, mandatory, subset, slots, live)
        <==> exists i ::
          0 <= i < |slots| && slots[i].name == a && IsLive(sha, factors, salt, mandatory, subset, slots[i]) == live
      {
        if a in Classified(sha, factors, salt, mandatory, subset, slots[..n], live) {
          var i :| 0 <= i < n && slots[..n][i].name == a
            && IsLive(sha, factors, salt, mandatory, subset, slots[..n][i]) == live;
          assert slots[i] == slots[..n][i];
        }
        if exists i ::
          0 <= i < |slots| && slots[i].name == a && IsLive(sha, factors, salt, mandatory, subset, slots[i]) == live
        {
          var i :| 0 <= i < |slots| && slots[i].name == a
            && IsLive(sha, factors, salt, mandatory, subset, slots[i]) == live;
          if i < n { assert slots[..n][i] == slots[i]; }
        }
      }
    }
  }

  lemma {:induction false} ListLengths(sha: Sha256, factors: Raw, salt: byte, mandatory: seq<Point>, subset: Subset,
                                       slots: seq<HelperSlot>)
    requires SlotNames(slots)
    ensures |Classified(sha, factors, salt, mandatory, subset, slots, true)|
          + |Classified(sha, factors, salt, mandatory, subset, slots, false)| == |slots|
  {
    hide IsLive, IsSlotName;
    if slots != [] { ListLengths(sha, factors, salt, mandatory, subset, slots[..|slots| - 1]); }
  }

  /** The lists are already sorted, so sorting them changes nothing. */
  lemma {:induction false} ListsAscend(sha: Sha256, factors: Raw, salt: byte, mandatory: seq<Point>, subset: Subset,
                                       slots: seq<HelperSlot>, live: bool, norm: int)
    requires SlotNames(slots) && SlotsInOrder(slots, norm)
    ensures Ascending(Classified(sha, factors, salt, mandatory, subset, slots, live))
  {
    hide IsLive, IsSlotName, Less, Allowed;
    if slots != [] {
      var n := |slots| - 1;
      var front := slots[..n];
      ListsAscend(sha, factors, salt, mandatory, subset, front, live, norm);
      ClassifiedAre(sha, factors, salt, mandatory, subset, front, live);
      var list := Classified(sha, factors, salt, mandatory, subset, front, live);
      forall a | a in list ensures Less(a, slots[n].name) {
        var i :| 0 <= i < n && front[i].name == a && IsLive(sha, factors, salt, mandatory, subset, front[i]) == live;
        assert slots[i] == front[i];
      }
      AscendingExtends(list, slots[n].name);
    }
  }

  lemma AscendingExtends(list: seq<string>, a: string)
    requires Ascending(list) && forall b :: b in list ==> Less(b, a)
    ensures Ascending(list + [a])
  {
    hide Less;
  }

  // ---------------------------------------------------------------- what a refusal reports

  /** The hard locks reported as missing are exactly the absent ones. */
  lemma {:induction false} MissingAreAbsent(factors: Raw, slots: seq<HelperSlot>)
    ensures forall a ::
      a in MissingMandatory(factors, slots) <==>
        exists i :: 0 <= i < |slots| && slots[i].name == a && slots[i].mandatory && !IsPresent(factors, slots[i])
  {
    hide IsPresent;
    if slots != [] {
      var n := |slots| - 1;
      MissingAreAbsent(factors, slots[..n]);
      forall a
        ensures a in MissingMandatory(factors, slots) <==>
          exists i :: 0 <= i < |slots| && slots[i].name == a && slots[i].mandatory && !IsPresent(factors, slots[i])
      {
        if a in MissingMandatory(factors, slots[..n]) {
          var i :| 0 <= i < n && slots[..n][i].name == a
            && slots[..n][i].mandatory && !IsPresent(factors, slots[..n][i]);
          assert slots[i] == slots[..n][i];
        }
        if exists i :: 0 <= i < |slots| && slots[i].name == a && slots[i].mandatory && !IsPresent(factors, slots[i]) {
          var i :| 0 <= i < |slots| && slots[i].name == a && slots[i].mandatory && !IsPresent(factors, slots[i]);
          if i < n { assert slots[..n][i] == slots[i]; }
        }
      }
    }
  }

  /** They are reported once each, in stored order. */
  lemma {:induction false} MissingAscend(factors: Raw, slots: seq<HelperSlot>, norm: int)
    requires SlotsInOrder(slots, norm)
    ensures Ascending(MissingMandatory(factors, slots))
  {
    hide IsPresent, Less, Allowed;
    if slots != [] {
      var n := |slots| - 1;
      var front := slots[..n];
      MissingAscend(factors, front, norm);
      MissingAreAbsent(factors, front);
      var list := MissingMandatory(factors, front);
      forall a | a in list ensures Less(a, slots[n].name) {
        var i :| 0 <= i < n && front[i].name == a && front[i].mandatory && !IsPresent(factors, front[i]);
        assert slots[i] == front[i];
      }
      AscendingExtends(list, slots[n].name);
    }
  }

  function PresentNames(factors: Raw, slots: seq<HelperSlot>): set<string> {
    set i | 0 <= i < |slots| && IsPresent(factors, slots[i]) :: slots[i].name
  }

  lemma PresentNamesGrow(factors: Raw, slots: seq<HelperSlot>)
    requires slots != []
    ensures var front, last := slots[..|slots| - 1], slots[|slots| - 1];
      PresentNames(factors, slots)
      == PresentNames(factors, front) + if IsPresent(factors, last) then {last.name} else {}
  {
    hide IsPresent;
    var n := |slots| - 1;
    forall a | a in PresentNames(factors, slots)
      ensures a in PresentNames(factors, slots[..n]) || (IsPresent(factors, slots[n]) && a == slots[n].name)
    {
      var i :| 0 <= i < |slots| && IsPresent(factors, slots[i]) && slots[i].name == a;
      if i < n { assert slots[..n][i].name == a; }
    }
    forall a | a in PresentNames(factors, slots[..n]) ensures a in PresentNames(factors, slots) {
      var i :| 0 <= i < n && IsPresent(factors, slots[..n][i]) && slots[..n][i].name == a;
      assert slots[i].name == a;
    }
  }

  /** The number reported as present is that of the slots with a value. */
  lemma {:induction false} PresentIsCounted(factors: Raw, slots: seq<HelperSlot>)
    requires SlotNamesDistinct(slots)
    ensures PresentCount(factors, slots) == |PresentNames(factors, slots)|
  {
    hide IsPresent;
    if slots != [] {
      var front, last := slots[..|slots| - 1], slots[|slots| - 1];
      assert forall i :: 0 <= i < |front| ==> front[i] == slots[i] && front[i].name != last.name;
      PresentIsCounted(factors, front);
      PresentNamesGrow(factors, slots);
      assert last.name !in PresentNames(factors, front);
    }
  }

  // ---------------------------------------------------------------- sizes

  function NameSet(ps: seq<Point>): set<string> {
    if ps == [] then {} else NameSet(ps[..|ps| - 1]) + {ps[|ps| - 1].name}
  }

  lemma {:induction false} NameSetSize(ps: seq<Point>)
    requires NamesDistinct(ps)
    ensures |NameSet(ps)| == |ps|
    ensures forall a :: a in NameSet(ps) <==> exists p :: p in ps && p.name == a
  {
    hide NamesDistinct;
    if ps != [] {
      var front, last := ps[..|ps| - 1], ps[|ps| - 1];
      LastIsNew(ps);
      NameSetSize(front);
      assert ps == front + [last];
    }
  }

  lemma {:induction false} ListCovers(names: set<string>, list: seq<string>)
    requires forall a :: a in names ==> a in list
    ensures |names| <= |list|
  {
    if list == [] {
      assert names == {};
    } else {
      var front, last := list[..|list| - 1], list[|list| - 1];
      assert list == front + [last];
      ListCovers(names - {last}, front);
    }
  }

  lemma PickDistinct(a: seq<Point>, b: seq<Point>, c: seq<nat>)
    requires NamesDistinct(a + b) && IsChoice(c, 0, |b|, |c|) && InRange(c, |b|)
    ensures NamesDistinct(a + Pick(b, c))
  {
    var all, some := a + b, a + Pick(b, c);
    forall i, j | 0 <= i < j < |some| ensures some[i].name != some[j].name {
      var u := if i < |a| then i else |a| + c[i - |a|];
      var v := if j < |a| then j else |a| + c[j - |a|];
      assert some[i] == all[u] && some[j] == all[v];
      assert u < v;
    }
  }

  // ---------------------------------------------------------------- a successful recovery

  ghost predicate Succeeds(sha: Sha256, h: Helper, factors: Raw)
    requires SlotNames(h.slots)
  {
    RecoverHelper(sha, h, factors).Ok? && RecoverHelper(sha, h, factors).value.Recovered?
  }

  lemma SuccessUnfolds(sha: Sha256, h: Helper, factors: Raw) returns (s: Subset)
    requires SlotNames(h.slots) && Succeeds(sha, h, factors)
    ensures var r := RecoverHelper(sha, h, factors).value;
      var a, b := Points(sha, factors, h.salt, h.slots, true), Points(sha, factors, h.salt, h.slots, false);
      && FindOf(sha, a, b, h.threshold, h.checkWord) == Ok(Some(s))
      && MissingMandatory(factors, h.slots) == []
      && KeyOf(s.points) == Ok(r.key) && r.hwid == HwidOf(sha, r.key)
      && r.live == Classified(sha, factors, h.salt, a, s, h.slots, true)
      && r.dead == Classified(sha, factors, h.salt, a, s, h.slots, false)
  {
    hide FindOf, Points, MissingMandatory, PresentCount, Classified, Culprit, CheckWord, HwidOf, IsSlotName, KeyOf;
    var a, b := Points(sha, factors, h.salt, h.slots, true), Points(sha, factors, h.salt, h.slots, false);
    FoundKey(sha, a, b, h.threshold, h.checkWord);
    s := FindOf(sha, a, b, h.threshold, h.checkWord).value.value;
  }

  lemma FoundSubset(sha: Sha256, a: seq<Point>, b: seq<Point>, t: nat, cw: bytes, s: Subset) returns (c: seq<nat>)
    requires FindOf(sha, a, b, t, cw) == Ok(Some(s))
    ensures IsChoice(c, 0, |b|, Need(t, |a|)) && InRange(c, |b|) && s == SubsetOf(a, b, c)
    ensures Try(sha, a, b, c, cw) == Passes
  {
    SweepIsExact(sha, a, b, t, cw);
    c := SweepOf(sha, a, b, t, cw).combo;
    assert IsFirst(sha, a, b, t, cw, c, Passes);
  }

  /** For a parsed helper the subset that recovers the key always has exactly threshold many points. */
  lemma FoundSubsetSize(sha: Sha256, blob: bytes, factors: Raw, s: Subset)
    requires Parse(sha, blob).Ok? && SlotNames(Parse(sha, blob).value.slots)
    requires var h := Parse(sha, blob).value;
      FindOf(sha, Points(sha, factors, h.salt, h.slots, true), Points(sha, factors, h.salt, h.slots, false),
             h.threshold, h.checkWord) == Ok(Some(s))
    ensures |s.points| == Parse(sha, blob).value.threshold
  {
    hide Points, FindOf, Parse, Encode, Encodable, SlotsInOrder, MandatoryCount, Allowed, KeyOf, CheckWord,
      IsSlotName, Try;
    EncodeOfParse(sha, blob);
    var h := Parse(sha, blob).value;
    PointCounts(sha, factors, h.salt, h.slots);
    var c := FoundSubset(sha, Points(sha, factors, h.salt, h.slots, true), Points(sha, factors, h.salt, h.slots, false),
                         h.threshold, h.checkWord, s);
  }

  lemma {:induction false} NoneMissingMeans(factors: Raw, slots: seq<HelperSlot>)
    requires MissingMandatory(factors, slots) == []
    ensures forall i :: 0 <= i < |slots| && slots[i].mandatory ==> IsPresent(factors, slots[i])
  {
    hide IsPresent;
    if slots != [] {
      NoneMissingMeans(factors, slots[..|slots| - 1]);
      assert forall i :: 0 <= i < |slots| - 1 ==> slots[..|slots| - 1][i] == slots[i];
    }
  }

  lemma PickMember(b: seq<Point>, c: seq<nat>, p: Point) returns (i: nat)
    requires InRange(c, |b|) && p in Pick(b, c)
    ensures i < |c| && b[c[i]] == p && p in b
  {
    i :| i < |c| && Pick(b, c)[i] == p;
  }

  lemma LiveSlotListed(sha: Sha256, factors: Raw, salt: byte, a: seq<Point>, s: Subset, slots: seq<HelperSlot>, i: nat)
    requires SlotNames(slots) && i < |slots| && IsLive(sha, factors, salt, a, s, slots[i])
    ensures slots[i].name in Classified(sha, factors, salt, a, s, slots, true)
  {
    ClassifiedAre(sha, factors, salt, a, s, slots, true);
    hide IsLive, Classified;
  }

  /** Every point of the subset that recovered the key belongs to a live slot. */
  lemma SubsetIsLive(sha: Sha256, h: Helper, factors: Raw, s: Subset, c: seq<nat>, p: Point)
    requires SlotNames(h.slots)
    requires var a, b := Points(sha, factors, h.salt, h.slots, true), Points(sha, factors, h.salt, h.slots, false);
      InRange(c, |b|) && s == SubsetOf(a, b, c) && p in s.points
    ensures p.name in Classified(sha, factors, h.salt, Points(sha, factors, h.salt, h.slots, true), s, h.slots, true)
  {
    var a, b := Points(sha, factors, h.salt, h.slots, true), Points(sha, factors, h.salt, h.slots, false);
    PointsFromSlots(sha, factors, h.salt, h.slots, true);
    PointsFromSlots(sha, factors, h.salt, h.slots, false);
    hide Points, IsSlotName, IsPresent, Classified, DeriveX, OnCurve;
    var locked := p in a;
    if !locked {
      var j := PickMember(b, c, p);
      assert p.name in s.names;
    }
    var i :| FromSlot(sha, factors, h.salt, h.slots, locked, p, i);
    if locked { NotNamed(a, p.name); }
    LiveSlotListed(sha, factors, h.salt, a, s, h.slots, i);
  }

  /**
   On success live and dead partition the enrolled slots, both sorted; every hard-locked slot is
   live, and at least the threshold many slots are.
   */
  lemma LiveAndDead(sha: Sha256, h: Helper, factors: Raw)
    requires SlotNames(h.slots) && SlotsInOrder(h.slots, h.normVersion) && Succeeds(sha, h, factors)
    ensures var r := RecoverHelper(sha, h, factors).value;
      && Ascending(r.live) && Ascending(r.dead) && |r.live| + |r.dead| == |h.slots|
      && (forall i :: 0 <= i < |h.slots| ==> (h.slots[i].name in r.live <==> h.slots[i].name !in r.dead))
      && (forall i :: 0 <= i < |h.slots| && h.slots[i].mandatory ==> h.slots[i].name in r.live)
      && |r.live| >= h.threshold
  {
    var a, b := Points(sha, factors, h.salt, h.slots, true), Points(sha, factors, h.salt, h.slots, false);
    var s := SuccessUnfolds(sha, h, factors);
    hide RecoverHelper, Points, FindOf, KeyOf, HwidOf, IsSlotName, Less, Allowed;
    ListsAscend(sha, factors, h.salt, a, s, h.slots, true, h.normVersion);
    ListsAscend(sha, factors, h.salt, a, s, h.slots, false, h.normVersion);
    ListLengths(sha, factors, h.salt, a, s, h.slots);
    hide Classified, SlotsInOrder, MissingMandatory;
    Partition(sha, h, factors, a, s);
    LocksAreLive(sha, h, factors, s);
    var c := FoundSubset(sha, a, b, h.threshold, h.checkWord, s);
    EnoughLive(sha, h, factors, s, c);
  }

  lemma Partition(sha: Sha256, h: Helper, factors: Raw, a: seq<Point>, s: Subset)
    requires SlotNames(h.slots) && SlotsInOrder(h.slots, h.normVersion)
    ensures forall i :: 0 <= i < |h.slots| ==>
      (h.slots[i].name in Classified(sha, factors, h.salt, a, s, h.slots, true)
       <==> h.slots[i].name !in Classified(sha, factors, h.salt, a, s, h.slots, false))
  {
    ClassifiedAre(sha, factors, h.salt, a, s, h.slots, true);
    ClassifiedAre(sha, factors, h.salt, a, s, h.slots, false);
    OrderedNamesDistinct(h.slots, h.normVersion);
    hide IsLive, Classified, SlotsInOrder, IsSlotName;
    forall i | 0 <= i < |h.slots|
      ensures h.slots[i].name in Classified(sha, factors, h.salt, a, s, h.slots, true)
         <==> h.slots[i].name !in Classified(sha, factors, h.salt, a, s, h.slots, false)
    {
      assert forall j :: 0 <= j < |h.slots| && h.slots[j].name == h.slots[i].name ==> j == i;
    }
  }

  lemma LocksAreLive(sha: Sha256, h: Helper, factors: Raw, s: Subset)
    requires SlotNames(h.slots) && MissingMandatory(factors, h.slots) == []
    ensures forall i :: 0 <= i < |h.slots| && h.slots[i].mandatory ==>
      h.slots[i].name in Classified(sha, factors, h.salt, Points(sha, factors, h.salt, h.slots, true), s, h.slots, true)
  {
    var a := Points(sha, factors, h.salt, h.slots, true);
    PointsFromSlots(sha, factors, h.salt, h.slots, true);
    NoneMissingMeans(factors, h.slots);
    hide Points, IsSlotName, IsPresent, Classified, DeriveX, OnCurve, MissingMandatory;
    forall i | 0 <= i < |h.slots| && h.slots[i].mandatory
      ensures h.slots[i].name in Classified(sha, factors, h.salt, a, s, h.slots, true)
    {
      var p := PointOf(sha, factors, h.salt, h.slots[i]);
      assert FromSlot(sha, factors, h.salt, h.slots, true, p, i);
      NotNamed(a, h.slots[i].name);
      LiveSlotListed(sha, factors, h.salt, a, s, h.slots, i);
    }
  }

  lemma EnoughLive(sha: Sha256, h: Helper, factors: Raw, s: Subset, c: seq<nat>)
    requires SlotNames(h.slots) && SlotsInOrder(h.slots, h.normVersion)
    requires var a, b := Points(sha, factors, h.salt, h.slots, true), Points(sha, factors, h.salt, h.slots, false);
      IsChoice(c, 0, |b|, Need(h.threshold, |a|)) && InRange(c, |b|) && s == SubsetOf(a, b, c)
    ensures h.threshold
      <= |Classified(sha, factors, h.salt, Points(sha, factors, h.salt, h.slots, true), s, h.slots, true)|
  {
    var a, b := Points(sha, factors, h.salt, h.slots, true), Points(sha, factors, h.salt, h.slots, false);
    OrderedNamesDistinct(h.slots, h.normVersion);
    AllPointsDistinct(sha, factors, h.salt, h.slots);
    hide Points, IsSlotName, Classified, SlotsInOrder, NamesDistinct;
    PickDistinct(a, b, c);
    NameSetSize(s.points);
    var live := Classified(sha, factors, h.salt, a, s, h.slots, true);
    forall name | name in NameSet(s.points) ensures name in live {
      var p :| p in s.points && p.name == name;
      SubsetIsLive(sha, h, factors, s, c, p);
    }
    ListCovers(NameSet(s.points), live);
  }

  // ---------------------------------------------------------------- live means on the curves

  lemma SubsetPointOfSlot(sha: Sha256, h: Helper, factors: Raw, s: Subset, c: seq<nat>, i: nat)
    requires SlotNames(h.slots) && SlotNamesDistinct(h.slots) && i < |h.slots|
    requires var a, b := Points(sha, factors, h.salt, h.slots, true), Points(sha, factors, h.salt, h.slots, false);
      InRange(c, |b|) && s == SubsetOf(a, b, c)
      && (h.slots[i].name in s.names || HasName(a, h.slots[i].name))
    ensures IsPresent(factors, h.slots[i]) && PointOf(sha, factors, h.salt, h.slots[i]) in s.points
  {
    var a, b := Points(sha, factors, h.salt, h.slots, true), Points(sha, factors, h.salt, h.slots, false);
    var name := h.slots[i].name;
    PointsFromSlots(sha, factors, h.salt, h.slots, true);
    PointsFromSlots(sha, factors, h.salt, h.slots, false);
    hide Points, IsSlotName, IsPresent, DeriveX;
    NotNamed(a, name);
    var locked := HasName(a, name);
    var p: Point;
    if locked {
      p :| p in a && p.name == name;
    } else {
      var j :| 0 <= j < |c| && b[c[j]].name == name;
      p := b[c[j]];
      assert p in b && Pick(b, c)[j] == p;
    }
    var n :| FromSlot(sha, factors, h.salt, h.slots, locked, p, n);
    assert h.slots[n].name == name;
    assert n == i;
  }

  lemma IsLiveIsGood(sha: Sha256, h: Helper, k: Key, curves: seq<seq<Elem>>, factors: Raw, s: Subset, c: seq<nat>,
                     i: nat)
    requires SlotNames(h.slots) && SlotNamesDistinct(h.slots) && i < |h.slots| && IsCurves(curves, k, h.threshold)
    requires var a, b := Points(sha, factors, h.salt, h.slots, true), Points(sha, factors, h.salt, h.slots, false);
      InRange(c, |b|) && s == SubsetOf(a, b, c)
    requires AllGood(curves, s.points) && |s.points| == h.threshold && Distinct(Xs(s.points))
    ensures IsLive(sha, factors, h.salt, Points(sha, factors, h.salt, h.slots, true), s, h.slots[i])
       <==> IsPresent(factors, h.slots[i]) && Good(curves, PointOf(sha, factors, h.salt, h.slots[i]))
  {
    var a, slot := Points(sha, factors, h.salt, h.slots, true), h.slots[i];
    assert |curves| == 4;
    if slot.name in s.names || HasName(a, slot.name) {
      SubsetPointOfSlot(sha, h, factors, s, c, i);
    } else if IsPresent(factors, slot) {
      var p := PointOf(sha, factors, h.salt, slot);
      OnCurveIsGood(curves, k, h.threshold, s.points, p.x, p.share);
    }
    hide Points, DeriveX, OnCurve, ShareAt, SubsetOf, Xs, IsCurves, SlotNamesDistinct;
  }

  /**
   If the subset that recovered the key lies on the enrolled curves, a slot is live exactly when it
   is present with a point on all four of them; so every unchanged slot is live.
   */
  lemma LiveIffOnCurves(sha: Sha256, h: Helper, k: Key, curves: seq<seq<Elem>>, enrolled: Raw, factors: Raw, s: Subset)
    requires Genuine(sha, h, k, curves, enrolled) && SlotsInOrder(h.slots, h.normVersion) && Succeeds(sha, h, factors)
    requires FindOf(sha, Points(sha, factors, h.salt, h.slots, true), Points(sha, factors, h.salt, h.slots, false),
                    h.threshold, h.checkWord) == Ok(Some(s))
    requires AllGood(curves, s.points) && MandatoryCount(h.slots) <= h.threshold
    ensures RecoverHelper(sha, h, factors).value.key == k
    ensures forall i :: 0 <= i < |h.slots| ==>
      (h.slots[i].name in RecoverHelper(sha, h, factors).value.live
       <==> IsPresent(factors, h.slots[i]) && Good(curves, PointOf(sha, factors, h.salt, h.slots[i])))
    ensures forall i | 0 <= i < |h.slots| && Unchanged(factors, enrolled, h.slots[i]) ::
      h.slots[i].name in RecoverHelper(sha, h, factors).value.live
  {
    var a, b := Points(sha, factors, h.salt, h.slots, true), Points(sha, factors, h.salt, h.slots, false);
    var found := SuccessUnfolds(sha, h, factors);
    PointCounts(sha, factors, h.salt, h.slots);
    OrderedNamesDistinct(h.slots, h.normVersion);
    hide RecoverHelper, Points, FindOf, HwidOf, IsSlotName, Less, Allowed, SlotsInOrder, MandatoryCount, PresentCount,
      Classified, MissingMandatory, KeyOf, Good, IsPresent, DeriveX, IsCurves, CheckWord;
    var c := FoundSubset(sha, a, b, h.threshold, h.checkWord, s);
    PassesSeparated(sha, a, b, c, h.checkWord);
    assert |s.points| == h.threshold;
    SharesReconstruct(curves, k, h.threshold, s.points);
    hide SubsetOf, IsChoice, InRange, SlotNamesDistinct, Try;
    ClassifiedAre(sha, factors, h.salt, a, s, h.slots, true);
    forall i | 0 <= i < |h.slots|
      ensures h.slots[i].name in Classified(sha, factors, h.salt, a, s, h.slots, true)
         <==> IsPresent(factors, h.slots[i]) && Good(curves, PointOf(sha, factors, h.salt, h.slots[i]))
      ensures Unchanged(factors, enrolled, h.slots[i])
         ==> h.slots[i].name in Classified(sha, factors, h.salt, a, s, h.slots, true)
    {
      NameListed(sha, factors, h.salt, a, s, h.slots, i);
      IsLiveIsGood(sha, h, k, curves, factors, s, c, i);
      assert EnrolledSlot(sha, curves, enrolled, h.salt, h.slots[i]);
      UnchangedIsGood(sha, curves, enrolled, h.salt, h.slots[i], factors);
    }
  }

  lemma PassesSeparated(sha: Sha256, a: seq<Point>, b: seq<Point>, c: seq<nat>, cw: bytes)
    requires InRange(c, |b|) && Try(sha, a, b, c, cw) == Passes
    ensures Distinct(Xs(a + Pick(b, c)))
  {
  }

  lemma NameListed(sha: Sha256, factors: Raw, salt: byte, a: seq<Point>, s: Subset, slots: seq<HelperSlot>, i: nat)
    requires SlotNames(slots) && SlotNamesDistinct(slots) && i < |slots|
    ensures slots[i].name in Classified(sha, factors, salt, a, s, slots, true)
      <==> IsLive(sha, factors, salt, a, s, slots[i])
  {
    ClassifiedAre(sha, factors, salt, a, s, slots, true);
    hide IsLive, Classified, IsSlotName;
    assert forall j :: 0 <= j < |slots| && slots[j].name == slots[i].name ==> j == i;
  }

  /** The subset that recovers the key cannot hold the only point that is off the curves. */
  lemma SubsetAvoidsBad(sha: Sha256, k: Key, curves: seq<seq<Elem>>, t: nat, a: seq<Point>, b: seq<Point>, s: Subset,
                        bad: string)
    requires IsCurves(curves, k, t) && CheckWordIdentifies(sha, k) && |a| <= t
    requires FindOf(sha, a, b, t, CheckWord(sha, k)) == Ok(Some(s))
    requires NamesDistinct(a + b) && OnlyBad(curves, a + b, bad)
    ensures AllGood(curves, s.points)
  {
    assert |curves| == 4;
    var c := FoundSubset(sha, a, b, t, CheckWord(sha, k), s);
    PassesSeparated(sha, a, b, c, CheckWord(sha, k));
    PickDistinct(a, b, c);
    PassingKey(sha, k, a, b, c);
    hide Good, IsCurves, CheckWordIdentifies, CheckWord, FindOf, KeyOf, Xs, IsChoice, InRange;
    var ps := s.points;
    forall p: Point | p in ps ensures p.x != 0 && (Good(curves, p) <==> p.name != bad) {
      PickedFrom(a, b, c, p);
    }
    if !AllGood(curves, ps) {
      var j :| 0 <= j < |ps| && !Good(curves, ps[j]);
      forall i | 0 <= i < |ps| ensures ps[i].x != 0 && (i != j ==> Good(curves, ps[i])) {
        assert ps[i] in ps && ps[j] in ps;
        if i < j { assert ps[i].name != ps[j].name; }
        if j < i { assert ps[j].name != ps[i].name; }
      }
      OneBadPoint(curves, k, t, ps, j);
    }
  }

  lemma PickedFrom(a: seq<Point>, b: seq<Point>, c: seq<nat>, p: Point)
    requires InRange(c, |b|) && p in a + Pick(b, c)
    ensures p in a + b
  {
    if p !in a {
      var i := PickMember(b, c, p);
    }
  }

  lemma PassingKey(sha: Sha256, k: Key, a: seq<Point>, b: seq<Point>, c: seq<nat>)
    requires InRange(c, |b|) && Try(sha, a, b, c, CheckWord(sha, k)) == Passes && CheckWordIdentifies(sha, k)
    ensures KeyOf(a + Pick(b, c)) == Ok(k)
  {
  }

  /** Every present slot but the one called bad is unchanged; bad, if present, is off the curves. */
  ghost predicate AtMostOneMoved(sha: Sha256, h: Helper, curves: seq<seq<Elem>>, enrolled: Raw, factors: Raw,
                                 bad: string)
    requires SlotNames(h.slots) && |curves| == 4
  {
    forall i :: 0 <= i < |h.slots| && IsPresent(factors, h.slots[i]) ==>
      if h.slots[i].name == bad then !Good(curves, PointOf(sha, factors, h.salt, h.slots[i]))
      else Unchanged(factors, enrolled, h.slots[i])
  }

  lemma MovedIsOnlyBad(sha: Sha256, h: Helper, k: Key, curves: seq<seq<Elem>>, enrolled: Raw, factors: Raw, bad: string)
    requires Genuine(sha, h, k, curves, enrolled) && AtMostOneMoved(sha, h, curves, enrolled, factors, bad)
    ensures var a, b := Points(sha, factors, h.salt, h.slots, true), Points(sha, factors, h.salt, h.slots, false);
      OnlyBad(curves, a + b, bad)
  {
    var a, b := Points(sha, factors, h.salt, h.slots, true), Points(sha, factors, h.salt, h.slots, false);
    PointsFromSlots(sha, factors, h.salt, h.slots, true);
    PointsFromSlots(sha, factors, h.salt, h.slots, false);
    hide Points, IsSlotName, Good;
    forall p: Point | p in a + b ensures p.x != 0 && (Good(curves, p) <==> p.name != bad) {
      var locked := p in a;
      var i :| FromSlot(sha, factors, h.salt, h.slots, locked, p, i);
      assert EnrolledSlot(sha, curves, enrolled, h.salt, h.slots[i]);
      PointName(sha, factors, h.salt, h.slots[i]);
      UnchangedIsGood(sha, curves, enrolled, h.salt, h.slots[i], factors);
    }
  }

  /**
   A single drifted slot is reported exactly: the key is recovered, the live slots are the
   unchanged ones, and the dead slots are the drifted one and the absent ones.
   */
  lemma SingleDriftIsReported(sha: Sha256, h: Helper, k: Key, curves: seq<seq<Elem>>, enrolled: Raw, factors: Raw,
                              bad: string)
    requires Genuine(sha, h, k, curves, enrolled) && CheckWordIdentifies(sha, k)
    requires SlotsInOrder(h.slots, h.normVersion) && LocksIntact(factors, enrolled, h.slots)
    requires MandatoryCount(h.slots) <= h.threshold
    requires MandatoryCount(h.slots) + UnchangedCount(factors, enrolled, h.slots) >= h.threshold
    requires Separated(sha, h, factors) && AtMostOneMoved(sha, h, curves, enrolled, factors, bad)
    ensures Succeeds(sha, h, factors) && RecoverHelper(sha, h, factors).value.key == k
    ensures forall i :: 0 <= i < |h.slots| ==>
      (h.slots[i].name in RecoverHelper(sha, h, factors).value.live
       <==> IsPresent(factors, h.slots[i]) && h.slots[i].name != bad)
  {
    var a, b := Points(sha, factors, h.salt, h.slots, true), Points(sha, factors, h.salt, h.slots, false);
    FaultTolerance(sha, h, k, curves, enrolled, factors);
    hide RecoverHelper, MandatoryCount, UnchangedCount, LocksIntact, Points, FindOf, IsPresent, Good, Separated,
      Unchanged;
    var s := SuccessUnfolds(sha, h, factors);
    MovedIsOnlyBad(sha, h, k, curves, enrolled, factors, bad);
    PointCounts(sha, factors, h.salt, h.slots);
    OrderedNamesDistinct(h.slots, h.normVersion);
    AllPointsDistinct(sha, factors, h.salt, h.slots);
    SubsetAvoidsBad(sha, k, curves, h.threshold, a, b, s, bad);
    LiveIffOnCurves(sha, h, k, curves, enrolled, factors, s);
    forall i | 0 <= i < |h.slots|
      ensures IsPresent(factors, h.slots[i]) ==>
        (Good(curves, PointOf(sha, factors, h.salt, h.slots[i])) <==> h.slots[i].name != bad)
    {
      assert EnrolledSlot(sha, curves, enrolled, h.salt, h.slots[i]);
      UnchangedIsGood(sha, curves, enrolled, h.salt, h.slots[i], factors);
    }
  }
}
