/** Writing a helper over current factors: enrolment and refresh_core (core.py:305-306, 618-633). */
module Refresh {
  import opened Wrappers
  import opened Bytes
  import opened Field
  import opened Sharing
  import opened Search
  import opened Factors
  import opened HelperBlob
  import opened Recovery
  import opened RecoveryLaws
  import opened Diagnosis
  import opened Classification

  /** Factors as project_factors yields them in the current schema. */
  predicate IsProjected(factors: Raw) {
    factors.Keys <= Allowed(CURRENT_NORM_VERSION) && forall name :: name in factors ==> factors[name] != []
  }

  /** slot_list */
  function SlotList(factors: Raw, mandatory: set<string>): (slots: seq<Slot>)
    ensures |slots| == |factors|
  {
    var names := Sorted(factors.Keys);
    seq(|names|, i requires 0 <= i < |names| => Slot(names[i], factors[names[i]], names[i] in mandatory))
  }

  lemma SlotListNames(factors: Raw, mandatory: set<string>)
    requires IsProjected(factors)
    ensures AsciiSlots(SlotList(factors, mandatory)) && DistinctNames(SlotList(factors, mandatory))
  {
    var names := Sorted(factors.Keys);
    SortedAscends(factors.Keys);
    hide Allowed, Less, IsAscii;
    forall i | 0 <= i < |names| ensures IsAscii(names[i]) {
      assert names[i] in factors.Keys;
      AllowedNames(CURRENT_NORM_VERSION, names[i]);
      SlotNameAscii(names[i]);
    }
    forall i, j | 0 <= i < j < |names| ensures names[i] != names[j] {
      LessIrreflexive(names[i]);
    }
  }

  lemma SlotNameAscii(name: string)
    requires IsSlotName(name)
    ensures IsAscii(name)
  {
  }

  /** Every hard-locked name has a value among the factors. */
  predicate LocksPresent(factors: Raw, mandatory: set<string>) {
    forall name :: name in mandatory ==> Get(factors, name) != []
  }

  /** The shares of the factors on the curves. */
  function WrittenShares(sha: Sha256, factors: Raw, mandatory: set<string>, curves: seq<seq<Elem>>,
                         salt: byte): map<string, Key>
    requires IsProjected(factors) && |curves| == 4
  {
    SlotListNames(factors, mandatory);
    ShareMap(sha, SlotList(factors, mandatory), curves, salt)
  }

  function WrittenHelper(sha: Sha256, k: Key, factors: Raw, mandatory: set<string>, curves: seq<seq<Elem>>, t: byte,
                         salt: byte): Helper
    requires IsProjected(factors) && |curves| == 4
  {
    HelperOf(WrittenShares(sha, factors, mandatory, curves, salt), mandatory, t, salt, CheckWord(sha, k),
             CURRENT_NORM_VERSION)
  }

  predicate SaltWorks(sha: Sha256, factors: Raw, mandatory: set<string>, salt: byte)
    requires IsProjected(factors)
  {
    SlotListNames(factors, mandatory);
    SaltSeparates(sha, SlotList(factors, mandatory), salt)
  }

  /** The helper over the factors, from a byte source at pos, with the threshold t. */
  function SharedHelper(sha: Sha256, k: Key, factors: Raw, mandatory: set<string>, t: byte, data: bytes,
                        pos: nat): Result<Helper>
    requires IsProjected(factors) && t >= 1
  {
    SlotListNames(factors, mandatory);
    var shares :- SharesOf(sha, k, SlotList(factors, mandatory), t, data, pos);
    Ok(HelperOf(shares.values, mandatory, t, shares.salt, CheckWord(sha, k), CURRENT_NORM_VERSION))
  }

  // ---------------------------------------------------------------- the written helper

  ghost predicate Shared(sha: Sha256, h: Helper, k: Key, curves: seq<seq<Elem>>, factors: Raw, mandatory: set<string>) {
    && WellFormed(h) && h.normVersion == CURRENT_NORM_VERSION
    && Genuine(sha, h, k, curves, factors)
    && MandatoryNames(h.slots) == mandatory
    && Names(h.slots) == factors.Keys
    && Separated(sha, h, factors)
  }

  lemma CurvesOfKey(k: Key, draws: seq<Elem>, t: nat)
    requires t >= 1 && |draws| == 4 * (t - 1)
    ensures IsCurves(CurvesOf(k, draws, t), k, t)
  {
  }

  lemma SlotOfName(factors: Raw, mandatory: set<string>, name: string) returns (i: nat)
    requires name in factors
    ensures i < |factors| && SlotList(factors, mandatory)[i] == Slot(name, factors[name], name in mandatory)
  {
    var names := Sorted(factors.Keys);
    i :| 0 <= i < |names| && names[i] == name;
  }

  lemma SlotListCovers(factors: Raw, mandatory: set<string>)
    ensures (set s | s in SlotList(factors, mandatory) :: s.name) == factors.Keys
  {
    var names, slots := Sorted(factors.Keys), SlotList(factors, mandatory);
    forall name | name in factors.Keys ensures exists s :: s in slots && s.name == name {
      var i := SlotOfName(factors, mandatory, name);
      assert slots[i] in slots;
    }
    forall s | s in slots ensures s.name in factors.Keys {
      var i :| 0 <= i < |slots| && slots[i] == s;
      assert names[i] in factors.Keys;
    }
  }

  /** The share map holds, for every factor, the point of the curves at its x-coordinate. */
  lemma ShareByName(sha: Sha256, factors: Raw, mandatory: set<string>, curves: seq<seq<Elem>>, salt: byte, name: string)
    requires IsProjected(factors) && |curves| == 4 && name in factors
    ensures var shares := WrittenShares(sha, factors, mandatory, curves, salt);
      && IsAscii(name) && name in shares
      && shares[name] == ShareAt(curves, DeriveX(sha, name, factors[name], salt))
  {
    hide ShareAt, DeriveX, ShareMap, IsAscii, IsProjected;
    SlotListNames(factors, mandatory);
    var i := SlotOfName(factors, mandatory, name);
    hide SlotList;
    ShareOfSlot(sha, SlotList(factors, mandatory), curves, salt, i);
  }

  lemma WrittenKeys(sha: Sha256, factors: Raw, mandatory: set<string>, curves: seq<seq<Elem>>, salt: byte)
    requires IsProjected(factors) && |curves| == 4
    ensures WrittenShares(sha, factors, mandatory, curves, salt).Keys == factors.Keys
  {
    hide ShareMap, IsProjected;
    SlotListNames(factors, mandatory);
    hide SlotList;
    ShareNames(sha, SlotList(factors, mandatory), curves, salt);
    SlotListCovers(factors, mandatory);
  }

  lemma WrittenSlot(shares: map<string, Key>, mandatory: set<string>, name: string) returns (i: nat)
    requires name in shares
    ensures var slots := SlotsFor(Sorted(shares.Keys), shares, mandatory);
      i < |slots| && slots[i] == HelperSlot(name, name in mandatory, shares[name])
  {
    var names := Sorted(shares.Keys);
    i :| 0 <= i < |names| && names[i] == name;
  }

  lemma WrittenNames(shares: map<string, Key>, mandatory: set<string>)
    ensures Names(SlotsFor(Sorted(shares.Keys), shares, mandatory)) == shares.Keys
  {
    var names, slots := Sorted(shares.Keys), SlotsFor(Sorted(shares.Keys), shares, mandatory);
    forall name | name in shares.Keys ensures name in Names(slots) {
      var i := WrittenSlot(shares, mandatory, name);
    }
    forall name | name in Names(slots) ensures name in shares.Keys {
      var i :| 0 <= i < |slots| && slots[i].name == name;
      assert names[i] in shares.Keys;
    }
  }

  lemma WrittenLocks(shares: map<string, Key>, mandatory: set<string>)
    requires mandatory <= shares.Keys
    ensures MandatoryNames(SlotsFor(Sorted(shares.Keys), shares, mandatory)) == mandatory
  {
    var slots := SlotsFor(Sorted(shares.Keys), shares, mandatory);
    MandatoryNamesAre(slots);
    hide MandatoryNames;
    forall name | name in mandatory ensures name in MandatoryNames(slots) {
      var i := WrittenSlot(shares, mandatory, name);
    }
    forall name | name in MandatoryNames(slots) ensures name in mandatory {
      var i :| 0 <= i < |slots| && slots[i].mandatory && slots[i].name == name;
    }
  }

  lemma WrittenOrder(shares: map<string, Key>, mandatory: set<string>, norm: int)
    requires shares.Keys <= Allowed(norm)
    ensures SlotsInOrder(SlotsFor(Sorted(shares.Keys), shares, mandatory), norm)
  {
    var names := Sorted(shares.Keys);
    SortedAscends(shares.Keys);
    hide Allowed, Less;
    forall i | 0 <= i < |names| ensures names[i] in Allowed(norm) {
      assert names[i] in shares.Keys;
    }
  }

  lemma AtLeastOne(mandatory: set<string>, name: string)
    requires name in mandatory
    ensures |mandatory| >= 1
  {
  }

  /**
   Any names of one schema, with the persisted secret among the hard locks and a threshold above them, make a
   well-formed helper, so the helpers of legacy devices are accepted too.
   */
  lemma SchemaIsWellFormed(shares: map<string, Key>, mandatory: set<string>, t: byte, salt: byte, cw: bytes, norm: byte)
    requires norm == LEGACY_NORM_VERSION || norm == CURRENT_NORM_VERSION
    requires shares.Keys <= Allowed(norm) && mandatory <= shares.Keys && "slstore" in mandatory
    requires |mandatory| < t <= |shares.Keys| && |cw| == 32
    ensures WellFormed(HelperOf(shares, mandatory, t, salt, cw, norm))
  {
    hide SlotsInOrder, MandatoryCount, Allowed, MandatoryNames, HasHardStore, Sorted;
    var slots := SlotsFor(Sorted(shares.Keys), shares, mandatory);
    WrittenOrder(shares, mandatory, norm);
    WrittenLocks(shares, mandatory);
    CountsNames(slots, norm);
    SubsetSize(shares.Keys, Allowed(norm));
    AtLeastOne(mandatory, "slstore");
    WrittenStore(shares, mandatory);
  }

  /** Every helper written over projected factors is well formed, so it has an encoding. */
  lemma WrittenIsWellFormed(shares: map<string, Key>, mandatory: set<string>, t: byte, salt: byte, cw: bytes)
    requires shares.Keys <= Allowed(CURRENT_NORM_VERSION) && mandatory <= shares.Keys && "slstore" in mandatory
    requires Threshold(|shares.Keys|, |mandatory|) == Ok(t) && |cw| == 32
    ensures WellFormed(HelperOf(shares, mandatory, t, salt, cw, CURRENT_NORM_VERSION))
  {
    hide WellFormed, Allowed, Threshold;
    DriftBudget(|shares.Keys|, |mandatory|);
    SchemaIsWellFormed(shares, mandatory, t, salt, cw, CURRENT_NORM_VERSION);
  }

  lemma WrittenStore(shares: map<string, Key>, mandatory: set<string>)
    requires mandatory <= shares.Keys && "slstore" in mandatory
    ensures HasHardStore(SlotsFor(Sorted(shares.Keys), shares, mandatory))
  {
    var slots := SlotsFor(Sorted(shares.Keys), shares, mandatory);
    hide SlotsFor;
    var i := WrittenSlot(shares, mandatory, "slstore");
    assert slots[i].name == "slstore" && slots[i].mandatory;
  }

  lemma SubsetSize(a: set<string>, b: set<string>)
    requires a <= b
    ensures |a| <= |b|
  {
    assert b == a + (b - a);
  }

  // ---------------------------------------------------------------- the written helper is genuine

  /** Under the chosen salt, different factors have different x-coordinates. */
  lemma SaltSeparatesNames(sha: Sha256, factors: Raw, mandatory: set<string>, salt: byte, n: string, m: string)
    requires IsProjected(factors) && n in factors && m in factors && n != m && SaltWorks(sha, factors, mandatory, salt)
    ensures IsAscii(n) && IsAscii(m) && DeriveX(sha, n, factors[n], salt) != DeriveX(sha, m, factors[m], salt)
  {
    hide DeriveX, IsAscii, IsProjected;
    SlotListNames(factors, mandatory);
    var i := SlotOfName(factors, mandatory, n);
    var j := SlotOfName(factors, mandatory, m);
    var xs := XsOf(sha, SlotList(factors, mandatory), salt);
    assert xs[i] != xs[j] by { if i < j { assert xs[i] != xs[j]; } else { assert xs[j] != xs[i]; } }
  }

  lemma SlotNameInFactors(h: Helper, factors: Raw, i: nat)
    requires Names(h.slots) == factors.Keys && i < |h.slots|
    ensures h.slots[i].name in factors
  {
    assert h.slots[i].name in Names(h.slots);
  }

  /** A helper over the factors, salted apart, is separated under the same factors. */
  lemma WrittenIsSeparated(sha: Sha256, h: Helper, factors: Raw, mandatory: set<string>)
    requires SlotNames(h.slots) && SlotsInOrder(h.slots, CURRENT_NORM_VERSION) && IsProjected(factors)
    requires Names(h.slots) == factors.Keys && SaltWorks(sha, factors, mandatory, h.salt)
    ensures Separated(sha, h, factors)
  {
    hide IsSlotName, IsProjected, SaltWorks, IsPresent, DeriveX;
    var a, b := Points(sha, factors, h.salt, h.slots, true), Points(sha, factors, h.salt, h.slots, false);
    OrderedNamesDistinct(h.slots, CURRENT_NORM_VERSION);
    AllPointsDistinct(sha, factors, h.salt, h.slots);
    PointsFromSlots(sha, factors, h.salt, h.slots, true);
    PointsFromSlots(sha, factors, h.salt, h.slots, false);
    hide SlotsInOrder, Points, NamesDistinct;
    forall p: Point, q: Point | p in a + b && q in a + b && p.name != q.name ensures p.x != q.x {
      var i :| FromSlot(sha, factors, h.salt, h.slots, p in a, p, i);
      var j :| FromSlot(sha, factors, h.salt, h.slots, q in a, q, j);
      SlotNameInFactors(h, factors, i);
      SlotNameInFactors(h, factors, j);
      SaltSeparatesNames(sha, factors, mandatory, h.salt, h.slots[i].name, h.slots[j].name);
    }
    ApartIsDistinct(a + b);
  }

  lemma NonEmptyFactor(factors: Raw, name: string)
    requires IsProjected(factors) && name in factors
    ensures Get(factors, name) == factors[name] != []
  {
    hide Allowed;
  }

  lemma WrittenSlotShare(shares: map<string, Key>, mandatory: set<string>, i: nat)
    requires i < |SlotsFor(Sorted(shares.Keys), shares, mandatory)|
    ensures var s := SlotsFor(Sorted(shares.Keys), shares, mandatory)[i];
      s.name in shares && s.share == shares[s.name]
  {
  }

  lemma WrittenEnrolled(sha: Sha256, k: Key, curves: seq<seq<Elem>>, factors: Raw, mandatory: set<string>, t: byte,
                        salt: byte, i: nat)
    requires IsProjected(factors) && |curves| == 4
    requires var h := WrittenHelper(sha, k, factors, mandatory, curves, t, salt);
      i < |h.slots| && IsSlotName(h.slots[i].name)
    ensures var h := WrittenHelper(sha, k, factors, mandatory, curves, t, salt);
      EnrolledSlot(sha, curves, factors, salt, h.slots[i])
  {
    hide DeriveX, ShareAt, IsSlotName, WrittenShares, CheckWord, SlotsFor, Sorted, Allowed, IsAscii;
    var shares := WrittenShares(sha, factors, mandatory, curves, salt);
    var s := WrittenHelper(sha, k, factors, mandatory, curves, t, salt).slots[i];
    WrittenSlotShare(shares, mandatory, i);
    WrittenKeys(sha, factors, mandatory, curves, salt);
    ShareByName(sha, factors, mandatory, curves, salt, s.name);
    NonEmptyFactor(factors, s.name);
    hide IsProjected;
  }

  lemma WrittenShape(sha: Sha256, k: Key, curves: seq<seq<Elem>>, factors: Raw, mandatory: set<string>, t: byte,
                     salt: byte)
    requires IsProjected(factors) && LocksPresent(factors, mandatory) && "slstore" in mandatory
    requires Threshold(|factors|, |mandatory|) == Ok(t) && |curves| == 4
    ensures var h := WrittenHelper(sha, k, factors, mandatory, curves, t, salt);
      && WellFormed(h) && MandatoryNames(h.slots) == mandatory && Names(h.slots) == factors.Keys
  {
    var shares := WrittenShares(sha, factors, mandatory, curves, salt);
    WrittenKeys(sha, factors, mandatory, curves, salt);
    assert shares.Keys <= Allowed(CURRENT_NORM_VERSION) && mandatory <= shares.Keys;
    assert |shares.Keys| == |factors| by { assert |factors| == |factors.Keys|; }
    hide Threshold, IsProjected, LocksPresent, Allowed, WrittenShares, CheckWord, Sorted, SlotsFor, WellFormed,
      MandatoryNames, Names;
    WrittenIsWellFormed(shares, mandatory, t, salt, CheckWord(sha, k));
    WrittenNames(shares, mandatory);
    WrittenLocks(shares, mandatory);
  }

  lemma WellFormedOrder(h: Helper)
    requires WellFormed(h)
    ensures SlotNames(h.slots) && SlotsInOrder(h.slots, h.normVersion)
  {
    WellFormedEncodable(h);
  }

  lemma WrittenIsGenuine(sha: Sha256, k: Key, curves: seq<seq<Elem>>, factors: Raw, mandatory: set<string>, t: byte,
                         salt: byte)
    requires IsProjected(factors) && IsCurves(curves, k, t)
    requires SlotNames(WrittenHelper(sha, k, factors, mandatory, curves, t, salt).slots)
    ensures Genuine(sha, WrittenHelper(sha, k, factors, mandatory, curves, t, salt), k, curves, factors)
  {
    var h := WrittenHelper(sha, k, factors, mandatory, curves, t, salt);
    forall i | 0 <= i < |h.slots| ensures EnrolledSlot(sha, curves, factors, salt, h.slots[i]) {
      WrittenEnrolled(sha, k, curves, factors, mandatory, t, salt, i);
    }
    hide IsProjected, WrittenShares, CheckWord, Sorted, SlotsFor, EnrolledSlot, IsCurves, Allowed, IsSlotName;
  }

  /** What is written over projected factors is a genuine, separated sharing of the key. */
  lemma WrittenIsShared(sha: Sha256, k: Key, curves: seq<seq<Elem>>, factors: Raw, mandatory: set<string>, t: byte,
                        salt: byte)
    requires IsProjected(factors) && LocksPresent(factors, mandatory) && "slstore" in mandatory
    requires Threshold(|factors|, |mandatory|) == Ok(t) && IsCurves(curves, k, t)
    requires SaltWorks(sha, factors, mandatory, salt)
    ensures Shared(sha, WrittenHelper(sha, k, factors, mandatory, curves, t, salt), k, curves, factors, mandatory)
  {
    assert |curves| == 4;
    hide Threshold, IsProjected, LocksPresent, SaltWorks, WrittenShares, CheckWord, Sorted, SlotsFor, SlotsInOrder,
      WellFormed, MandatoryNames, Names, SlotNames, Separated, Genuine, IsCurves;
    var h := WrittenHelper(sha, k, factors, mandatory, curves, t, salt);
    WrittenShape(sha, k, curves, factors, mandatory, t, salt);
    WellFormedOrder(h);
    WrittenIsGenuine(sha, k, curves, factors, mandatory, t, salt);
    WrittenIsSeparated(sha, h, factors, mandatory);
  }

  /** What enrolment and refresh write is a genuine sharing of the key over the current factors. */
  lemma SharedHelperIsShared(sha: Sha256, k: Key, factors: Raw, mandatory: set<string>, t: byte, data: bytes, pos: nat)
    returns (curves: seq<seq<Elem>>)
    requires IsProjected(factors) && LocksPresent(factors, mandatory) && "slstore" in mandatory
    requires Threshold(|factors|, |mandatory|) == Ok(t)
    requires t >= 1 && SharedHelper(sha, k, factors, mandatory, t, data, pos).Ok?
    ensures Shared(sha, SharedHelper(sha, k, factors, mandatory, t, data, pos).value, k, curves, factors, mandatory)
  {
    hide Threshold, IsProjected, LocksPresent, CheckWord, ShareMap, HelperOf, Shared, SlotList;
    var slots := SlotList(factors, mandatory);
    SlotListNames(factors, mandatory);
    var salt := FirstSalt(sha, slots, 0).value;
    curves := CurvesOf(k, Draws(data, pos, 4 * (t - 1)), t);
    CurvesOfKey(k, Draws(data, pos, 4 * (t - 1)), t);
    FirstSaltIsFirst(sha, slots, 0);
    WrittenIsShared(sha, k, curves, factors, mandatory, t, salt);
  }

  // ---------------------------------------------------------------- recovering what was written

  lemma {:induction false} AllUnchanged(factors: Raw, slots: seq<HelperSlot>)
    ensures UnchangedCount(factors, factors, slots) + MandatoryCount(slots) == |slots|
    ensures LocksIntact(factors, factors, slots)
  {
    if slots != [] { AllUnchanged(factors, slots[..|slots| - 1]); }
  }

  lemma AllPointsGood(sha: Sha256, h: Helper, k: Key, curves: seq<seq<Elem>>, factors: Raw, ps: seq<Point>,
                      locked: bool)
    requires Genuine(sha, h, k, curves, factors) && ps == Points(sha, factors, h.salt, h.slots, locked)
    ensures AllGood(curves, ps)
  {
    PointsFromSlots(sha, factors, h.salt, h.slots, locked);
    hide Points, IsSlotName, Good;
    forall n | 0 <= n < |ps| ensures Good(curves, ps[n]) {
      assert ps[n] in ps;
      var i :| FromSlot(sha, factors, h.salt, h.slots, locked, ps[n], i);
      assert EnrolledSlot(sha, curves, factors, h.salt, h.slots[i]);
    }
  }

  lemma PicksAreGood(curves: seq<seq<Elem>>, a: seq<Point>, b: seq<Point>, c: seq<nat>)
    requires |curves| == 4 && AllGood(curves, a) && AllGood(curves, b) && InRange(c, |b|)
    ensures AllGood(curves, a + Pick(b, c))
  {
    hide Good;
  }

  lemma EnrolledSubsetGood(sha: Sha256, h: Helper, k: Key, curves: seq<seq<Elem>>, factors: Raw, s: Subset)
    requires Genuine(sha, h, k, curves, factors)
    requires FindOf(sha, Points(sha, factors, h.salt, h.slots, true), Points(sha, factors, h.salt, h.slots, false),
                    h.threshold, h.checkWord) == Ok(Some(s))
    ensures AllGood(curves, s.points)
  {
    var a, b := Points(sha, factors, h.salt, h.slots, true), Points(sha, factors, h.salt, h.slots, false);
    AllPointsGood(sha, h, k, curves, factors, a, true);
    AllPointsGood(sha, h, k, curves, factors, b, false);
    hide Points, FindOf, AllGood, IsCurves, CheckWord, EnrolledSlot, Try;
    var c := FoundSubset(sha, a, b, h.threshold, h.checkWord, s);
    PicksAreGood(curves, a, b, c);
  }

  /** Under the enrolled factors themselves the sweep finds a subset. */
  lemma EnrolledSucceeds(sha: Sha256, h: Helper, k: Key, curves: seq<seq<Elem>>, factors: Raw)
    requires Genuine(sha, h, k, curves, factors) && Separated(sha, h, factors)
    requires MandatoryCount(h.slots) <= h.threshold <= |h.slots|
    ensures Succeeds(sha, h, factors)
  {
    AllUnchanged(factors, h.slots);
    SucceedsWhenEnough(sha, h, k, curves, factors, factors);
  }

  /** All enrolled slots are live when the factors are the enrolled ones. */
  lemma NothingIsDead(sha: Sha256, h: Helper, k: Key, curves: seq<seq<Elem>>, factors: Raw)
    requires Genuine(sha, h, k, curves, factors) && SlotsInOrder(h.slots, h.normVersion) && Separated(sha, h, factors)
    requires MandatoryCount(h.slots) <= h.threshold <= |h.slots|
    ensures Succeeds(sha, h, factors)
    ensures var r := RecoverHelper(sha, h, factors).value;
      r.key == k && r.hwid == HwidOf(sha, k) && r.dead == [] && |r.live| == |h.slots|
  {
    EnrolledSucceeds(sha, h, k, curves, factors);
    hide RecoverHelper, Separated, MandatoryCount, Points, FindOf, HwidOf, KeyOf, IsCurves, CheckWord;
    var s := SuccessUnfolds(sha, h, factors);
    EnrolledSubsetGood(sha, h, k, curves, factors, s);
    LiveIffOnCurves(sha, h, k, curves, factors, factors, s);
    OrderedNamesDistinct(h.slots, h.normVersion);
    var a := Points(sha, factors, h.salt, h.slots, true);
    hide Classified, IsLive, EnrolledSlot, SlotsInOrder, MissingMandatory, SlotNamesDistinct, IsSlotName, AllGood;
    forall i | 0 <= i < |h.slots| ensures IsLive(sha, factors, h.salt, a, s, h.slots[i]) {
      NameListed(sha, factors, h.salt, a, s, h.slots, i);
      assert Unchanged(factors, factors, h.slots[i]);
    }
    AllLive(sha, factors, h.salt, a, s, h.slots);
  }

  lemma {:induction false} AllLive(sha: Sha256, factors: Raw, salt: byte, a: seq<Point>, s: Subset,
                                   slots: seq<HelperSlot>)
    requires SlotNames(slots) && forall i :: 0 <= i < |slots| ==> IsLive(sha, factors, salt, a, s, slots[i])
    ensures Classified(sha, factors, salt, a, s, slots, false) == []
    ensures |Classified(sha, factors, salt, a, s, slots, true)| == |slots|
  {
    hide IsLive, IsSlotName;
    if slots != [] { AllLive(sha, factors, salt, a, s, slots[..|slots| - 1]); }
  }

  /**
   Refresh re-centres without changing identity: the blob just written recovers, under the same
   factors, exactly the key it was written from, with every slot live and nothing pending.
   */
  lemma WrittenRecovers(sha: Sha256, h: Helper, k: Key, curves: seq<seq<Elem>>, factors: Raw, mandatory: set<string>)
    requires Shared(sha, h, k, curves, factors, mandatory)
    ensures Encodable(h)
    ensures var r := Recover(sha, Encode(sha, h), factors);
      && r.Ok? && r.value.Recovered? && r.value.key == k && r.value.hwid == HwidOf(sha, k)
      && r.value.dead == [] && !r.value.Pending() && |r.value.live| == |h.slots|
  {
    ParseOfEncode(sha, h);
    WellFormedOrder(h);
    assert MandatoryCount(h.slots) <= h.threshold <= |h.slots|;
    hide RecoverHelper, HwidOf, Encode, Parse, WellFormed, SlotsInOrder, Genuine, Separated, MandatoryCount,
      Encodable;
    NothingIsDead(sha, h, k, curves, factors);
  }

  // ---------------------------------------------------------------- refresh_core

  /** What refresh_core returns: the new blob, or nothing when it declines to write. */
  function RefreshOf(sha: Sha256, k: Key, factors: Raw, mandatory: set<string>, data: bytes,
                     pos: nat): Result<Option<bytes>>
    requires IsProjected(factors)
  {
    if !LocksPresent(factors, mandatory) then Ok(None)
    else
      var t := Threshold(|factors|, |factors.Keys * mandatory|);
      if t.Err? then Ok(None)
      else
        ThresholdFits(factors, mandatory);
        var h :- SharedHelper(sha, k, factors, mandatory, t.value, data, pos);
        SharedEncodable(sha, k, factors, mandatory, t.value, data, pos);
        Ok(Some(Encode(sha, h)))
  }

  lemma ThresholdFits(factors: Raw, mandatory: set<string>)
    requires IsProjected(factors) && Threshold(|factors|, |factors.Keys * mandatory|).Ok?
    ensures 1 <= Threshold(|factors|, |factors.Keys * mandatory|).value <= 14
  {
    DriftBudget(|factors|, |factors.Keys * mandatory|);
    SubsetSize(factors.Keys, Allowed(CURRENT_NORM_VERSION));
    AllowedSize(CURRENT_NORM_VERSION);
    assert |factors| == |factors.Keys|;
    hide Allowed, Threshold;
  }

  lemma SharedEncodable(sha: Sha256, k: Key, factors: Raw, mandatory: set<string>, t: byte, data: bytes, pos: nat)
    requires IsProjected(factors) && t >= 1 && SharedHelper(sha, k, factors, mandatory, t, data, pos).Ok?
    ensures Encodable(SharedHelper(sha, k, factors, mandatory, t, data, pos).value)
  {
    SlotListNames(factors, mandatory);
    var curves := CurvesOf(k, Draws(data, pos, 4 * (t - 1)), t);
    var shares := SharesOf(sha, k, SlotList(factors, mandatory), t, data, pos).value;
    WrittenKeys(sha, factors, mandatory, curves, shares.salt);
    assert shares.values.Keys == factors.Keys;
    EncodableOver(shares.values, mandatory, t, shares.salt, CheckWord(sha, k));
  }

  lemma EncodableOver(shares: map<string, Key>, mandatory: set<string>, t: byte, salt: byte, cw: bytes)
    requires shares.Keys <= Allowed(CURRENT_NORM_VERSION) && |cw| == 32
    ensures Encodable(HelperOf(shares, mandatory, t, salt, cw, CURRENT_NORM_VERSION))
  {
    SubsetSize(shares.Keys, Allowed(CURRENT_NORM_VERSION));
    AllowedSize(CURRENT_NORM_VERSION);
    hide Allowed, IsSlotName;
    var names, slots := Sorted(shares.Keys), SlotsFor(Sorted(shares.Keys), shares, mandatory);
    forall i | 0 <= i < |slots| ensures IsSlotName(slots[i].name) {
      assert names[i] in shares.Keys;
      AllowedNames(CURRENT_NORM_VERSION, names[i]);
    }
  }

  lemma LocksAreFactors(factors: Raw, mandatory: set<string>)
    requires LocksPresent(factors, mandatory)
    ensures factors.Keys * mandatory == mandatory
  {
  }

  /** A blob that refresh writes parses back to a helper that shares the same key under the same hard locks. */
  lemma RefreshWrites(sha: Sha256, k: Key, factors: Raw, mandatory: set<string>, data: bytes, pos: nat)
    returns (h: Helper, curves: seq<seq<Elem>>)
    requires IsProjected(factors) && "slstore" in mandatory
    requires RefreshOf(sha, k, factors, mandatory, data, pos).Ok?
    requires RefreshOf(sha, k, factors, mandatory, data, pos).value.Some?
    ensures Parse(sha, RefreshOf(sha, k, factors, mandatory, data, pos).value.value) == Ok(h)
    ensures Shared(sha, h, k, curves, factors, mandatory)
    ensures Threshold(|factors|, |mandatory|) == Ok(h.threshold as nat)
  {
    LocksAreFactors(factors, mandatory);
    ThresholdFits(factors, mandatory);
    hide Threshold, IsProjected, LocksPresent, Encode, Parse, Shared;
    var t := Threshold(|factors|, |factors.Keys * mandatory|).value;
    SharedEncodable(sha, k, factors, mandatory, t, data, pos);
    h := SharedHelper(sha, k, factors, mandatory, t, data, pos).value;
    curves := SharedHelperIsShared(sha, k, factors, mandatory, t, data, pos);
    SharedParses(sha, h, k, curves, factors, mandatory);
  }

  lemma SharedParses(sha: Sha256, h: Helper, k: Key, curves: seq<seq<Elem>>, factors: Raw, mandatory: set<string>)
    requires Shared(sha, h, k, curves, factors, mandatory)
    ensures Encodable(h) && Parse(sha, Encode(sha, h)) == Ok(h)
  {
    hide WellFormed, Genuine, Separated, MandatoryNames, Names, Encode, Parse, Encodable;
    ParseOfEncode(sha, h);
  }

  /** refresh_core */
  method RefreshCore(sha: Sha256, k: Key, factors: Raw, mandatory: set<string>,
                     d: Draw) returns (r: Result<Option<bytes>>)
    requires IsProjected(factors)
    modifies d
    ensures r == RefreshOf(sha, k, factors, mandatory, d.data, old(d.pos))
  {
    if !LocksPresent(factors, mandatory) { return Ok(None); }
    hide SharesOf, Threshold, Encode, HelperOf, SlotList, CheckWord, IsProjected, LocksPresent;
    var slots := SlotList(factors, mandatory);
    var t := Threshold(|slots|, |factors.Keys * mandatory|);
    if t.Err? { return Ok(None); }
    ThresholdFits(factors, mandatory);
    SlotListNames(factors, mandatory);
    var shares := BuildShares(sha, k, slots, t.value, d);
    if shares.Err? { return Err(shares.error); }
    SharedEncodable(sha, k, factors, mandatory, t.value, d.data, old(d.pos));
    var blob := SerializeHelper(sha, shares.value.values, mandatory, t.value, shares.value.salt, CheckWord(sha, k),
                                CURRENT_NORM_VERSION);
    return Ok(Some(blob));
  }
}
