/** One drifted slot can make recovery raise, although the drift budget allows two: a concrete machine. */
module CollisionExample {
  import opened Wrappers
  import opened Bytes
  import opened Field
  import opened Sharing
  import opened Factors
  import opened HelperBlob
  import opened Recovery
  import opened RecoveryLaws
  import opened Diagnosis
  import opened Collisions
  import opened Refresh
  import opened Tolerance
  import opened Normalization
  import opened ExampleMachine

  /**
   A hash that keeps the key of a check word's input and otherwise the last byte, so that keys are
   told apart and the ends of values decide x-coordinates.
   */
  function TailHash(b: bytes): Digest {
    if |b| >= 32 && b[0] == 1 then b[|b| - 32..]
    else seq(32, i => if i == 0 && b != [] then b[|b| - 1] else 0)
  }

  lemma {:induction false} ZeroBytes(b: bytes)
    requires forall i :: 0 <= i < |b| ==> b[i] == 0
    ensures FromLE(b) == 0
  {
    if b != [] { ZeroBytes(b[1..]); }
  }

  lemma ValuePosition(slot: string, value: bytes, salt: byte)
    requires IsAscii(slot) && value != []
    ensures DeriveX(TailHash, slot, value, salt) == 1 + Last(value)
  {
    var input := PositionInput(slot, value, salt);
    assert input[0] == 83 && input[|input| - 1] == value[|value| - 1];
    hide PositionInput;
    var b := TailHash(input)[..8];
    ZeroBytes(b[1..]);
    assert FromLE(b) == b[0];
  }

  lemma KeysAreIdentified(k: Key)
    ensures CheckWordIdentifies(TailHash, k)
  {
    forall k': Key | CheckWord(TailHash, k') == CheckWord(TailHash, k) ensures k' == k {
      WordIsKey(k);
      WordIsKey(k');
      LimbsOfKey(k, [], []);
      LimbsOfKey(k', [], []);
      assert [] + KeyBytes(k) + [] == KeyBytes(k) == [] + KeyBytes(k') + [];
      assert forall l :: 0 <= l < 4 ==> k'[l] == RawLimb(KeyBytes(k), 0, l) == k[l];
    }
  }

  lemma WordIsKey(k: Key)
    ensures CheckWord(TailHash, k) == KeyBytes(k)
  {
    KeyLength(k);
    var front := [1] + Ascii("SL-SS-CW1");
    hide KeyBytes;
    assert (front + KeyBytes(k))[|front + KeyBytes(k)| - 32..] == KeyBytes(k);
  }

  // ---------------------------------------------------------------- eight slots with different endings

  lemma SlotNamesAllowed()
    ensures SLOT_NAMES <= Allowed(CURRENT_NORM_VERSION)
  {
  }

  lemma FirstIsLeast(a: string)
    requires a in SLOT_NAMES
    ensures a != FIRST ==> !Less(a, FIRST)
  {
  }

  lemma EightNames()
    ensures |SLOT_NAMES| == 8
  {
    var low := {"battery_serial", "cpu_id", "disk_serial", "firmware"};
    var high := {"machine_guid", "nic_identity", "ram_total", "slstore"};
    FourNames("battery_serial", "cpu_id", "disk_serial", "firmware");
    FourNames("machine_guid", "nic_identity", "ram_total", "slstore");
    forall a | a in low ensures a !in high { }
    assert SLOT_NAMES == low + high;
  }

  lemma FourNames(a: string, b: string, c: string, d: string)
    requires a != b && a != c && a != d && b != c && b != d && c != d
    ensures |{a, b, c, d}| == 4
  {
  }

  lemma EnrolledIsProjected()
    ensures IsProjected(Enrolled()) && |Enrolled()| == 8 && LocksPresent(Enrolled(), {"slstore"})
  {
    SlotNamesAllowed();
    EightNames();
    hide SLOT_NAMES, Allowed;
    assert |Enrolled()| == |Enrolled().Keys|;
    StoreIsASlot();
    hide Enrolled;
    forall name | name in SLOT_NAMES ensures Enrolled()[name] != [] {
      ValueEnding(name);
    }
  }

  function ZeroCurves(): seq<seq<Elem>> {
    seq(4, _ => seq(6, _ => 0))
  }

  const ZERO_KEY: Key := [0, 0, 0, 0]

  lemma PositionAtEnrolment(name: string, salt: byte)
    requires name in SLOT_NAMES
    ensures IsAscii(name) && DeriveX(TailHash, name, Enrolled()[name], salt) == 1 + Ending(name)
  {
    SlotNamesAllowed();
    AllowedNames(CURRENT_NORM_VERSION, name);
    ValueEnding(name);
    hide SLOT_NAMES, Allowed, DeriveX, Enrolled;
    ValuePosition(name, Enrolled()[name], salt);
  }

  lemma SaltZeroWorks()
    ensures IsProjected(Enrolled()) && SaltWorks(TailHash, Enrolled(), {"slstore"}, 0)
  {
    EnrolledIsProjected();
    hide SLOT_NAMES, Allowed, DeriveX, Sorted, IsProjected, LocksPresent;
    var f := Enrolled();
    SlotListNames(f, {"slstore"});
    var slots := SlotList(f, {"slstore"});
    var xs := XsOf(TailHash, slots, 0);
    forall i, j | 0 <= i < j < |xs| ensures xs[i] != xs[j] {
      assert slots[i].name in f.Keys && slots[j].name in f.Keys;
      EndingsDiffer(slots[i].name, slots[j].name);
      PositionAtEnrolment(slots[i].name, 0);
      PositionAtEnrolment(slots[j].name, 0);
    }
  }

  /** The helper enrolled for the zero key with zero coefficients and only the persisted secret hard-locked. */
  function ExampleHelper(): Helper {
    EnrolledIsProjected();
    WrittenHelper(TailHash, ZERO_KEY, Enrolled(), {"slstore"}, ZeroCurves(), 6, 0)
  }

  lemma ExampleIsShared()
    ensures Shared(TailHash, ExampleHelper(), ZERO_KEY, ZeroCurves(), Enrolled(), {"slstore"})
    ensures Budgeted(ExampleHelper())
  {
    hide Shared, IsProjected, LocksPresent, SaltWorks, Enrolled, Budgeted, CheckWord, WrittenShares, Threshold,
      ZeroCurves, IsCurves, SLOT_NAMES, Allowed, TailHash;
    EnrolledIsProjected();
    SaltZeroWorks();
    ZeroCurvesFit();
    WrittenIsShared(TailHash, ZERO_KEY, ZeroCurves(), Enrolled(), {"slstore"}, 6, 0);
    SharedIsBudgeted(TailHash, ExampleHelper(), ZERO_KEY, ZeroCurves(), Enrolled(), {"slstore"});
  }

  lemma ZeroCurvesFit()
    ensures Threshold(8, 1) == Ok(6) && IsCurves(ZeroCurves(), ZERO_KEY, 6)
  {
  }

  /** In a helper over these names the first slot is FIRST. */
  lemma FirstSlot(h: Helper)
    requires SlotsInOrder(h.slots, h.normVersion) && Names(h.slots) == SLOT_NAMES
    ensures |h.slots| > 0 && h.slots[0].name == FIRST
  {
    StoreIsASlot();
    assert FIRST in Names(h.slots);
    var i :| 0 <= i < |h.slots| && h.slots[i].name == FIRST;
    assert h.slots[0].name in Names(h.slots);
    FirstIsLeast(h.slots[0].name);
    hide SLOT_NAMES, Allowed, Less, FIRST;
    assert i > 0 ==> Less(h.slots[0].name, h.slots[i].name);
  }

  lemma {:induction false} FirstPoint(sha: Sha256, factors: Raw, salt: byte, slots: seq<HelperSlot>)
    requires SlotNames(slots) && slots != [] && !slots[0].mandatory && IsPresent(factors, slots[0])
    ensures var b := Points(sha, factors, salt, slots, false); b != [] && b[0] == PointOf(sha, factors, salt, slots[0])
  {
    hide IsSlotName, PointOf, IsPresent;
    if |slots| > 1 {
      FirstPoint(sha, factors, salt, slots[..|slots| - 1]);
    } else {
      assert slots[..0] == [];
    }
  }

  lemma DriftedPositions()
    ensures IsAscii(FIRST) && IsAscii("slstore")
    ensures DeriveX(TailHash, FIRST, Get(WithNewBattery(), FIRST), 0)
      == DeriveX(TailHash, "slstore", Get(WithNewBattery(), "slstore"), 0)
  {
    hide SLOT_NAMES, DeriveX, Enrolled, WithNewBattery, FIRST, NEW_BATTERY, IsAscii, Ending;
    StoreIsASlot();
    PositionAtEnrolment("slstore", 0);
    PositionAtEnrolment(FIRST, 0);
    DriftedEnding();
    DriftedValues("slstore");
    assert FIRST in WithNewBattery();
    ValuePosition(FIRST, WithNewBattery()[FIRST], 0);
  }

  lemma OnlyFirstChanged(h: Helper)
    requires Names(h.slots) == SLOT_NAMES && MandatoryNames(h.slots) == {"slstore"} && SlotNamesDistinct(h.slots)
    ensures OnlyTheseChanged(h.slots, Enrolled(), WithNewBattery(), {FIRST})
    ensures forall i :: 0 <= i < |h.slots| ==> IsPresent(WithNewBattery(), h.slots[i])
    ensures forall i :: 0 <= i < |h.slots| ==> (h.slots[i].mandatory <==> h.slots[i].name == "slstore")
  {
    hide SLOT_NAMES, FIRST, NEW_BATTERY, WithNewBattery, Enrolled, MandatoryNames;
    StoreIsASlot();
    MandatoryNamesAre(h.slots);
    hide Get;
    forall i | 0 <= i < |h.slots|
      ensures h.slots[i].name in SLOT_NAMES && (h.slots[i].mandatory <==> h.slots[i].name == "slstore")
    {
      assert h.slots[i].name in Names(h.slots);
      if h.slots[i].name == "slstore" {
        var j :| 0 <= j < |h.slots| && h.slots[j].mandatory && h.slots[j].name == "slstore";
        assert i == j;
      }
      if h.slots[i].mandatory { assert h.slots[i].name in MandatoryNames(h.slots); }
    }
    forall i | 0 <= i < |h.slots|
      ensures Get(WithNewBattery(), h.slots[i].name) != []
      ensures h.slots[i].name != FIRST ==> Get(WithNewBattery(), h.slots[i].name) == Get(Enrolled(), h.slots[i].name)
    {
      DriftedValues(h.slots[i].name);
    }
  }

  lemma ExampleParts(h: Helper)
    requires h == ExampleHelper()
    ensures h.threshold == 6 && h.salt == 0 && SlotNames(h.slots) && SlotNamesDistinct(h.slots) && Budgeted(h)
    ensures Genuine(TailHash, h, ZERO_KEY, ZeroCurves(), Enrolled()) && Separated(TailHash, h, Enrolled())
    ensures SlotsInOrder(h.slots, h.normVersion) && Names(h.slots) == SLOT_NAMES
    ensures MandatoryNames(h.slots) == {"slstore"}
  {
    hide IsProjected, SLOT_NAMES, Separated, Genuine, IsSlotName, MandatoryNames, Names, ZeroCurves, Allowed, Less,
      MandatoryCount, WrittenShares, Budgeted, CheckWord;
    ExampleIsShared();
    WellFormedOrder(h);
    OrderedNamesDistinct(h.slots, h.normVersion);
  }

  /**
   The drift budget alone is not enough: this helper is soundly enrolled with a budget of two, its
   hard lock is intact, its check word identifies the key, only one optional slot has changed, and
   recovery raises ValueError. The machine's factors are what normalization lets through, before and after.
   */
  lemma OneDriftedSlotCanRaise()
    ensures var h := ExampleHelper();
      && SlotNames(h.slots) && Genuine(TailHash, h, ZERO_KEY, ZeroCurves(), Enrolled())
      && CheckWordIdentifies(TailHash, ZERO_KEY)
      && SlotsInOrder(h.slots, h.normVersion) && Separated(TailHash, h, Enrolled()) && Budgeted(h)
      && |h.slots| == 8 && MandatoryCount(h.slots) == 1
      && OnlyTheseChanged(h.slots, Enrolled(), WithNewBattery(), {FIRST})
      && RecoverHelper(TailHash, h, WithNewBattery()) == Err(ValueError)
    ensures Enrolled() == NormalizedFactors(Collected())["slstore" := Hex(StoredSecret())]
    ensures WithNewBattery() == NormalizedFactors(CollectedLater())["slstore" := Hex(StoredSecret())]
  {
    hide IsProjected, SLOT_NAMES, FIRST, NEW_BATTERY, WithNewBattery, Enrolled, NormalizedFactors, Collected,
      CollectedLater, Hex, StoredSecret, CheckWordIdentifies, RecoverHelper, Separated, Genuine, IsSlotName, DeriveX,
      MandatoryNames, Names, OnlyTheseChanged, ZeroCurves, Allowed, Less, MandatoryCount, WrittenShares, Budgeted,
      ExampleHelper, SlotsInOrder, SlotNamesDistinct, IsPresent, TailHash;
    MachineIsCollected();
    StoreIsASlot();
    var h := ExampleHelper();
    ExampleParts(h);
    KeysAreIdentified(ZERO_KEY);
    FirstSlot(h);
    OnlyFirstChanged(h);
    EightNames();
    NamesCount(h.slots, SLOT_NAMES);
    CountsNames(h.slots, h.normVersion);
    ExampleCollides(h);
  }

  lemma ExampleCollides(h: Helper)
    requires SlotNames(h.slots) && h.threshold == 6 && h.salt == 0 && |h.slots| == 8 && MandatoryCount(h.slots) == 1
    requires forall i :: 0 <= i < |h.slots| ==>
      IsPresent(WithNewBattery(), h.slots[i]) && (h.slots[i].mandatory <==> h.slots[i].name == "slstore")
    requires h.slots[0].name == FIRST != "slstore" && MandatoryNames(h.slots) == {"slstore"}
    ensures RecoverHelper(TailHash, h, WithNewBattery()) == Err(ValueError)
  {
    MandatoryNamesAre(h.slots);
    hide SLOT_NAMES, FIRST, WithNewBattery, RecoverHelper, IsSlotName, DeriveX, MandatoryNames, Names, Less,
      MandatoryCount, Points, IsPresent;
    var f := WithNewBattery();
    var a, b := Points(TailHash, f, 0, h.slots, true), Points(TailHash, f, 0, h.slots, false);
    FirstPoint(TailHash, f, 0, h.slots);
    var j :| 0 <= j < |h.slots| && h.slots[j].mandatory && h.slots[j].name == "slstore";
    PointsFromSlots(TailHash, f, 0, h.slots, true);
    var p := PointOf(TailHash, f, 0, h.slots[j]);
    assert FromSlot(TailHash, f, 0, h.slots, true, p, j);
    assert p in a;
    var i :| 0 <= i < |a| && a[i] == p;
    DriftedPositions();
    PointCounts(TailHash, f, 0, h.slots);
    AllPresent(f, h.slots);
    OneSlotCollides(TailHash, h, f, i);
  }

  lemma {:induction false} AllPresent(factors: Raw, slots: seq<HelperSlot>)
    requires forall i :: 0 <= i < |slots| ==> IsPresent(factors, slots[i])
    ensures PresentCount(factors, slots) == |slots|
  {
    hide IsPresent;
    if slots != [] { AllPresent(factors, slots[..|slots| - 1]); }
  }
}
