/** The hypotheses of the run theorems can be met: a concrete machine enrols and prepares again. */
module EnrolmentExample {
  import opened Wrappers
  import opened Bytes
  import opened Field
  import opened Sharing
  import opened Factors
  import opened HelperBlob
  import opened RecoveryLaws
  import opened Diagnosis
  import opened Refresh
  import opened Store
  import opened Lifecycle
  import opened Runs
  import opened Tolerance
  import opened Normalization
  import opened ExampleMachine
  import opened CollisionExample

  /** The secret comes first from the byte source, then the key and the coefficients. */
  function Source(): (data: bytes)
    ensures |data| == 224 && data[..32] == StoredSecret()
  {
    StoredSecret() + seq(192, _ => 0)
  }

  function Normalized(): Raw {
    NormalizedFactors(Collected())
  }

  /** An enrolment of the example machine. */
  function FirstPrepare(): Action {
    Prepare(Normalized(), [], false, Source(), Weather(false, Clean, Clean))
  }

  /** The factors of the machine, as a session holds them. */
  function Machine(): (f: Projected)
    ensures f == Enrolled()
  {
    EnrolledIsProjected();
    Enrolled()
  }

  const EMPTY := World(Disk(None, None), [])

  lemma NoGroupSignals(group: string, i: nat)
    requires group in CURRENT_GROUP_NAMES && i < |Members(group)|
    ensures Members(group)[i] !in SLOT_NAMES
  {
  }

  lemma SlotsAreDirect(name: string)
    requires name in SLOT_NAMES
    ensures name in CURRENT_DIRECT_FACTOR_NAMES && name !in CURRENT_GROUP_NAMES
  {
  }

  /** All signals of the machine are slots of their own. */
  lemma ProjectsToItself()
    ensures ProjectCurrent(TailHash, Enrolled()) == Enrolled()
  {
    var f, p := Enrolled(), ProjectCurrent(TailHash, Enrolled());
    hide SLOT_NAMES, Enrolled, CURRENT_DIRECT_FACTOR_NAMES, Project;
    forall name ensures Get(p, name) == Get(f, name) {
      ProjectedValue(TailHash, f, name);
      if name in SLOT_NAMES { SlotsAreDirect(name); }
      if name in CURRENT_GROUP_NAMES { NoGroupValue(name); }
    }
    EnrolledIsProjected();
    SameByValue(p, f);
  }

  lemma NoGroupValue(group: string)
    requires group in CURRENT_GROUP_NAMES
    ensures IsAscii(group) && GroupValue(TailHash, group, Enrolled()) == []
  {
    hide SLOT_NAMES, ValueOf, CURRENT_GROUP_NAMES, TailHash, IsAscii, Members;
    GroupNames(group);
    forall i | 0 <= i < |Members(group)| ensures Get(Enrolled(), Members(group)[i]) == [] {
      NoGroupSignals(group, i);
    }
  }

  lemma SameByValue(a: Raw, b: Raw)
    requires IsProjected(a) && IsProjected(b) && forall name :: Get(a, name) == Get(b, name)
    ensures a == b
  {
    hide Allowed;
    forall name ensures name in a <==> name in b {
      assert Get(a, name) == Get(b, name);
    }
    forall name | name in a ensures a[name] == b[name] {
      assert Get(a, name) == Get(b, name);
    }
  }

  lemma EnrolmentSucceeds(data: bytes)
    requires |data| == 224
    ensures EnrolmentOf(TailHash, Machine(), {"slstore"}, data, 32).Ok?
  {
    hide IsProjected, Allowed, Threshold, LocksPresent, Enrolled, SaltSeparates, ShareMap, CheckWord, Draws, HelperOf,
      SLOT_NAMES, SlotList, DeriveX, CurvesOf, Sorted, AsciiSlots;
    EnrolledIsProjected();
    SaltZeroWorks();
    ExampleThreshold();
    SlotListNames(Enrolled(), {"slstore"});
  }

  lemma ExampleThreshold()
    ensures Threshold(8, 1) == Ok(6)
  {
  }

  lemma OneLock()
    ensures MapMandatory({"slstore"}) == {"slstore"} && Requested([]) == Ok({"slstore"})
  {
    assert CurrentMandatoryName("slstore") == "slstore";
    hide CurrentMandatoryName;
    var none: seq<string> := [];
    assert (set a | a in none) == {};
    assert {"slstore"} + {} == {"slstore"};
  }

  lemma SecretIsAdded()
    ensures Get(Normalized(), "slstore") == [] && Normalized()["slstore" := Hex(StoredSecret())] == Enrolled()
  {
    MachineIsCollected();
    NamesOfFirst();
    hide IsSane, Normalize, COLLECTED, FIRST, Enrolled;
  }

  function SecretFile(): Option<bytes> {
    Some(Wrap(StoredSecret()))
  }

  lemma SecretIsDrawn()
    ensures EnsureSecret(EMPTY.disk, Source(), 0, Weather(false, Clean, Clean)) ==
      Secret(Disk(None, SecretFile()), Ok(Hex(StoredSecret())), 32)
  {
  }

  lemma FirstPrepareEnrols()
    ensures var p := PrepareStep(TailHash, EMPTY.disk, FirstPrepare());
      var e := EnrolmentOf(TailHash, Machine(), {"slstore"}, Source(), 32);
      && e.Ok? && Encodable(e.value.helper)
      && p.disk == Disk(Some(Encode(TailHash, e.value.helper)), SecretFile())
      && p.session.Ok? && p.session.value.key == Some(e.value.key) && p.session.value.factors == Machine()
  {
    hide Project, EnrolmentOf, Machine, Enrolled, MapMandatory, Requested, Encode, Encodable, IsProjected, HwidOf,
      Get, Allowed, LocksPresent, EnsureSecret, Normalized, StoredSecret, Hex, Source;
    EnrolledIsProjected();
    ProjectsToItself();
    OneLock();
    SecretIsAdded();
    SecretIsDrawn();
    EnrolmentSucceeds(Source());
    EnrolmentEncodable(TailHash, Machine(), {"slstore"}, Source(), 32);
  }

  /**
   A run theorem's hypotheses, met: the machine enrols into an empty store, and right afterwards the
   same prepare sees no slot changed and no two x-coordinates collide.
   */
  lemma HypothesesAreMet()
    ensures var a := FirstPrepare(); var p := PrepareStep(TailHash, EMPTY.disk, a);
      && SessionsSound(TailHash, EMPTY) && EMPTY.disk.helper.None? && p.session.Ok? && p.session.value.key.Some?
      && CheckWordIdentifies(TailHash, p.session.value.key.value)
      && Sound(TailHash, p.disk, p.session.value.key.value, p.session.value.factors)
      && SeesOnlyTheseChanged(TailHash, p.disk, p.session.value.factors, a.raw, {})
  {
    hide Project, EnrolmentOf, Machine, Enrolled, Requested, Encode, Encodable, IsProjected, HwidOf, Get, Allowed,
      Parse, CheckWord, Shared, PrepareStep, CheckWordIdentifies, Sound, SeesOnlyTheseChanged;
    FirstPrepareEnrols();
    EnrolmentIsSound(TailHash, EMPTY.disk, FirstPrepare());
    var e := EnrolmentOf(TailHash, Machine(), {"slstore"}, Source(), 32).value;
    KeysAreIdentified(e.key);
    var curves := EnrolmentIsShared(TailHash, Machine(), {"slstore"}, Source(), 32);
    NothingChanged(e.helper, e.key, curves, PrepareStep(TailHash, EMPTY.disk, FirstPrepare()).disk);
  }

  lemma NothingChanged(h: Helper, k: Key, curves: seq<seq<Elem>>, disk: Disk)
    requires Encodable(h) && disk == Disk(Some(Encode(TailHash, h)), SecretFile())
    requires Parse(TailHash, Encode(TailHash, h)) == Ok(h)
    requires Shared(TailHash, h, k, curves, Machine(), {"slstore"})
    ensures SeesOnlyTheseChanged(TailHash, disk, Machine(), Normalized(), {})
  {
    hide Project, Machine, Enrolled, Encode, Encodable, IsProjected, Get, Allowed, Parse, Genuine, MandatoryNames,
      Names, Separated, IsSlotName, MandatoryCount, Wrap, Unwrap, Normalized, StoredSecret, SLOT_NAMES, Hex;
    EnrolledIsProjected();
    ProjectsToItself();
    SecretIsAdded();
    UnwrapIsExact(Wrap(StoredSecret()), StoredSecret());
    WellFormedOrder(h);
    OrderedNamesDistinct(h.slots, h.normVersion);
    CountsNames(h.slots, h.normVersion);
    NamesCount(h.slots, Enrolled().Keys);
    assert |Enrolled()| == |Enrolled().Keys|;
  }
}
