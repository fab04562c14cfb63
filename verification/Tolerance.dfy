/** How many slots may change: the drift budget of an enrolled helper, met over whole runs. */
module Tolerance {
  import opened Wrappers
  import opened Bytes
  import opened Field
  import opened Sharing
  import opened Factors
  import opened HelperBlob
  import opened Recovery
  import opened RecoveryLaws
  import opened Diagnosis
  import opened Refresh
  import opened Store
  import opened Lifecycle
  import opened Runs

  // ---------------------------------------------------------------- counting changed slots

  /** Only slots named in changed lost their enrolled value, and none of those is hard-locked. */
  ghost predicate OnlyTheseChanged(slots: seq<HelperSlot>, enrolled: Raw, factors: Raw, changed: set<string>) {
    forall i :: 0 <= i < |slots| ==>
      if slots[i].name in changed then !slots[i].mandatory else Unchanged(factors, enrolled, slots[i])
  }

  lemma {:induction false} ChangedAreFew(slots: seq<HelperSlot>, enrolled: Raw, factors: Raw, changed: set<string>)
    requires SlotNamesDistinct(slots) && OnlyTheseChanged(slots, enrolled, factors, changed)
    ensures LocksIntact(factors, enrolled, slots)
    ensures MandatoryCount(slots) + UnchangedCount(factors, enrolled, slots) + |changed| >= |slots|
  {
    hide Unchanged;
    if slots != [] {
      var front, last := slots[..|slots| - 1], slots[|slots| - 1];
      assert forall i :: 0 <= i < |front| ==> front[i] == slots[i] && front[i].name != last.name;
      if last.name in changed {
        ChangedAreFew(front, enrolled, factors, changed - {last.name});
      } else {
        ChangedAreFew(front, enrolled, factors, changed);
      }
      assert forall i :: 0 <= i < |front| && slots[i].mandatory ==> Unchanged(factors, enrolled, front[i]);
    }
  }

  /** The helper's threshold is the one the enrolment policy fixes for its slots. */
  predicate Budgeted(h: Helper) {
    Threshold(|h.slots|, MandatoryCount(h.slots)) == Ok(h.threshold as nat)
  }

  /** Changing no more slots than the drift budget allows leaves enough of the enrolled values. */
  lemma FewChangesAreWithinBudget(sha: Sha256, h: Helper, enrolled: Raw, factors: Raw, changed: set<string>)
    requires SlotNames(h.slots) && SlotsInOrder(h.slots, h.normVersion) && Budgeted(h) && Separated(sha, h, factors)
    requires OnlyTheseChanged(h.slots, enrolled, factors, changed)
    requires |changed| <= Min(|h.slots| - MandatoryCount(h.slots) - 1, 3 * |h.slots| / 10)
    ensures WithinBudget(sha, h, enrolled, factors)
  {
    hide Separated, MandatoryCount, UnchangedCount, OnlyTheseChanged, IsSlotName, Allowed, Less, LocksIntact,
      Threshold, SlotsInOrder;
    OrderedNamesDistinct(h.slots, h.normVersion);
    ChangedAreFew(h.slots, enrolled, factors, changed);
    DriftBudget(|h.slots|, MandatoryCount(h.slots));
  }

  /**
   Any set of slots within the drift budget may change or disappear without changing the
   identifier: with n slots of which m are hard-locked that is min(n - m - 1, 3n/10) of them, which is two or
   more exactly when at most n - 3 are hard-locked.
   */
  lemma BudgetMayChange(sha: Sha256, h: Helper, k: Key, curves: seq<seq<Elem>>, enrolled: Raw, factors: Raw,
                        changed: set<string>)
    requires Genuine(sha, h, k, curves, enrolled) && CheckWordIdentifies(sha, k)
    requires SlotsInOrder(h.slots, h.normVersion) && Budgeted(h) && Separated(sha, h, factors)
    requires OnlyTheseChanged(h.slots, enrolled, factors, changed)
    requires |changed| <= Min(|h.slots| - MandatoryCount(h.slots) - 1, 3 * |h.slots| / 10)
    ensures var r := RecoverHelper(sha, h, factors);
      r.Ok? && r.value.Recovered? && r.value.key == k && r.value.hwid == HwidOf(sha, k)
  {
    hide RecoverHelper, Separated, IsCurves, EnrolledSlot, MandatoryCount, UnchangedCount, OnlyTheseChanged,
      CheckWordIdentifies, IsSlotName, Allowed, Less, LocksIntact, Threshold, SlotsInOrder, HwidOf;
    FewChangesAreWithinBudget(sha, h, enrolled, factors, changed);
    DriftBudget(|h.slots|, MandatoryCount(h.slots));
    FaultTolerance(sha, h, k, curves, enrolled, factors);
  }

  lemma BudgetIsTwo(n: nat, m: nat)
    requires Threshold(n, m).Ok?
    ensures n - Threshold(n, m).value >= 2 <==> m + 3 <= n
  {
    DriftBudget(n, m);
  }

  // ---------------------------------------------------------------- enrolled helpers are budgeted

  lemma {:induction false} NamesCount(slots: seq<HelperSlot>, names: set<string>)
    requires SlotNamesDistinct(slots) && Names(slots) == names
    ensures |names| == |slots|
  {
    if slots == [] {
      assert names == {};
    } else {
      var front, last := slots[..|slots| - 1], slots[|slots| - 1];
      assert last.name in Names(slots);
      assert forall i :: 0 <= i < |front| ==> front[i] == slots[i] && front[i].name != last.name;
      forall a ensures a in Names(front) <==> a in names - {last.name} {
        if a in names - {last.name} {
          var i :| 0 <= i < |slots| && slots[i].name == a;
          assert front[i].name == a;
        }
        if a in Names(front) {
          var i :| 0 <= i < |front| && front[i].name == a;
          assert slots[i].name == a;
        }
      }
      NamesCount(front, names - {last.name});
    }
  }

  lemma SharedIsBudgeted(sha: Sha256, h: Helper, k: Key, curves: seq<seq<Elem>>, factors: Raw, mandatory: set<string>)
    requires Shared(sha, h, k, curves, factors, mandatory)
    requires Threshold(|factors|, |mandatory|) == Ok(h.threshold as nat)
    ensures Budgeted(h)
  {
    hide Threshold, Genuine, Separated, MandatoryCount, MandatoryNames, Names, HasHardStore, Less, Allowed;
    CountsNames(h.slots, h.normVersion);
    OrderedNamesDistinct(h.slots, h.normVersion);
    NamesCount(h.slots, factors.Keys);
    assert |factors| == |factors.Keys|;
  }

  /** The stored helper shares the key over the centre, with the threshold of the enrolment policy. */
  ghost predicate Sound(sha: Sha256, disk: Disk, k: Key, centre: Raw) {
    Holds(sha, disk, k, centre) && Budgeted(StoredHelper(sha, disk))
  }

  lemma CommitKeepsBudget(sha: Sha256, w: World, who: nat, data: bytes, weather: Weather)
    requires SessionsSound(sha, w) && who < |w.sessions|
    requires HelperIntact(sha, w.disk) && Budgeted(StoredHelper(sha, w.disk))
    ensures var disk := CommitOf(sha, w.disk, w.sessions[who], data, 0, weather).disk;
      HelperIntact(sha, disk) && Budgeted(StoredHelper(sha, disk))
  {
    hide SessionSound, CommitOf, IsProjected, Locks, CheckWord, MapMandatory, Shared, Threshold, RefreshOf,
      CommitWrites, HelperIntact, StoredHelper, Budgeted;
    var s := w.sessions[who];
    var curves := CommitOutcome(sha, w.disk, s, data, weather);
    if CommitWrites(sha, w.disk, s, data, weather) {
      var c := CommitOf(sha, w.disk, s, data, 0, weather);
      WriterHasKey(sha, w.disk, s, data, weather);
      SharedIsBudgeted(sha, StoredHelper(sha, c.disk), s.key.value, curves, s.factors, s.mandatory);
    }
  }

  lemma StepKeepsSound(sha: Sha256, w: World, a: Action, k: Key, centre: Raw)
    requires SessionsSound(sha, w) && Sound(sha, w.disk, k, centre) && CheckWordIdentifies(sha, k) && Ordinary(a)
    ensures Sound(sha, Execute(sha, w, a).disk, k, CentreAfter(sha, w, a, centre))
  {
    StepKeepsKey(sha, w, a, k, centre);
    hide SessionSound, PrepareStep, CommitOf, IsProjected, Parse, Budgeted, CommitWrites, Genuine, CentreAfter;
    match a
    case Prepare(_, _, _, _, _) => PrepareReadsOnly(sha, w.disk, a);
    case Commit(who, data, weather) =>
      if who < |w.sessions| { CommitKeepsBudget(sha, w, who, data, weather); }
    case EditSecret(_) =>
  }

  lemma {:induction false} RunKeepsSound(sha: Sha256, w: World, actions: seq<Action>, k: Key, centre: Raw)
    requires SessionsSound(sha, w) && Sound(sha, w.disk, k, centre) && CheckWordIdentifies(sha, k)
    requires AllOrdinary(actions)
    ensures Sound(sha, Run(sha, w, actions).disk, k, CentreOf(sha, w, actions, centre))
    decreases |actions|
  {
    hide SessionsSound, Execute, Sound, Ordinary, CheckWordIdentifies, CentreAfter;
    if actions != [] {
      StepKeepsSound(sha, w, actions[0], k, centre);
      StepKeepsSessions(sha, w, actions[0]);
      RunKeepsSound(sha, Execute(sha, w, actions[0]), actions[1..], k, CentreAfter(sha, w, actions[0], centre));
    }
  }

  /** One failing component of a machine costs one vote: signals of one group move only that group's slot. */
  lemma GroupIsOneVote(sha: Sha256, slots: seq<HelperSlot>, raw: Raw, other: Raw, group: string)
    requires group in CURRENT_GROUP_NAMES && DifferOnlyIn(raw, other, group)
    requires forall i :: 0 <= i < |slots| && slots[i].name == group ==> !slots[i].mandatory
    ensures OnlyTheseChanged(slots, Project(sha, raw, CURRENT_NORM_VERSION), Project(sha, other, CURRENT_NORM_VERSION),
                             {group})
  {
    hide Project, DifferOnlyIn, Get;
    OneVote(sha, raw, other, group);
  }

  // ---------------------------------------------------------------- from enrolment on

  /** A successful enrolment, the first or a forced one, leaves a sound sharing of the new key in the store. */
  lemma EnrolmentIsSound(sha: Sha256, disk: Disk, a: Action)
    requires a.Prepare? && (disk.helper.None? || a.force) && PrepareStep(sha, disk, a).session.Ok?
    ensures var p := PrepareStep(sha, disk, a);
      p.session.value.key.Some? && Sound(sha, p.disk, p.session.value.key.value, p.session.value.factors)
  {
    hide EnrolOf, WithSecret, IsProjected, MapMandatory, Sound;
    RequestedLocks(a.extra);
    EnrolIsSound(sha, disk, a.raw, Requested(a.extra).value, a.data, 0, a.weather);
  }

  lemma EnrolIsSound(sha: Sha256, disk: Disk, raw: Raw, requested: set<string>, data: bytes, pos: nat, weather: Weather)
    requires "slstore" in MapMandatory(requested) && EnrolOf(sha, disk, raw, requested, data, pos, weather).session.Ok?
    ensures var p := EnrolOf(sha, disk, raw, requested, data, pos, weather);
      p.session.value.key.Some? && Sound(sha, p.disk, p.session.value.key.value, p.session.value.factors)
  {
    hide EnrolmentOf, EnsureSecret, ProjectCurrent, MapMandatory, IsProjected, Encode, Encodable, Parse, CheckWord,
      HwidOf, Shared, Genuine, Budgeted, Threshold, Get;
    var given := Get(raw, "slstore");
    var secret := if given != [] then Secret(disk, Ok(given), pos) else EnsureSecret(disk, data, pos, weather);
    var factors, mandatory := ProjectCurrent(sha, raw["slstore" := secret.value.value]), MapMandatory(requested);
    var curves := EnrolmentIsShared(sha, factors, mandatory, data, secret.pos);
    var e := EnrolmentOf(sha, factors, mandatory, data, secret.pos).value;
    SharedIsGenuine(sha, e.helper, e.key, curves, factors, mandatory);
    SharedIsBudgeted(sha, e.helper, e.key, curves, factors, mandatory);
    var p := EnrolOf(sha, disk, raw, requested, data, pos, weather);
    assert StoredHelper(sha, p.disk) == e.helper;
    assert Genuine(sha, StoredHelper(sha, p.disk), e.key, curves, factors);
  }

  /** The persisted secret that enrolment used comes back as the same factor value. */
  lemma SecretComesBack(disk: Disk, data: bytes, pos: nat, weather: Weather, raw: Raw)
    requires EnsureSecret(disk, data, pos, weather).value.Ok? && Get(raw, "slstore") == []
    ensures var secret := EnsureSecret(disk, data, pos, weather);
      WithSecret(secret.disk, raw) == Ok(raw["slstore" := secret.value.value])
  {
    hide Unwrap, Wrap, Hex;
    if SlstoreOf(disk) == Ok(None) {
      UnwrapIsExact(Wrap(data[pos..pos + 32]), data[pos..pos + 32]);
    }
  }

  /** A second look at the machine that has just enrolled finds the factors it enrolled with. */
  lemma SameFactorsAgain(sha: Sha256, disk: Disk, raw: Raw, requested: set<string>, data: bytes, pos: nat,
                         weather: Weather)
    requires EnrolOf(sha, disk, raw, requested, data, pos, weather).session.Ok?
    ensures var p := EnrolOf(sha, disk, raw, requested, data, pos, weather);
      WithSecret(p.disk, raw).Ok? && ProjectCurrent(sha, WithSecret(p.disk, raw).value) == p.session.value.factors
  {
    hide EnrolmentOf, EnsureSecret, ProjectCurrent, MapMandatory, IsProjected, Encode, Encodable, HwidOf, SlstoreOf;
    if Get(raw, "slstore") == [] {
      SecretComesBack(disk, data, pos, weather, raw);
      SecretOnly(EnsureSecret(disk, data, pos, weather).disk,
                 EnrolOf(sha, disk, raw, requested, data, pos, weather).disk, raw);
    } else {
      assert raw["slstore" := Get(raw, "slstore")] == raw;
    }
  }

  lemma SecretOnly(a: Disk, b: Disk, raw: Raw)
    requires a.slstore == b.slstore
    ensures WithSecret(a, raw) == WithSecret(b, raw)
  {
    hide Unwrap, Hex;
  }

  /**
   Enrolment and recovery are a round trip on every machine: right after a successful enrolment any
   prepare of the same machine, whatever hard locks it requests, yields the enrolled key and
   identifier with no slot drifted.
   */
  lemma SameMachineRecovers(sha: Sha256, disk: Disk, a: Action, b: Action)
    requires a.Prepare? && (disk.helper.None? || a.force) && PrepareStep(sha, disk, a).session.Ok?
    requires b.Prepare? && !b.force && !b.weather.busy && Requested(b.extra).Ok? && b.raw == a.raw
    ensures var first := PrepareStep(sha, disk, a); var again := PrepareStep(sha, first.disk, b);
      && again.disk == first.disk && again.session.Ok?
      && again.session.value.key == first.session.value.key && again.session.value.hwid == first.session.value.hwid
      && again.session.value.drifted == [] && !again.session.value.pending
      && again.session.value.mandatory == first.session.value.mandatory
  {
    hide EnrolOf, WithSecret, IsProjected, MapMandatory, RecoverSession, ProjectCurrent, HwidOf;
    RequestedLocks(a.extra);
    var names := Requested(a.extra).value;
    PrepareReadsOnlyAfter(sha, disk, a);
    SameFactorsAgain(sha, disk, a.raw, names, a.data, 0, a.weather);
    EnrolledRecovers(sha, disk, a.raw, names, a.data, 0, a.weather,
                     WithSecret(PrepareStep(sha, disk, a).disk, a.raw).value);
  }

  lemma PrepareReadsOnlyAfter(sha: Sha256, disk: Disk, a: Action)
    requires a.Prepare? && PrepareStep(sha, disk, a).session.Ok?
    ensures PrepareStep(sha, disk, a).disk.helper.Some?
  {
    hide PrepareStep, Parse;
    PrepareOutcome(sha, disk, a);
  }

  lemma EnrolledRecovers(sha: Sha256, disk: Disk, raw: Raw, requested: set<string>, data: bytes, pos: nat,
                         weather: Weather, full: Raw)
    requires "slstore" in MapMandatory(requested) && EnrolOf(sha, disk, raw, requested, data, pos, weather).session.Ok?
    requires ProjectCurrent(sha, full) == EnrolOf(sha, disk, raw, requested, data, pos, weather).session.value.factors
    ensures var p := EnrolOf(sha, disk, raw, requested, data, pos, weather);
      && p.disk.helper.Some?
      && var s := RecoverSession(sha, p.disk.helper.value, full);
      && s.Ok? && s.value.key == p.session.value.key && s.value.hwid == p.session.value.hwid
      && s.value.drifted == [] && !s.value.pending && s.value.mandatory == p.session.value.mandatory
  {
    hide EnrolmentOf, EnsureSecret, Project, MapMandatory, IsProjected, Encode, Encodable, Parse, CheckWord, HwidOf,
      WellFormed, Genuine, Separated, Names, MandatoryNames, Threshold, Get, Recover;
    var given := Get(raw, "slstore");
    var secret := if given != [] then Secret(disk, Ok(given), pos) else EnsureSecret(disk, data, pos, weather);
    var factors, mandatory := ProjectCurrent(sha, raw["slstore" := secret.value.value]), MapMandatory(requested);
    var curves := EnrolmentIsShared(sha, factors, mandatory, data, secret.pos);
    var e := EnrolmentOf(sha, factors, mandatory, data, secret.pos).value;
    WrittenRecovers(sha, e.helper, e.key, curves, factors, mandatory);
    MapMandatoryIdempotent(requested);
  }

  /** The prepare would see only these slots changed since the last commit, and no two x-coordinates collide. */
  ghost predicate SeesOnlyTheseChanged(sha: Sha256, disk: Disk, centre: Raw, raw: Raw, changed: set<string>) {
    && HelperIntact(sha, disk) && WithSecret(disk, raw).Ok?
    && var h := StoredHelper(sha, disk);
    ParsedNames(sha, disk.helper.value);
    var factors := Project(sha, WithSecret(disk, raw).value, h.normVersion);
    && OnlyTheseChanged(h.slots, centre, factors, changed) && Separated(sha, h, factors)
    && |changed| <= Min(|h.slots| - MandatoryCount(h.slots) - 1, 3 * |h.slots| / 10)
  }

  lemma ChangedMeetsBudget(sha: Sha256, disk: Disk, centre: Raw, raw: Raw, changed: set<string>)
    requires HelperIntact(sha, disk) && Budgeted(StoredHelper(sha, disk))
    requires SeesOnlyTheseChanged(sha, disk, centre, raw, changed)
    ensures MeetsBudget(sha, disk, centre, raw)
  {
    hide Parse, Encode, Encodable, Project, Budgeted, OnlyTheseChanged, Separated, WithSecret, WithinBudget,
      MandatoryCount, SlotsInOrder, HasHardStore, IsSlotName, Allowed, SlotNames, Min;
    EncodeOfParse(sha, disk.helper.value);
    ParsedNames(sha, disk.helper.value);
    var h := StoredHelper(sha, disk);
    FewChangesAreWithinBudget(sha, h, centre, Project(sha, WithSecret(disk, raw).value, h.normVersion), changed);
  }

  /**
   From enrolment on: in every ordinary run after a successful enrolment, any application whose
   machine has changed within the drift budget since the last commit prepares the enrolled identifier.
   */
  lemma EnrolledIdentifierIsKept(sha: Sha256, w: World, a: Action, actions: seq<Action>, b: Action,
                                 changed: set<string>)
    requires SessionsSound(sha, w) && a.Prepare? && (w.disk.helper.None? || a.force)
    requires PrepareStep(sha, w.disk, a).session.Ok?
    requires var s := PrepareStep(sha, w.disk, a).session.value; s.key.Some? ==> CheckWordIdentifies(sha, s.key.value)
    requires AllOrdinary(actions) && b.Prepare? && !b.force && !b.weather.busy && Requested(b.extra).Ok?
    requires var w' := Execute(sha, w, a);
      SeesOnlyTheseChanged(sha, Run(sha, w', actions).disk,
                           CentreOf(sha, w', actions, PrepareStep(sha, w.disk, a).session.value.factors),
                           b.raw, changed)
    ensures var first, later := PrepareStep(sha, w.disk, a).session,
      PrepareStep(sha, Run(sha, Execute(sha, w, a), actions).disk, b).session;
      later.Ok? && later.value.key == first.value.key && later.value.hwid == first.value.hwid
  {
    EnrolmentIsSound(sha, w.disk, a);
    PrepareOutcome(sha, w.disk, a);
    StepKeepsSessions(sha, w, a);
    hide SessionsSound, Run, CheckWordIdentifies, SeesOnlyTheseChanged, CentreOf, PrepareStep, HwidOf, AllOrdinary,
      Requested, MeetsBudget, Parse, Budgeted, Genuine, MandatoryNames, MapMandatory, CheckWord;
    var s := PrepareStep(sha, w.disk, a).session.value;
    var w' := Execute(sha, w, a);
    RunKeepsSound(sha, w', actions, s.key.value, s.factors);
    var disk, centre := Run(sha, w', actions).disk, CentreOf(sha, w', actions, s.factors);
    ChangedMeetsBudget(sha, disk, centre, b.raw, changed);
    BudgetRecovers(sha, disk, b, s.key.value, centre);
  }
}
