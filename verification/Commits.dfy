/**
 Exactly what a commit does, and how a legacy device moves to the current schema
 (slhwid/__init__.py:108-133, 213-234).
 */
module Commits {
  import opened Wrappers
  import opened Bytes
  import opened Field
  import opened Sharing
  import opened Search
  import opened Factors
  import opened HelperBlob
  import opened Recovery
  import opened RecoveryLaws
  import opened Refresh
  import opened Store
  import opened Lifecycle
  import opened Runs
  import opened WriteConditions
  import opened Enrolments

  /**
   A commit that puts a new helper in place: the session is live and has not committed before, nobody
   replaced its blob, the lock is free, the current factors can be shared, and the write is not lost.
   */
  ghost predicate Writes(sha: Sha256, disk: Disk, s: SessionState, data: bytes, weather: Weather) {
    && !s.committed && s.key.Some? && disk.helper == Some(s.expected)
    && !weather.busy && weather.helper != BeforeReplace
    && CanShare(sha, s.factors, s.mandatory, |data|)
  }

  lemma WritesIsExact(sha: Sha256, disk: Disk, s: SessionState, data: bytes, weather: Weather)
    ensures CommitWrites(sha, disk, s, data, weather) <==> Writes(sha, disk, s, data, weather)
  {
    hide RefreshOf, CanShare, IsProjected;
    if s.key.Some? { RefreshIsExact(sha, s.key.value, s.factors, s.mandatory, data, 0); }
  }

  /**
   A commit is exact: it replaces the helper if and only if it can, by a sharing of the session's key over the
   session's factors under its hard locks with the policy's threshold, and changes nothing otherwise. The session is
   spent either way, and its pending refresh and drifted slots are cleared exactly if the write succeeds.
   */
  lemma CommitIsExact(sha: Sha256, disk: Disk, s: SessionState, data: bytes, weather: Weather)
    returns (curves: seq<seq<Elem>>)
    requires SessionSound(sha, s)
    ensures var c := CommitOf(sha, disk, s, data, 0, weather);
      var done := Writes(sha, disk, s, data, weather) && weather.helper == Clean;
      && (!Writes(sha, disk, s, data, weather) ==> c.disk == disk)
      && c.session == s.(key := None, committed := s.committed || s.key.Some?, pending := s.pending && !done,
                         drifted := if done then [] else s.drifted)
    ensures Writes(sha, disk, s, data, weather) ==>
      var c := CommitOf(sha, disk, s, data, 0, weather);
      && HelperIntact(sha, c.disk) && c.disk.slstore == disk.slstore
      && var h := StoredHelper(sha, c.disk);
      && Shared(sha, h, s.key.value, curves, s.factors, s.mandatory)
      && h.threshold == Needed(|s.factors|, |s.mandatory|)
  {
    hide Parse, IsProjected, MapMandatory, MandatoryNames, CheckWord, Threshold, Shared, CanShare, Needed, Locks;
    WritesIsExact(sha, disk, s, data, weather);
    curves := CommitOutcome(sha, disk, s, data, weather);
    if Writes(sha, disk, s, data, weather) { WrittenThreshold(sha, s.factors, s.mandatory, |data|); }
    hide RefreshOf;
  }

  lemma WrittenThreshold(sha: Sha256, factors: Projected, mandatory: set<string>, room: int)
    requires CanShare(sha, factors, mandatory, room)
    ensures Threshold(|factors|, |mandatory|).Ok?
    ensures Threshold(|factors|, |mandatory|).value == Needed(|factors|, |mandatory|)
  {
    hide Threshold, Needed, IsProjected;
    AdmissibleIsAccepted(factors, mandatory);
  }

  // ---------------------------------------------------------------- unchanged signals

  /** The value that a slot of the schema takes from the raw signals. */
  function SlotValue(sha: Sha256, raw: Raw, norm: int, name: string): bytes {
    if norm == CURRENT_NORM_VERSION && name in CURRENT_GROUP_NAMES then
      GroupNames(name);
      GroupValue(sha, name, raw)
    else Get(raw, name)
  }

  /** The signals behind a slot of the schema. */
  function SignalsBehind(norm: int, name: string): seq<string> {
    if norm == CURRENT_NORM_VERSION && name in CURRENT_GROUP_NAMES then Members(name) else [name]
  }

  lemma ProjectedSlot(sha: Sha256, raw: Raw, norm: int, name: string)
    requires norm == LEGACY_NORM_VERSION || norm == CURRENT_NORM_VERSION
    requires name in Allowed(norm)
    ensures Get(Project(sha, raw, norm), name) == SlotValue(sha, raw, norm, name)
  {
    ProjectedValue(sha, raw, name);
    LegacyProjectedValue(sha, raw, name);
    hide Project, CURRENT_DIRECT_FACTOR_NAMES, CURRENT_GROUP_NAMES, LEGACY_FACTOR_NAMES, GroupValue, Get;
  }

  lemma SameSlotValue(sha: Sha256, raw: Raw, other: Raw, norm: int, name: string)
    requires forall i :: 0 <= i < |SignalsBehind(norm, name)| ==>
      Get(raw, SignalsBehind(norm, name)[i]) == Get(other, SignalsBehind(norm, name)[i])
    ensures SlotValue(sha, raw, norm, name) == SlotValue(sha, other, norm, name)
  {
    hide CURRENT_GROUP_NAMES, Members, GroupEncoding;
    if norm == CURRENT_NORM_VERSION && name in CURRENT_GROUP_NAMES {
      GroupNames(name);
      MembersAscii(name);
      assert SignalsBehind(norm, name) == Members(name);
      SameGroup(sha, name, raw, other);
    } else {
      assert SignalsBehind(norm, name)[0] == name;
    }
  }

  lemma SameGroup(sha: Sha256, group: string, raw: Raw, other: Raw)
    requires IsAscii(group) && AsciiNames(Members(group))
    requires forall i :: 0 <= i < |Members(group)| ==> Get(raw, Members(group)[i]) == Get(other, Members(group)[i])
    ensures GroupValue(sha, group, raw) == GroupValue(sha, group, other)
  {
    hide Members, IsAscii, Get, AsciiNames;
    SameMembers(Members(group), raw, other);
  }

  /** The helper shares the key over the slot values that the raw signals gave at enrolment. */
  ghost predicate EnrolledFrom(sha: Sha256, h: Helper, k: Key, curves: seq<seq<Elem>>, before: Raw) {
    && SlotNames(h.slots) && IsCurves(curves, k, h.threshold) && h.checkWord == CheckWord(sha, k)
    && forall i :: 0 <= i < |h.slots| ==>
         var v := SlotValue(sha, before, h.normVersion, h.slots[i].name);
         v != [] && Good(curves, Point(DeriveX(sha, h.slots[i].name, v, h.salt), h.slots[i].share, h.slots[i].name))
  }

  /** None of the signals behind the helper's slots has changed. */
  predicate SignalsUnchanged(h: Helper, before: Raw, now: Raw) {
    forall i, j :: 0 <= i < |h.slots| && 0 <= j < |SignalsBehind(h.normVersion, h.slots[i].name)| ==>
      Get(now, SignalsBehind(h.normVersion, h.slots[i].name)[j])
      == Get(before, SignalsBehind(h.normVersion, h.slots[i].name)[j])
  }

  lemma UnchangedIsGenuine(sha: Sha256, h: Helper, k: Key, curves: seq<seq<Elem>>, before: Raw, now: Raw)
    requires h.normVersion == LEGACY_NORM_VERSION || h.normVersion == CURRENT_NORM_VERSION
    requires SlotsInOrder(h.slots, h.normVersion) && EnrolledFrom(sha, h, k, curves, before)
    requires SignalsUnchanged(h, before, now)
    ensures Genuine(sha, h, k, curves, Project(sha, now, h.normVersion))
  {
    assert |curves| == 4;
    hide Project, IsCurves, CheckWord, Good, DeriveX, IsSlotName, SlotValue, Allowed, Less, SignalsBehind, Get;
    var factors := Project(sha, now, h.normVersion);
    forall i | 0 <= i < |h.slots| ensures EnrolledSlot(sha, curves, factors, h.salt, h.slots[i]) {
      var name := h.slots[i].name;
      NameAllowed(h.slots, i, h.normVersion);
      ProjectedSlot(sha, now, h.normVersion, name);
      SameSlotValue(sha, now, before, h.normVersion, name);
    }
  }

  lemma ParsedShape(sha: Sha256, blob: bytes)
    requires Parse(sha, blob).Ok?
    ensures var h := Parse(sha, blob).value;
      && SlotNames(h.slots) && SlotsInOrder(h.slots, h.normVersion)
      && MandatoryCount(h.slots) <= h.threshold <= |h.slots|
      && (h.normVersion == LEGACY_NORM_VERSION || h.normVersion == CURRENT_NORM_VERSION)
  {
    EncodeOfParse(sha, blob);
    ParsedNames(sha, blob);
    hide Parse, Encode, Encodable, SlotsInOrder, Allowed, MandatoryCount, HasHardStore, IsSlotName;
  }

  /**
   The unchanged machine always recovers, whichever schema its helper was written in: if the raw signals
   behind the slots are those of enrolment and the x-coordinates differ, the session has the enrolled key and
   identifier, and nothing is drifted or pending.
   */
  lemma UnchangedSignalsRecover(sha: Sha256, blob: bytes, k: Key, curves: seq<seq<Elem>>, before: Raw, now: Raw)
    requires Parse(sha, blob).Ok?
    requires var h := Parse(sha, blob).value;
      && EnrolledFrom(sha, h, k, curves, before) && SignalsUnchanged(h, before, now)
      && Separated(sha, h, Project(sha, now, h.normVersion))
    ensures var r := RecoverSession(sha, blob, now);
      && r.Ok? && r.value.key == Some(k) && r.value.hwid == HwidOf(sha, k)
      && r.value.drifted == [] && !r.value.pending && !r.value.isNew
  {
    hide Parse, Project, RecoverHelper, MandatoryNames, MapMandatory, IsProjected, SlotsInOrder, MandatoryCount,
      Separated, Genuine, EnrolledFrom, SignalsUnchanged, HwidOf, IsSlotName;
    ParsedShape(sha, blob);
    var h := Parse(sha, blob).value;
    UnchangedIsGenuine(sha, h, k, curves, before, now);
    NothingIsDead(sha, h, k, curves, Project(sha, now, h.normVersion));
    hide SlotNames;
  }

  /**
   A device keeps its identity when it moves to the current schema: on the unchanged machine, prepare and then
   commit replace the helper, of either schema, by one in the current schema with the same check word and the same
   hard locks under their current names, and the next prepare yields the same key and identifier with nothing drifted.
   */
  lemma DeviceMigrates(sha: Sha256, disk: Disk, a: Action, k: Key, curves: seq<seq<Elem>>, before: Raw, now: Raw,
                       data: bytes)
    requires Starts(a) && !Enrols(disk, a) && HelperIntact(sha, disk) && WithSecret(disk, a.raw) == Ok(now)
    requires var h := StoredHelper(sha, disk);
      && EnrolledFrom(sha, h, k, curves, before) && SignalsUnchanged(h, before, now)
      && Separated(sha, h, Project(sha, now, h.normVersion))
      && CanShare(sha, ProjectCurrent(sha, now), MapMandatory(Locks(h)), |data|)
    ensures PrepareStep(sha, disk, a).session.Ok?
    ensures var s := PrepareStep(sha, disk, a).session.value;
      var c := CommitOf(sha, disk, s, data, 0, Weather(false, Clean, Clean));
      && s.key == Some(k) && HelperIntact(sha, c.disk)
      && var h, h' := StoredHelper(sha, disk), StoredHelper(sha, c.disk);
      && h'.normVersion == CURRENT_NORM_VERSION && h'.checkWord == h.checkWord && Locks(h') == MapMandatory(Locks(h))
      && var again := PrepareStep(sha, c.disk, a).session;
      && again.Ok? && again.value.key == Some(k) && again.value.hwid == s.hwid && again.value.drifted == []
  {
    hide Parse, Project, RecoverSession, MapMandatory, IsProjected, Separated, EnrolledFrom, SignalsUnchanged, HwidOf,
      CanShare, CommitOf, EnrolOf, WithSecret, Requested, MandatoryNames, SlotNames;
    var blob, weather := disk.helper.value, Weather(false, Clean, Clean);
    UnchangedSignalsRecover(sha, blob, k, curves, before, now);
    var s := RecoverSession(sha, blob, now).value;
    RecoveredIsSound(sha, blob, now);
    PreparedSession(sha, disk, a);
    MigrationCommits(sha, disk, s, data, now);
    SecretIsStill(disk, CommitOf(sha, disk, s, data, 0, weather).disk, a.raw);
  }

  lemma SecretIsStill(disk: Disk, after: Disk, raw: Raw)
    requires disk.slstore == after.slstore
    ensures WithSecret(after, raw) == WithSecret(disk, raw)
  {
  }

  lemma MigrationCommits(sha: Sha256, disk: Disk, s: SessionState, data: bytes, now: Raw)
    requires SessionSound(sha, s) && Writes(sha, disk, s, data, Weather(false, Clean, Clean))
    requires s.factors == ProjectCurrent(sha, now)
    ensures var c := CommitOf(sha, disk, s, data, 0, Weather(false, Clean, Clean));
      && HelperIntact(sha, disk) && HelperIntact(sha, c.disk) && c.disk.slstore == disk.slstore
      && var h, h' := StoredHelper(sha, disk), StoredHelper(sha, c.disk);
      && h'.normVersion == CURRENT_NORM_VERSION && h'.checkWord == h.checkWord && Locks(h') == MapMandatory(Locks(h))
      && var again := RecoverSession(sha, c.disk.helper.value, now);
      && again.Ok? && again.value.key == s.key && again.value.hwid == s.hwid && again.value.drifted == []
  {
    hide Parse, RecoverSession, MapMandatory, IsProjected, CanShare, CommitOf, RefreshOf, MandatoryNames, Genuine,
      Separated, Names, WellFormed, Threshold, ProjectCurrent;
    var weather := Weather(false, Clean, Clean);
    WritesIsExact(sha, disk, s, data, weather);
    var curves := CommitOutcome(sha, disk, s, data, weather);
    CommitRecentres(sha, disk, s, data, weather, now);
  }
}
