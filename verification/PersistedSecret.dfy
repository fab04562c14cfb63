/**
 The hard lock on the persisted secret: a device whose secret file is deleted or changed needs
 re-activation (slhwid/__init__.py:185-196, core.py:530-566).
 */
module PersistedSecret {
  import opened Wrappers
  import opened Bytes
  import opened Field
  import opened Sharing
  import opened Search
  import opened Factors
  import opened HelperBlob
  import opened Recovery
  import opened RecoveryLaws
  import opened Diagnosis
  import opened Classification
  import opened Collisions
  import opened Refresh
  import opened Store
  import opened Lifecycle
  import opened Runs

  // ---------------------------------------------------------------- the secret is gone

  lemma SecretNotProjected(sha: Sha256, raw: Raw, norm: int)
    requires Get(raw, "slstore") == []
    ensures Get(Project(sha, raw, norm), "slstore") == []
  {
    hide LEGACY_FACTOR_NAMES, CURRENT_DIRECT_FACTOR_NAMES, Allowed, GroupValue;
    assert "slstore" !in CURRENT_GROUP_NAMES;
  }

  /** A missing hard lock is reported with all the others that are missing, unless the sweep raises first. */
  lemma AbsentLockIsRefused(sha: Sha256, h: Helper, factors: Raw, i: nat)
    requires SlotNames(h.slots) && i < |h.slots| && h.slots[i].mandatory && !IsPresent(factors, h.slots[i])
    ensures RecoverHelper(sha, h, factors) ==
      if CollidesFirst(sha, h, factors) then Err(ValueError)
      else Ok(Refused(Locked, PresentCount(factors, h.slots), h.threshold, MissingMandatory(factors, h.slots)))
    ensures h.slots[i].name in MissingMandatory(factors, h.slots)
  {
    hide Culprit, Classified, CheckWord, HwidOf, KeyOf, Points, MissingMandatory, PresentCount, IsPresent, IsSlotName,
      IsFirst, SweepOf;
    MissingAreAbsent(factors, h.slots);
    assert h.slots[i].name in MissingMandatory(factors, h.slots);
    SweepIsExact(sha, Points(sha, factors, h.salt, h.slots, true), Points(sha, factors, h.salt, h.slots, false),
                 h.threshold, h.checkWord);
  }

  /** The sweep raises only if two present slots share an x-coordinate. */
  lemma SeparatedNeverCollides(sha: Sha256, h: Helper, factors: Raw)
    requires SlotNames(h.slots) && Separated(sha, h, factors)
    ensures !CollidesFirst(sha, h, factors)
  {
    hide Points, IsSlotName, Try, LexLess, Xs;
    var a, b := Points(sha, factors, h.salt, h.slots, true), Points(sha, factors, h.salt, h.slots, false);
    forall c | IsFirst(sha, a, b, h.threshold, h.checkWord, c, Collides) ensures false {
      NoCollision(sha, a, b, c, h.checkWord);
    }
  }

  /** A prepare that reaches recovery over an existing helper, on a machine that reports no secret of its own. */
  predicate Recovers(a: Action) {
    a.Prepare? && !a.force && !a.weather.busy && Requested(a.extra).Ok? && Get(a.raw, "slstore") == []
  }

  /**
   Deleting the persisted secret always requires re-activation: while the helper is there, a prepare on a
   machine without the secret never yields a session.  It reports the missing hard locks, the secret among
   them, except exactly when the sweep meets a collision first; without equal x-coordinates it never does.
   */
  lemma DeletedSecretIsRefused(sha: Sha256, disk: Disk, a: Action)
    requires HelperIntact(sha, disk) && disk.slstore.None? && Recovers(a)
    ensures SlotNames(StoredHelper(sha, disk).slots)
    ensures var h := StoredHelper(sha, disk);
      var factors := Project(sha, a.raw, h.normVersion);
      var missing := MissingMandatory(factors, h.slots);
      && "slstore" in missing && (Separated(sha, h, factors) ==> !CollidesFirst(sha, h, factors))
      && PrepareStep(sha, disk, a).session ==
         Err(if CollidesFirst(sha, h, factors) then ValueError
             else DriftError(PresentCount(factors, h.slots), h.threshold, missing, true))
  {
    hide Parse, Project, RecoverHelper, EnrolOf, MandatoryNames, MapMandatory, IsProjected, Get, SlotsInOrder,
      MandatoryCount, Encode, Encodable, IsRequestable, CollidesFirst, Separated, MissingMandatory, PresentCount,
      IsSlotName;
    var blob := disk.helper.value;
    var h := StoredHelper(sha, disk);
    EncodeOfParse(sha, blob);
    ParsedNames(sha, blob);
    SecretNotProjected(sha, a.raw, h.normVersion);
    var i :| 0 <= i < |h.slots| && h.slots[i].name == "slstore" && h.slots[i].mandatory;
    var factors := Project(sha, a.raw, h.normVersion);
    AbsentLockIsRefused(sha, h, factors, i);
    if Separated(sha, h, factors) { SeparatedNeverCollides(sha, h, factors); }
  }

  // ---------------------------------------------------------------- the secret is another

  /** Among the present slots the secret alone is off the curves, and no x-coordinates collide. */
  ghost predicate OnlySecretMoved(sha: Sha256, h: Helper, curves: seq<seq<Elem>>, centre: Raw, factors: Raw) {
    && SlotNames(h.slots) && |curves| == 4 && Separated(sha, h, factors)
    && exists c ::
      0 <= c < |h.slots| && h.slots[c].name == "slstore" && OnlyLockChanged(sha, h, curves, centre, factors, c)
  }

  /** The report on a changed secret: it is named if and only if the other present slots reach the threshold. */
  function SecretReport(h: Helper, factors: Raw): Error {
    var present := PresentCount(factors, h.slots);
    if present - 1 >= h.threshold then DriftError(present, h.threshold, ["slstore"], true)
    else DriftError(present, h.threshold, [], false)
  }

  /** The factors of the helper's schema, with the given secret injected. */
  function FactorsWith(sha: Sha256, h: Helper, raw: Raw, secret: bytes): Raw {
    Project(sha, raw["slstore" := Hex(secret)], h.normVersion)
  }

  lemma MovedSecretIsReported(sha: Sha256, blob: bytes, k: Key, curves: seq<seq<Elem>>, centre: Raw, raw: Raw)
    requires Parse(sha, blob).Ok? && CheckWordIdentifies(sha, k)
    requires var h := Parse(sha, blob).value;
      && Genuine(sha, h, k, curves, centre)
      && OnlySecretMoved(sha, h, curves, centre, Project(sha, raw, h.normVersion))
    ensures var h := Parse(sha, blob).value;
      RecoverSession(sha, blob, raw) == Err(SecretReport(h, Project(sha, raw, h.normVersion)))
  {
    hide Parse, Project, RecoverHelper, MandatoryNames, MapMandatory, IsProjected, SlotsInOrder, MandatoryCount,
      Encode, Encodable, Separated, PresentCount, IsSlotName, Genuine, OnlyLockChanged, CheckWordIdentifies;
    EncodeOfParse(sha, blob);
    ParsedNames(sha, blob);
    var h := Parse(sha, blob).value;
    var factors := Project(sha, raw, h.normVersion);
    var c :| 0 <= c < |h.slots| && h.slots[c].name == "slstore" && OnlyLockChanged(sha, h, curves, centre, factors, c);
    DiagnosisIsExact(sha, h, k, curves, centre, factors, c);
  }

  /** The store once somebody has written another secret. */
  lemma EditedSecretIsSeen(sha: Sha256, disk: Disk, value: bytes, a: Action)
    requires HelperIntact(sha, disk) && |value| == 32 && Recovers(a) && disk.slstore == Some(Wrap(value))
    ensures PrepareStep(sha, disk, a).session == RecoverSession(sha, disk.helper.value, a.raw["slstore" := Hex(value)])
  {
    hide Parse, EnrolOf, RecoverSession, IsRequestable, IsProjected, Unwrap, Wrap;
    UnwrapIsExact(Wrap(value), value);
  }

  /**
   Changing the persisted secret requires re-activation too: after any ordinary run the stored helper lies
   on curves such that, for every secret written over the old one that moves off them while the rest is
   unchanged, a prepare ends in the report above.
   */
  lemma ChangedSecretIsRefused(sha: Sha256, w: World, actions: seq<Action>, k: Key, centre: Raw)
    returns (curves: seq<seq<Elem>>)
    requires SessionsSound(sha, w) && Holds(sha, w.disk, k, centre) && CheckWordIdentifies(sha, k)
    requires AllOrdinary(actions)
    ensures HelperIntact(sha, Run(sha, w, actions).disk)
    ensures Genuine(sha, StoredHelper(sha, Run(sha, w, actions).disk), k, curves, CentreOf(sha, w, actions, centre))
    ensures var w' := Run(sha, w, actions); var h := StoredHelper(sha, w'.disk);
      forall value: bytes, a: Action
        | |value| == 32 && Recovers(a)
          && OnlySecretMoved(sha, h, curves, CentreOf(sha, w, actions, centre), FactorsWith(sha, h, a.raw, value))
        :: PrepareStep(sha, Execute(sha, w', EditSecret(Some(Wrap(value)))).disk, a).session
           == Err(SecretReport(h, FactorsWith(sha, h, a.raw, value)))
  {
    hide SessionsSound, Ordinary, CheckWordIdentifies, Genuine, Parse, OnlySecretMoved, SecretReport, PrepareStep,
      Wrap, RecoverSession, Project, Run, CentreOf, AllOrdinary;
    RunKeepsKey(sha, w, actions, k, centre);
    var w', c := Run(sha, w, actions), CentreOf(sha, w, actions, centre);
    var h := StoredHelper(sha, w'.disk);
    curves :| Genuine(sha, h, k, curves, c);
    forall value: bytes, a: Action
      | |value| == 32 && Recovers(a) && OnlySecretMoved(sha, h, curves, c, FactorsWith(sha, h, a.raw, value))
      ensures PrepareStep(sha, Execute(sha, w', EditSecret(Some(Wrap(value)))).disk, a).session
           == Err(SecretReport(h, FactorsWith(sha, h, a.raw, value)))
    {
      EditedSecretIsSeen(sha, Execute(sha, w', EditSecret(Some(Wrap(value)))).disk, value, a);
      MovedSecretIsReported(sha, w'.disk.helper.value, k, curves, c, a.raw["slstore" := Hex(value)]);
    }
  }
}
