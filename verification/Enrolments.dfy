/** What a prepare that enrols does to the store and to its session (slhwid/__init__.py:155-211 and 246-256). */
module Enrolments {
  import opened Wrappers
  import opened Bytes
  import opened Sharing
  import opened Factors
  import opened HelperBlob
  import opened Recovery
  import opened RecoveryLaws
  import opened Refresh
  import opened Store
  import opened Lifecycle
  import opened Runs
  import opened PersistedSecret
  import opened WriteConditions

  /** There is no helper yet, or the application asks for a new one. */
  predicate Enrols(disk: Disk, a: Action) {
    a.Prepare? && (disk.helper.None? || a.force)
  }

  // ---------------------------------------------------------------- the persisted secret

  ghost predicate IsSecretFile(file: Option<bytes>) {
    exists v: bytes :: |v| == 32 && file == Some(Wrap(v))
  }

  lemma SecretFileIsRead(disk: Disk)
    ensures IsSecretFile(disk.slstore) <==> SlstoreOf(disk).Ok? && SlstoreOf(disk).value.Some?
    ensures IsSecretFile(disk.slstore) ==>
      |SlstoreOf(disk).value.value| == 32 && disk.slstore == Some(Wrap(SlstoreOf(disk).value.value))
    ensures SlstoreOf(disk).Err? ==> SlstoreOf(disk).error == CorruptHelperError
  {
    if disk.slstore.Some? && Unwrap(disk.slstore.value).Ok? {
      UnwrapIsExact(disk.slstore.value, Unwrap(disk.slstore.value).value);
    }
    forall v: bytes | |v| == 32 && disk.slstore == Some(Wrap(v)) ensures Unwrap(disk.slstore.value) == Ok(v) {
      UnwrapIsExact(disk.slstore.value, v);
    }
    hide Wrap, Unwrap;
  }

  /** A prepare with valid names that gets the lock. */
  predicate Starts(a: Action) {
    a.Prepare? && !a.weather.busy && Requested(a.extra).Ok?
  }

  /**
   A secret file that is not a wrapped 32-byte value makes every prepare that needs it fail as corrupt,
   and is left as it is.
   */
  lemma MalformedSecretIsReported(sha: Sha256, disk: Disk, a: Action)
    requires Starts(a) && Get(a.raw, "slstore") == [] && disk.slstore.Some? && !IsSecretFile(disk.slstore)
    ensures PrepareStep(sha, disk, a) == Prepared(disk, Err(CorruptHelperError))
  {
    hide Unwrap, Wrap, IsRequestable, RecoverSession, IsProjected, EnrolmentOf, Parse;
    SecretFileIsRead(disk);
  }

  /** No prepare, forced or not, ever changes a secret file that is there. */
  lemma ExistingSecretIsKept(sha: Sha256, disk: Disk, a: Action)
    requires a.Prepare? && disk.slstore.Some?
    ensures PrepareStep(sha, disk, a).disk.slstore == disk.slstore
  {
    hide Unwrap, IsRequestable, RecoverSession, IsProjected, EnrolmentOf, Encode, Encodable, MapMandatory, HwidOf;
  }

  /** The signals an enrolment goes on with: those collected, with the given, the stored or the drawn secret. */
  function SignalsAt(disk: Disk, a: Action): Raw
    requires a.Prepare?
  {
    if Get(a.raw, "slstore") != [] then a.raw
    else if SlstoreOf(disk).Ok? && SlstoreOf(disk).value.Some? then a.raw["slstore" := Hex(SlstoreOf(disk).value.value)]
    else if |a.data| >= 32 then a.raw["slstore" := Hex(a.data[..32])]
    else a.raw
  }

  ghost predicate DrawsSecret(disk: Disk, a: Action) {
    a.Prepare? && Get(a.raw, "slstore") == [] && disk.slstore.None?
  }

  /** A secret is given, stored, or can be drawn and written. */
  ghost predicate SecretReady(disk: Disk, a: Action) {
    && a.Prepare?
    && (Get(a.raw, "slstore") != [] || IsSecretFile(disk.slstore)
        || (disk.slstore.None? && |a.data| >= 32 && a.weather.slstore == Clean))
  }

  /** What a first enrolment leaves in the secret file. */
  lemma DrawnSecretIsWritten(sha: Sha256, disk: Disk, a: Action)
    requires Enrols(disk, a) && Starts(a) && DrawsSecret(disk, a)
    ensures PrepareStep(sha, disk, a).disk.slstore ==
      if |a.data| >= 32 && a.weather.slstore != BeforeReplace then Some(Wrap(a.data[..32])) else None
    ensures SignalsAt(disk, a) == if |a.data| >= 32 then a.raw["slstore" := Hex(a.data[..32])] else a.raw
  {
    hide Unwrap, Wrap, IsRequestable, RecoverSession, IsProjected, EnrolmentOf, Encode, Encodable, MapMandatory, HwidOf;
  }

  // ---------------------------------------------------------------- exactly when it succeeds

  /** The hard locks asked for, by their current names. */
  function LocksAsked(a: Action): set<string>
    requires a.Prepare?
  {
    set name | name in {"slstore"} + (set x | x in a.extra) :: CurrentMandatoryName(name)
  }

  lemma AskedIsMapped(a: Action)
    requires a.Prepare? && Requested(a.extra).Ok?
    ensures MapMandatory(Requested(a.extra).value) == LocksAsked(a)
    ensures "slstore" in MapMandatory(Requested(a.extra).value)
  {
    RequestedLocks(a.extra);
    hide IsRequestable, CurrentMandatoryName;
  }

  lemma EnrolmentUnfolds(sha: Sha256, disk: Disk, a: Action)
    requires Enrols(disk, a) && Starts(a)
    ensures var pos := if DrawsSecret(disk, a) then 32 else 0;
      var factors := ProjectCurrent(sha, SignalsAt(disk, a));
      var e := EnrolmentOf(sha, factors, LocksAsked(a), a.data, pos);
      var p := PrepareStep(sha, disk, a);
      && (p.session.Ok? <==> SecretReady(disk, a) && e.Ok? && a.weather.helper == Clean)
      && (p.disk.helper != disk.helper ==> SecretReady(disk, a) && e.Ok?)
      && (SecretReady(disk, a) && e.Ok? ==>
            && Encodable(e.value.helper)
            && p.disk.helper == Replaced(disk.helper, Encode(sha, e.value.helper), a.weather.helper))
      && (p.session.Ok? ==>
            p.session.value == SessionState(HwidOf(sha, e.value.key), true, [], false, false, Some(e.value.key),
                                            factors, LocksAsked(a), Encode(sha, e.value.helper)))
  {
    hide Unwrap, Wrap, Requested, IsProjected, EnrolmentOf, Encode, Encodable, MapMandatory, HwidOf, LocksAsked, Get,
      ProjectCurrent;
    SecretFileIsRead(disk);
    AskedIsMapped(a);
    var pos := if DrawsSecret(disk, a) then 32 else 0;
    var factors := ProjectCurrent(sha, SignalsAt(disk, a));
    if EnrolmentOf(sha, factors, LocksAsked(a), a.data, pos).Ok? {
      EnrolmentEncodable(sha, factors, LocksAsked(a), a.data, pos);
    }
    GivenSecret(a.raw);
  }

  lemma GivenSecret(raw: Raw)
    ensures Get(raw, "slstore") != [] ==> raw["slstore" := Get(raw, "slstore")] == raw
  {
  }

  /**
   A prepare that enrols succeeds if and only if it gets the lock, all names are valid, a secret is
   given, stored or can be drawn and written, the helper can be shared over the current slots with the hard locks
   asked for, and its write succeeds.
   */
  lemma EnrolmentStepIsExact(sha: Sha256, disk: Disk, a: Action)
    requires Enrols(disk, a)
    ensures var room := |a.data| - (if DrawsSecret(disk, a) then 64 else 32);
      PrepareStep(sha, disk, a).session.Ok? <==>
        && Starts(a) && SecretReady(disk, a) && a.weather.helper == Clean
        && CanShare(sha, ProjectCurrent(sha, SignalsAt(disk, a)), LocksAsked(a), room)
  {
    hide IsProjected, EnrolmentOf, Encode, Encodable, MapMandatory, HwidOf, LocksAsked, SignalsAt, SecretReady,
      DrawsSecret, Requested, EnrolOf, ProjectCurrent, CanShare, Get, Replaced;
    if Starts(a) {
      EnrolmentUnfolds(sha, disk, a);
      EnrolmentIsExact(sha, ProjectCurrent(sha, SignalsAt(disk, a)), LocksAsked(a), a.data,
                       if DrawsSecret(disk, a) then 32 else 0);
    }
  }

  /** A prepare that gets no lock, or asks for an invalid name, does nothing. */
  lemma RefusedPrepareIsHarmless(sha: Sha256, disk: Disk, a: Action)
    requires a.Prepare? && !Starts(a)
    ensures PrepareStep(sha, disk, a) == Prepared(disk, Err(if Requested(a.extra).Err? then SsError else OSError))
  {
    hide IsRequestable, EnrolOf, RecoverSession;
  }

  // ---------------------------------------------------------------- the hard locks asked for

  /**
   The application gets the hard locks it asks for: the helper written by an enrolment, interrupted or
   not, locks exactly the persisted secret and the slots that the requested signals vote in.
   */
  lemma EnrolledLocks(sha: Sha256, disk: Disk, a: Action)
    requires Enrols(disk, a)
    requires var p := PrepareStep(sha, disk, a); p.session.Ok? || p.disk.helper != disk.helper
    ensures var p := PrepareStep(sha, disk, a);
      && HelperIntact(sha, p.disk)
      && (forall x :: x in a.extra ==> CurrentMandatoryName(x) in Locks(StoredHelper(sha, p.disk)))
      && (forall l :: l in Locks(StoredHelper(sha, p.disk)) ==>
            l == "slstore" || exists x :: x in a.extra && CurrentMandatoryName(x) == l)
      && "slstore" in Locks(StoredHelper(sha, p.disk))
  {
    hide IsProjected, EnrolmentOf, Encode, Encodable, MapMandatory, HwidOf, SignalsAt, SecretReady, DrawsSecret,
      Requested, EnrolOf, ProjectCurrent, Get, CurrentMandatoryName, Parse, Shared, Threshold, MandatoryNames;
    if !Starts(a) { RefusedPrepareIsHarmless(sha, disk, a); }
    EnrolmentUnfolds(sha, disk, a);
    AskedIsMapped(a);
    SharedLocks(sha, ProjectCurrent(sha, SignalsAt(disk, a)), LocksAsked(a), a.data,
                if DrawsSecret(disk, a) then 32 else 0);
    StoreIsFixed();
  }

  lemma StoreIsFixed()
    ensures CurrentMandatoryName("slstore") == "slstore"
  {
  }

  lemma SharedLocks(sha: Sha256, factors: Projected, mandatory: set<string>, data: bytes, pos: nat)
    requires EnrolmentOf(sha, factors, mandatory, data, pos).Ok? && "slstore" in mandatory
    ensures var h := EnrolmentOf(sha, factors, mandatory, data, pos).value.helper;
      Encodable(h) && Parse(sha, Encode(sha, h)) == Ok(h) && MandatoryNames(h.slots) == mandatory
  {
    hide EnrolmentOf, Parse, Encode, Encodable, MandatoryNames, Genuine, WellFormed, Threshold, Separated, Names;
    var curves := EnrolmentIsShared(sha, factors, mandatory, data, pos);
  }

  /**
   A hard lock cannot be routed around: over a helper that locks a slot, a prepare on a machine
   without a value for that slot never yields a session.
   */
  lemma AbsentLockNeverRecovers(sha: Sha256, disk: Disk, b: Action, lock: string)
    requires HelperIntact(sha, disk) && lock in Locks(StoredHelper(sha, disk)) && b.Prepare? && !b.force
    requires WithSecret(disk, b.raw).Ok? ==>
      Get(Project(sha, WithSecret(disk, b.raw).value, StoredHelper(sha, disk).normVersion), lock) == []
    ensures PrepareStep(sha, disk, b).session.Err?
  {
    hide Parse, Project, RecoverHelper, EnrolOf, MandatoryNames, MapMandatory, IsProjected, Get, WithSecret, Requested;
    if Starts(b) && WithSecret(disk, b.raw).Ok? {
      var blob, h := disk.helper.value, StoredHelper(sha, disk);
      var factors := Project(sha, WithSecret(disk, b.raw).value, h.normVersion);
      ParsedNames(sha, blob);
      MandatoryNamesAre(h.slots);
      var i :| 0 <= i < |h.slots| && h.slots[i].mandatory && h.slots[i].name == lock;
      AbsentLockIsRefused(sha, h, factors, i);
    }
  }

  /**
   From enrolment on: in every ordinary run after an enrolment, a machine on which the slot of a
   requested signal has no value is never given a session.
   */
  lemma RequestedLockHolds(sha: Sha256, w: World, a: Action, actions: seq<Action>, b: Action, x: string)
    requires SessionsSound(sha, w) && Enrols(w.disk, a) && PrepareStep(sha, w.disk, a).session.Ok?
    requires AllOrdinary(actions) && x in a.extra && b.Prepare? && !b.force
    requires var disk := Run(sha, Execute(sha, w, a), actions).disk;
      HelperIntact(sha, disk) && WithSecret(disk, b.raw).Ok? ==>
        Get(Project(sha, WithSecret(disk, b.raw).value, StoredHelper(sha, disk).normVersion),
            CurrentMandatoryName(x)) == []
    ensures PrepareStep(sha, Run(sha, Execute(sha, w, a), actions).disk, b).session.Err?
  {
    hide SessionsSound, Run, PrepareStep, AllOrdinary, Locks, StoredHelper, HelperIntact, WithSecret, Project,
      CurrentMandatoryName, Get;
    EnrolledLocks(sha, w.disk, a);
    StepKeepsSessions(sha, w, a);
    var w' := Execute(sha, w, a);
    IdentityIsStable(sha, w', actions);
    CurrentNameIsFixed(x);
    LocksStay(sha, w'.disk, Run(sha, w', actions).disk, CurrentMandatoryName(x));
    AbsentLockNeverRecovers(sha, Run(sha, w', actions).disk, b, CurrentMandatoryName(x));
  }

  lemma LocksStay(sha: Sha256, before: Disk, after: Disk, lock: string)
    requires HelperIntact(sha, before) && SameIdentity(sha, before, after)
    requires lock in Locks(StoredHelper(sha, before)) && CurrentMandatoryName(lock) == lock
    ensures HelperIntact(sha, after) && lock in Locks(StoredHelper(sha, after))
  {
    hide HelperIntact, StoredHelper, Locks, CurrentMandatoryName;
  }

  // ---------------------------------------------------------------- the session

  /** The session says it is new exactly when the prepare enrolled, and holds what its commit will need. */
  lemma PreparedSession(sha: Sha256, disk: Disk, a: Action)
    requires a.Prepare? && PrepareStep(sha, disk, a).session.Ok?
    ensures var p := PrepareStep(sha, disk, a); var s := p.session.value;
      && (s.isNew <==> Enrols(disk, a))
      && s.key.Some? && !s.committed && p.disk.helper == Some(s.expected)
      && (s.pending <==> s.drifted != []) && (s.isNew ==> !s.pending)
    ensures var p := PrepareStep(sha, disk, a); var s := p.session.value;
      && (s.isNew ==> s.factors == ProjectCurrent(sha, SignalsAt(disk, a)) && s.mandatory == LocksAsked(a))
      && (!s.isNew ==>
            && HelperIntact(sha, disk) && WithSecret(disk, a.raw).Ok? && p.disk == disk
            && s.factors == ProjectCurrent(sha, WithSecret(disk, a.raw).value)
            && s.mandatory == MapMandatory(Locks(StoredHelper(sha, disk))))
  {
    hide IsProjected, EnrolmentOf, Encode, Encodable, MapMandatory, HwidOf, SignalsAt, SecretReady, DrawsSecret,
      Requested, EnrolOf, ProjectCurrent, Get, WithSecret, Parse, Recover, Project, MandatoryNames, LocksAsked;
    PrepareOutcome(sha, disk, a);
    if !Starts(a) { RefusedPrepareIsHarmless(sha, disk, a); }
    if Enrols(disk, a) {
      EnrolmentUnfolds(sha, disk, a);
    } else {
      RecoveredParses(sha, disk.helper.value, WithSecret(disk, a.raw).value);
    }
  }

  // ---------------------------------------------------------------- requests and helpers that are refused

  /** A request is a lower-case letter and at most 31 letters, digits and underscores; one newline may follow. */
  lemma RequestableIsExact(name: string)
    ensures IsRequestable(name) <==>
      exists core :: IsCore(core) && (name == core || name == core + "\n")
  {
    if IsRequestable(name) {
      var core := if name != "" && name[|name| - 1] == '\n' then name[..|name| - 1] else name;
      forall c | c in core ensures 'a' <= c <= 'z' || '0' <= c <= '9' || c == '_' {
        assert IsNameChar(c);
      }
      assert IsCore(core) && (name == core || name == core + "\n");
    }
    forall core | IsCore(core) && (name == core || name == core + "\n") ensures IsRequestable(name) {
      assert core[|core| - 1] in core;
      assert name == core + "\n" ==> name[..|name| - 1] == core;
    }
  }

  predicate IsCore(core: string) {
    && 1 <= |core| <= 32 && 'a' <= core[0] <= 'z'
    && forall c :: c in core ==> 'a' <= c <= 'z' || '0' <= c <= '9' || c == '_'
  }

  /** A stored helper that does not parse makes every prepare that does not replace it fail, and is left as it is. */
  lemma CorruptHelperIsReported(sha: Sha256, disk: Disk, a: Action)
    requires Starts(a) && !Enrols(disk, a) && WithSecret(disk, a.raw).Ok? && Parse(sha, disk.helper.value).Err?
    ensures PrepareStep(sha, disk, a) == Prepared(disk, Err(Parse(sha, disk.helper.value).error))
  {
    hide Parse, WithSecret, Requested, EnrolOf, Recover, Project, IsProjected;
  }

  /** A secret that the caller's signals bring along is used as it is, whatever the secret file holds. */
  lemma GivenSecretIsUsed(sha: Sha256, disk: Disk, a: Action)
    requires Starts(a) && !Enrols(disk, a) && Get(a.raw, "slstore") != []
    ensures PrepareStep(sha, disk, a) == Prepared(disk, RecoverSession(sha, disk.helper.value, a.raw))
  {
    hide Parse, Requested, EnrolOf, RecoverSession, IsProjected;
  }
}
