/** Runs of many sessions over one shared store: the identifier is stable and hard locks never weaken. */
module Runs {
  import opened Wrappers
  import opened Bytes
  import opened Field
  import opened Sharing
  import opened Search
  import opened Factors
  import opened HelperBlob
  import opened Recovery
  import opened RecoveryLaws
  import opened Classification
  import opened Refresh
  import opened Store
  import opened Lifecycle

  // ---------------------------------------------------------------- the state machine

  /** One device: the shared store, and the sessions of all applications, dead or alive. */
  datatype World = World(disk: Disk, sessions: seq<SessionState>)

  /**
   One atomic step. The arguments are what the environment chooses: the signals collected, the
   random bytes, the faults met, and edits of the files by others. A crash is a fault that
   interrupts a write, or a session that takes no further step.
   */
  datatype Action =
    | Prepare(raw: Raw, extra: seq<string>, force: bool, data: bytes, weather: Weather)
    | Commit(who: nat, data: bytes, weather: Weather)
    | EditSecret(slstore: Option<bytes>)
    | EditHelper(helper: Option<bytes>)

  function PrepareStep(sha: Sha256, disk: Disk, a: Action): Prepared
    requires a.Prepare?
  {
    match Requested(a.extra)
    case Err(e) => Prepared(disk, Err(e))
    case Ok(names) => PrepareOf(sha, disk, a.raw, names, a.force, a.data, 0, a.weather)
  }

  function Execute(sha: Sha256, w: World, a: Action): World {
    match a
    case Prepare(_, _, _, _, _) =>
      var p := PrepareStep(sha, w.disk, a);
      World(p.disk, if p.session.Ok? then w.sessions + [p.session.value] else w.sessions)
    case Commit(who, data, weather) =>
      if who >= |w.sessions| then w
      else
        var c := CommitOf(sha, w.disk, w.sessions[who], data, 0, weather);
        World(c.disk, w.sessions[who := c.session])
    case EditSecret(slstore) => w.(disk := w.disk.(slstore := slstore))
    case EditHelper(helper) => w.(disk := w.disk.(helper := helper))
  }

  function Run(sha: Sha256, w: World, actions: seq<Action>): World
    decreases |actions|
  {
    if actions == [] then w else Run(sha, Execute(sha, w, actions[0]), actions[1..])
  }

  /** Neither a forced re-enrolment nor a foreign edit of the helper file. */
  predicate Ordinary(a: Action) {
    !(a.Prepare? && a.force) && !a.EditHelper?
  }

  predicate AllOrdinary(actions: seq<Action>) {
    forall i :: 0 <= i < |actions| ==> Ordinary(actions[i])
  }

  // ---------------------------------------------------------------- sound sessions

  /**
   A session that still holds its key recovered it from the blob it expects to replace, and a
   refresh is pending exactly while slots are reported as drifted.
   */
  predicate SessionSound(sha: Sha256, s: SessionState) {
    && (s.pending <==> s.drifted != [])
    && (s.key.Some? ==>
      && Parse(sha, s.expected).Ok?
      && Parse(sha, s.expected).value.checkWord == CheckWord(sha, s.key.value)
      && s.mandatory == MapMandatory(MandatoryNames(Parse(sha, s.expected).value.slots))
      && s.hwid == HwidOf(sha, s.key.value))
  }

  predicate SessionsSound(sha: Sha256, w: World) {
    forall i :: 0 <= i < |w.sessions| ==> SessionSound(sha, w.sessions[i])
  }

  predicate HelperIntact(sha: Sha256, disk: Disk) {
    disk.helper.Some? && Parse(sha, disk.helper.value).Ok?
  }

  function StoredHelper(sha: Sha256, disk: Disk): Helper
    requires HelperIntact(sha, disk)
  {
    Parse(sha, disk.helper.value).value
  }

  lemma RecoveredMatches(sha: Sha256, blob: bytes, factors: Raw)
    requires Parse(sha, blob).Ok? && Recover(sha, blob, factors).Ok? && Recover(sha, blob, factors).value.Recovered?
    ensures var r := Recover(sha, blob, factors).value;
      CheckWord(sha, r.key) == Parse(sha, blob).value.checkWord && r.hwid == HwidOf(sha, r.key)
  {
    hide Parse, FindOf, Culprit, Classified, CheckWord, HwidOf, KeyOf, Points, MissingMandatory, PresentCount;
    var h := Parse(sha, blob).value;
    ParsedNames(sha, blob);
    FoundKey(sha, Points(sha, factors, h.salt, h.slots, true), Points(sha, factors, h.salt, h.slots, false),
             h.threshold, h.checkWord);
  }

  /** Preparing over an existing helper is read-only, and the session it yields is sound. */
  lemma RecoveredIsSound(sha: Sha256, blob: bytes, raw: Raw)
    requires RecoverSession(sha, blob, raw).Ok?
    ensures var s := RecoverSession(sha, blob, raw).value;
      SessionSound(sha, s) && s.expected == blob && s.key.Some?
  {
    hide Parse, Recover, Project, MandatoryNames, MapMandatory, IsProjected, CheckWord, HwidOf;
    var h := Parse(sha, blob).value;
    RecoveredMatches(sha, blob, Project(sha, raw, h.normVersion));
  }

  /** What enrolment writes is a genuine sharing of the drawn key under the requested hard locks. */
  lemma EnrolmentIsShared(sha: Sha256, factors: Projected, mandatory: set<string>, data: bytes, pos: nat)
    returns (curves: seq<seq<Elem>>)
    requires EnrolmentOf(sha, factors, mandatory, data, pos).Ok? && "slstore" in mandatory
    ensures var e := EnrolmentOf(sha, factors, mandatory, data, pos).value;
      && Shared(sha, e.helper, e.key, curves, factors, mandatory)
      && Threshold(|factors|, |mandatory|) == Ok(e.helper.threshold as nat)
      && e.helper.checkWord == CheckWord(sha, e.key)
      && Encodable(e.helper) && Parse(sha, Encode(sha, e.helper)) == Ok(e.helper)
  {
    hide Threshold, LocksPresent, IsProjected, SharedHelper, Shared, Draws, Enough, Allowed, Sorted, SlotList, Encode,
      Parse, Encodable;
    EnrolmentFits(factors, mandatory);
    var e := EnrolmentOf(sha, factors, mandatory, data, pos).value;
    var t := Threshold(|factors|, |mandatory|).value;
    curves := SharedHelperIsShared(sha, e.key, factors, mandatory, t, data, pos + 32);
    SharedParses(sha, e.helper, e.key, curves, factors, mandatory);
    SharedThreshold(sha, e.key, factors, mandatory, t, data, pos + 32);
  }

  lemma SharedThreshold(sha: Sha256, k: Key, factors: Projected, mandatory: set<string>, t: byte, data: bytes, pos: nat)
    requires t >= 1 && SharedHelper(sha, k, factors, mandatory, t, data, pos).Ok?
    ensures var h := SharedHelper(sha, k, factors, mandatory, t, data, pos).value;
      h.threshold == t && h.checkWord == CheckWord(sha, k)
  {
    hide IsProjected, SharesOf, CheckWord, SlotsFor, Sorted, SlotList;
  }

  lemma RequestedLocks(extra: seq<string>)
    requires Requested(extra).Ok?
    ensures "slstore" in Requested(extra).value && "slstore" in MapMandatory(Requested(extra).value)
  {
    hide IsRequestable, CurrentMandatoryName;
    MapMandatoryIdempotent(Requested(extra).value);
  }

  function Locks(h: Helper): set<string> {
    MandatoryNames(h.slots)
  }

  /** Enrolment leaves the helper alone or writes an intact one with the requested hard locks. */
  lemma EnrolOutcome(sha: Sha256, disk: Disk, raw: Raw, requested: set<string>, data: bytes, pos: nat, weather: Weather)
    requires "slstore" in MapMandatory(requested)
    ensures var p := EnrolOf(sha, disk, raw, requested, data, pos, weather);
      && (p.disk.helper != disk.helper ==>
            HelperIntact(sha, p.disk) && Locks(StoredHelper(sha, p.disk)) == MapMandatory(requested))
      && (p.session.Ok? ==> SessionSound(sha, p.session.value) && p.session.value.key.Some?
                            && p.disk.helper == Some(p.session.value.expected) && HelperIntact(sha, p.disk))
  {
    hide EnrolmentOf, EnsureSecret, ProjectCurrent, MapMandatory, IsProjected, Encode, Encodable, Parse, CheckWord,
      HwidOf, WellFormed, Genuine, Separated, Names, MandatoryNames, Get;
    var given := Get(raw, "slstore");
    var secret := if given != [] then Secret(disk, Ok(given), pos) else EnsureSecret(disk, data, pos, weather);
    SecretKeepsHelper(disk, data, pos, weather);
    if secret.value.Ok? {
      var factors, mandatory := ProjectCurrent(sha, raw["slstore" := secret.value.value]), MapMandatory(requested);
      if EnrolmentOf(sha, factors, mandatory, data, secret.pos).Ok? {
        var curves := EnrolmentIsShared(sha, factors, mandatory, data, secret.pos);
        MapMandatoryIdempotent(requested);
      }
    }
  }

  lemma SecretKeepsHelper(disk: Disk, data: bytes, pos: nat, weather: Weather)
    ensures EnsureSecret(disk, data, pos, weather).disk.helper == disk.helper
  {
  }

  lemma PrepareOutcome(sha: Sha256, disk: Disk, a: Action)
    requires a.Prepare?
    ensures var p := PrepareStep(sha, disk, a);
      && (p.disk.helper != disk.helper ==> (disk.helper.None? || a.force) && HelperIntact(sha, p.disk))
      && (p.session.Ok? ==> SessionSound(sha, p.session.value) && p.session.value.key.Some?
                            && p.disk.helper == Some(p.session.value.expected) && HelperIntact(sha, p.disk))
  {
    hide EnrolOf, RecoverSession, Parse, IsProjected, SessionSound, StoredHelper, MapMandatory, WithSecret;
    if Requested(a.extra).Ok? && !a.weather.busy {
      if disk.helper.None? || a.force {
        RequestedLocks(a.extra);
        EnrolOutcome(sha, disk, a.raw, Requested(a.extra).value, a.data, 0, a.weather);
      } else if WithSecret(disk, a.raw).Ok?
        && RecoverSession(sha, disk.helper.value, WithSecret(disk, a.raw).value).Ok? {
        RecoveredIsSound(sha, disk.helper.value, WithSecret(disk, a.raw).value);
        RecoveredParses(sha, disk.helper.value, WithSecret(disk, a.raw).value);
      }
    }
  }

  lemma RecoveredParses(sha: Sha256, blob: bytes, raw: Raw)
    requires RecoverSession(sha, blob, raw).Ok?
    ensures Parse(sha, blob).Ok?
  {
    hide Parse, Recover, Project, MandatoryNames, MapMandatory, IsProjected;
  }

  /** The commit of a session that will put a new blob in place of the one it recovered. */
  predicate CommitWrites(sha: Sha256, disk: Disk, s: SessionState, data: bytes, weather: Weather) {
    && !s.committed && s.key.Some? && !weather.busy && disk.helper == Some(s.expected)
    && RefreshOf(sha, s.key.value, s.factors, s.mandatory, data, 0).Ok?
    && RefreshOf(sha, s.key.value, s.factors, s.mandatory, data, 0).value.Some?
    && weather.helper != BeforeReplace
  }

  /**
   A commit either leaves the store alone or replaces exactly the blob its session recovered by a
   genuine sharing of the same key, in the current schema, under the same hard locks.
   */
  lemma CommitOutcome(sha: Sha256, disk: Disk, s: SessionState, data: bytes, weather: Weather)
    returns (curves: seq<seq<Elem>>)
    requires SessionSound(sha, s)
    ensures var c := CommitOf(sha, disk, s, data, 0, weather);
      && c.session.key.None? && c.disk.slstore == disk.slstore
      && (!CommitWrites(sha, disk, s, data, weather) ==> c.disk == disk)
    ensures CommitWrites(sha, disk, s, data, weather) ==>
      var c := CommitOf(sha, disk, s, data, 0, weather);
      && HelperIntact(sha, disk) && HelperIntact(sha, c.disk)
      && var h, h' := StoredHelper(sha, disk), StoredHelper(sha, c.disk);
      && h'.checkWord == h.checkWord == CheckWord(sha, s.key.value)
      && Locks(h') == MapMandatory(Locks(h))
      && Shared(sha, h', s.key.value, curves, s.factors, s.mandatory)
      && Threshold(|s.factors|, |s.mandatory|) == Ok(h'.threshold as nat)
  {
    hide Parse, IsProjected, MapMandatory, MandatoryNames, RefreshOf, CheckWord, Threshold, WellFormed, Separated,
      Names, EnrolledSlot, IsCurves, SlotNames;
    curves := [];
    if CommitWrites(sha, disk, s, data, weather) {
      ParsedLocks(sha, s.expected);
      var h';
      h', curves := RefreshWrites(sha, s.key.value, s.factors, s.mandatory, data, 0);
    }
  }

  /**
   Refresh re-centres without changing identity, also from a legacy helper: once a commit has written,
   the same machine recovers the same key and identifier from the new blob, in the current schema,
   under the same hard locks, with no slot drifted and nothing pending.
   */
  lemma CommitRecentres(sha: Sha256, disk: Disk, s: SessionState, data: bytes, weather: Weather, raw: Raw)
    requires SessionSound(sha, s) && CommitWrites(sha, disk, s, data, weather) && s.factors == ProjectCurrent(sha, raw)
    ensures var blob := CommitOf(sha, disk, s, data, 0, weather).disk.helper;
      && blob.Some?
      && var r := RecoverSession(sha, blob.value, raw);
      && r.Ok? && r.value.key == s.key && r.value.hwid == s.hwid
      && r.value.drifted == [] && !r.value.pending && r.value.mandatory == s.mandatory && r.value.factors == s.factors
  {
    hide Parse, IsProjected, MapMandatory, MandatoryNames, RefreshOf, CheckWord, Threshold, WellFormed, Separated,
      Names, EnrolledSlot, IsCurves, SlotNames, Project, Recover, Encode, Encodable, HwidOf, Genuine;
    var curves := CommitOutcome(sha, disk, s, data, weather);
    var blob := CommitOf(sha, disk, s, data, 0, weather).disk.helper.value;
    var h := Parse(sha, blob).value;
    EncodeOfParse(sha, blob);
    WrittenRecovers(sha, h, s.key.value, curves, s.factors, s.mandatory);
    MapMandatoryIdempotent(MandatoryNames(Parse(sha, s.expected).value.slots));
  }

  /** Every parsed helper hard-locks the persisted secret. */
  lemma ParsedLocks(sha: Sha256, blob: bytes)
    requires Parse(sha, blob).Ok?
    ensures var names := Locks(Parse(sha, blob).value);
      "slstore" in names && "slstore" in MapMandatory(names)
  {
    EncodeOfParse(sha, blob);
    hide Parse, Encode, Encodable, SlotsInOrder, Allowed, MandatoryNames, MapMandatory, MandatoryCount;
    var h := Parse(sha, blob).value;
    MandatoryNamesAre(h.slots);
    MapMandatoryIdempotent(MandatoryNames(h.slots));
  }

  // ---------------------------------------------------------------- stability over runs

  /** Every step of every run keeps all sessions sound, forced re-enrolments and foreign edits included. */
  lemma StepKeepsSessions(sha: Sha256, w: World, a: Action)
    requires SessionsSound(sha, w)
    ensures SessionsSound(sha, Execute(sha, w, a))
  {
    hide SessionSound, PrepareStep, CommitOf, HelperIntact, IsProjected, StoredHelper, Parse;
    match a
    case Prepare(_, _, _, _, _) => PrepareOutcome(sha, w.disk, a);
    case Commit(who, data, weather) =>
      if who < |w.sessions| {
        CommittedIsSound(sha, w.disk, w.sessions[who], data, weather);
      }
    case EditSecret(_) =>
    case EditHelper(_) =>
  }

  lemma CommitSpends(sha: Sha256, disk: Disk, s: SessionState, data: bytes, weather: Weather)
    ensures CommitOf(sha, disk, s, data, 0, weather).session.key.None?
  {
    hide RefreshOf, IsProjected;
  }

  lemma CommittedIsSound(sha: Sha256, disk: Disk, s: SessionState, data: bytes, weather: Weather)
    requires SessionSound(sha, s)
    ensures SessionSound(sha, CommitOf(sha, disk, s, data, 0, weather).session)
  {
    hide RefreshOf, IsProjected, Parse, CheckWord, MapMandatory, MandatoryNames, HwidOf;
  }

  lemma {:induction false} RunKeepsSessions(sha: Sha256, w: World, actions: seq<Action>)
    requires SessionsSound(sha, w)
    ensures SessionsSound(sha, Run(sha, w, actions))
    decreases |actions|
  {
    hide SessionsSound, Execute;
    if actions != [] {
      StepKeepsSessions(sha, w, actions[0]);
      RunKeepsSessions(sha, Execute(sha, w, actions[0]), actions[1..]);
    }
  }

  /** The stored identity is unchanged, and the hard locks are the same up to their current names. */
  predicate SameIdentity(sha: Sha256, before: Disk, after: Disk)
    requires HelperIntact(sha, before)
  {
    && HelperIntact(sha, after)
    && StoredHelper(sha, after).checkWord == StoredHelper(sha, before).checkWord
    && (Locks(StoredHelper(sha, after)) == Locks(StoredHelper(sha, before))
        || Locks(StoredHelper(sha, after)) == MapMandatory(Locks(StoredHelper(sha, before))))
  }

  lemma SameIdentityJoins(sha: Sha256, a: Disk, b: Disk, c: Disk)
    requires HelperIntact(sha, a) && SameIdentity(sha, a, b) && SameIdentity(sha, b, c)
    ensures SameIdentity(sha, a, c)
  {
    hide HelperIntact, StoredHelper, Locks, MapMandatory;
    MapMandatoryIdempotent(Locks(StoredHelper(sha, a)));
  }

  lemma StepKeepsIdentity(sha: Sha256, w: World, a: Action)
    requires SessionsSound(sha, w) && HelperIntact(sha, w.disk) && Ordinary(a)
    ensures SameIdentity(sha, w.disk, Execute(sha, w, a).disk)
  {
    hide SessionSound, PrepareStep, CommitOf, IsProjected, Parse, Locks, CommitWrites, CheckWord, MapMandatory,
      Shared, Threshold;
    match a
    case Prepare(_, _, _, _, _) => PrepareOutcome(sha, w.disk, a);
    case Commit(who, data, weather) =>
      if who < |w.sessions| {
        var curves := CommitOutcome(sha, w.disk, w.sessions[who], data, weather);
      }
    case EditSecret(_) =>
  }

  /**
   The identifier never changes without an explicit re-enrolment: in every interleaving of
   prepares, commits, faults, crashes and tampering with the persisted secret, by any number of
   sessions, the stored check word stays what it was, and the hard locks are the original ones or
   their current names, so none is ever dropped and no application's request weakens them.
   */
  lemma {:induction false} IdentityIsStable(sha: Sha256, w: World, actions: seq<Action>)
    requires SessionsSound(sha, w) && HelperIntact(sha, w.disk) && AllOrdinary(actions)
    ensures SameIdentity(sha, w.disk, Run(sha, w, actions).disk)
    decreases |actions|
  {
    hide SessionsSound, Execute, HelperIntact, StoredHelper, Locks, Ordinary, SameIdentity;
    if actions == [] {
      SameIdentityItself(sha, w.disk);
    } else {
      var next := Execute(sha, w, actions[0]);
      StepKeepsIdentity(sha, w, actions[0]);
      StepKeepsSessions(sha, w, actions[0]);
      SameIdentityIntact(sha, w.disk, next.disk);
      IdentityIsStable(sha, next, actions[1..]);
      SameIdentityJoins(sha, w.disk, next.disk, Run(sha, next, actions[1..]).disk);
    }
  }

  lemma SameIdentityItself(sha: Sha256, d: Disk)
    requires HelperIntact(sha, d)
    ensures SameIdentity(sha, d, d)
  {
  }

  lemma SameIdentityIntact(sha: Sha256, a: Disk, b: Disk)
    requires HelperIntact(sha, a) && SameIdentity(sha, a, b)
    ensures HelperIntact(sha, b)
  {
  }

  /** Without foreign edits a store never holds a helper that does not parse. */
  predicate Healthy(sha: Sha256, disk: Disk) {
    disk.helper.Some? ==> HelperIntact(sha, disk)
  }

  lemma StepKeepsHealth(sha: Sha256, w: World, a: Action)
    requires SessionsSound(sha, w) && Healthy(sha, w.disk) && !a.EditHelper?
    ensures Healthy(sha, Execute(sha, w, a).disk)
  {
    hide SessionSound, PrepareStep, CommitOf, IsProjected, Parse, Locks, CommitWrites, CheckWord, MapMandatory,
      Shared, Threshold;
    match a
    case Prepare(_, _, _, _, _) => PrepareOutcome(sha, w.disk, a);
    case Commit(who, data, weather) =>
      if who < |w.sessions| {
        var curves := CommitOutcome(sha, w.disk, w.sessions[who], data, weather);
      }
    case EditSecret(_) =>
  }

  /** From an empty store on, whatever faults and crashes interrupt the writes, the helper stays readable. */
  lemma {:induction false} HelperStaysReadable(sha: Sha256, w: World, actions: seq<Action>)
    requires SessionsSound(sha, w) && Healthy(sha, w.disk)
    requires forall i :: 0 <= i < |actions| ==> !actions[i].EditHelper?
    ensures Healthy(sha, Run(sha, w, actions).disk)
    decreases |actions|
  {
    hide SessionsSound, Execute, Healthy;
    if actions != [] {
      StepKeepsHealth(sha, w, actions[0]);
      StepKeepsSessions(sha, w, actions[0]);
      HelperStaysReadable(sha, Execute(sha, w, actions[0]), actions[1..]);
    }
  }

  /**
   Every application that prepares anywhere in a run gets the identifier of the key that was
   enrolled, as far as the check word identifies it, and its prepare writes nothing.
   */
  lemma EveryPrepareAgrees(sha: Sha256, w: World, actions: seq<Action>, a: Action, k: Key)
    requires SessionsSound(sha, w) && HelperIntact(sha, w.disk) && AllOrdinary(actions)
    requires StoredHelper(sha, w.disk).checkWord == CheckWord(sha, k) && CheckWordIdentifies(sha, k)
    requires a.Prepare? && Ordinary(a)
    ensures var disk := Run(sha, w, actions).disk; var p := PrepareStep(sha, disk, a);
      && p.disk == disk
      && (p.session.Ok? ==> p.session.value.key == Some(k) && p.session.value.hwid == HwidOf(sha, k))
  {
    IdentityIsStable(sha, w, actions);
    var disk := Run(sha, w, actions).disk;
    PrepareOutcome(sha, disk, a);
    hide Run, PrepareOf, Parse, MapMandatory, Locks, CheckWord, HwidOf;
    PrepareReadsOnly(sha, disk, a);
  }

  lemma PrepareReadsOnly(sha: Sha256, disk: Disk, a: Action)
    requires a.Prepare? && !a.force && disk.helper.Some?
    ensures PrepareStep(sha, disk, a).disk == disk
  {
    hide EnrolOf, RecoverSession, WithSecret, IsProjected;
  }

  /** Over an existing helper the hard locks an application requests make no difference. */
  lemma RequestHasNoEffect(sha: Sha256, disk: Disk, a: Action, extra: seq<string>)
    requires a.Prepare? && !a.force && disk.helper.Some? && Requested(a.extra).Ok? && Requested(extra).Ok?
    ensures PrepareStep(sha, disk, a.(extra := extra)) == PrepareStep(sha, disk, a)
  {
    hide EnrolOf, RecoverSession, WithSecret, IsProjected, IsRequestable;
  }

  // ---------------------------------------------------------------- each session writes at most once

  predicate Spent(w: World, who: nat) {
    who < |w.sessions| && w.sessions[who].key.None?
  }

  lemma SpentStep(sha: Sha256, w: World, who: nat, a: Action)
    requires Spent(w, who)
    ensures Spent(Execute(sha, w, a), who)
  {
    hide PrepareStep, CommitOf, IsProjected;
    if a.Commit? && a.who == who { CommitSpends(sha, w.disk, w.sessions[who], a.data, a.weather); }
  }

  lemma {:induction false} SpentRun(sha: Sha256, w: World, who: nat, actions: seq<Action>)
    requires Spent(w, who)
    ensures Spent(Run(sha, w, actions), who)
    decreases |actions|
  {
    hide Spent, Execute;
    if actions != [] {
      SpentStep(sha, w, who, actions[0]);
      SpentRun(sha, Execute(sha, w, actions[0]), who, actions[1..]);
    }
  }

  /** After its first commit, successful or not, no later commit of a session touches the store. */
  lemma WritesAtMostOnce(sha: Sha256, w: World, first: Action, between: seq<Action>, again: Action)
    requires first.Commit? && again.Commit? && first.who == again.who < |w.sessions|
    ensures var w' := Run(sha, Execute(sha, w, first), between);
      Execute(sha, w', again).disk == w'.disk
  {
    hide Run, RefreshOf, IsProjected;
    CommitSpends(sha, w.disk, w.sessions[first.who], first.data, first.weather);
    SpentRun(sha, Execute(sha, w, first), first.who, between);
  }

  /** Of two sessions over the same blob, once one has replaced it by another the other cannot. */
  lemma StaleSessionIsHarmless(sha: Sha256, w: World, a: Action)
    requires a.Commit? && a.who < |w.sessions| && w.disk.helper != Some(w.sessions[a.who].expected)
    ensures Execute(sha, w, a).disk == w.disk
  {
    hide RefreshOf, IsProjected;
  }

  // ---------------------------------------------------------------- the key survives drift

  /** The stored helper is a genuine sharing of the key over the factors called centre. */
  ghost predicate Holds(sha: Sha256, disk: Disk, k: Key, centre: Raw) {
    HelperIntact(sha, disk) && exists curves :: Genuine(sha, StoredHelper(sha, disk), k, curves, centre)
  }

  /** The factors the helper was last written over. */
  function CentreAfter(sha: Sha256, w: World, a: Action, centre: Raw): Raw {
    if a.Commit? && a.who < |w.sessions| && CommitWrites(sha, w.disk, w.sessions[a.who], a.data, a.weather)
    then w.sessions[a.who].factors
    else centre
  }

  function CentreOf(sha: Sha256, w: World, actions: seq<Action>, centre: Raw): Raw
    decreases |actions|
  {
    if actions == [] then centre
    else CentreOf(sha, Execute(sha, w, actions[0]), actions[1..], CentreAfter(sha, w, actions[0], centre))
  }

  lemma SharedIsGenuine(sha: Sha256, h: Helper, k: Key, curves: seq<seq<Elem>>, factors: Raw, mandatory: set<string>)
    requires Shared(sha, h, k, curves, factors, mandatory)
    ensures Genuine(sha, h, k, curves, factors)
  {
  }

  lemma HoldsWord(sha: Sha256, disk: Disk, k: Key, centre: Raw)
    requires Holds(sha, disk, k, centre)
    ensures StoredHelper(sha, disk).checkWord == CheckWord(sha, k)
  {
    hide Parse, CheckWord, IsCurves, EnrolledSlot, SlotNames;
  }

  lemma CommitKeepsKey(sha: Sha256, w: World, who: nat, data: bytes, weather: Weather, k: Key, centre: Raw)
    requires SessionsSound(sha, w) && Holds(sha, w.disk, k, centre) && CheckWordIdentifies(sha, k) && who < |w.sessions|
    ensures Holds(sha, CommitOf(sha, w.disk, w.sessions[who], data, 0, weather).disk, k,
                  CentreAfter(sha, w, Commit(who, data, weather), centre))
  {
    hide SessionSound, CommitOf, IsProjected, Parse, Locks, CheckWord, MapMandatory, Shared, Threshold, RefreshOf,
      Genuine, CommitWrites, HelperIntact, StoredHelper;
    var s := w.sessions[who];
    var curves := CommitOutcome(sha, w.disk, s, data, weather);
    if CommitWrites(sha, w.disk, s, data, weather) {
      HoldsWord(sha, w.disk, k, centre);
      WriterHasKey(sha, w.disk, s, data, weather);
      var c := CommitOf(sha, w.disk, s, data, 0, weather);
      assert s.key.value == k;
      SharedIsGenuine(sha, StoredHelper(sha, c.disk), k, curves, s.factors, s.mandatory);
    }
  }

  lemma WriterHasKey(sha: Sha256, disk: Disk, s: SessionState, data: bytes, weather: Weather)
    requires CommitWrites(sha, disk, s, data, weather)
    ensures s.key.Some?
  {
  }

  lemma StepKeepsKey(sha: Sha256, w: World, a: Action, k: Key, centre: Raw)
    requires SessionsSound(sha, w) && Holds(sha, w.disk, k, centre) && CheckWordIdentifies(sha, k) && Ordinary(a)
    ensures Holds(sha, Execute(sha, w, a).disk, k, CentreAfter(sha, w, a, centre))
  {
    hide SessionSound, PrepareStep, CommitOf, IsProjected, Parse, Locks, CommitWrites, CheckWord, MapMandatory,
      Genuine;
    match a
    case Prepare(_, _, _, _, _) => PrepareReadsOnly(sha, w.disk, a);
    case Commit(who, data, weather) =>
      if who < |w.sessions| { CommitKeepsKey(sha, w, who, data, weather, k, centre); }
    case EditSecret(slstore) => HoldsOfHelper(sha, w.disk, w.disk.(slstore := slstore), k, centre);
  }

  lemma HoldsOfHelper(sha: Sha256, a: Disk, b: Disk, k: Key, centre: Raw)
    requires Holds(sha, a, k, centre) && a.helper == b.helper
    ensures Holds(sha, b, k, centre)
  {
    hide Parse, Genuine;
    var curves :| Genuine(sha, StoredHelper(sha, a), k, curves, centre);
    assert StoredHelper(sha, a) == StoredHelper(sha, b);
  }

  /** In every ordinary run the stored helper stays a sharing of the same key, over the factors last committed. */
  lemma {:induction false} RunKeepsKey(sha: Sha256, w: World, actions: seq<Action>, k: Key, centre: Raw)
    requires SessionsSound(sha, w) && Holds(sha, w.disk, k, centre) && CheckWordIdentifies(sha, k)
    requires AllOrdinary(actions)
    ensures Holds(sha, Run(sha, w, actions).disk, k, CentreOf(sha, w, actions, centre))
    decreases |actions|
  {
    hide SessionsSound, Execute, Holds, Ordinary, CheckWordIdentifies, CentreAfter;
    if actions != [] {
      StepKeepsKey(sha, w, actions[0], k, centre);
      StepKeepsSessions(sha, w, actions[0]);
      RunKeepsKey(sha, Execute(sha, w, actions[0]), actions[1..], k, CentreAfter(sha, w, actions[0], centre));
    }
  }

  /** Enough of the enrolled values are still there for the helper: all hard locks, and enough of the rest. */
  predicate WithinBudget(sha: Sha256, h: Helper, centre: Raw, factors: Raw)
    requires SlotNames(h.slots)
  {
    && LocksIntact(factors, centre, h.slots)
    && MandatoryCount(h.slots) + UnchangedCount(factors, centre, h.slots) >= h.threshold
    && Separated(sha, h, factors)
  }

  /** Recovering a genuine helper within the budget yields a session with the enrolled key. */
  lemma RecoversWithinBudget(sha: Sha256, blob: bytes, k: Key, curves: seq<seq<Elem>>, centre: Raw, raw: Raw)
    requires Parse(sha, blob).Ok? && Genuine(sha, Parse(sha, blob).value, k, curves, centre)
    requires CheckWordIdentifies(sha, k)
    requires var h := Parse(sha, blob).value; WithinBudget(sha, h, centre, Project(sha, raw, h.normVersion))
    ensures var s := RecoverSession(sha, blob, raw); s.Ok? && s.value.key == Some(k) && s.value.hwid == HwidOf(sha, k)
  {
    hide Parse, Encode, Encodable, Project, MandatoryNames, MapMandatory, IsProjected, CheckWord, HwidOf, LocksIntact,
      UnchangedCount, Separated, CheckWordIdentifies, IsCurves, EnrolledSlot, RecoverHelper, SlotsInOrder, Allowed,
      HasHardStore;
    EncodeOfParse(sha, blob);
    ParsedNames(sha, blob);
    var h := Parse(sha, blob).value;
    FaultTolerance(sha, h, k, curves, centre, Project(sha, raw, h.normVersion));
  }

  /** A prepare over the store would find the hard locks of the helper intact and its drift budget met. */
  predicate MeetsBudget(sha: Sha256, disk: Disk, centre: Raw, raw: Raw) {
    && HelperIntact(sha, disk) && WithSecret(disk, raw).Ok?
    && var h := StoredHelper(sha, disk);
    ParsedNames(sha, disk.helper.value);
    WithinBudget(sha, h, centre, Project(sha, WithSecret(disk, raw).value, h.normVersion))
  }

  lemma BudgetRecovers(sha: Sha256, disk: Disk, a: Action, k: Key, centre: Raw)
    requires Holds(sha, disk, k, centre) && CheckWordIdentifies(sha, k)
    requires a.Prepare? && !a.force && !a.weather.busy && Requested(a.extra).Ok?
    requires MeetsBudget(sha, disk, centre, a.raw)
    ensures var s := PrepareStep(sha, disk, a).session;
      s.Ok? && s.value.key == Some(k) && s.value.hwid == HwidOf(sha, k)
  {
    hide Parse, Project, CheckWordIdentifies, WithinBudget, RecoverSession, HwidOf, EnrolOf, WithSecret;
    ParsedNames(sha, disk.helper.value);
    var curves :| Genuine(sha, StoredHelper(sha, disk), k, curves, centre);
    hide Genuine, SlotNames;
    RecoversWithinBudget(sha, disk.helper.value, k, curves, centre, WithSecret(disk, a.raw).value);
  }

  /**
   The identifier survives drift over whole runs: after any ordinary run, a prepare that meets the
   hard locks and the drift budget of the last commit yields exactly the enrolled key and identifier.
   */
  lemma IdentifierSurvivesDrift(sha: Sha256, w: World, actions: seq<Action>, a: Action, k: Key, centre: Raw)
    requires SessionsSound(sha, w) && Holds(sha, w.disk, k, centre) && CheckWordIdentifies(sha, k)
    requires AllOrdinary(actions)
    requires a.Prepare? && !a.force && !a.weather.busy && Requested(a.extra).Ok?
    requires MeetsBudget(sha, Run(sha, w, actions).disk, CentreOf(sha, w, actions, centre), a.raw)
    ensures var s := PrepareStep(sha, Run(sha, w, actions).disk, a).session;
      s.Ok? && s.value.key == Some(k) && s.value.hwid == HwidOf(sha, k)
  {
    hide SessionsSound, Run, CheckWordIdentifies, MeetsBudget, CentreOf, PrepareStep, HwidOf, AllOrdinary, Requested,
      Holds;
    RunKeepsKey(sha, w, actions, k, centre);
    BudgetRecovers(sha, Run(sha, w, actions).disk, a, k, CentreOf(sha, w, actions, centre));
  }

  // ---------------------------------------------------------------- what a session reports

  /**
   A session reports drift exactly: if at most one present slot has moved off the curves, the
   drifted slots it lists are that one and the absent ones.
   */
  lemma SessionReportsDrift(sha: Sha256, blob: bytes, k: Key, curves: seq<seq<Elem>>, centre: Raw, raw: Raw,
                            bad: string)
    requires Parse(sha, blob).Ok? && Genuine(sha, Parse(sha, blob).value, k, curves, centre)
    requires CheckWordIdentifies(sha, k)
    requires var h := Parse(sha, blob).value;
      WithinBudget(sha, h, centre, Project(sha, raw, h.normVersion))
      && AtMostOneMoved(sha, h, curves, centre, Project(sha, raw, h.normVersion), bad)
    ensures RecoverSession(sha, blob, raw).Ok?
    ensures var h := Parse(sha, blob).value; var factors := Project(sha, raw, h.normVersion);
      forall i :: 0 <= i < |h.slots| ==>
        (h.slots[i].name in RecoverSession(sha, blob, raw).value.drifted
         <==> !IsPresent(factors, h.slots[i]) || h.slots[i].name == bad)
  {
    hide Parse, Encode, Encodable, Project, MandatoryNames, MapMandatory, IsProjected, CheckWord, HwidOf, LocksIntact,
      UnchangedCount, Separated, CheckWordIdentifies, IsCurves, EnrolledSlot, RecoverHelper, SlotsInOrder, Allowed,
      HasHardStore, AtMostOneMoved, IsPresent;
    EncodeOfParse(sha, blob);
    ParsedNames(sha, blob);
    var h := Parse(sha, blob).value;
    var factors := Project(sha, raw, h.normVersion);
    SingleDriftIsReported(sha, h, k, curves, centre, factors, bad);
    LiveAndDead(sha, h, factors);
  }
}
