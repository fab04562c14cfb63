/** Preparing and committing a session over the shared store (slhwid/__init__.py). */
module Lifecycle {
  import opened Wrappers
  import opened Bytes
  import opened Field
  import opened Sharing
  import opened Normalization
  import opened Factors
  import opened HelperBlob
  import opened Recovery
  import opened Refresh
  import opened Store

  // ---------------------------------------------------------------- what a session holds

  type Projected = f: Raw | IsProjected(f) witness map[]

  datatype SessionState = SessionState(
    hwid: bytes, isNew: bool, drifted: seq<string>, pending: bool, committed: bool,
    key: Option<Key>, factors: Projected, mandatory: set<string>, expected: bytes)

  /** A store and the session that a call on it yields. */
  datatype Prepared = Prepared(disk: Disk, session: Result<SessionState>)

  datatype Committed = Committed(disk: Disk, session: SessionState)

  // ---------------------------------------------------------------- prepare

  predicate IsNameStart(c: char) {
    'a' <= c <= 'z'
  }

  predicate IsNameChar(c: char) {
    IsNameStart(c) || '0' <= c <= '9' || c == '_'
  }

  /** ^[a-z][a-z0-9_]{0,31}$ as Python's match reads it: one trailing newline is let through. */
  predicate IsRequestable(name: string) {
    var core := if name != "" && name[|name| - 1] == '\n' then name[..|name| - 1] else name;
    1 <= |core| <= 32 && IsNameStart(core[0]) && forall c :: c in core ==> IsNameChar(c)
  }

  /** The hard locks an application asks for. */
  function Requested(extra: seq<string>): Result<set<string>> {
    if forall i :: 0 <= i < |extra| ==> IsRequestable(extra[i])
    then Ok({"slstore"} + set a | a in extra)
    else Err(SsError)
  }

  /** Recovery adds the persisted secret to the collected factors, read-only. */
  function WithSecret(disk: Disk, raw: Raw): Result<Raw> {
    if Get(raw, "slstore") != [] then Ok(raw)
    else
      var secret :- SlstoreOf(disk);
      Ok(if secret.None? then raw else raw["slstore" := Hex(secret.value)])
  }

  function ProjectCurrent(sha: Sha256, raw: Raw): Projected {
    Project(sha, raw, CURRENT_NORM_VERSION)
  }

  /** The session that an existing helper recovers to. */
  function RecoverSession(sha: Sha256, blob: bytes, raw: Raw): Result<SessionState> {
    var h :- Parse(sha, blob);
    var result :- Recover(sha, blob, Project(sha, raw, h.normVersion));
    match result
    case Refused(reason, present, needed, missing) =>
      Err(if reason == Corrupt then CorruptHelperError else DriftError(present, needed, missing, reason == Locked))
    case Recovered(k, hwid, live, dead) =>
      Ok(SessionState(hwid, false, dead, dead != [], false, Some(k), ProjectCurrent(sha, raw),
                      MapMandatory(MandatoryNames(h.slots)), blob))
  }

  /** The persisted secret as a factor value, the store afterwards, and the place in the byte source. */
  datatype Secret = Secret(disk: Disk, value: Result<bytes>, pos: nat)

  /** _ensure_slstore */
  function EnsureSecret(disk: Disk, data: bytes, pos: nat, weather: Weather): Secret {
    match SlstoreOf(disk)
    case Err(e) => Secret(disk, Err(e), pos)
    case Ok(Some(value)) => Secret(disk, Ok(Hex(value)), pos)
    case Ok(None) =>
      if pos + 32 > |data| then Secret(disk, Err(SsError), pos + 32)
      else
        var value := data[pos..pos + 32];
        Secret(disk.(slstore := Replaced(disk.slstore, Wrap(value), weather.slstore)),
               if weather.slstore == Clean then Ok(Hex(value)) else Err(OSError), pos + 32)
  }

  /** A fresh key and its helper over the factors. */
  datatype Enrolment = Enrolment(key: Key, helper: Helper)

  function EnrolmentOf(sha: Sha256, factors: Projected, mandatory: set<string>, data: bytes,
                       pos: nat): Result<Enrolment> {
    if !LocksPresent(factors, mandatory) then Err(SsError)
    else
      var t :- Threshold(|factors|, |mandatory|);
      if !Enough(data, pos, 4) then Err(SsError)
      else
        EnrolmentFits(factors, mandatory);
        var k := Draws(data, pos, 4);
        var h :- SharedHelper(sha, k, factors, mandatory, t, data, pos + 32);
        Ok(Enrolment(k, h))
  }

  lemma EnrolmentFits(factors: Projected, mandatory: set<string>)
    requires LocksPresent(factors, mandatory) && Threshold(|factors|, |mandatory|).Ok?
    ensures 1 <= Threshold(|factors|, |mandatory|).value <= 14
  {
    LocksAreFactors(factors, mandatory);
    ThresholdFits(factors, mandatory);
  }

  lemma EnrolmentEncodable(sha: Sha256, factors: Projected, mandatory: set<string>, data: bytes, pos: nat)
    requires EnrolmentOf(sha, factors, mandatory, data, pos).Ok?
    ensures Encodable(EnrolmentOf(sha, factors, mandatory, data, pos).value.helper)
  {
    hide Threshold, LocksPresent, IsProjected, SharedHelper, Encodable, Draws, DrawnElem, Enough, Allowed, Sorted,
      SlotList, HelperOf;
    EnrolmentFits(factors, mandatory);
    var t := Threshold(|factors|, |mandatory|).value;
    SharedEncodable(sha, Draws(data, pos, 4), factors, mandatory, t, data, pos + 32);
  }

  /** Enrolment: a new key is drawn, shared over the current factors and written. */
  function EnrolOf(sha: Sha256, disk: Disk, raw: Raw, requested: set<string>, data: bytes, pos: nat,
                   weather: Weather): Prepared {
    var given := Get(raw, "slstore");
    var secret := if given != [] then Secret(disk, Ok(given), pos) else EnsureSecret(disk, data, pos, weather);
    match secret.value
    case Err(e) => Prepared(secret.disk, Err(e))
    case Ok(value) =>
      var factors, mandatory := ProjectCurrent(sha, raw["slstore" := value]), MapMandatory(requested);
      match EnrolmentOf(sha, factors, mandatory, data, secret.pos)
      case Err(e) => Prepared(secret.disk, Err(e))
      case Ok(e) =>
        EnrolmentEncodable(sha, factors, mandatory, data, secret.pos);
        var blob := Encode(sha, e.helper);
        Prepared(secret.disk.(helper := Replaced(disk.helper, blob, weather.helper)),
                 if weather.helper == Clean
                 then Ok(SessionState(HwidOf(sha, e.key), true, [], false, false, Some(e.key), factors, mandatory,
                                      blob))
                 else Err(OSError))
  }

  /** One prepare call, from taking the lock to releasing it. */
  function PrepareOf(sha: Sha256, disk: Disk, raw: Raw, requested: set<string>, force: bool, data: bytes, pos: nat,
                     weather: Weather): Prepared
  {
    if weather.busy then Prepared(disk, Err(OSError))
    else if disk.helper.None? || force then EnrolOf(sha, disk, raw, requested, data, pos, weather)
    else
      match WithSecret(disk, raw)
      case Err(e) => Prepared(disk, Err(e))
      case Ok(full) => Prepared(disk, RecoverSession(sha, disk.helper.value, full))
  }

  // ---------------------------------------------------------------- commit

  /** One commit call: whatever goes wrong is swallowed, and the key is forgotten. */
  function CommitOf(sha: Sha256, disk: Disk, s: SessionState, data: bytes, pos: nat, weather: Weather): Committed {
    if s.committed || s.key.None? then Committed(disk, s.(key := None))
    else
      var done := s.(committed := true, key := None);
      if weather.busy || disk.helper != Some(s.expected) then Committed(disk, done)
      else
        match RefreshOf(sha, s.key.value, s.factors, s.mandatory, data, pos)
        case Ok(Some(blob)) =>
          Committed(disk.(helper := Replaced(disk.helper, blob, weather.helper)),
                    if weather.helper == Clean then done.(pending := false, drifted := []) else done)
        case _ => Committed(disk, done)
  }

  // ---------------------------------------------------------------- the objects

  class Session {
    const store: DirStore
    const draw: Draw
    const hwid: bytes
    const isNew: bool
    var drifted: seq<string>
    var pending: bool
    var committed: bool
    var key: Option<Key>
    var factors: Projected
    var mandatory: set<string>
    var expected: bytes

    constructor (store: DirStore, draw: Draw, hwid: bytes, isNew: bool, drifted: seq<string>, pending: bool)
      ensures this.store == store && this.draw == draw
      ensures State() == SessionState(hwid, isNew, drifted, pending, false, None, map[], {}, [])
    {
      this.store, this.draw, this.hwid, this.isNew := store, draw, hwid, isNew;
      this.drifted, this.pending, committed, key := drifted, pending, false, None;
      factors, mandatory, expected := map[], {}, [];
    }

    function State(): SessionState
      reads this
    {
      SessionState(hwid, isNew, drifted, pending, committed, key, factors, mandatory, expected)
    }

    /** Session.commit */
    method Commit(sha: Sha256)
      modifies this, draw, store`helper
      ensures Committed(store.Files(), State()) ==
        CommitOf(sha, old(store.Files()), old(State()), draw.data, old(draw.pos), store.weather)
    {
      hide RefreshOf, IsProjected;
      if committed || key.None? {
        key := None;
        return;
      }
      var k := key.value;
      committed, key := true, None;
      var taken := store.Lock();
      if !taken { return; }
      var current, found := store.ReadHelper();
      if !found || current != expected { return; }
      var blob := RefreshCore(sha, k, factors, mandatory, draw);
      if blob.Ok? && blob.value.Some? {
        var written := store.WriteHelper(blob.value.value);
        if written {
          pending, drifted := false, [];
        }
      }
    }
  }

  /** _ensure_slstore */
  method EnsureSlstore(store: DirStore, d: Draw) returns (r: Result<bytes>)
    modifies store`slstore, d
    ensures Secret(store.Files(), r, d.pos) == EnsureSecret(old(store.Files()), d.data, old(d.pos), store.weather)
  {
    var stored := store.ReadSlstore();
    if stored.Err? { return Err(stored.error); }
    if stored.value.Some? { return Ok(Hex(stored.value.value)); }
    var value := d.Source(32);
    if |value| != 32 { return Err(SsError); }
    var written := store.WriteSlstore(value);
    return if written then Ok(Hex(value)) else Err(OSError);
  }

  /** Draws the four limbs of a new key. */
  method DrawKey(d: Draw) returns (r: Result<Key>)
    modifies d
    ensures r == if Enough(d.data, old(d.pos), 4) then Ok(Draws(d.data, old(d.pos), 4)) else Err(SsError)
    ensures r.Ok? ==> d.pos == old(d.pos) + 32
  {
    var k: seq<Elem> := [];
    for i := 0 to 4
      invariant d.pos == old(d.pos) + 8 * i
      invariant Enough(d.data, old(d.pos), i) && k == Draws(d.data, old(d.pos), i)
    {
      var e := d.Elem();
      if e.Err? { return Err(e.error); }
      k := k + [e.value];
    }
    return Ok(k);
  }

  /** The enrolment branch of _prepare_locked, once the factors are known. */
  method Enrol(sha: Sha256, d: Draw, factors: Projected, mandatory: set<string>) returns (r: Result<Enrolment>,
               blob: bytes)
    modifies d
    ensures r == EnrolmentOf(sha, factors, mandatory, d.data, old(d.pos))
    ensures r.Ok? ==> Encodable(r.value.helper) && blob == Encode(sha, r.value.helper)
  {
    hide SharesOf, Threshold, SlotList, CheckWord, IsProjected, LocksPresent, HelperOf, Encode, Encodable;
    blob := [];
    ghost var pos := d.pos;
    if !LocksPresent(factors, mandatory) { return Err(SsError), blob; }
    var t := Threshold(|factors|, |mandatory|);
    if t.Err? { return Err(t.error), blob; }
    EnrolmentFits(factors, mandatory);
    var k := DrawKey(d);
    if k.Err? { return Err(k.error), blob; }
    SlotListNames(factors, mandatory);
    var shares := BuildShares(sha, k.value, SlotList(factors, mandatory), t.value, d);
    if shares.Err? { return Err(shares.error), blob; }
    var values, salt := shares.value.values, shares.value.salt;
    var h := HelperOf(values, mandatory, t.value, salt, CheckWord(sha, k.value), CURRENT_NORM_VERSION);
    assert EnrolmentOf(sha, factors, mandatory, d.data, pos) == Ok(Enrolment(k.value, h));
    EnrolmentEncodable(sha, factors, mandatory, d.data, pos);
    blob := SerializeHelper(sha, values, mandatory, t.value, salt, CheckWord(sha, k.value), CURRENT_NORM_VERSION);
    return Ok(Enrolment(k.value, h)), blob;
  }

  /** The session the source builds at the end of both branches. */
  method NewSession(store: DirStore, d: Draw, s: SessionState) returns (session: Session)
    requires s.key.Some? && !s.committed
    ensures fresh(session) && session.State() == s && session.store == store && session.draw == d
  {
    session := new Session(store, d, s.hwid, s.isNew, s.drifted, s.pending);
    session.key, session.factors, session.mandatory, session.expected := s.key, s.factors, s.mandatory, s.expected;
  }

  /** The recovery branch of _prepare_locked. */
  method RecoverExisting(sha: Sha256, blob: bytes, raw: Raw) returns (r: Result<SessionState>)
    ensures r == RecoverSession(sha, blob, raw)
  {
    hide Parse, Recover, Project, MandatoryNames, MapMandatory, IsProjected;
    var h := ParseHelper(sha, blob);
    if h.Err? { return Err(h.error); }
    var result := RecoverCore(sha, blob, Project(sha, raw, h.value.normVersion));
    if result.Err? { return Err(result.error); }
    match result.value {
      case Refused(reason, present, needed, missing) =>
        return Err(if reason == Corrupt then CorruptHelperError
                   else DriftError(present, needed, missing, reason == Locked));
      case Recovered(k, hwid, live, dead) =>
        return Ok(SessionState(hwid, false, dead, dead != [], false, Some(k), ProjectCurrent(sha, raw),
                               MapMandatory(MandatoryNames(h.value.slots)), blob));
    }
  }

  /** The enrolment branch of _prepare_locked. */
  method EnrolNew(sha: Sha256, store: DirStore, d: Draw, raw: Raw,
                  requested: set<string>) returns (r: Result<SessionState>)
    modifies store`helper, store`slstore, d
    ensures Prepared(store.Files(), r) ==
      EnrolOf(sha, old(store.Files()), raw, requested, d.data, old(d.pos), store.weather)
  {
    hide EnrolmentOf, EnsureSecret, ProjectCurrent, MapMandatory, IsProjected, Encode, Encodable, Get;
    var value := Get(raw, "slstore");
    if value == [] {
      var ensured := EnsureSlstore(store, d);
      if ensured.Err? { return Err(ensured.error); }
      value := ensured.value;
    }
    var factors, mandatory := ProjectCurrent(sha, raw["slstore" := value]), MapMandatory(requested);
    var e, blob := Enrol(sha, d, factors, mandatory);
    if e.Err? { return Err(e.error); }
    var written := store.WriteHelper(blob);
    if !written { return Err(OSError); }
    return Ok(SessionState(HwidOf(sha, e.value.key), true, [], false, false, Some(e.value.key), factors, mandatory,
                           blob));
  }

  /** _prepare_locked, with taking the lock: recover the existing helper, or enrol. */
  method PrepareLocked(sha: Sha256, store: DirStore, d: Draw, raw: Raw, requested: set<string>, force: bool)
    returns (r: Result<Session>)
    modifies store`helper, store`slstore, d
    ensures var p := PrepareOf(sha, old(store.Files()), raw, requested, force, d.data, old(d.pos), store.weather);
      && store.Files() == p.disk && (r.Ok? <==> p.session.Ok?)
      && (r.Err? ==> r.error == p.session.error)
      && (r.Ok? ==> fresh(r.value) && r.value.State() == p.session.value && r.value.store == store && r.value.draw == d)
  {
    hide EnrolOf, RecoverSession, IsProjected;
    var taken := store.Lock();
    if !taken { return Err(OSError); }
    var blob, found := store.ReadHelper();
    var full := raw;
    if found && !force && Get(full, "slstore") == [] {
      var secret := store.ReadSlstore();
      if secret.Err? { return Err(secret.error); }
      if secret.value.Some? { full := full["slstore" := Hex(secret.value.value)]; }
    }
    var s: Result<SessionState>;
    if !found || force {
      s := EnrolNew(sha, store, d, full, requested);
    } else {
      s := RecoverExisting(sha, blob, full);
    }
    if s.Err? { return Err(s.error); }
    PreparedHasKey(sha, old(store.Files()), raw, requested, force, d.data, old(d.pos), store.weather);
    var session := NewSession(store, d, s.value);
    return Ok(session);
  }

  /** The loop of _prepare_with over the requested hard locks. */
  method CheckRequested(extra: seq<string>) returns (r: Result<set<string>>)
    ensures r == Requested(extra)
  {
    hide IsRequestable;
    var mandatory := {"slstore"};
    for i := 0 to |extra|
      invariant forall j :: 0 <= j < i ==> IsRequestable(extra[j])
      invariant mandatory == {"slstore"} + set a | a in extra[..i]
    {
      if !IsRequestable(extra[i]) { return Err(SsError); }
      assert extra[..i + 1] == extra[..i] + [extra[i]];
      mandatory := mandatory + {extra[i]};
    }
    assert extra[..|extra|] == extra;
    return Ok(mandatory);
  }

  /** _prepare_with: the request is checked, what was collected is normalized, and the rest runs under the lock. */
  method PrepareWith(sha: Sha256, store: DirStore, d: Draw, collected: map<string, string>, extra: seq<string>,
                     force: bool) returns (r: Result<Session>)
    modifies store`helper, store`slstore, d
    ensures Requested(extra).Err? ==> r == Err(SsError) && store.Files() == old(store.Files()) && d.pos == old(d.pos)
    ensures Requested(extra).Ok? ==>
      var raw, mandatory := NormalizedFactors(collected), Requested(extra).value;
      var p := PrepareOf(sha, old(store.Files()), raw, mandatory, force, d.data, old(d.pos), store.weather);
      && store.Files() == p.disk && (r.Ok? <==> p.session.Ok?)
      && (r.Err? ==> r.error == p.session.error)
      && (r.Ok? ==> fresh(r.value) && r.value.State() == p.session.value && r.value.store == store && r.value.draw == d)
  {
    hide PrepareOf, IsRequestable, IsProjected, NormalizedFactors;
    var mandatory := CheckRequested(extra);
    if mandatory.Err? { return Err(mandatory.error); }
    var raw := NormalizeFactors(collected);
    r := PrepareLocked(sha, store, d, raw, mandatory.value, force);
  }

  /** A prepared session holds its key and is not yet committed. */
  lemma PreparedHasKey(sha: Sha256, disk: Disk, raw: Raw, requested: set<string>, force: bool, data: bytes, pos: nat,
                       weather: Weather)
    requires PrepareOf(sha, disk, raw, requested, force, data, pos, weather).session.Ok?
    ensures var s := PrepareOf(sha, disk, raw, requested, force, data, pos, weather).session.value;
      s.key.Some? && !s.committed
  {
    hide Parse, Recover, Project, EnrolmentOf, EnsureSecret, ProjectCurrent, MapMandatory, IsProjected, Encode,
      MandatoryNames;
  }
}
