/** The interprocess marker lock of the store directory, system call by system call (slhwid/_store.py:23-122). */
module MarkerLock {
  import opened Wrappers

  // ---------------------------------------------------------------- marker text

  const LOCK_HEADER := "SLHwidLockV1"
  const UNKNOWN_LOCK_GRACE_SECONDS := 120
  const LOCK_WAIT_SECONDS := 30

  predicate IsDigit(c: char) {
    '0' <= c <= '9'
  }

  predicate IsDigits(s: string) {
    s != "" && forall i :: 0 <= i < |s| ==> IsDigit(s[i])
  }

  function Decimal(n: nat): (s: string)
    ensures IsDigits(s)
  {
    var last := [('0' as int + n % 10) as char];
    if n < 10 then last else Decimal(n / 10) + last
  }

  function Number(s: string): nat
    requires IsDigits(s)
  {
    var n := |s| - 1;
    (s[n] as int - '0' as int) + if n == 0 then 0 else 10 * Number(s[..n])
  }

  lemma {:induction false} NumberOfDecimal(n: nat)
    ensures Number(Decimal(n)) == n
  {
    if n >= 10 {
      NumberOfDecimal(n / 10);
      assert Decimal(n)[..|Decimal(n)| - 1] == Decimal(n / 10);
    }
  }

  /** The characters at which str.splitlines breaks a text whose newlines are already "\\n". */
  predicate IsBreak(c: char) {
    || c == '\n' || c == '\U{0B}' || c == '\U{0C}' || '\U{1C}' <= c <= '\U{1E}'
    || c == '\U{85}' || c == '\U{2028}' || c == '\U{2029}'
  }

  predicate OneLine(s: string) {
    forall i :: 0 <= i < |s| ==> !IsBreak(s[i])
  }

  function LineLength(s: string): (n: nat)
    ensures n <= |s|
  {
    if s == "" || IsBreak(s[0]) then 0 else 1 + LineLength(s[1..])
  }

  function SplitLines(s: string): seq<string>
    decreases |s|
  {
    if s == "" then [] else
      var n := LineLength(s);
      [s[..n]] + if n < |s| then SplitLines(s[n + 1..]) else []
  }

  lemma {:induction false} LineEnds(a: string, rest: string)
    requires OneLine(a)
    ensures LineLength(a + "\n" + rest) == |a|
  {
    var s := a + "\n" + rest;
    if a != "" {
      assert s[1..] == a[1..] + "\n" + rest;
      LineEnds(a[1..], rest);
    }
  }

  lemma SplitFirst(a: string, rest: string)
    requires OneLine(a)
    ensures SplitLines(a + "\n" + rest) == [a] + SplitLines(rest)
  {
    LineEnds(a, rest);
    var s := a + "\n" + rest;
    assert s[..|a|] == a && s[|a| + 1..] == rest;
  }

  /** The text an owner writes. */
  function Contents(pid: nat, nonce: string): string {
    LOCK_HEADER + "\n" + (Decimal(pid) + "\n" + (nonce + "\n" + ""))
  }

  /** The pid named by a well-formed marker (_read_lock). */
  function OwnerPid(contents: string): Option<nat> {
    var lines := SplitLines(contents);
    if |lines| == 3 && lines[0] == LOCK_HEADER && IsDigits(lines[1]) && lines[2] != ""
    then Some(Number(lines[1])) else None
  }

  predicate IsNonce(s: string) {
    s != "" && OneLine(s)
  }

  lemma OwnLines(pid: nat, nonce: string)
    requires IsNonce(nonce)
    ensures SplitLines(Contents(pid, nonce)) == [LOCK_HEADER, Decimal(pid), nonce]
  {
    var digits := Decimal(pid);
    assert OneLine(digits) && OneLine(LOCK_HEADER);
    SplitFirst(nonce, "");
    SplitFirst(digits, nonce + "\n" + "");
    SplitFirst(LOCK_HEADER, digits + "\n" + (nonce + "\n" + ""));
  }

  /** A marker names its owner's pid, and markers with different nonces are different texts. */
  lemma MarkerNamesOwner(pid: nat, nonce: string, pid': nat, nonce': string)
    requires IsNonce(nonce) && IsNonce(nonce')
    ensures OwnerPid(Contents(pid, nonce)) == Some(pid) && Contents(pid, nonce) != ""
    ensures nonce != nonce' ==> Contents(pid, nonce) != Contents(pid', nonce')
    ensures OwnerPid("").None?
  {
    OwnLines(pid, nonce);
    OwnLines(pid', nonce');
    NumberOfDecimal(pid);
  }

  // ---------------------------------------------------------------- state

  /** A process; its pid may be used again once it is dead. */
  datatype Process = Process(pid: nat, alive: bool)

  /**
   Where one call of _acquire_lock stands between two system calls. The file that was read is
   remembered by its creator, which the code itself does not see.
   */
  datatype Phase =
    | Trying                                              // about to create the marker
    | Creating                                            // created it, has not written it yet
    | Inside                                              // holds the lock
    | Blocked                                             // the create failed, about to read the marker
    | Judging(expected: string, seen: nat)                // has read it, about to judge whether it is stale
    | Comparing(expected: string, seen: nat, last: bool)  // about to read it again; last when releasing
    | Unlinking(seen: nat, last: bool)                    // found it unchanged, about to unlink it
    | Gone                                                // released, or raised

  datatype Attempt = Attempt(process: nat, nonce: string, deadline: int, phase: Phase)

  datatype File = File(creator: nat, contents: string, mtime: int)

  datatype State = State(processes: seq<Process>, attempts: seq<Attempt>, marker: Option<File>, now: int)

  predicate Live(s: State, i: nat) {
    i < |s.attempts| && s.attempts[i].process < |s.processes| && s.processes[s.attempts[i].process].alive
  }

  /** _process_is_alive */
  predicate PidAlive(s: State, pid: nat) {
    pid != 0 && exists p :: 0 <= p < |s.processes| && s.processes[p].alive && s.processes[p].pid == pid
  }

  function TextOf(s: State, i: nat): string
    requires i < |s.attempts| && s.attempts[i].process < |s.processes|
  {
    Contents(s.processes[s.attempts[i].process].pid, s.attempts[i].nonce)
  }

  // ---------------------------------------------------------------- steps

  datatype Action =
    | Spawn(pid: nat)                       // a process starts
    | Die(process: nat)                     // a process exits or crashes, wherever its attempts stand
    | Tick(seconds: nat)
    | Begin(process: nat, nonce: string)    // a live process calls _acquire_lock
    | Advance(attempt: nat)                 // its next system call

  /** The next system call of an attempt. */
  function Next(s: State, i: nat): State
    requires i < |s.attempts| && s.attempts[i].process < |s.processes|
  {
    var a := s.attempts[i];
    match a.phase
    case Trying =>
      if s.marker.None? then At(s, i, Creating).(marker := Some(File(i, "", s.now))) else At(s, i, Blocked)
    case Creating =>
      At(s, i, Inside).(
        marker := if s.marker.Some? && s.marker.value.creator == i
                  then Some(File(i, TextOf(s, i), s.now)) else s.marker)
    case Inside => At(s, i, Comparing(TextOf(s, i), i, true))
    case Blocked =>
      if s.marker.Some? then At(s, i, Judging(s.marker.value.contents, s.marker.value.creator)) else Retry(s, i)
    case Judging(expected, seen) =>
      if Stale(s, expected) then At(s, i, Comparing(expected, seen, false)) else Retry(s, i)
    case Comparing(expected, seen, last) =>
      if s.marker.Some? && s.marker.value.contents == expected
      then At(s, i, Unlinking(seen, last)) else At(s, i, After(last))
    case Unlinking(_, last) => At(s, i, After(last)).(marker := None)
    case Gone => s
  }

  function At(s: State, i: nat, phase: Phase): State
    requires i < |s.attempts|
  {
    s.(attempts := s.attempts[i := s.attempts[i].(phase := phase)])
  }

  /** Past its deadline an attempt raises "storage is busy", otherwise it sleeps and tries again. */
  function Retry(s: State, i: nat): State
    requires i < |s.attempts|
  {
    At(s, i, if s.now >= s.attempts[i].deadline then Gone else Trying)
  }

  function After(last: bool): Phase {
    if last then Gone else Trying
  }

  /** A marker is stale when its pid is dead, or when it is malformed and old. */
  predicate Stale(s: State, expected: string) {
    match OwnerPid(expected)
    case Some(pid) => !PidAlive(s, pid)
    case None => s.marker.Some? && s.now - s.marker.value.mtime >= UNKNOWN_LOCK_GRACE_SECONDS
  }

  predicate Enabled(s: State, a: Action) {
    match a
    case Spawn(pid) => pid != 0 && !PidAlive(s, pid)
    case Die(p) => p < |s.processes|
    case Tick(_) => true
    case Begin(p, nonce) =>
      && p < |s.processes| && s.processes[p].alive
      && IsNonce(nonce) && forall i :: 0 <= i < |s.attempts| ==> s.attempts[i].nonce != nonce
    case Advance(i) => Live(s, i)
  }

  function Execute(s: State, a: Action): State
    requires Enabled(s, a)
  {
    match a
    case Spawn(pid) => s.(processes := s.processes + [Process(pid, true)])
    case Die(p) => s.(processes := s.processes[p := s.processes[p].(alive := false)])
    case Tick(seconds) => s.(now := s.now + seconds)
    case Begin(p, nonce) => s.(attempts := s.attempts + [Attempt(p, nonce, s.now + LOCK_WAIT_SECONDS, Trying)])
    case Advance(i) => Next(s, i)
  }

  // ---------------------------------------------------------------- the invariant

  /** A live attempt that created the marker and has not begun to release it. */
  predicate Holding(s: State, i: nat) {
    Live(s, i) && (s.attempts[i].phase.Creating? || s.attempts[i].phase.Inside?)
  }

  /** At most one attempt of a live process is inside the lock or on its way in. */
  ghost predicate Exclusive(s: State) {
    forall i: nat, j: nat :: Holding(s, i) && Holding(s, j) ==> i == j
  }

  predicate WellFormed(s: State) {
    && (forall p :: 0 <= p < |s.processes| ==> s.processes[p].pid != 0)
    && (forall i :: 0 <= i < |s.attempts| ==> s.attempts[i].process < |s.processes| && IsNonce(s.attempts[i].nonce))
    && (forall i, j :: 0 <= i < j < |s.attempts| ==> s.attempts[i].nonce != s.attempts[j].nonce)
  }

  /** The attempt has created its marker, which it does only once. */
  predicate HasCreated(phase: Phase) {
    match phase
    case Creating => true
    case Inside => true
    case Comparing(_, _, last) => last
    case Unlinking(_, last) => last
    case Gone => true
    case _ => false
  }

  /** A text read from the marker of an attempt: nothing before it was written, its own text after. */
  predicate ReadFrom(s: State, expected: string, seen: nat)
    requires WellFormed(s)
  {
    && seen < |s.attempts| && HasCreated(s.attempts[seen].phase)
    && (expected == "" || (expected == TextOf(s, seen) && !s.attempts[seen].phase.Creating?))
  }

  /** The marker in place is the still unwritten one of the attempt. */
  predicate UnwrittenMarkerOf(s: State, seen: nat) {
    s.marker.Some? && s.marker.value.creator == seen && s.marker.value.contents == ""
  }

  predicate PhaseOk(s: State, i: nat)
    requires WellFormed(s) && i < |s.attempts|
  {
    match s.attempts[i].phase
    case Judging(expected, seen) => ReadFrom(s, expected, seen)
    case Comparing(expected, seen, last) =>
      if last then expected == TextOf(s, i) && seen == i
      else ReadFrom(s, expected, seen) && (Live(s, seen) ==> expected == "" && !UnwrittenMarkerOf(s, seen))
    case Unlinking(seen, last) =>
      if last then seen == i
      else
        && seen < |s.attempts| && HasCreated(s.attempts[seen].phase)
        && (s.marker.Some? && s.marker.value.creator == seen ==> !Live(s, seen))
    case _ => true
  }

  /** Every live holder's own marker is in place. */
  ghost predicate Owned(s: State)
    requires WellFormed(s)
  {
    forall i: nat :: Holding(s, i) ==>
      && s.marker.Some? && s.marker.value.creator == i
      && s.marker.value.contents == if s.attempts[i].phase.Creating? then "" else TextOf(s, i)
  }

  predicate MarkerOk(s: State)
    requires WellFormed(s)
  {
    s.marker.Some? ==>
      var f := s.marker.value;
      && ReadFrom(s, f.contents, f.creator)
      && (f.contents == "" ==> s.attempts[f.creator].phase.Creating?)
      && (f.contents == "" && Live(s, f.creator) ==> s.now - f.mtime < UNKNOWN_LOCK_GRACE_SECONDS)
  }

  ghost predicate Inv(s: State) {
    WellFormed(s) && MarkerOk(s) && Owned(s) && forall i :: 0 <= i < |s.attempts| ==> PhaseOk(s, i)
  }

  /** First timing condition: a live process writes its marker within the grace period after creating it. */
  predicate WritesInTime(s: State, a: Action) {
    a.Tick? && s.marker.Some? && s.marker.value.contents == "" && Live(s, s.marker.value.creator) ==>
      s.now + a.seconds - s.marker.value.mtime < UNKNOWN_LOCK_GRACE_SECONDS
  }

  /** Second timing condition: the marker an attempt unlinks is still the one it read. */
  predicate UnlinksWhatItRead(s: State, a: Action) {
    a.Advance? && a.attempt < |s.attempts| && s.attempts[a.attempt].phase.Unlinking? && s.marker.Some? ==>
      s.marker.value.creator == s.attempts[a.attempt].phase.seen
  }

  predicate Timely(s: State, a: Action) {
    WritesInTime(s, a) && UnlinksWhatItRead(s, a)
  }

  lemma OwnedIsExclusive(s: State)
    requires WellFormed(s) && Owned(s)
    ensures Exclusive(s)
  {
  }

  // ---------------------------------------------------------------- steps of the environment

  /** Only new processes and attempts, deaths, and time separate the two states. */
  ghost predicate Extends(s: State, s': State) {
    && |s.processes| <= |s'.processes| && |s.attempts| <= |s'.attempts| && s'.marker == s.marker
    && (forall p :: 0 <= p < |s.processes| ==> s'.processes[p].pid == s.processes[p].pid)
    && (forall i :: 0 <= i < |s.attempts| ==> s'.attempts[i] == s.attempts[i])
    && (forall i: nat :: i < |s.attempts| && Live(s', i) ==> Live(s, i))
  }

  lemma ExtendsKeepsPhase(s: State, s': State, i: nat)
    requires WellFormed(s) && WellFormed(s') && Extends(s, s') && i < |s.attempts| && PhaseOk(s, i)
    ensures PhaseOk(s', i)
  {
    hide Contents, IsNonce, Live;
    assert forall j :: 0 <= j < |s.attempts| ==> TextOf(s', j) == TextOf(s, j);
  }

  lemma ExtendsKeepsInv(s: State, s': State)
    requires Inv(s) && WellFormed(s') && Extends(s, s')
    requires forall i :: |s.attempts| <= i < |s'.attempts| ==> s'.attempts[i].phase == Trying
    requires s.marker.Some? && s.marker.value.contents == "" && Live(s', s.marker.value.creator) ==>
      s'.now - s.marker.value.mtime < UNKNOWN_LOCK_GRACE_SECONDS
    ensures Inv(s')
  {
    hide Contents, IsNonce, Live;
    assert forall j :: 0 <= j < |s.attempts| ==> TextOf(s', j) == TextOf(s, j);
    forall i | 0 <= i < |s'.attempts| ensures PhaseOk(s', i) {
      if i < |s.attempts| { ExtendsKeepsPhase(s, s', i); }
    }
    forall i: nat | Holding(s', i)
      ensures s'.marker.Some? && s'.marker.value.creator == i
      ensures s'.marker.value.contents == if s'.attempts[i].phase.Creating? then "" else TextOf(s', i)
    {
      HoldingIsAttempt(s', i);
      assert Holding(s, i);
    }
  }

  lemma HoldingIsAttempt(s: State, i: nat)
    requires Holding(s, i)
    ensures i < |s.attempts| && s.attempts[i].phase != Trying
  {
  }

  lemma EnvironmentKeepsInv(s: State, a: Action)
    requires Inv(s) && Enabled(s, a) && Timely(s, a) && !a.Advance?
    ensures Inv(Execute(s, a))
  {
    var s' := Execute(s, a);
    hide Contents, IsNonce, PidAlive;
    assert forall i: nat :: i < |s.attempts| && Live(s', i) ==> Live(s, i);
    ExtendsKeepsInv(s, s');
  }

  // ---------------------------------------------------------------- steps of an attempt

  lemma AtKeepsTexts(s: State, i: nat, phase: Phase)
    requires WellFormed(s) && i < |s.attempts|
    ensures WellFormed(At(s, i, phase))
    ensures forall j: nat :: Live(At(s, i, phase), j) <==> Live(s, j)
    ensures forall j :: 0 <= j < |s.attempts| ==> TextOf(At(s, i, phase), j) == TextOf(s, j)
    ensures forall j | 0 <= j < |s.attempts| ::
      At(s, i, phase).attempts[j].phase == if j == i then phase else s.attempts[j].phase
  {
    hide Contents, IsNonce;
  }

  lemma AtKeepsPhase(s: State, i: nat, phase: Phase, j: nat)
    requires WellFormed(s) && i < |s.attempts| && j < |s.attempts| && i != j && PhaseOk(s, j)
    requires HasCreated(s.attempts[i].phase) ==> HasCreated(phase)
    requires phase.Creating? ==> !HasCreated(s.attempts[i].phase)
    ensures WellFormed(At(s, i, phase)) && PhaseOk(At(s, i, phase), j)
  {
    AtKeepsTexts(s, i, phase);
    hide Contents, IsNonce, At, TextOf, Live, WellFormed;
    var s' := At(s, i, phase);
    AtKeepsRest(s, i, phase);
  }

  lemma AtKeepsRest(s: State, i: nat, phase: Phase)
    requires i < |s.attempts|
    ensures At(s, i, phase).marker == s.marker && |At(s, i, phase).attempts| == |s.attempts|
    ensures At(s, i, phase).now == s.now
  {
  }

  /** A step of an attempt that neither holds the lock nor touches the marker. */
  lemma QuietStep(s: State, i: nat, phase: Phase)
    requires Inv(s) && i < |s.attempts| && WellFormed(At(s, i, phase)) && PhaseOk(At(s, i, phase), i)
    requires HasCreated(s.attempts[i].phase) ==> HasCreated(phase)
    requires !s.attempts[i].phase.Creating? && !phase.Creating? && !phase.Inside?
    ensures Inv(At(s, i, phase))
  {
    var s' := At(s, i, phase);
    AtKeepsTexts(s, i, phase);
    AtKeepsRest(s, i, phase);
    hide Contents, IsNonce, At, TextOf, WellFormed, Live;
    forall j | 0 <= j < |s'.attempts| ensures PhaseOk(s', j) {
      if j != i { AtKeepsPhase(s, i, phase, j); }
    }
    hide PhaseOk;
    assert forall j: nat :: Holding(s', j) ==> j != i && Holding(s, j);
  }

  lemma ReadFromAt(s: State, i: nat, phase: Phase, expected: string, seen: nat)
    requires WellFormed(s) && i < |s.attempts| && ReadFrom(s, expected, seen) && i != seen
    ensures WellFormed(At(s, i, phase)) && ReadFrom(At(s, i, phase), expected, seen)
  {
    AtKeepsTexts(s, i, phase);
    hide Contents, IsNonce, At, TextOf, WellFormed;
    AtKeepsRest(s, i, phase);
  }

  /** A stale text was read from a marker whose owner is dead, or that is no longer an unwritten marker. */
  lemma StaleMeansDead(s: State, expected: string, seen: nat)
    requires Inv(s) && ReadFrom(s, expected, seen) && Stale(s, expected)
    ensures Live(s, seen) ==> expected == "" && !UnwrittenMarkerOf(s, seen)
  {
    var owner := s.processes[s.attempts[seen].process];
    MarkerNamesOwner(owner.pid, s.attempts[seen].nonce, owner.pid, s.attempts[seen].nonce);
    hide Contents, IsNonce, OwnerPid, Owned;
  }

  lemma JudgingStep(s: State, i: nat)
    requires Inv(s) && Live(s, i) && s.attempts[i].phase.Judging?
    ensures Inv(Next(s, i))
  {
    hide Contents, IsNonce, Stale, At, Inv;
    var phase := s.attempts[i].phase;
    JudgingReads(s, i);
    if Stale(s, phase.expected) {
      var next := Comparing(phase.expected, phase.seen, false);
      StaleMeansDead(s, phase.expected, phase.seen);
      ReadFromAt(s, i, next, phase.expected, phase.seen);
      AtKeepsTexts(s, i, next);
      AtKeepsRest(s, i, next);
      QuietStep(s, i, next);
    } else {
      RetryStep(s, i);
    }
  }

  lemma JudgingReads(s: State, i: nat)
    requires Inv(s) && i < |s.attempts| && s.attempts[i].phase.Judging?
    ensures WellFormed(s) && ReadFrom(s, s.attempts[i].phase.expected, s.attempts[i].phase.seen)
    ensures i != s.attempts[i].phase.seen
  {
    assert PhaseOk(s, i);
  }

  lemma RetryStep(s: State, i: nat)
    requires Inv(s) && i < |s.attempts| && !HasCreated(s.attempts[i].phase)
    ensures Inv(Retry(s, i))
  {
    hide Contents, IsNonce, At;
    AtKeepsTexts(s, i, Trying);
    AtKeepsTexts(s, i, Gone);
    QuietStep(s, i, if s.now >= s.attempts[i].deadline then Gone else Trying);
  }

  lemma BlockedStep(s: State, i: nat)
    requires Inv(s) && i < |s.attempts| && s.attempts[i].phase.Blocked? && s.attempts[i].process < |s.processes|
    ensures Inv(Next(s, i))
  {
    hide Contents, IsNonce, At, Live;
    if s.marker.Some? {
      var f := s.marker.value;
      var next := Judging(f.contents, f.creator);
      ReadFromAt(s, i, next, f.contents, f.creator);
      AtKeepsTexts(s, i, next);
      QuietStep(s, i, next);
    } else {
      RetryStep(s, i);
    }
  }

  lemma ComparingStep(s: State, i: nat)
    requires Inv(s) && Live(s, i) && s.attempts[i].phase.Comparing?
    ensures Inv(Next(s, i))
  {
    hide Contents, IsNonce, At;
    var phase := s.attempts[i].phase;
    assert PhaseOk(s, i);
    var next := if s.marker.Some? && s.marker.value.contents == phase.expected
                then Unlinking(phase.seen, phase.last) else After(phase.last);
    AtKeepsTexts(s, i, next);
    AtKeepsRest(s, i, next);
    QuietStep(s, i, next);
  }

  lemma TryingStep(s: State, i: nat)
    requires Inv(s) && Live(s, i) && s.attempts[i].phase.Trying?
    ensures Inv(Next(s, i))
  {
    hide Contents, IsNonce, At;
    if s.marker.Some? {
      AtKeepsTexts(s, i, Blocked);
      QuietStep(s, i, Blocked);
    } else {
      CreateKeepsInv(s, i);
    }
  }

  lemma CreateKeepsInv(s: State, i: nat)
    requires Inv(s) && Live(s, i) && s.attempts[i].phase.Trying? && s.marker.None?
    ensures Inv(Next(s, i))
  {
    AtKeepsTexts(s, i, Creating);
    AtKeepsRest(s, i, Creating);
    var t, s' := At(s, i, Creating), Next(s, i);
    hide Contents, IsNonce, At;
    MarkerOnly(t, s'.marker);
    forall j | 0 <= j < |s'.attempts| ensures PhaseOk(s', j) {
      if j != i { AtKeepsPhase(s, i, Creating, j); }
    }
    assert forall j: nat :: Holding(s', j) && j != i ==> Holding(s, j);
  }

  /** Texts and liveness do not depend on the marker. */
  lemma MarkerOnly(s: State, marker: Option<File>)
    requires WellFormed(s)
    ensures WellFormed(s.(marker := marker))
    ensures forall j: nat :: Live(s.(marker := marker), j) <==> Live(s, j)
    ensures forall j :: 0 <= j < |s.attempts| ==> TextOf(s.(marker := marker), j) == TextOf(s, j)
  {
    hide Contents, IsNonce;
  }

  lemma InsideStep(s: State, i: nat)
    requires Inv(s) && Live(s, i) && s.attempts[i].phase.Inside?
    ensures Inv(Next(s, i))
  {
    hide Contents, IsNonce, At;
    var next := Comparing(TextOf(s, i), i, true);
    AtKeepsTexts(s, i, next);
    QuietStep(s, i, next);
  }

  /** A holder that still has to write its marker finds it in place. */
  lemma OwnMarkerInPlace(s: State, i: nat)
    requires Inv(s) && Live(s, i) && s.attempts[i].phase.Creating?
    ensures s.marker.Some? && s.marker.value.creator == i
    ensures forall j: nat :: Holding(s, j) ==> j == i
  {
    assert Holding(s, i);
  }

  lemma WriteKeepsInv(s: State, i: nat)
    requires Inv(s) && Live(s, i) && s.attempts[i].phase.Creating?
    ensures Inv(Next(s, i))
  {
    AtKeepsTexts(s, i, Inside);
    AtKeepsRest(s, i, Inside);
    OwnMarkerInPlace(s, i);
    var t, s' := At(s, i, Inside), Next(s, i);
    var owner := s.processes[s.attempts[i].process];
    MarkerNamesOwner(owner.pid, s.attempts[i].nonce, owner.pid, s.attempts[i].nonce);
    hide Contents, IsNonce, At;
    MarkerOnly(t, s'.marker);
    forall j | 0 <= j < |s'.attempts| ensures PhaseOk(s', j) {
      assert PhaseOk(s, j);
      if j != i { AtKeepsPhase(s, i, Inside, j); }
    }
    assert forall j: nat :: Holding(s', j) && j != i ==> Holding(s, j);
  }

  /** The action does not unlink a live holder's marker. */
  predicate Harmless(s: State, a: Action) {
    a.Advance? && a.attempt < |s.attempts| && s.attempts[a.attempt].phase.Unlinking? && s.marker.Some? ==>
      !Holding(s, s.marker.value.creator)
  }

  lemma TimelyIsHarmless(s: State, i: nat)
    requires Inv(s) && Live(s, i) && s.attempts[i].phase.Unlinking? && Timely(s, Advance(i))
    ensures Harmless(s, Advance(i))
  {
    assert PhaseOk(s, i);
  }

  lemma UnlinkKeepsInv(s: State, i: nat)
    requires Inv(s) && Live(s, i) && s.attempts[i].phase.Unlinking? && Harmless(s, Advance(i))
    ensures Inv(Next(s, i))
  {
    var next := After(s.attempts[i].phase.last);
    AtKeepsTexts(s, i, next);
    AtKeepsRest(s, i, next);
    var t, s' := At(s, i, next), Next(s, i);
    hide Contents, IsNonce, At;
    MarkerOnly(t, s'.marker);
    forall j | 0 <= j < |s'.attempts| ensures PhaseOk(s', j) {
      assert PhaseOk(s, j);
      if j != i { AtKeepsPhase(s, i, next, j); }
    }
    assert forall j: nat :: Holding(s', j) ==> j != i && Holding(s, j);
  }

  /** Every timely system call of a live attempt keeps the invariant. */
  lemma AdvanceKeepsInv(s: State, i: nat)
    requires Inv(s) && Live(s, i) && Timely(s, Advance(i))
    ensures Inv(Next(s, i))
  {
    hide Inv, PhaseOk, Holding;
    match s.attempts[i].phase
    case Trying => TryingStep(s, i);
    case Creating => WriteKeepsInv(s, i);
    case Inside => InsideStep(s, i);
    case Blocked => BlockedStep(s, i);
    case Judging(_, _) => JudgingStep(s, i);
    case Comparing(_, _, _) => ComparingStep(s, i);
    case Unlinking(_, _) =>
      TimelyIsHarmless(s, i);
      UnlinkKeepsInv(s, i);
    case Gone =>
  }

  // ---------------------------------------------------------------- runs

  /** Every action of the run can happen when its turn comes. */
  predicate IsRun(s: State, actions: seq<Action>)
    decreases |actions|
  {
    actions == [] || (Enabled(s, actions[0]) && IsRun(Execute(s, actions[0]), actions[1..]))
  }

  /** The action meets the timing conditions asked for. */
  predicate Respects(s: State, a: Action, writes: bool, unlinks: bool) {
    (writes ==> WritesInTime(s, a)) && (unlinks ==> UnlinksWhatItRead(s, a))
  }

  predicate RespectfulRun(s: State, actions: seq<Action>, writes: bool, unlinks: bool)
    requires IsRun(s, actions)
    decreases |actions|
  {
    actions == []
    || (Respects(s, actions[0], writes, unlinks)
        && RespectfulRun(Execute(s, actions[0]), actions[1..], writes, unlinks))
  }

  predicate TimelyRun(s: State, actions: seq<Action>)
    requires IsRun(s, actions)
  {
    RespectfulRun(s, actions, true, true)
  }

  /** No action of the run unlinks a live holder's marker. */
  predicate HarmlessRun(s: State, actions: seq<Action>)
    requires IsRun(s, actions)
    decreases |actions|
  {
    actions == [] || (Harmless(s, actions[0]) && HarmlessRun(Execute(s, actions[0]), actions[1..]))
  }

  /** All along the run every live holder's own marker is in place. */
  ghost predicate OwnedThroughout(s: State, actions: seq<Action>)
    requires IsRun(s, actions)
    decreases |actions|
  {
    && WellFormed(s) && Owned(s)
    && (actions == [] || OwnedThroughout(Execute(s, actions[0]), actions[1..]))
  }

  function Run(s: State, actions: seq<Action>): State
    requires IsRun(s, actions)
    decreases |actions|
  {
    if actions == [] then s else Run(Execute(s, actions[0]), actions[1..])
  }

  const INITIAL := State([], [], None, 0)

  lemma StepKeepsInv(s: State, a: Action)
    requires Inv(s) && Enabled(s, a) && Timely(s, a)
    ensures Inv(Execute(s, a))
  {
    hide Inv, PidAlive, IsNonce;
    if a.Advance? { AdvanceKeepsInv(s, a.attempt); } else { EnvironmentKeepsInv(s, a); }
  }

  lemma StepKeepsForm(s: State, a: Action)
    requires WellFormed(s) && Enabled(s, a)
    ensures WellFormed(Execute(s, a))
  {
    hide Contents, IsNonce, PidAlive, Stale;
  }

  lemma EnvironmentKeepsOwned(s: State, a: Action)
    requires WellFormed(s) && Owned(s) && Enabled(s, a) && !a.Advance?
    ensures WellFormed(Execute(s, a)) && Owned(Execute(s, a))
  {
    var s' := Execute(s, a);
    StepKeepsForm(s, a);
    hide Contents, IsNonce, PidAlive;
    forall i: nat | Holding(s', i) ensures Holding(s, i) && TextOf(s', i) == TextOf(s, i) {
    }
  }

  lemma QuietKeepsOwned(s: State, i: nat, phase: Phase)
    requires WellFormed(s) && Owned(s) && i < |s.attempts| && !phase.Creating? && !phase.Inside?
    ensures WellFormed(At(s, i, phase)) && Owned(At(s, i, phase))
  {
    AtKeepsTexts(s, i, phase);
    AtKeepsRest(s, i, phase);
    hide Contents, IsNonce, At, TextOf, WellFormed, Live;
    var s' := At(s, i, phase);
    assert forall j: nat :: Holding(s', j) ==> j != i && Holding(s, j);
  }

  lemma TakeKeepsOwned(s: State, i: nat)
    requires WellFormed(s) && Owned(s) && Live(s, i)
    requires s.attempts[i].phase.Creating? || (s.attempts[i].phase.Trying? && s.marker.None?)
    ensures WellFormed(Next(s, i)) && Owned(Next(s, i))
  {
    var phase := if s.attempts[i].phase.Creating? then Inside else Creating;
    AtKeepsTexts(s, i, phase);
    AtKeepsRest(s, i, phase);
    var t, s' := At(s, i, phase), Next(s, i);
    hide Contents, IsNonce, At;
    MarkerOnly(t, s'.marker);
    if s.attempts[i].phase.Creating? { assert Holding(s, i); }
    assert forall j: nat :: Holding(s', j) && j != i ==> Holding(s, j);
  }

  lemma UnlinkIsExact(s: State, i: nat)
    requires WellFormed(s) && Owned(s) && Live(s, i) && s.attempts[i].phase.Unlinking?
    ensures WellFormed(Next(s, i)) && (Owned(Next(s, i)) <==> Harmless(s, Advance(i)))
  {
    var next := After(s.attempts[i].phase.last);
    AtKeepsTexts(s, i, next);
    AtKeepsRest(s, i, next);
    MarkerOnly(At(s, i, next), None);
    hide Contents, IsNonce, At;
    var s' := Next(s, i);
    assert forall j: nat :: Holding(s', j) <==> j != i && Holding(s, j);
    if s.marker.Some? && Holding(s, s.marker.value.creator) {
      assert Holding(s', s.marker.value.creator);
    }
  }

  lemma OtherStepsKeepOwned(s: State, i: nat)
    requires WellFormed(s) && Owned(s) && Live(s, i) && !s.attempts[i].phase.Unlinking?
    ensures WellFormed(Next(s, i)) && Owned(Next(s, i))
  {
    hide Contents, IsNonce, At, Stale, WellFormed, TextOf;
    var phase := s.attempts[i].phase;
    if phase.Creating? || (phase.Trying? && s.marker.None?) {
      TakeKeepsOwned(s, i);
    } else {
      QuietNext(s, i);
    }
  }

  /** Every other system call only moves the attempt on. */
  lemma QuietNext(s: State, i: nat)
    requires WellFormed(s) && Owned(s) && i < |s.attempts| && s.attempts[i].process < |s.processes|
    requires var phase := s.attempts[i].phase;
      !phase.Unlinking? && !phase.Creating? && !(phase.Trying? && s.marker.None?)
    ensures WellFormed(Next(s, i)) && Owned(Next(s, i))
  {
    hide Contents, IsNonce, At, Stale, TextOf, Owned, WellFormed;
    match s.attempts[i].phase
    case Trying => QuietKeepsOwned(s, i, Blocked);
    case Inside => QuietKeepsOwned(s, i, Comparing(TextOf(s, i), i, true));
    case Blocked =>
      if s.marker.Some? {
        QuietKeepsOwned(s, i, Judging(s.marker.value.contents, s.marker.value.creator));
      } else {
        QuietKeepsOwned(s, i, if s.now >= s.attempts[i].deadline then Gone else Trying);
      }
    case Judging(expected, seen) =>
      QuietKeepsOwned(s, i, Comparing(expected, seen, false));
      QuietKeepsOwned(s, i, if s.now >= s.attempts[i].deadline then Gone else Trying);
    case Comparing(expected, seen, last) =>
      QuietKeepsOwned(s, i, Unlinking(seen, last));
      QuietKeepsOwned(s, i, After(last));
    case Gone =>
  }

  /**
   Whatever the timing, a step keeps every live holder's marker in place if and only if it does not
   unlink one.
   */
  lemma StepIsExact(s: State, a: Action)
    requires WellFormed(s) && Owned(s) && Enabled(s, a)
    ensures WellFormed(Execute(s, a)) && (Owned(Execute(s, a)) <==> Harmless(s, a))
  {
    hide WellFormed, Owned, Next, Holding, PidAlive, IsNonce;
    if !a.Advance? {
      EnvironmentKeepsOwned(s, a);
    } else if s.attempts[a.attempt].phase.Unlinking? {
      UnlinkIsExact(s, a.attempt);
    } else {
      OtherStepsKeepOwned(s, a.attempt);
    }
  }

  /**
   Exclusion is exact over runs: every live holder's marker stays in place all along a run, so that
   there is never more than one holder, if and only if no step unlinks another live holder's marker.
   */
  lemma {:induction false} RunIsExact(s: State, actions: seq<Action>)
    requires WellFormed(s) && Owned(s) && IsRun(s, actions)
    ensures OwnedThroughout(s, actions) <==> HarmlessRun(s, actions)
    ensures OwnedThroughout(s, actions) ==> Exclusive(Run(s, actions))
    decreases |actions|
  {
    hide WellFormed, Owned, Enabled, Execute, Harmless, Exclusive;
    OwnedIsExclusive(s);
    if actions != [] {
      StepIsExact(s, actions[0]);
      var s' := Execute(s, actions[0]);
      if Harmless(s, actions[0]) {
        RunIsExact(s', actions[1..]);
      } else {
        NotOwnedThroughout(s', actions[1..]);
      }
    }
  }

  lemma NotOwnedThroughout(s: State, actions: seq<Action>)
    requires IsRun(s, actions) && WellFormed(s) && !Owned(s)
    ensures !OwnedThroughout(s, actions)
  {
  }

  // ---------------------------------------------------------------- a harmful unlink lets two in

  /** A nonce that no attempt has. */
  function FreshNonce(attempts: seq<Attempt>): (nonce: string)
    ensures IsNonce(nonce)
    ensures forall i :: 0 <= i < |attempts| ==> |attempts[i].nonce| < |nonce|
  {
    if attempts == [] then "0" else
      var rest := FreshNonce(attempts[..|attempts| - 1]);
      var size := |rest| + |attempts[|attempts| - 1].nonce|;
      assert forall i :: 0 <= i < |attempts| - 1 ==> attempts[..|attempts| - 1][i] == attempts[i];
      seq(size + 1, _ => '0')
  }

  /** What another caller in the holder's own process does next: it calls _acquire_lock and creates the marker. */
  function Intruder(s: State, i: nat): seq<Action>
    requires s.marker.Some? && Holding(s, s.marker.value.creator)
  {
    [Advance(i), Begin(s.attempts[s.marker.value.creator].process, FreshNonce(s.attempts)), Advance(|s.attempts|)]
  }

  /** Once a live holder's marker has been unlinked, any new caller gets in beside the holder. */
  lemma HarmfulUnlinkLetsTwoIn(s: State, i: nat)
    requires WellFormed(s) && Owned(s) && Enabled(s, Advance(i)) && !Harmless(s, Advance(i))
    ensures IsRun(s, Intruder(s, i)) && !Exclusive(Run(s, Intruder(s, i)))
  {
    hide Contents, Stale, PidAlive, IsNonce;
    var c, n := s.marker.value.creator, |s.attempts|;
    var actions := Intruder(s, i);
    var s1 := Execute(s, actions[0]);
    assert s1.marker.None? && s1.attempts[c] == s.attempts[c] && s1.processes == s.processes && |s1.attempts| == n;
    FreshAfter(s, i);
    assert Enabled(s1, actions[1]);
    var s2 := Execute(s1, actions[1]);
    assert s2.attempts[c] == s.attempts[c] && s2.attempts[n].phase == Trying && s2.marker.None?;
    assert Enabled(s2, actions[2]);
    var s3 := Execute(s2, actions[2]);
    assert Holding(s3, c) && Holding(s3, n);
    ThreeSteps(s, actions);
  }

  lemma FreshAfter(s: State, i: nat)
    requires i < |s.attempts| && s.attempts[i].process < |s.processes| && s.attempts[i].phase.Unlinking?
    ensures forall j :: 0 <= j < |s.attempts| ==> Next(s, i).attempts[j].nonce != FreshNonce(s.attempts)
  {
    hide IsNonce, FreshNonce;
  }

  lemma ThreeSteps(s: State, actions: seq<Action>)
    requires |actions| == 3 && Enabled(s, actions[0])
    requires Enabled(Execute(s, actions[0]), actions[1])
    requires Enabled(Execute(Execute(s, actions[0]), actions[1]), actions[2])
    ensures IsRun(s, actions)
    ensures Run(s, actions) == Execute(Execute(Execute(s, actions[0]), actions[1]), actions[2])
  {
    hide Enabled, Execute;
    assert actions[1..][1..] == actions[2..] && actions[2..][1..] == [];
    assert actions[1..][0] == actions[1] && actions[2..][0] == actions[2];
    var s1 := Execute(s, actions[0]);
    var s2 := Execute(s1, actions[1]);
    assert IsRun(s2, actions[2..]) && Run(s2, actions[2..]) == Execute(s2, actions[2]);
  }

  // ---------------------------------------------------------------- timely runs

  lemma {:induction false} TimelyRunIsHarmless(s: State, actions: seq<Action>)
    requires Inv(s) && IsRun(s, actions) && TimelyRun(s, actions)
    ensures HarmlessRun(s, actions)
    decreases |actions|
  {
    hide Inv, Enabled, Execute, WritesInTime, UnlinksWhatItRead, Harmless;
    if actions != [] {
      StepKeepsInv(s, actions[0]);
      TimelyStepIsHarmless(s, actions[0]);
      TimelyRunIsHarmless(Execute(s, actions[0]), actions[1..]);
    }
  }

  lemma TimelyStepIsHarmless(s: State, a: Action)
    requires Inv(s) && Enabled(s, a) && Timely(s, a)
    ensures Harmless(s, a)
  {
    hide Inv, PidAlive, IsNonce, Holding;
    if a.Advance? && s.attempts[a.attempt].phase.Unlinking? { TimelyIsHarmless(s, a.attempt); }
  }

  /**
   Mutual exclusion with crash recovery: in every timely run of any number of processes, threads,
   crashes, reused pids and recoveries, at most one attempt of a live process holds the lock.
   */
  lemma MutualExclusion(actions: seq<Action>)
    requires IsRun(INITIAL, actions) && TimelyRun(INITIAL, actions)
    ensures OwnedThroughout(INITIAL, actions) && Exclusive(Run(INITIAL, actions))
  {
    TimelyRunIsHarmless(INITIAL, actions);
    RunIsExact(INITIAL, actions);
  }

  /** A live holder's marker is removed or changed only by the holder itself. */
  lemma OnlyOwnerReleases(s: State, a: Action, c: nat)
    requires Inv(s) && Enabled(s, a) && Timely(s, a)
    requires Holding(s, c) && a != Advance(c) && a != Die(s.attempts[c].process)
    ensures var s' := Execute(s, a);
      && Holding(s', c) && s'.marker.Some? && s'.marker.value.creator == c
      && s'.marker.value.contents == s.marker.value.contents
  {
    var s' := Execute(s, a);
    StepKeepsInv(s, a);
    OthersLeaveAlone(s, a, c);
    hide Contents, IsNonce, PidAlive, Stale, PhaseOk, MarkerOk, Execute, Enabled, Timely;
    assert Holding(s', c);
  }

  lemma OthersLeaveAlone(s: State, a: Action, c: nat)
    requires WellFormed(s) && Enabled(s, a) && Live(s, c) && a != Advance(c) && a != Die(s.attempts[c].process)
    ensures var s' := Execute(s, a);
      Live(s', c) && s'.attempts[c] == s.attempts[c] && TextOf(s', c) == TextOf(s, c)
  {
    hide Contents, IsNonce, PidAlive, Stale;
  }

  // ---------------------------------------------------------------- recovery from crashes

  /** The state after the next n system calls of an attempt that nobody else interrupts. */
  function Turns(s: State, i: nat, n: nat): (r: State)
    requires i < |s.attempts| && s.attempts[i].process < |s.processes|
    ensures |r.attempts| == |s.attempts| && r.processes == s.processes && r.now == s.now
    ensures r.attempts[i].process == s.attempts[i].process
  {
    if n == 0 then s else Next(Turns(s, i, n - 1), i)
  }

  /** The marker's owner is dead and its pid is not in use, or the marker was never written and is old. */
  predicate Abandoned(s: State) {
    s.marker.Some? && Stale(s, s.marker.value.contents)
  }

  lemma FromBlocked(s: State, i: nat)
    requires i < |s.attempts| && s.attempts[i].process < |s.processes| && s.marker.Some?
    requires s.attempts[i].phase == Trying
    ensures var f := s.marker.value;
      && Turns(s, i, 2).marker == s.marker && Turns(s, i, 2).attempts[i].phase == Judging(f.contents, f.creator)
      && Turns(s, i, 2).attempts[i].deadline == s.attempts[i].deadline
  {
    assert Turns(s, i, 1) == At(s, i, Blocked);
    hide Stale;
  }

  lemma StaleIsStable(s: State, s': State, text: string)
    requires s'.processes == s.processes && s'.marker == s.marker && s'.now == s.now
    ensures Stale(s', text) == Stale(s, text)
  {
    hide OwnerPid;
  }

  lemma FromComparing(s: State, i: nat)
    requires i < |s.attempts| && s.attempts[i].process < |s.processes| && s.marker.Some?
    requires s.attempts[i].phase.Comparing? && !s.attempts[i].phase.last
    requires s.attempts[i].phase.expected == s.marker.value.contents
    ensures Turns(s, i, 4).attempts[i].phase == Inside
  {
    hide Stale;
    assert Turns(s, i, 1) == At(s, i, Unlinking(s.attempts[i].phase.seen, false));
    assert Turns(s, i, 2).marker.None? && Turns(s, i, 2).attempts[i].phase == Trying;
    assert Turns(s, i, 3).attempts[i].phase == Creating;
  }

  lemma OneTurn(s: State, i: nat, n: nat)
    requires i < |s.attempts| && s.attempts[i].process < |s.processes|
    ensures Turns(s, i, n + 1) == Next(Turns(s, i, n), i)
  {
    hide Next;
  }

  lemma {:induction false} TurnsAdd(s: State, i: nat, m: nat, n: nat)
    requires i < |s.attempts| && s.attempts[i].process < |s.processes|
    ensures Turns(Turns(s, i, m), i, n) == Turns(s, i, m + n)
  {
    hide Next;
    if n > 0 { TurnsAdd(s, i, m, n - 1); }
  }

  /**
   A crashed owner's marker never blocks the store for good: an undisturbed attempt takes the lock
   over within seven system calls exactly when the marker is abandoned, and otherwise leaves it alone.
   */
  lemma AbandonedIsRecovered(s: State, i: nat)
    requires i < |s.attempts| && s.attempts[i].process < |s.processes| && s.marker.Some?
    requires s.attempts[i].phase == Trying
    ensures Abandoned(s) ==> Turns(s, i, 7).attempts[i].phase == Inside
    ensures !Abandoned(s) ==>
      && Turns(s, i, 3).marker == s.marker
      && Turns(s, i, 3).attempts[i].phase == if s.now >= s.attempts[i].deadline then Gone else Trying
  {
    hide Stale, Turns;
    FromBlocked(s, i);
    var s2 := Turns(s, i, 2);
    StaleIsStable(s, s2, s.marker.value.contents);
    OneTurn(s, i, 2);
    assert Turns(s, i, 3) == Next(s2, i);
    if Abandoned(s) {
      FromComparing(Turns(s, i, 3), i);
      TurnsAdd(s, i, 3, 4);
    }
  }

  /**
   When a marker counts as abandoned: one that was written, exactly if no process with its owner's pid is alive, and
   one that never was, exactly from 120 seconds after it was created.
   */
  lemma AbandonedIsExact(s: State)
    requires Inv(s) && s.marker.Some?
    ensures var f := s.marker.value;
      if f.contents == "" then Abandoned(s) <==> s.now - f.mtime >= 120
      else
        Abandoned(s) <==> forall p :: 0 <= p < |s.processes| && s.processes[p].alive ==>
          s.processes[p].pid != s.processes[s.attempts[f.creator].process].pid
  {
    var c := s.marker.value.creator;
    var pid := s.processes[s.attempts[c].process].pid;
    MarkerNamesOwner(pid, s.attempts[c].nonce, pid, s.attempts[c].nonce);
    hide Contents, OwnerPid;
  }

  /** An attempt ends without the lock only past its deadline; otherwise it ends by releasing. */
  lemma GivesUpOnlyLate(s: State, i: nat)
    requires i < |s.attempts| && s.attempts[i].process < |s.processes|
    requires s.attempts[i].phase != Gone && Next(s, i).attempts[i].phase == Gone
    ensures HasCreated(s.attempts[i].phase) || s.now >= s.attempts[i].deadline
    ensures Next(s, i).attempts[i].deadline == s.attempts[i].deadline
  {
    hide Contents, Stale;
  }

  /** A free lock is taken in two system calls, and the marker names its taker. */
  lemma FreeLockIsTaken(s: State, i: nat)
    requires i < |s.attempts| && s.attempts[i].process < |s.processes| && s.marker.None?
    requires s.attempts[i].phase == Trying
    ensures var s' := Turns(s, i, 2);
      s'.attempts[i].phase == Inside && s'.marker == Some(File(i, TextOf(s, i), s.now))
  {
    hide Contents;
    OneTurn(s, i, 0);
    OneTurn(s, i, 1);
  }

  /** A release frees the lock in three system calls, and leaves a marker alone that is not its own. */
  lemma ReleaseFreesLock(s: State, i: nat)
    requires i < |s.attempts| && s.attempts[i].process < |s.processes| && s.attempts[i].phase == Inside
    ensures Turns(s, i, 3).attempts[i].phase == Gone
    ensures Turns(s, i, 3).marker ==
      if s.marker.Some? && s.marker.value.contents == TextOf(s, i) then None else s.marker
  {
    hide Contents;
    OneTurn(s, i, 0);
    OneTurn(s, i, 1);
    OneTurn(s, i, 2);
  }

  /** The marker of a live owner is never abandoned, so no undisturbed attempt breaks its lock. */
  lemma LiveOwnerIsSafe(s: State)
    requires Inv(s) && s.marker.Some? && Live(s, s.marker.value.creator)
    ensures !Abandoned(s)
  {
    var c := s.marker.value.creator;
    var owner := s.processes[s.attempts[c].process];
    MarkerNamesOwner(owner.pid, s.attempts[c].nonce, owner.pid, s.attempts[c].nonce);
    hide Contents, OwnerPid;
  }

  // ---------------------------------------------------------------- a mistimed unlink

  /** Some run that meets the timing conditions asked for leads here. */
  ghost predicate Reachable(s: State, writes: bool, unlinks: bool) {
    exists actions :: IsRun(INITIAL, actions) && Run(INITIAL, actions) == s
      && RespectfulRun(INITIAL, actions, writes, unlinks)
  }

  lemma {:induction false} RunExtends(s: State, actions: seq<Action>, a: Action, writes: bool, unlinks: bool)
    requires IsRun(s, actions) && RespectfulRun(s, actions, writes, unlinks)
    requires Enabled(Run(s, actions), a) && Respects(Run(s, actions), a, writes, unlinks)
    ensures IsRun(s, actions + [a]) && RespectfulRun(s, actions + [a], writes, unlinks)
    ensures Run(s, actions + [a]) == Execute(Run(s, actions), a)
    decreases |actions|
  {
    hide Enabled, Execute, Respects;
    if actions == [] {
      assert [a][1..] == [];
    } else {
      assert (actions + [a])[1..] == actions[1..] + [a];
      RunExtends(Execute(s, actions[0]), actions[1..], a, writes, unlinks);
    }
  }

  lemma ReachOne(s: State, a: Action, writes: bool, unlinks: bool)
    requires Reachable(s, writes, unlinks) && Enabled(s, a) && Respects(s, a, writes, unlinks)
    ensures Reachable(Execute(s, a), writes, unlinks)
  {
    hide Enabled, Execute, Respects;
    var actions :| IsRun(INITIAL, actions) && Run(INITIAL, actions) == s
      && RespectfulRun(INITIAL, actions, writes, unlinks);
    RunExtends(INITIAL, actions, a, writes, unlinks);
  }

  const CRASHED := Process(1, false)
  const FIRST := Process(2, true)
  const SECOND := Process(3, true)

  /** A crashed owner's marker, and two live processes that wait for the lock. */
  function Contended(first: Phase, second: Phase, marker: Option<File>, now: int): State {
    State([CRASHED, FIRST, SECOND],
          [Attempt(0, "a", LOCK_WAIT_SECONDS, Inside), Attempt(1, "b", LOCK_WAIT_SECONDS, first),
           Attempt(2, "c", LOCK_WAIT_SECONDS, second)],
          marker, now)
  }

  const LEFTOVER := Some(File(0, Contents(1, "a"), 0))

  lemma ContendedIsReachable(writes: bool, unlinks: bool)
    ensures Reachable(Contended(Trying, Trying, LEFTOVER, 0), writes, unlinks)
  {
    hide Contents;
    assert Run(INITIAL, []) == INITIAL;
    ReachOne(INITIAL, Spawn(1), writes, unlinks);
    var s1 := State([Process(1, true)], [], None, 0);
    assert Execute(INITIAL, Spawn(1)) == s1;
    ReachOne(s1, Begin(0, "a"), writes, unlinks);
    var s2 := State([Process(1, true)], [Attempt(0, "a", LOCK_WAIT_SECONDS, Trying)], None, 0);
    assert Execute(s1, Begin(0, "a")) == s2;
    ReachOne(s2, Advance(0), writes, unlinks);
    var s3 := State([Process(1, true)], [Attempt(0, "a", LOCK_WAIT_SECONDS, Creating)], Some(File(0, "", 0)), 0);
    assert Execute(s2, Advance(0)) == s3;
    ReachOne(s3, Advance(0), writes, unlinks);
    var s4 := State([Process(1, true)], [Attempt(0, "a", LOCK_WAIT_SECONDS, Inside)], LEFTOVER, 0);
    assert Execute(s3, Advance(0)) == s4;
    ReachOne(s4, Die(0), writes, unlinks);
    var s5 := State([CRASHED], [Attempt(0, "a", LOCK_WAIT_SECONDS, Inside)], LEFTOVER, 0);
    assert Execute(s4, Die(0)) == s5;
    CrowdArrives(s5, writes, unlinks);
  }

  lemma CrowdArrives(s5: State, writes: bool, unlinks: bool)
    requires s5 == State([CRASHED], [Attempt(0, "a", LOCK_WAIT_SECONDS, Inside)], LEFTOVER, 0)
    requires Reachable(s5, writes, unlinks)
    ensures Reachable(Contended(Trying, Trying, LEFTOVER, 0), writes, unlinks)
  {
    hide Contents, Reachable;
    ReachOne(s5, Spawn(2), writes, unlinks);
    var s6 := State([CRASHED, FIRST], s5.attempts, LEFTOVER, 0);
    assert Execute(s5, Spawn(2)) == s6;
    ReachOne(s6, Spawn(3), writes, unlinks);
    var s7 := State([CRASHED, FIRST, SECOND], s5.attempts, LEFTOVER, 0);
    assert Execute(s6, Spawn(3)) == s7;
    ReachOne(s7, Begin(1, "b"), writes, unlinks);
    var s8 := State(s7.processes, s5.attempts + [Attempt(1, "b", LOCK_WAIT_SECONDS, Trying)], LEFTOVER, 0);
    assert Execute(s7, Begin(1, "b")) == s8;
    ReachOne(s8, Begin(2, "c"), writes, unlinks);
    assert Execute(s8, Begin(2, "c")) == Contended(Trying, Trying, LEFTOVER, 0);
  }

  lemma FirstAdvances(p: Phase, q: Phase, m: Option<File>, now: int, p': Phase, m': Option<File>, writes: bool,
                      unlinks: bool)
    requires Reachable(Contended(p, q, m, now), writes, unlinks)
    requires Next(Contended(p, q, m, now), 1) == Contended(p', q, m', now)
    requires Respects(Contended(p, q, m, now), Advance(1), writes, unlinks)
    ensures Reachable(Contended(p', q, m', now), writes, unlinks)
  {
    hide Reachable, Next, Contents;
    ReachOne(Contended(p, q, m, now), Advance(1), writes, unlinks);
  }

  lemma SecondAdvances(p: Phase, q: Phase, m: Option<File>, now: int, q': Phase, m': Option<File>, writes: bool,
                       unlinks: bool)
    requires Reachable(Contended(p, q, m, now), writes, unlinks)
    requires Next(Contended(p, q, m, now), 2) == Contended(p, q', m', now)
    requires Respects(Contended(p, q, m, now), Advance(2), writes, unlinks)
    ensures Reachable(Contended(p, q', m', now), writes, unlinks)
  {
    hide Reachable, Next, Contents;
    ReachOne(Contended(p, q, m, now), Advance(2), writes, unlinks);
  }

  lemma LeftoverIsStale(p: Phase, q: Phase)
    ensures Stale(Contended(p, q, LEFTOVER, 0), Contents(1, "a"))
  {
    hide Contents, OwnerPid, Decimal;
    LeftoverOwner();
  }

  lemma LeftoverOwner()
    ensures OwnerPid(Contents(1, "a")) == Some(1)
  {
    hide Contents, OwnerPid;
    MarkerNamesOwner(1, "a", 1, "a");
  }

  /** Both live processes have seen the leftover marker, found it stale and unchanged, and are about to unlink it. */
  lemma BothAboutToUnlink(writes: bool, unlinks: bool)
    ensures Reachable(Contended(Unlinking(0, false), Unlinking(0, false), LEFTOVER, 0), writes, unlinks)
  {
    hide Reachable, Contents, Stale;
    var text := Contents(1, "a");
    ContendedIsReachable(writes, unlinks);
    FirstAdvances(Trying, Trying, LEFTOVER, 0, Blocked, LEFTOVER, writes, unlinks);
    FirstAdvances(Blocked, Trying, LEFTOVER, 0, Judging(text, 0), LEFTOVER, writes, unlinks);
    LeftoverIsStale(Judging(text, 0), Trying);
    FirstAdvances(Judging(text, 0), Trying, LEFTOVER, 0, Comparing(text, 0, false), LEFTOVER, writes, unlinks);
    FirstAdvances(Comparing(text, 0, false), Trying, LEFTOVER, 0, Unlinking(0, false), LEFTOVER, writes, unlinks);
    var p := Unlinking(0, false);
    SecondAdvances(p, Trying, LEFTOVER, 0, Blocked, LEFTOVER, writes, unlinks);
    SecondAdvances(p, Blocked, LEFTOVER, 0, Judging(text, 0), LEFTOVER, writes, unlinks);
    LeftoverIsStale(p, Judging(text, 0));
    SecondAdvances(p, Judging(text, 0), LEFTOVER, 0, Comparing(text, 0, false), LEFTOVER, writes, unlinks);
    SecondAdvances(p, Comparing(text, 0, false), LEFTOVER, 0, Unlinking(0, false), LEFTOVER, writes, unlinks);
  }

  /**
   Although every marker is written in time, exclusion fails if one is replaced between being compared
   and being unlinked: the run to this state, with two live processes inside the lock, meets the first
   timing condition but not the second.
   */
  lemma MistimedUnlinkBreaksExclusion()
    ensures var s := Contended(Inside, Inside, Some(File(1, Contents(2, "b"), 0)), 0);
      Reachable(s, true, false) && !Exclusive(s)
  {
    hide Reachable, Contents, Stale;
    var p := Unlinking(0, false);
    BothAboutToUnlink(true, false);
    SecondAdvances(p, p, LEFTOVER, 0, Trying, None, true, false);
    SecondAdvances(p, Trying, None, 0, Creating, Some(File(2, "", 0)), true, false);
    SecondAdvances(p, Creating, Some(File(2, "", 0)), 0, Inside, Some(File(2, Contents(3, "c"), 0)), true, false);
    FirstAdvances(p, Inside, Some(File(2, Contents(3, "c"), 0)), 0, Trying, None, true, false);
    FirstAdvances(Trying, Inside, None, 0, Creating, Some(File(1, "", 0)), true, false);
    FirstAdvances(Creating, Inside, Some(File(1, "", 0)), 0, Inside, Some(File(1, Contents(2, "b"), 0)), true, false);
    var s := Contended(Inside, Inside, Some(File(1, Contents(2, "b"), 0)), 0);
    assert Holding(s, 1) && Holding(s, 2);
  }

  /** The first process takes over the leftover marker and stalls before it writes its own. */
  lemma StalledIsReachable()
    ensures Reachable(Contended(Creating, Trying, Some(File(1, "", 0)), UNKNOWN_LOCK_GRACE_SECONDS), false, true)
  {
    hide Reachable, Contents, Stale;
    var text, unwritten := Contents(1, "a"), Some(File(1, "", 0));
    ContendedIsReachable(false, true);
    FirstAdvances(Trying, Trying, LEFTOVER, 0, Blocked, LEFTOVER, false, true);
    FirstAdvances(Blocked, Trying, LEFTOVER, 0, Judging(text, 0), LEFTOVER, false, true);
    LeftoverIsStale(Judging(text, 0), Trying);
    FirstAdvances(Judging(text, 0), Trying, LEFTOVER, 0, Comparing(text, 0, false), LEFTOVER, false, true);
    FirstAdvances(Comparing(text, 0, false), Trying, LEFTOVER, 0, Unlinking(0, false), LEFTOVER, false, true);
    FirstAdvances(Unlinking(0, false), Trying, LEFTOVER, 0, Trying, None, false, true);
    FirstAdvances(Trying, Trying, None, 0, Creating, unwritten, false, true);
    ReachOne(Contended(Creating, Trying, unwritten, 0), Tick(UNKNOWN_LOCK_GRACE_SECONDS), false, true);
  }

  /**
   Although every unlink finds the marker that was read, exclusion fails if a writer stalls for the
   grace period between creating and writing its marker: this run meets only the second condition.
   */
  lemma StalledWriterBreaksExclusion()
    ensures var now := UNKNOWN_LOCK_GRACE_SECONDS;
      var s := Contended(Inside, Inside, Some(File(2, Contents(3, "c"), now)), now);
      Reachable(s, false, true) && !Exclusive(s)
  {
    var now := UNKNOWN_LOCK_GRACE_SECONDS;
    var empty, taken := Some(File(1, "", 0)), Some(File(2, Contents(3, "c"), now));
    EmptyIsStale(Creating, Judging("", 1));
    hide Reachable, Contents, Stale;
    StalledIsReachable();
    SecondAdvances(Creating, Trying, empty, now, Blocked, empty, false, true);
    SecondAdvances(Creating, Blocked, empty, now, Judging("", 1), empty, false, true);
    SecondAdvances(Creating, Judging("", 1), empty, now, Comparing("", 1, false), empty, false, true);
    SecondAdvances(Creating, Comparing("", 1, false), empty, now, Unlinking(1, false), empty, false, true);
    SecondAdvances(Creating, Unlinking(1, false), empty, now, Trying, None, false, true);
    SecondAdvances(Creating, Trying, None, now, Creating, Some(File(2, "", now)), false, true);
    SecondAdvances(Creating, Creating, Some(File(2, "", now)), now, Inside, taken, false, true);
    FirstAdvances(Creating, Inside, taken, now, Inside, taken, false, true);
    var s := Contended(Inside, Inside, taken, now);
    assert Holding(s, 1) && Holding(s, 2);
  }

  lemma EmptyIsStale(p: Phase, q: Phase)
    ensures Stale(Contended(p, q, Some(File(1, "", 0)), UNKNOWN_LOCK_GRACE_SECONDS), "")
  {
    hide Contents;
    assert SplitLines("") == [];
  }
}
