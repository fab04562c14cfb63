/** How a file of the store is written, system call by system call (DirStore._write, slhwid/_store.py:189-205). */
module AtomicWrite {
  import opened Wrappers
  import opened Bytes
  import opened Store

  /** A file: what reading it yields, its permission bits, and whether what it holds has reached the disk. */
  datatype File = File(data: bytes, mode: nat, durable: bool)

  type Directory = map<string, File>

  /** One call. mkstemp makes up a name that is not taken; not every system has fchmod. */
  datatype Job = Job(target: string, temporary: string, data: bytes, fchmod: bool)

  /** The system call that comes next, or how the call ended. */
  datatype Phase =
    | Creating | Restricting | Opening | Filling(written: nat) | Syncing | Closing | Replacing
    | Removing(failed: bool) | Tightening
    | Returned | Raised | Crashed

  /** The directory, and what it goes back to when a replace is lost that has not reached the disk. */
  datatype State = State(dir: Directory, phase: Phase, undo: Option<Directory>)

  /**
   What happens next: the call succeeds (a write takes count more bytes or fewer; mkstemp sets mode),
   it raises OSError, the process dies, or the machine loses power, which may lose a replace and leaves
   anything in files that were not synced.
   */
  datatype Event = Succeeds(count: nat, mode: nat) | Fails | Dies | LosesPower(undone: bool, rest: bytes)

  const PRIVATE := 0x180 // 0o600

  predicate Fresh(job: Job, start: Directory) {
    && job.temporary !in start && job.temporary != job.target
    && forall name :: name in start ==> start[name].durable
  }

  function Begin(start: Directory): State {
    State(start, Creating, None)
  }

  predicate Stopped(phase: Phase) {
    phase.Returned? || phase.Raised? || phase.Crashed?
  }

  // ---------------------------------------------------------------- steps

  function Without(dir: Directory, name: string): Directory {
    map other | other in dir && other != name :: dir[other]
  }

  /** What a loss of power leaves of a directory. */
  function AfterLoss(dir: Directory, rest: bytes): Directory {
    map name | name in dir :: if dir[name].durable then dir[name] else dir[name].(data := rest, durable := true)
  }

  /** Changes the file of the given name, if there is one. */
  function Change(dir: Directory, name: string, f: File -> File): Directory {
    if name in dir then dir[name := f(dir[name])] else dir
  }

  function Succeeded(job: Job, s: State, count: nat, mode: nat): State {
    match s.phase
    case Creating => s.(dir := s.dir[job.temporary := File([], mode, false)], phase := Restricting)
    case Restricting =>
      s.(dir := Change(s.dir, job.temporary, (f: File) => if job.fchmod then f.(mode := PRIVATE) else f),
         phase := Opening)
    case Opening => s.(phase := Filling(0))
    case Filling(n) =>
      var m := if n + count < |job.data| then n + count else |job.data|;
      s.(dir := Change(s.dir, job.temporary, (f: File) => f.(data := job.data[..m], durable := false)),
         phase := if m < |job.data| then Filling(m) else Syncing)
    case Syncing => s.(dir := Change(s.dir, job.temporary, (f: File) => f.(durable := true)), phase := Closing)
    case Closing => s.(phase := Replacing)
    case Replacing =>
      if job.temporary !in s.dir then s else
        State(Without(s.dir, job.temporary)[job.target := s.dir[job.temporary]], Removing(false), Some(s.dir))
    case Removing(failed) =>
      s.(dir := Without(s.dir, job.temporary), phase := if failed then Raised else Tightening)
    case Tightening => s.(dir := Change(s.dir, job.target, (f: File) => f.(mode := PRIVATE)), phase := Returned)
    case _ => s
  }

  /** An OSError inside the try block leads to the unlink, one outside it leaves the call. */
  function Failed(s: State): State {
    match s.phase
    case Creating => s.(phase := Raised)
    case Removing(_) => s.(phase := Raised)
    case Tightening => s.(phase := Raised)
    case Returned => s
    case Raised => s
    case Crashed => s
    case _ => s.(phase := Removing(true))
  }

  function Step(job: Job, s: State, e: Event): State {
    match e
    case Succeeds(count, mode) => Succeeded(job, s, count, mode)
    case Fails => Failed(s)
    case Dies => if Stopped(s.phase) then s else s.(phase := Crashed)
    case LosesPower(undone, rest) =>
      State(AfterLoss(if undone && s.undo.Some? then s.undo.value else s.dir, rest), Crashed, None)
  }

  function Run(job: Job, s: State, events: seq<Event>): State {
    if events == [] then s else Step(job, Run(job, s, events[..|events| - 1]), events[|events| - 1])
  }

  // ---------------------------------------------------------------- what every step keeps

  function Entry(dir: Directory, name: string): Option<File> {
    if name in dir then Some(dir[name]) else None
  }

  function Contents(dir: Directory, name: string): Option<bytes> {
    if name in dir then Some(dir[name].data) else None
  }

  /** The temporary file exists while the call is in one of these phases. */
  predicate Holds(phase: Phase) {
    && (phase.Restricting? || phase.Opening? || phase.Filling? || phase.Syncing? || phase.Closing? || phase.Replacing?
        || phase == Removing(true))
  }

  /** The new file has taken the place of the old one. */
  predicate IsReplaced(phase: Phase) {
    phase == Removing(false) || phase.Tightening? || phase.Returned?
  }

  /** The file as it is when it replaces the target. */
  predicate IsNew(job: Job, f: File) {
    f.data == job.data && f.durable && (job.fchmod ==> f.mode == PRIVATE)
  }

  ghost predicate OthersKept(job: Job, start: Directory, dir: Directory) {
    forall name :: name != job.target && name != job.temporary ==> Entry(dir, name) == Entry(start, name)
  }

  ghost predicate TargetIsOld(job: Job, start: Directory, dir: Directory) {
    Entry(dir, job.target) == Entry(start, job.target)
  }

  predicate TargetIsNew(job: Job, dir: Directory) {
    job.target in dir && IsNew(job, dir[job.target]) && job.temporary !in dir
  }

  /** Losing the replace would bring this directory back: the old target, and the temporary file complete. */
  ghost predicate CanUndo(job: Job, start: Directory, dir: Directory) {
    && OthersKept(job, start, dir) && TargetIsOld(job, start, dir)
    && job.temporary in dir && IsNew(job, dir[job.temporary])
  }

  predicate TemporaryFits(job: Job, f: File, phase: Phase) {
    && (phase.Opening? || phase.Filling? || phase.Syncing? || phase.Closing? || phase.Replacing? ==>
          job.fchmod ==> f.mode == PRIVATE)
    && (phase.Restricting? || phase.Opening? ==> f.data == [])
    && (phase.Filling? ==> phase.written <= |job.data| && f.data == job.data[..phase.written])
    && (phase.Syncing? ==> f.data == job.data)
    && (phase.Closing? || phase.Replacing? ==> f.data == job.data && f.durable)
  }

  ghost predicate Inv(job: Job, start: Directory, s: State) {
    && OthersKept(job, start, s.dir)
    && (TargetIsOld(job, start, s.dir) || TargetIsNew(job, s.dir))
    && (s.phase.Creating? ==> s.dir == start)
    && (Holds(s.phase) ==> job.temporary in s.dir && TemporaryFits(job, s.dir[job.temporary], s.phase))
    && (Holds(s.phase) || s.phase.Creating? ==> TargetIsOld(job, start, s.dir) && s.undo.None?)
    && (IsReplaced(s.phase) ==> TargetIsNew(job, s.dir) && s.undo.Some?)
    && (s.phase.Returned? ==> job.target in s.dir && s.dir[job.target].mode == PRIVATE)
    && (s.undo.Some? ==> TargetIsNew(job, s.dir) && CanUndo(job, start, s.undo.value))
  }

  lemma FillingKeepsInv(job: Job, start: Directory, s: State, count: nat, mode: nat)
    requires Fresh(job, start) && Inv(job, start, s)
    requires s.phase.Creating? || (Holds(s.phase) && !s.phase.Replacing? && !s.phase.Removing?)
    ensures Inv(job, start, Succeeded(job, s, count, mode))
  {
    var s' := Succeeded(job, s, count, mode);
    assert forall name :: name != job.temporary ==> Entry(s'.dir, name) == Entry(s.dir, name);
  }

  lemma ReplaceKeepsInv(job: Job, start: Directory, s: State, count: nat, mode: nat)
    requires Fresh(job, start) && Inv(job, start, s) && s.phase.Replacing?
    ensures Inv(job, start, Succeeded(job, s, count, mode))
  {
  }

  lemma CleanupKeepsInv(job: Job, start: Directory, s: State, count: nat, mode: nat)
    requires Fresh(job, start) && Inv(job, start, s)
    requires s.phase.Removing? || s.phase.Tightening? || Stopped(s.phase)
    ensures Inv(job, start, Succeeded(job, s, count, mode))
  {
    var s' := Succeeded(job, s, count, mode);
    assert forall name :: name != job.target && name != job.temporary ==> Entry(s'.dir, name) == Entry(s.dir, name);
  }

  lemma SuccessKeepsInv(job: Job, start: Directory, s: State, count: nat, mode: nat)
    requires Fresh(job, start) && Inv(job, start, s)
    ensures Inv(job, start, Succeeded(job, s, count, mode))
  {
    hide Inv, Fresh, Succeeded;
    match s.phase
    case Replacing => ReplaceKeepsInv(job, start, s, count, mode);
    case Creating => FillingKeepsInv(job, start, s, count, mode);
    case Restricting => FillingKeepsInv(job, start, s, count, mode);
    case Opening => FillingKeepsInv(job, start, s, count, mode);
    case Filling(_) => FillingKeepsInv(job, start, s, count, mode);
    case Syncing => FillingKeepsInv(job, start, s, count, mode);
    case Closing => FillingKeepsInv(job, start, s, count, mode);
    case _ => CleanupKeepsInv(job, start, s, count, mode);
  }

  lemma LossKeepsInv(job: Job, start: Directory, s: State, undone: bool, rest: bytes)
    requires Fresh(job, start) && Inv(job, start, s)
    ensures Inv(job, start, Step(job, s, LosesPower(undone, rest)))
  {
    var dir := if undone && s.undo.Some? then s.undo.value else s.dir;
    var after := AfterLoss(dir, rest);
    forall name | name != job.temporary && Entry(dir, name) == Entry(start, name)
      ensures Entry(after, name) == Entry(start, name)
    {
    }
  }

  /** No step of a call breaks the invariant, whatever happens to it. */
  lemma StepKeepsInv(job: Job, start: Directory, s: State, e: Event)
    requires Fresh(job, start) && Inv(job, start, s)
    ensures Inv(job, start, Step(job, s, e))
  {
    match e
    case Succeeds(count, mode) => SuccessKeepsInv(job, start, s, count, mode);
    case LosesPower(undone, rest) => LossKeepsInv(job, start, s, undone, rest);
    case _ =>
  }

  lemma {:induction false} RunKeepsInv(job: Job, start: Directory, events: seq<Event>)
    requires Fresh(job, start)
    ensures Inv(job, start, Run(job, Begin(start), events))
  {
    hide Step, Inv;
    if events != [] {
      RunKeepsInv(job, start, events[..|events| - 1]);
      StepKeepsInv(job, start, Run(job, Begin(start), events[..|events| - 1]), events[|events| - 1]);
    } else {
      BeginFits(job, start);
    }
  }

  lemma BeginFits(job: Job, start: Directory)
    requires Fresh(job, start)
    ensures Inv(job, start, Begin(start))
  {
  }

  // ---------------------------------------------------------------- what a write promises

  /**
   Whatever happens during a write, and when: the target is the old file or holds all of the new bytes,
   with private permissions where the system has fchmod, and no other file but the temporary one changes.
   */
  lemma TargetIsWhole(job: Job, start: Directory, events: seq<Event>)
    requires Fresh(job, start)
    ensures var dir := Run(job, Begin(start), events).dir;
      && (Entry(dir, job.target) == Entry(start, job.target) || TargetIsNew(job, dir))
      && forall name :: name != job.target && name != job.temporary ==> Entry(dir, name) == Entry(start, name)
  {
    RunKeepsInv(job, start, events);
  }

  /** A write that returns has put a private file with the new bytes in place and left no temporary file. */
  lemma ReturnedIsWritten(job: Job, start: Directory, events: seq<Event>)
    requires Fresh(job, start) && Run(job, Begin(start), events).phase.Returned?
    ensures var dir := Run(job, Begin(start), events).dir;
      Entry(dir, job.target) == Some(File(job.data, PRIVATE, true)) && job.temporary !in dir
  {
    RunKeepsInv(job, start, events);
  }

  /**
   The temporary file stays behind exactly when the process or the power fails while it exists, when the
   unlink after an error fails too, or when a loss of power takes back the replace.
   */
  lemma LeftBehindIsExact(job: Job, start: Directory, events: seq<Event>, e: Event)
    requires Fresh(job, start)
    requires var s := Run(job, Begin(start), events); !Stopped(s.phase) && Stopped(Step(job, s, e).phase)
    ensures var s := Run(job, Begin(start), events);
      job.temporary in Step(job, s, e).dir <==>
        match e
        case Succeeds(_, _) => false
        case Fails => s.phase == Removing(true)
        case Dies => Holds(s.phase)
        case LosesPower(undone, _) => Holds(s.phase) || (undone && IsReplaced(s.phase))
  {
    RunKeepsInv(job, start, events);
  }

  // ---------------------------------------------------------------- the store's view of a write

  /** However a call ends, the store sees one of its three faults, and success exactly when the call returns. */
  lemma OutcomeIsFault(job: Job, start: Directory, events: seq<Event>) returns (fault: Fault)
    requires Fresh(job, start) && Stopped(Run(job, Begin(start), events).phase)
    ensures var s := Run(job, Begin(start), events);
      && Contents(s.dir, job.target) == Replaced(Contents(start, job.target), job.data, fault)
      && (s.phase.Returned? <==> fault == Clean)
  {
    RunKeepsInv(job, start, events);
    var s := Run(job, Begin(start), events);
    fault := if s.phase.Returned? then Clean
             else if Entry(s.dir, job.target) == Entry(start, job.target) then BeforeReplace else AfterReplace;
  }

  function Successes(job: Job, n: nat): seq<Event> {
    seq(n, _ => Succeeds(|job.data|, PRIVATE))
  }

  lemma NextSuccess(job: Job, start: Directory, n: nat)
    ensures Run(job, Begin(start), Successes(job, n + 1)) ==
      Succeeded(job, Run(job, Begin(start), Successes(job, n)), |job.data|, PRIVATE)
  {
    assert Successes(job, n + 1)[..n] == Successes(job, n);
  }

  lemma ReachesSyncing(job: Job, start: Directory)
    ensures var s := Run(job, Begin(start), Successes(job, 4)); s.phase.Syncing? && job.temporary in s.dir
  {
    hide Run, Successes;
    FirstState(job, start);
    NextSuccess(job, start, 0);
    NextSuccess(job, start, 1);
    NextSuccess(job, start, 2);
    NextSuccess(job, start, 3);
  }

  lemma ReachesTightening(job: Job, start: Directory)
    ensures Run(job, Begin(start), Successes(job, 8)).phase.Tightening?
  {
    hide Run, Successes;
    ReachesSyncing(job, start);
    NextSuccess(job, start, 4);
    NextSuccess(job, start, 5);
    NextSuccess(job, start, 6);
    NextSuccess(job, start, 7);
  }

  lemma FirstState(job: Job, start: Directory)
    ensures Run(job, Begin(start), Successes(job, 0)) == Begin(start)
  {
  }

  /** Each of the three faults is how some call ends. */
  lemma FaultIsReached(job: Job, start: Directory, fault: Fault) returns (events: seq<Event>)
    requires Fresh(job, start)
    ensures var s := Run(job, Begin(start), events);
      && Stopped(s.phase) && (s.phase.Returned? <==> fault == Clean)
      && Contents(s.dir, job.target) == Replaced(Contents(start, job.target), job.data, fault)
  {
    var ok := Succeeds(|job.data|, PRIVATE);
    match fault
    case BeforeReplace =>
      events := [Fails];
      assert Run(job, Begin(start), events[..0]) == Begin(start);
    case _ =>
      ReachesTightening(job, start);
      RunKeepsInv(job, start, Successes(job, 8));
      var last := if fault == Clean then ok else Fails;
      events := Successes(job, 8) + [last];
      assert events[..8] == Successes(job, 8);
  }
}
