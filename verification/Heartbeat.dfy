/** One authenticated session: rotating token, one idempotent retry, a failure hook (session.py). */
module Heartbeat {
  import opened Wrappers

  // ---------------------------------------------------------------- what the client sees

  datatype ErrorKind = Transport | UnsignedResponse | InvalidSignature | InvalidPayload | FreshnessViolation
                     | SessionTerminated | LocalFailure

  /** The parts of a verified response that a heartbeat looks at. */
  datatype Response = Response(code: string, authed: bool, sessionToken: Option<string>)

  /** What checking a body yields: a response, or the kind of the error raised. */
  datatype Verification = Verified(response: Response) | Rejected(kind: ErrorKind)

  /** A transport result, with the verdicts of verify_signed and parse_unsigned on its body. */
  datatype HttpResponse = HttpResponse(error: bool, status: int, signed: Verification, unsigned: Verification) {
    predicate Ok() {
      !error && 200 <= status < 300
    }
  }

  /** What a heartbeat call does: it returns a response, or raises an error. */
  datatype Outcome = Returned(response: Response) | Raised(kind: ErrorKind)

  /** One call of the failure hook. */
  datatype Failure = Failure(kind: ErrorKind, response: Option<Response>, completed: nat)

  /** What another thread may do while an exchange is in flight. */
  datatype Interruption = Undisturbed | Stopped | ClockJumped

  const CLOCK_JUMP_TOLERANCE_SECONDS := 2.0

  predicate IsRotated(token: string) {
    "BRF_" <= token
  }

  // ---------------------------------------------------------------- the session as a value

  /** The session's fields; failures lists the calls made to the hook, which may be absent. */
  datatype Client = Client(token: string, alive: bool, completed: nat, stopped: bool, hooked: bool,
                           failures: seq<Failure>)

  datatype Beat = Beat(client: Client, outcome: Outcome)

  function StopOf(c: Client): Client {
    c.(alive := false, stopped := true)
  }

  function FailOf(c: Client, kind: ErrorKind, response: Option<Response>): Client {
    var dead := StopOf(c);
    if c.alive && c.hooked then dead.(failures := c.failures + [Failure(kind, response, c.completed)]) else dead
  }

  function Interrupt(c: Client, during: Interruption): Client {
    match during
    case Undisturbed => c
    case Stopped => StopOf(c)
    case ClockJumped => FailOf(c, LocalFailure, None)
  }

  /** What a verified response leads to. */
  function Settle(c: Client, r: Response): Beat {
    if r.code != "OK" || !r.authed || r.sessionToken.None? then Beat(FailOf(c, SessionTerminated, Some(r)), Returned(r))
    else if !IsRotated(r.sessionToken.value) then Beat(FailOf(c, InvalidPayload, None), Raised(InvalidPayload))
    else Beat(c.(token := r.sessionToken.value, completed := c.completed + 1), Returned(r))
  }

  function Reject(c: Client, kind: ErrorKind): Beat {
    Beat(FailOf(c, kind, None), Raised(kind))
  }

  /** One heartbeat, given what the first and, if it errs, the repeated request bring back. */
  function HeartbeatOf(c: Client, first: HttpResponse, second: HttpResponse, during: Interruption): Beat {
    if !c.alive then Beat(c, Raised(SessionTerminated))
    else
      var d, http := Interrupt(c, during), if first.error then second else first;
      if !http.Ok() then Reject(d, Transport)
      else
        match http.signed
        case Verified(r) => Settle(d, r)
        case Rejected(kind) =>
          if kind != UnsignedResponse then Reject(d, kind)
          else
            match http.unsigned
            case Verified(r) => Settle(d, r)
            case Rejected(revoked) => Reject(d, revoked)
  }

  /** One turn of the background loop: what the clocks show after the wait, and the exchange that follows. */
  datatype Wake = Wake(halt: bool, monotonic: real, wall: real, first: HttpResponse, second: HttpResponse,
                       during: Interruption)

  function Abs(x: real): real {
    if x < 0.0 then -x else x
  }

  /** The monotonic and the wall clock moved by different amounts between two wakes. */
  predicate Jumped(before: (real, real), w: Wake) {
    Abs((w.monotonic - before.0) - (w.wall - before.1)) > CLOCK_JUMP_TOLERANCE_SECONDS
  }

  /** What the background loop leaves after the given wakes, from the clock readings before them. */
  function LoopOf(c: Client, before: (real, real), wakes: seq<Wake>): Client
    decreases |wakes|
  {
    if wakes == [] then c
    else
      var w := wakes[0];
      var d := if w.halt then StopOf(c) else c;
      if d.stopped then d
      else if Jumped(before, w) then FailOf(d, LocalFailure, None)
      else
        var b := HeartbeatOf(d, w.first, w.second, w.during);
        if b.outcome.Raised? || !b.client.alive then b.client else LoopOf(b.client, (w.monotonic, w.wall), wakes[1..])
  }

  // ---------------------------------------------------------------- the object

  class BedrockSession {
    var token: string
    var alive: bool
    var completed: nat
    var stopEvent: bool
    var hook: bool
    var failures: seq<Failure>

    constructor (token: string, hook: bool)
      ensures State() == Client(token, true, 0, false, hook, [])
    {
      this.token, alive, completed, stopEvent, this.hook, failures := token, true, 0, false, hook, [];
    }

    function State(): Client
      reads this
    {
      Client(token, alive, completed, stopEvent, hook, failures)
    }

    method Stop()
      modifies this`alive, this`stopEvent
      ensures State() == StopOf(old(State()))
    {
      alive := false;
      stopEvent := true;
    }

    method SetHook(hook: bool)
      modifies this`hook
      ensures State() == old(State()).(hooked := hook)
    {
      this.hook := hook;
    }

    /** fail, as one step: only the call that ends the session reaches the hook. */
    method Fail(kind: ErrorKind, response: Option<Response>)
      modifies this`alive, this`stopEvent, this`failures
      ensures State() == FailOf(old(State()), kind, response)
    {
      var wasAlive := alive;
      Stop();
      if !wasAlive { return; }
      if hook { failures := failures + [Failure(kind, response, completed)]; }
    }

    /** _heartbeat_once, under the request lock. */
    method HeartbeatOnce(first: HttpResponse, second: HttpResponse, during: Interruption) returns (r: Outcome)
      modifies this
      ensures Beat(State(), r) == HeartbeatOf(old(State()), first, second, during)
    {
      if !alive { return Raised(SessionTerminated); }
      match during {
        case Undisturbed =>
        case Stopped => Stop();
        case ClockJumped => Fail(LocalFailure, None);
      }
      var http := first;
      if http.error { http := second; }
      if !http.Ok() {
        Fail(Transport, None);
        return Raised(Transport);
      }
      var verdict := http.signed;
      if verdict == Rejected(UnsignedResponse) { verdict := http.unsigned; }
      if verdict.Rejected? {
        Fail(verdict.kind, None);
        return Raised(verdict.kind);
      }
      var response := verdict.response;
      if response.code != "OK" || !response.authed || response.sessionToken.None? {
        Fail(SessionTerminated, Some(response));
        return Returned(response);
      }
      if !IsRotated(response.sessionToken.value) {
        Fail(InvalidPayload, None);
        return Raised(InvalidPayload);
      }
      token, completed := response.sessionToken.value, completed + 1;
      return Returned(response);
    }

    /** _run: beats until the session is stopped, fails, or the clocks disagree. */
    method Loop(monotonic: real, wall: real, wakes: seq<Wake>)
      modifies this
      ensures State() == LoopOf(old(State()), (monotonic, wall), wakes)
    {
      var before := (monotonic, wall);
      for i := 0 to |wakes|
        invariant LoopOf(old(State()), (monotonic, wall), wakes) == LoopOf(State(), before, wakes[i..])
      {
        var w := wakes[i];
        assert wakes[i..][1..] == wakes[i + 1..];
        if w.halt { Stop(); }
        if stopEvent { return; }
        if Jumped(before, w) {
          Fail(LocalFailure, None);
          return;
        }
        before := (w.monotonic, w.wall);
        var r := HeartbeatOnce(w.first, w.second, w.during);
        if r.Raised? || !alive { return; }
      }
    }
  }

  // ---------------------------------------------------------------- the server and the network

  /** A request the server granted, kept so that an exact repeat gets the same answer. */
  datatype Served = Served(token: string, challenge: string, next: string)

  /** The server's side of one session: its current token, its last grant, and every token it ever issued. */
  datatype Server = Server(current: string, last: Option<Served>, issued: set<string>, rotations: nat)

  /** What the server would do with a current request: rotate to a new token, or deny with a code. */
  datatype Verdict = Grant(next: string) | Deny(code: string)

  function Granted(next: string): Response {
    Response("OK", true, Some(next))
  }

  function Denied(code: string): Response {
    Response(if code == "OK" then "SESSION_TERMINATED" else code, false, None)
  }

  datatype Serving = Serving(server: Server, response: Response)

  /**
   The server answers a repeat of its last granted request from its cache, rejects other requests
   with a stale token, and otherwise follows the verdict; a grant issues a token never used before.
   */
  function Serve(s: Server, token: string, challenge: string, verdict: Verdict): Serving {
    if s.last.Some? && s.last.value.token == token && s.last.value.challenge == challenge
    then Serving(s, Granted(s.last.value.next))
    else if token != s.current then Serving(s, Denied("STALE_SESSION"))
    else
      match verdict
      case Grant(next) =>
        if next in s.issued || !IsRotated(next) then Serving(s, Denied("INTERNAL_ERROR"))
        else Serving(Server(next, Some(Served(token, challenge, next)), s.issued + {next}, s.rotations + 1),
                     Granted(next))
      case Deny(code) => Serving(s, Denied(code))
  }

  /**
   What the network does to one exchange. A response that does not arrive whole fails verification;
   an unsigned one can at most be a denial.
   */
  datatype Fate =
    | Delivered
    | RequestLost
    | ResponseLost
    | Unavailable(reached: bool, status: int)
    | Damaged(reached: bool, kind: ErrorKind, denial: Option<string>)

  datatype Exchanged = Exchanged(server: Server, http: HttpResponse)

  const LOST := HttpResponse(true, 0, Rejected(UnsignedResponse), Rejected(UnsignedResponse))

  function Exchange(s: Server, token: string, challenge: string, verdict: Verdict, fate: Fate): Exchanged {
    var served := Serve(s, token, challenge, verdict);
    match fate
    case Delivered =>
      Exchanged(served.server, HttpResponse(false, 200, Verified(served.response), Rejected(UnsignedResponse)))
    case RequestLost => Exchanged(s, LOST)
    case ResponseLost => Exchanged(served.server, LOST)
    case Unavailable(reached, status) =>
      var code := if 200 <= status < 300 then 503 else status;
      Exchanged(if reached then served.server else s,
                HttpResponse(false, code, Rejected(UnsignedResponse), Rejected(UnsignedResponse)))
    case Damaged(reached, kind, denial) =>
      Exchanged(if reached then served.server else s,
                HttpResponse(false, 200, Rejected(kind),
                             if denial.Some? then Verified(Denied(denial.value)) else Rejected(UnsignedResponse)))
  }

  // ---------------------------------------------------------------- runs of both sides

  datatype World = World(client: Client, server: Server)

  datatype Action =
    | DoBeat(challenge: string, verdict: Verdict, fate: Fate, verdict2: Verdict, fate2: Fate, during: Interruption)
    | DoStop
    | DoClockJump
    | DoSetHook(hook: bool)

  /** A heartbeat of a live session against the server: a failed transport repeats the request once. */
  function BeatOf(w: World, a: Action): Beat
    requires a.DoBeat?
  {
    var one := Exchange(w.server, w.client.token, a.challenge, a.verdict, a.fate);
    var two := Exchange(one.server, w.client.token, a.challenge, a.verdict2, a.fate2);
    HeartbeatOf(w.client, one.http, two.http, a.during)
  }

  /** What a heartbeat leaves on both sides: a dead session sends nothing. */
  function BeatStep(w: World, a: Action): World
    requires a.DoBeat?
  {
    if !w.client.alive then w
    else
      var one := Exchange(w.server, w.client.token, a.challenge, a.verdict, a.fate);
      var two := Exchange(one.server, w.client.token, a.challenge, a.verdict2, a.fate2);
      World(BeatOf(w, a).client, if one.http.error then two.server else one.server)
  }

  function Execute(w: World, a: Action): World {
    match a
    case DoBeat(_, _, _, _, _, _) => BeatStep(w, a)
    case DoStop => w.(client := StopOf(w.client))
    case DoClockJump => w.(client := FailOf(w.client, LocalFailure, None))
    case DoSetHook(hook) => w.(client := w.client.(hooked := hook))
  }

  function Run(w: World, actions: seq<Action>): World
    decreases |actions|
  {
    if actions == [] then w else Run(Execute(w, actions[0]), actions[1..])
  }

  /** A session just opened: both sides hold the initial token. */
  predicate Opened(w: World) {
    && w.client.alive && !w.client.stopped && w.client.completed == 0 && w.client.failures == []
    && w.server.current == w.client.token && w.server.last.None?
    && w.server.issued == {w.client.token} && w.server.rotations == 0
  }

  /** The server knows its own tokens, and never repeats one. */
  predicate ServerOk(s: Server) {
    && s.current in s.issued
    && (s.last.Some? ==>
          s.last.value.token in s.issued && s.last.value.token != s.current && s.last.value.next == s.current)
  }

  /**
   Token agreement: a session that is alive holds the server's current token and has counted every
   rotation; a dead one is at most one rotation behind. The hook was called at most once, and only
   if the session is over.
   */
  predicate Agreement(w: World) {
    var c, s := w.client, w.server;
    && ServerOk(s)
    && (c.alive ==> c.token == s.current && c.completed == s.rotations && !c.stopped)
    && c.completed <= s.rotations <= c.completed + 1
    && |c.failures| <= 1 && (c.failures != [] ==> !c.alive)
  }

  /** One exchange rotates at most once, and a response that arrives as granted carries the server's current token. */
  lemma ExchangeRotatesOnce(s: Server, token: string, challenge: string, verdict: Verdict, fate: Fate)
    requires ServerOk(s) && token == s.current
    ensures var e := Exchange(s, token, challenge, verdict, fate);
      && ServerOk(e.server)
      && (e.server == s || (e.server.rotations == s.rotations + 1
                            && e.server.last == Some(Served(token, challenge, e.server.current))))
      && (e.http.Ok() && e.http.signed.Verified? && e.http.signed.response.authed ==>
          e.server != s && e.http.signed.response == Granted(e.server.current) && IsRotated(e.server.current))
      && (e.http.signed.Rejected? && e.http.unsigned.Verified? ==> !e.http.unsigned.response.authed)
  {
  }

  /** Repeating a request the server has already granted changes nothing and brings the same grant. */
  lemma RepeatIsIdempotent(s: Server, token: string, challenge: string, verdict: Verdict, fate: Fate)
    requires ServerOk(s) && s.last == Some(Served(token, challenge, s.current)) && IsRotated(s.current)
    ensures var e := Exchange(s, token, challenge, verdict, fate);
      && e.server == s
      && (e.http.Ok() && e.http.signed.Verified? ==> e.http.signed.response == Granted(s.current))
      && (e.http.signed.Rejected? && e.http.unsigned.Verified? ==> !e.http.unsigned.response.authed)
  {
  }

  /** After a beat either nothing or one rotation happened, and a grant was taken over exactly if it arrived. */
  lemma BeatOutcome(w: World, a: Action)
    requires Agreement(w) && w.client.alive && a.DoBeat?
    ensures var w' := BeatStep(w, a);
      && ServerOk(w'.server) && w.server.rotations <= w'.server.rotations <= w.server.rotations + 1
      && (w'.client.completed == w.client.completed
          || w'.client.completed == w.client.completed + 1 == w'.server.rotations)
      && (w'.client.completed == w.client.completed ==> !w'.client.alive)
      && (w'.client.completed != w.client.completed ==> w'.client.token == w'.server.current)
  {
    var c, s := w.client, w.server;
    var one := Exchange(s, c.token, a.challenge, a.verdict, a.fate);
    ExchangeRotatesOnce(s, c.token, a.challenge, a.verdict, a.fate);
    if one.http.error {
      LostRotation(s, c.token, a.challenge, a.verdict, a.fate);
      if one.server == s {
        ExchangeRotatesOnce(s, c.token, a.challenge, a.verdict2, a.fate2);
      } else {
        RepeatIsIdempotent(one.server, c.token, a.challenge, a.verdict2, a.fate2);
      }
    }
    hide Exchange, Serve, IsRotated;
  }

  /** What a lost exchange leaves at the server is nothing, or a rotated token. */
  lemma LostRotation(s: Server, token: string, challenge: string, verdict: Verdict, fate: Fate)
    requires ServerOk(s) && token == s.current
    ensures var e := Exchange(s, token, challenge, verdict, fate); e.server != s ==> IsRotated(e.server.current)
  {
  }

  lemma StepKeepsAgreement(w: World, a: Action)
    requires Agreement(w)
    ensures Agreement(Execute(w, a))
  {
    if a.DoBeat? && w.client.alive {
      BeatOutcome(w, a);
      HookBudget(w.client, a, w.server);
    }
    hide BeatStep, Serve, Exchange, HeartbeatOf;
  }

  /** A beat calls the hook at most once, and only if it ends the session. */
  lemma HookBudget(c: Client, a: Action, s: Server)
    requires c.alive && c.failures == [] && !c.stopped && a.DoBeat?
    ensures var d := BeatStep(World(c, s), a).client;
      |d.failures| <= 1 && (d.failures != [] ==> !d.alive) && (d.alive ==> !d.stopped)
  {
    hide Exchange, Serve, IsRotated;
  }

  lemma {:induction false} RunKeepsAgreement(w: World, actions: seq<Action>)
    requires Agreement(w)
    ensures Agreement(Run(w, actions))
    decreases |actions|
  {
    hide Agreement, Execute;
    if actions != [] {
      StepKeepsAgreement(w, actions[0]);
      RunKeepsAgreement(Execute(w, actions[0]), actions[1..]);
    }
  }

  /**
   Token agreement over all runs: whatever is lost, damaged, denied, stopped or interrupted, a live
   session holds the server's current token and its count is the server's rotations, and the
   failure hook is called at most once.
   */
  lemma TokensAgree(w: World, actions: seq<Action>)
    requires Opened(w)
    ensures var w' := Run(w, actions);
      && (w'.client.alive ==> w'.client.token == w'.server.current && w'.client.completed == w'.server.rotations)
      && w'.client.completed <= w'.server.rotations <= w'.client.completed + 1
      && |w'.client.failures| <= 1
  {
    RunKeepsAgreement(w, actions);
    hide Run;
  }

  /** The exchange whose answer a beat settles on: the repeated one if the first was lost. */
  function FinalFate(a: Action): Fate
    requires a.DoBeat?
  {
    if a.fate == RequestLost || a.fate == ResponseLost then a.fate2 else a.fate
  }

  /** A response that renews the session. */
  predicate Renews(r: Response) {
    r.code == "OK" && r.authed && r.sessionToken.Some? && IsRotated(r.sessionToken.value)
  }

  predicate Renewed(http: HttpResponse) {
    http.Ok() && if http.signed == Rejected(UnsignedResponse)
                 then http.unsigned.Verified? && Renews(http.unsigned.response)
                 else http.signed.Verified? && Renews(http.signed.response)
  }

  /** A heartbeat keeps a live session alive exactly if the exchange it settles on renews it and nothing intervened. */
  lemma HeartbeatIsExact(c: Client, first: HttpResponse, second: HttpResponse, during: Interruption)
    requires c.alive
    ensures HeartbeatOf(c, first, second, during).client.alive
       <==> during == Undisturbed && Renewed(if first.error then second else first)
  {
    hide IsRotated;
  }

  /** The server would rotate to a new token. */
  predicate WouldGrant(s: Server, verdict: Verdict) {
    verdict.Grant? && verdict.next !in s.issued && IsRotated(verdict.next)
  }

  lemma ExchangeIsExact(s: Server, token: string, challenge: string, verdict: Verdict, fate: Fate)
    requires ServerOk(s) && token == s.current
    ensures var e := Exchange(s, token, challenge, verdict, fate);
      && (Renewed(e.http) <==> fate == Delivered && WouldGrant(s, verdict))
      && (e.http.error <==> fate == RequestLost || fate == ResponseLost)
      && (fate == RequestLost ==> e.server == s)
      && (fate == ResponseLost ==>
            if WouldGrant(s, verdict) then IsRotated(e.server.current) && e.server != s else e.server == s)
  {
    hide IsRotated;
  }

  lemma RepeatIsExact(s: Server, token: string, challenge: string, verdict: Verdict, fate: Fate)
    requires ServerOk(s) && s.last == Some(Served(token, challenge, s.current)) && IsRotated(s.current)
    ensures Renewed(Exchange(s, token, challenge, verdict, fate).http) <==> fate == Delivered
  {
    hide IsRotated;
  }

  /**
   A beat keeps the session alive exactly when the server granted it and the answer came through on
   the first try or on the repeat; a response lost once does not cost the session or a second rotation.
   */
  lemma BeatIsExact(w: World, a: Action)
    requires Agreement(w) && w.client.alive && a.DoBeat?
    ensures BeatStep(w, a).client.alive <==>
      && a.during == Undisturbed && FinalFate(a) == Delivered
      && (if a.fate == RequestLost then WouldGrant(w.server, a.verdict2)
          else WouldGrant(w.server, a.verdict) || (a.fate == ResponseLost && WouldGrant(w.server, a.verdict2)))
  {
    hide IsRotated, Exchange, HeartbeatOf, Renewed, WouldGrant;
    var c, s := w.client, w.server;
    var one := Exchange(s, c.token, a.challenge, a.verdict, a.fate);
    var two := Exchange(one.server, c.token, a.challenge, a.verdict2, a.fate2);
    HeartbeatIsExact(c, one.http, two.http, a.during);
    ExchangeIsExact(s, c.token, a.challenge, a.verdict, a.fate);
    ExchangeRotatesOnce(s, c.token, a.challenge, a.verdict, a.fate);
    if one.http.error {
      if one.server == s {
        ExchangeIsExact(s, c.token, a.challenge, a.verdict2, a.fate2);
      } else {
        RepeatIsExact(one.server, c.token, a.challenge, a.verdict2, a.fate2);
      }
    }
  }

  /** A beat lost twice leaves the session dead, with its hook told of a transport failure at the old count. */
  lemma LostTwiceIsDead(w: World, a: Action)
    requires Agreement(w) && w.client.alive && w.client.hooked && a.DoBeat? && a.during == Undisturbed
    requires a.fate == RequestLost || a.fate == ResponseLost
    requires a.fate2 == RequestLost || a.fate2 == ResponseLost
    ensures var c := BeatStep(w, a).client;
      && !c.alive && c.failures == [Failure(Transport, None, w.client.completed)] && c.token == w.client.token
  {
    hide IsRotated;
  }

  /** The server's last word on a beat whose first request was lost is its verdict on the repeat. */
  function LastVerdict(a: Action): Verdict
    requires a.DoBeat?
  {
    if a.fate == RequestLost || a.fate == ResponseLost then a.verdict2 else a.verdict
  }

  /** The session is over at the old token and count, and its hook, if set, has been told this. */
  predicate IsOver(before: Client, after: Client, kind: ErrorKind, response: Option<Response>) {
    && !after.alive && after.stopped && after.token == before.token && after.completed == before.completed
    && after.failures ==
         before.failures + if before.hooked then [Failure(kind, response, before.completed)] else []
  }

  /**
   A beat that ends the session tells why, to its caller and to the hook: a denial, signed or not, is returned and
   recorded as the termination it is; an exchange that fails twice or does not verify raises its kind of error.
   */
  lemma EndTellsWhy(w: World, a: Action)
    requires Agreement(w) && w.client.alive && a.DoBeat? && a.during == Undisturbed && !BeatStep(w, a).client.alive
    ensures var b := BeatOf(w, a);
      && BeatStep(w, a).client == b.client
      && match FinalFate(a)
         case Delivered =>
           var denial := Denied(if LastVerdict(a).Deny? then LastVerdict(a).code else "INTERNAL_ERROR");
           b.outcome == Returned(denial) && IsOver(w.client, b.client, SessionTerminated, Some(denial))
         case Damaged(_, kind, denial) =>
           if kind == UnsignedResponse && denial.Some? then
             && b.outcome == Returned(Denied(denial.value))
             && IsOver(w.client, b.client, SessionTerminated, Some(Denied(denial.value)))
           else b.outcome == Raised(kind) && IsOver(w.client, b.client, kind, None)
         case _ => b.outcome == Raised(Transport) && IsOver(w.client, b.client, Transport, None)
  {
    hide IsRotated;
    BeatIsExact(w, a);
    var c, s := w.client, w.server;
    var one := Exchange(s, c.token, a.challenge, a.verdict, a.fate);
    var two := Exchange(one.server, c.token, a.challenge, a.verdict2, a.fate2);
    if a.fate == ResponseLost && WouldGrant(s, a.verdict) {
      LostRotation(s, c.token, a.challenge, a.verdict, a.fate);
      assert one.server.last == Some(Served(c.token, a.challenge, one.server.current));
      GrantedRepeat(one.server, c.token, a.challenge, a.verdict2, a.fate2);
      SettledEnd(c, two.http, a.fate2, a.verdict2);
    } else if one.http.error {
      DeniedExchange(s, c.token, a.challenge, a.verdict2, a.fate2);
      SettledEnd(c, two.http, a.fate2, a.verdict2);
    } else {
      DeniedExchange(s, c.token, a.challenge, a.verdict, a.fate);
      SettledEnd(c, one.http, a.fate, a.verdict);
    }
  }

  /** What arrives of an exchange that renews nothing. */
  predicate Arrives(http: HttpResponse, fate: Fate, verdict: Verdict) {
    match fate
    case Delivered =>
      http == HttpResponse(false, 200, Verified(Denied(if verdict.Deny? then verdict.code else "INTERNAL_ERROR")),
                           Rejected(UnsignedResponse))
    case Damaged(_, kind, denial) =>
      http == HttpResponse(false, 200, Rejected(kind),
                           if denial.Some? then Verified(Denied(denial.value)) else Rejected(UnsignedResponse))
    case _ => !http.Ok()
  }

  lemma DeniedExchange(s: Server, token: string, challenge: string, verdict: Verdict, fate: Fate)
    requires ServerOk(s) && token == s.current && !(fate == Delivered && WouldGrant(s, verdict))
    ensures Arrives(Exchange(s, token, challenge, verdict, fate).http, fate, verdict)
  {
    hide IsRotated;
  }

  lemma GrantedRepeat(s: Server, token: string, challenge: string, verdict: Verdict, fate: Fate)
    requires s.last.Some? && s.last.value.token == token && s.last.value.challenge == challenge && fate != Delivered
    ensures Arrives(Exchange(s, token, challenge, verdict, fate).http, fate, verdict)
  {
    hide IsRotated;
  }

  lemma SettledEnd(c: Client, http: HttpResponse, fate: Fate, verdict: Verdict)
    requires c.alive && Arrives(http, fate, verdict)
    ensures forall first: HttpResponse, second: HttpResponse | http == (if first.error then second else first) ::
      var b := HeartbeatOf(c, first, second, Undisturbed);
      && (fate == Delivered ==>
            var denial := Denied(if verdict.Deny? then verdict.code else "INTERNAL_ERROR");
            b.outcome == Returned(denial) && IsOver(c, b.client, SessionTerminated, Some(denial)))
      && (fate.Damaged? ==>
            if fate.kind == UnsignedResponse && fate.denial.Some? then
              && b.outcome == Returned(Denied(fate.denial.value))
              && IsOver(c, b.client, SessionTerminated, Some(Denied(fate.denial.value)))
            else b.outcome == Raised(fate.kind) && IsOver(c, b.client, fate.kind, None))
      && (!fate.Delivered? && !fate.Damaged? ==> b.outcome == Raised(Transport) && IsOver(c, b.client, Transport, None))
  {
    hide IsRotated;
  }

  /** A clock that jumps while a beat is in flight is what the hook is told, whatever the beat brings. */
  lemma JumpInFlightIsReported(w: World, a: Action)
    requires w.client.alive && a.DoBeat? && a.during == ClockJumped
    ensures var c := BeatStep(w, a).client;
      && !c.alive
      && c.failures == w.client.failures
           + if w.client.hooked then [Failure(LocalFailure, None, w.client.completed)] else []
  {
    hide Exchange, IsRotated;
  }

  /** A grant whose new token has the wrong form ends the session without being taken over. */
  lemma UnrotatedTokenIsRefused(c: Client, http: HttpResponse, second: HttpResponse, r: Response)
    requires c.alive && http.Ok() && http.signed == Verified(r)
    requires r.code == "OK" && r.authed && r.sessionToken.Some? && !("BRF_" <= r.sessionToken.value)
    ensures var b := HeartbeatOf(c, http, second, Undisturbed);
      b.outcome == Raised(InvalidPayload) && IsOver(c, b.client, InvalidPayload, None)
  {
  }

  lemma {:induction false} DeadStaysDead(w: World, actions: seq<Action>)
    requires !w.client.alive
    ensures var w' := Run(w, actions);
      && !w'.client.alive && w'.server == w.server
      && w'.client.token == w.client.token && w'.client.failures == w.client.failures
    decreases |actions|
  {
    if actions != [] { DeadStaysDead(Execute(w, actions[0]), actions[1..]); }
  }

  /** The action, on a live session, is not a stop by another thread, and a hook is set when it comes. */
  predicate Reportable(c: Client, a: Action) {
    && c.hooked && a != DoStop && (a.DoBeat? ==> a.during != Stopped)
  }

  /** The action with index i is the one that ends the session. */
  predicate EndsAt(w: World, actions: seq<Action>, i: nat) {
    && i < |actions| && Run(w, actions[..i]).client.alive && !Run(w, actions[..i + 1]).client.alive
  }

  lemma BeatReports(c: Client, first: HttpResponse, second: HttpResponse, during: Interruption)
    requires c.alive && c.failures == []
    ensures var d := HeartbeatOf(c, first, second, during).client;
      && d.hooked == c.hooked && |d.failures| == if !d.alive && c.hooked && during != Stopped then 1 else 0
  {
    hide IsRotated;
  }

  /** One action calls the hook exactly when it ends the session and is reportable. */
  lemma StepReports(w: World, a: Action)
    requires w.client.alive && w.client.failures == []
    ensures var c := Execute(w, a).client;
      |c.failures| == if !c.alive && Reportable(w.client, a) then 1 else 0
  {
    hide Exchange, HeartbeatOf;
    if a.DoBeat? {
      var one := Exchange(w.server, w.client.token, a.challenge, a.verdict, a.fate);
      var two := Exchange(one.server, w.client.token, a.challenge, a.verdict2, a.fate2);
      BeatReports(w.client, one.http, two.http, a.during);
    }
  }

  lemma RunFirst(w: World, actions: seq<Action>, i: nat)
    requires actions != [] && i < |actions|
    ensures Run(w, actions[..i + 1]) == Run(Execute(w, actions[0]), actions[1..][..i])
  {
    hide Execute;
    assert actions[..i + 1][1..] == actions[1..][..i];
  }

  lemma DeadPrefix(w: World, actions: seq<Action>, i: nat)
    requires i < |actions| && !Execute(w, actions[0]).client.alive
    ensures !Run(w, actions[..i + 1]).client.alive
  {
    hide Execute;
    RunFirst(w, actions, i);
    DeadStaysDead(Execute(w, actions[0]), actions[1..][..i]);
  }

  lemma LaterEnd(w: World, actions: seq<Action>, i: nat)
    requires actions != [] && Execute(w, actions[0]).client.alive
    ensures i > 0 ==> (EndsAt(w, actions, i) <==> EndsAt(Execute(w, actions[0]), actions[1..], i - 1))
    ensures !EndsAt(w, actions, 0)
  {
    hide Execute;
    RunFirst(w, actions, 0);
    if 0 < i < |actions| {
      RunFirst(w, actions, i - 1);
      RunFirst(w, actions, i);
    }
  }

  /**
   The hook is called exactly once if and only if the action that ends the session is reportable: it
   is neither a stop nor a beat stopped in flight, and a hook is set when it comes. Otherwise, and as
   long as the session lives, the hook is never called.
   */
  lemma {:induction false} HookIsExact(w: World, actions: seq<Action>)
    requires w.client.alive && w.client.failures == []
    ensures var c := Run(w, actions).client;
      && |c.failures| <= 1
      && (c.alive ==> c.failures == [])
      && (!c.alive ==> exists i: nat :: EndsAt(w, actions, i))
    ensures forall i: nat | EndsAt(w, actions, i) ::
      && !Run(w, actions).client.alive
      && (|Run(w, actions).client.failures| == 1 <==> Reportable(Run(w, actions[..i]).client, actions[i]))
    decreases |actions|
  {
    hide Execute, Reportable;
    if actions != [] {
      var w' := Execute(w, actions[0]);
      StepReports(w, actions[0]);
      RunFirst(w, actions, 0);
      if w'.client.alive {
        HookIsExact(w', actions[1..]);
        forall i: nat ensures i > 0 ==> (EndsAt(w, actions, i) <==> EndsAt(w', actions[1..], i - 1)) {
          LaterEnd(w, actions, i);
        }
        LaterEnd(w, actions, 0);
        if !Run(w, actions).client.alive {
          var i: nat :| EndsAt(w', actions[1..], i);
          assert EndsAt(w, actions, i + 1);
        }
        forall i: nat | EndsAt(w, actions, i)
          ensures !Run(w, actions).client.alive
          ensures |Run(w, actions).client.failures| == 1 <==> Reportable(Run(w, actions[..i]).client, actions[i])
        {
          assert EndsAt(w', actions[1..], i - 1);
          RunFirst(w, actions, i - 1);
        }
      } else {
        DeadStaysDead(w', actions[1..]);
        assert EndsAt(w, actions, 0);
        forall i: nat | EndsAt(w, actions, i) ensures i == 0 {
          if i > 0 { DeadPrefix(w, actions, i - 1); }
        }
      }
    }
  }

  /** Nobody stops the session or takes its hook away. */
  predicate Unstopped(a: Action) {
    match a
    case DoBeat(_, _, _, _, _, during) => during != Stopped
    case DoStop => false
    case DoClockJump => true
    case DoSetHook(hook) => hook
  }

  /** The hook has been called exactly if the session is over. */
  predicate Reported(c: Client) {
    c.hooked && |c.failures| == if c.alive then 0 else 1
  }

  /** A session that nobody stops reports its end to its hook exactly once, whatever ends it. */
  lemma {:induction false} EndIsReportedOnce(w: World, actions: seq<Action>)
    requires Reported(w.client) && forall i :: 0 <= i < |actions| ==> Unstopped(actions[i])
    ensures Reported(Run(w, actions).client)
    decreases |actions|
  {
    hide Exchange, HeartbeatOf;
    if actions != [] {
      var a := actions[0];
      assert Unstopped(a);
      if w.client.alive {
        StepReports(w, a);
        StepKeepsHook(w, a);
      }
      EndIsReportedOnce(Execute(w, a), actions[1..]);
    }
  }

  lemma StepKeepsHook(w: World, a: Action)
    ensures Execute(w, a).client.hooked == if a.DoSetHook? then a.hook else w.client.hooked
  {
    hide Exchange, IsRotated;
  }

  /** A session that is stopped first never calls its hook, whatever follows. */
  lemma StoppedIsNeverReported(w: World, actions: seq<Action>)
    requires Opened(w)
    ensures var c := Run(w, [DoStop] + actions).client; !c.alive && c.failures == []
  {
    assert ([DoStop] + actions)[1..] == actions;
    DeadStaysDead(Execute(w, DoStop), actions);
  }

  // ---------------------------------------------------------------- the background loop

  /** What the clocks showed before the wake with index i. */
  function ClocksBefore(before: (real, real), wakes: seq<Wake>, i: nat): (real, real)
    requires i < |wakes|
  {
    if i == 0 then before else (wakes[i - 1].monotonic, wakes[i - 1].wall)
  }

  /** The beat of wake i is sent, and its exchange renews the session. */
  predicate Beats(before: (real, real), wakes: seq<Wake>, i: nat)
    requires i < |wakes|
  {
    var w := wakes[i];
    && !w.halt && !Jumped(ClocksBefore(before, wakes, i), w)
    && Renewed(if w.first.error then w.second else w.first)
  }

  /** The loop goes on after wake i: the beat renews the session and nothing intervenes. */
  predicate GoesOn(before: (real, real), wakes: seq<Wake>, i: nat)
    requires i < |wakes|
  {
    Beats(before, wakes, i) && wakes[i].during == Undisturbed
  }

  /** Wake n is the first at which the loop cannot go on. */
  predicate EndsLoop(before: (real, real), wakes: seq<Wake>, n: nat) {
    n < |wakes| && !GoesOn(before, wakes, n) && forall i :: 0 <= i < n ==> GoesOn(before, wakes, i)
  }

  lemma BeatCounts(c: Client, w: Wake)
    requires c.alive && !c.stopped
    ensures var b := HeartbeatOf(c, w.first, w.second, w.during);
      && (b.client.alive <==> Renewed(if w.first.error then w.second else w.first) && w.during == Undisturbed)
      && (b.client.alive ==> !b.client.stopped) && (b.outcome.Raised? ==> !b.client.alive)
      && b.client.completed == c.completed + if Renewed(if w.first.error then w.second else w.first) then 1 else 0
  {
    hide IsRotated;
  }

  lemma LaterWake(before: (real, real), wakes: seq<Wake>, i: nat)
    requires 0 < i < |wakes|
    ensures var clocks := (wakes[0].monotonic, wakes[0].wall);
      && Beats(before, wakes, i) == Beats(clocks, wakes[1..], i - 1)
      && GoesOn(before, wakes, i) == GoesOn(clocks, wakes[1..], i - 1)
  {
    hide Jumped, Renewed;
  }

  /**
   The loop is exact: the session is still alive after all wakes if and only if the loop could go on
   at every one, and otherwise it returned at the first wake where it could not, with the session
   over. It has counted one heartbeat for every wake before, and one more exactly when the last
   beat renewed the token although the session was ended meanwhile.
   */
  lemma {:induction false} LoopCounts(c: Client, before: (real, real), wakes: seq<Wake>)
    requires c.alive && !c.stopped
    ensures LoopOf(c, before, wakes).alive <==> forall i :: 0 <= i < |wakes| ==> GoesOn(before, wakes, i)
    ensures LoopOf(c, before, wakes).alive ==> LoopOf(c, before, wakes).completed == c.completed + |wakes|
    ensures forall n: nat | EndsLoop(before, wakes, n) ::
      LoopOf(c, before, wakes).completed == c.completed + n + if Beats(before, wakes, n) then 1 else 0
    decreases |wakes|
  {
    hide HeartbeatOf, Jumped, Renewed;
    if wakes != [] {
      var w := wakes[0];
      var b := HeartbeatOf(c, w.first, w.second, w.during);
      BeatCounts(c, w);
      if GoesOn(before, wakes, 0) {
        var clocks, rest := (w.monotonic, w.wall), wakes[1..];
        LoopCounts(b.client, clocks, rest);
        forall i: nat | 0 < i < |wakes|
          ensures Beats(before, wakes, i) == Beats(clocks, rest, i - 1)
        {
          LaterWake(before, wakes, i);
        }
        LaterWakes(before, wakes);
      }
    }
  }

  lemma LaterWakes(before: (real, real), wakes: seq<Wake>)
    requires wakes != [] && GoesOn(before, wakes, 0)
    ensures var clocks := (wakes[0].monotonic, wakes[0].wall);
      && ((forall i :: 0 <= i < |wakes| ==> GoesOn(before, wakes, i))
          <==> forall i :: 0 <= i < |wakes| - 1 ==> GoesOn(clocks, wakes[1..], i))
      && forall n: nat | EndsLoop(before, wakes, n) :: n > 0 && EndsLoop(clocks, wakes[1..], n - 1)
  {
    hide Jumped, Renewed;
    var clocks, rest := (wakes[0].monotonic, wakes[0].wall), wakes[1..];
    forall i: nat | 0 < i < |wakes| ensures GoesOn(before, wakes, i) == GoesOn(clocks, rest, i - 1) {
      LaterWake(before, wakes, i);
    }
    hide GoesOn;
    assert forall i :: 0 <= i < |rest| ==> GoesOn(clocks, rest, i) == GoesOn(before, wakes, i + 1);
  }

  /** The clocks jumped if and only if the difference between them moved by more than two seconds, either way. */
  lemma JumpIsExact(before: (real, real), w: Wake)
    ensures var moved := (w.wall - w.monotonic) - (before.1 - before.0);
      Jumped(before, w) <==> moved > 2.0 || moved < -2.0
  {
  }

  /**
   The loop ends as its last wake says: a stop ends it silently, a clock jump is reported as a local failure before
   anything is sent, and otherwise the beat of that wake has the last word.
   */
  lemma {:induction false} LoopEndsAs(c: Client, before: (real, real), wakes: seq<Wake>, n: nat)
    requires c.alive && !c.stopped && EndsLoop(before, wakes, n)
    ensures var d, w := LoopOf(c, before, wakes[..n]), wakes[n];
      && d.alive && d.completed == c.completed + n
      && LoopOf(c, before, wakes) ==
           if w.halt then StopOf(d)
           else if Jumped(ClocksBefore(before, wakes, n), w) then FailOf(d, LocalFailure, None)
           else HeartbeatOf(d, w.first, w.second, w.during).client
    decreases |wakes|
  {
    hide HeartbeatOf, Jumped, Renewed;
    var w := wakes[0];
    BeatCounts(c, w);
    if n > 0 {
      assert GoesOn(before, wakes, 0);
      LaterWakes(before, wakes);
      assert wakes[..n][1..] == wakes[1..][..n - 1];
      LoopEndsAs(HeartbeatOf(c, w.first, w.second, w.during).client, (w.monotonic, w.wall), wakes[1..], n - 1);
    }
  }
}
