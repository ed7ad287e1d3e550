/**
 The game controller's team protocol as `team_client.cpp` speaks it: messages, the wait for a
 reply, and what a client does with the replies it gets.  Everything here is a function of the
 client's state and of what the network delivers; the classes are proved against it.
 */
module TeamProtocol {
  import opened Basics
  import opened ByteCodec

  // ---------------------------------------------------------------------------------------------
  // Messages
  // ---------------------------------------------------------------------------------------------

  datatype StatusCode = UnknownStatusCode | OK | Rejected

  datatype ControllerReply =
    ControllerReply(statusCode: Option<StatusCode>, reason: Option<string>, nextToken: Option<string>)

  datatype ControllerToTeam = ControllerToTeam(controllerReply: Option<ControllerReply>)

  datatype TeamColor = Auto | Blue | Yellow

  datatype AdvantageChoice = Stop | Continue

  datatype Request =
    | DesiredKeeper(keeperId: int)
    | SubstituteBot
    | Advantage(choice: AdvantageChoice)
    | Ping

  /** What the client writes: one registration, or a `TeamToController` wrapping a request. */
  datatype ClientMessage = Registration(teamName: string, team: Option<TeamColor>) | ToController(request: Request)

  datatype Result = Result(accepted: bool, reason: string)

  // ---------------------------------------------------------------------------------------------
  // Waiting for a reply
  // ---------------------------------------------------------------------------------------------

  // Times are in nanoseconds of the steady clock.
  const REPLY_TIMEOUT: int := 1_000_000_000
  const RETRY_PERIOD: int := 100_000_000
  const BUFFER_SIZE: nat := 1024

  /** What pass k of the polling loop finds. */
  datatype Tick = Tick(
    now: int,               // the clock, when the deadline is checked
    arrived: Bytes,         // bytes that came in since the last look
    availableFails: bool,   // `available` reports an error other than end of file
    late: Bytes,            // bytes that come in between `available` and `read`
    readFails: bool)        // `read` reports an error other than end of file

  /** The surroundings of one call: when it was entered, and what each pass finds. */
  datatype Window = Window(rateStart: int, start: int, tick: nat -> Tick)

  /** The k-th sleep of the rate object ends no earlier than k periods after it was made. */
  ghost predicate Paced(w: Window) {
    forall k: nat :: w.rateStart + RETRY_PERIOD * k <= w.tick(k).now
  }

  function Deadline(w: Window): int {
    w.start + REPLY_TIMEOUT
  }

  /** How many more passes the deadline leaves room for. */
  function PassesLeft(w: Window, k: nat): nat {
    if w.rateStart + RETRY_PERIOD * k < Deadline(w)
    then Deadline(w) - (w.rateStart + RETRY_PERIOD * k) else 0
  }

  datatype Wait = Wait(reply: Option<ControllerToTeam>, inbound: Bytes, sleeps: nat, parsed: Option<Bytes>)

  /** `WaitForReply` from pass k on, with the bytes that are waiting in the socket. */
  ghost function WaitFrom(parse: Bytes -> Option<ControllerToTeam>, w: Window, inbound: Bytes, k: nat): Wait
    requires Paced(w)
    decreases PassesLeft(w, k)
  {
    var t := w.tick(k);
    var waiting := inbound + t.arrived;
    if t.now >= Deadline(w) then Wait(None, inbound, k, None)
    else if t.availableFails then Wait(None, waiting, k, None)
    else if waiting == [] then WaitFrom(parse, w, waiting, k + 1)
    else if t.readFails then Wait(None, waiting, k, None)
    else
      var n := Min(|waiting + t.late|, BUFFER_SIZE);
      Wait(parse((waiting + t.late)[..n]), (waiting + t.late)[n..], k, Some((waiting + t.late)[..n]))
  }

  ghost function WaitForReply(parse: Bytes -> Option<ControllerToTeam>, w: Window, inbound: Bytes): Wait
    requires Paced(w)
  {
    WaitFrom(parse, w, inbound, 0)
  }

  /** The bytes that came in during the first k passes. */
  function ArrivedBefore(w: Window, k: nat): Bytes {
    if k == 0 then [] else ArrivedBefore(w, k - 1) + w.tick(k - 1).arrived
  }

  /**
   What a wait amounts to.  Every sleep followed an empty poll before the deadline; the pass after the
   last sleep has seen the deadline, an error, or bytes.  Bytes that can be read in time always are:
   the parser gets the oldest ones, as many as there are up to 1024, and the rest stays unread.
   */
  lemma {:induction false} WaitPolls(parse: Bytes -> Option<ControllerToTeam>, w: Window, inbound: Bytes, k: nat)
    requires Paced(w)
    ensures var wait := WaitFrom(parse, w, inbound, k);
      var t := w.tick(wait.sleeps);
      var waiting := (if wait.sleeps == k then inbound else []) + t.arrived;
      && k <= wait.sleeps
      && (forall j | k <= j < wait.sleeps ::
            inbound == [] && w.tick(j).arrived == [] && w.tick(j).now < Deadline(w) && !w.tick(j).availableFails)
      && (t.now < Deadline(w) && !t.availableFails ==> waiting != [])
      && (wait.parsed == None <==> t.now >= Deadline(w) || t.availableFails || t.readFails)
      && (wait.parsed.Some? ==>
            && |wait.parsed.value| == Min(|waiting + t.late|, 1024) > 0
            && wait.parsed.value + wait.inbound == waiting + t.late
            && wait.reply == parse(wait.parsed.value))
      && (wait.parsed == None ==>
            && wait.reply == None
            && wait.inbound == if t.now < Deadline(w) then waiting
                               else if wait.sleeps == k then inbound else [])
    decreases PassesLeft(w, k)
  {
    var t := w.tick(k);
    if t.now < Deadline(w) && !t.availableFails && inbound + t.arrived == [] {
      WaitPolls(parse, w, inbound + t.arrived, k + 1);
    }
  }

  /** Pass j finds nothing, in time and without an error. */
  predicate QuietPass(w: Window, j: nat) {
    w.tick(j).now < Deadline(w) && w.tick(j).arrived == [] && !w.tick(j).availableFails
  }

  lemma {:induction false} QuietPassesAreSlept(parse: Bytes -> Option<ControllerToTeam>, w: Window, k: nat, n: nat)
    requires Paced(w) && k <= n && forall j: nat | k <= j < n :: QuietPass(w, j)
    ensures WaitFrom(parse, w, [], k) == WaitFrom(parse, w, [], n)
    decreases n - k
  {
    if k < n {
      assert QuietPass(w, k);
      QuietPassesAreSlept(parse, w, k + 1, n);
    }
  }

  /** Each sleep takes a period of the time that is left, however the clock is read. */
  lemma {:induction false} SleepsAreBounded(parse: Bytes -> Option<ControllerToTeam>, w: Window, inbound: Bytes, k: nat)
    requires Paced(w)
    ensures var sleeps := WaitFrom(parse, w, inbound, k).sleeps;
            sleeps == k || RETRY_PERIOD * (sleeps - 1) < Deadline(w) - w.rateStart
    decreases PassesLeft(w, k)
  {
    var t := w.tick(k);
    if t.now < Deadline(w) && !t.availableFails && inbound + t.arrived == [] {
      SleepsAreBounded(parse, w, inbound + t.arrived, k + 1);
    }
  }

  /** When the deadline is computed within one period of making the rate object: 11 sleeps at most. */
  lemma AtMostElevenSleeps(parse: Bytes -> Option<ControllerToTeam>, w: Window, inbound: Bytes)
    requires Paced(w) && w.start < w.rateStart + RETRY_PERIOD
    ensures WaitForReply(parse, w, inbound).sleeps <= 11
  {
    SleepsAreBounded(parse, w, inbound, 0);
  }

  /** The bound is reached: a silent controller and a deadline computed just within the period. */
  lemma ElevenSleepsHappen(parse: Bytes -> Option<ControllerToTeam>)
    ensures var w := SilentWindow();
            Paced(w) && w.start < w.rateStart + RETRY_PERIOD && WaitForReply(parse, w, []).sleeps == 11
  {
    var w := SilentWindow();
    SilentWaitSleeps(parse, 11);
  }

  function SilentWindow(): Window {
    Window(0, RETRY_PERIOD - 1, (k: nat) => Tick(RETRY_PERIOD * k, [], false, [], false))
  }

  lemma {:induction false} SilentWaitSleeps(parse: Bytes -> Option<ControllerToTeam>, k: nat)
    requires k <= 11 && Paced(SilentWindow())
    ensures WaitForReply(parse, SilentWindow(), []) == WaitFrom(parse, SilentWindow(), [], k)
  {
    if k > 0 {
      SilentWaitSleeps(parse, k - 1);
    }
  }

  // ---------------------------------------------------------------------------------------------
  // The client
  // ---------------------------------------------------------------------------------------------

  /** One thing that happened on a TCP session: a write, or a wait and what it brought. */
  datatype Event = Wrote(message: ClientMessage) | Heard(reply: Option<ControllerToTeam>)

  /** A TCP session: the endpoint it was opened to, and what happened on it. */
  datatype Session = Session(address: string, port: nat, events: seq<Event>)

  /** A socket may be open without a connection: a failed connect leaves it that way. */
  datatype SocketState = Closed | Unconnected | Attached

  /** `sessions` holds every TCP session so far; an attached socket is on the last one. */
  datatype Client = Client(connected: bool, socket: SocketState, sessions: seq<Session>)

  datatype ConnectionParameters =
    ConnectionParameters(address: string, port: nat, teamName: string, teamColor: TeamColor)

  /** How the network answers a connection attempt: the connect itself, then two waits. */
  datatype Handshake = Handshake(
    reached: bool, greeting: Option<ControllerToTeam>, confirmation: Option<ControllerToTeam>)

  /** A reply that lets the handshake go on: it has a payload, whose status is OK or absent. */
  predicate Welcomes(reply: Option<ControllerToTeam>) {
    && reply.Some? && reply.value.controllerReply.Some?
    && reply.value.controllerReply.value.statusCode in {None, Some(OK)}
  }

  /** A reply that has a payload with another status. */
  predicate Refuses(reply: Option<ControllerToTeam>) {
    && reply.Some? && reply.value.controllerReply.Some?
    && reply.value.controllerReply.value.statusCode !in {None, Some(OK)}
  }

  /** Every payload either welcomes or refuses, by its status; without one it is neither. */
  lemma PayloadWelcomesOrRefuses(reply: Option<ControllerToTeam>)
    ensures Welcomes(reply) ==> reply.Some? && reply.value.controllerReply.Some?
    ensures reply.Some? && reply.value.controllerReply.Some? ==>
      && (Welcomes(reply) <==> !Refuses(reply))
      && (Refuses(reply) <==>
            || reply.value.controllerReply.value.statusCode == Some(UnknownStatusCode)
            || reply.value.controllerReply.value.statusCode == Some(Rejected))
    ensures reply == None || reply.value.controllerReply == None ==> !Refuses(reply)
  {
    if reply.Some? && reply.value.controllerReply.Some? {
      match reply.value.controllerReply.value.statusCode {
        case None =>
        case Some(code) => match code { case UnknownStatusCode => case OK => case Rejected => }
      }
    }
  }

  /** The registration has the name, and the colour unless it is left to the controller. */
  function RegistrationFor(p: ConnectionParameters): (m: ClientMessage)
    ensures m.Registration? && m.teamName == p.teamName
    ensures m.team == None <==> p.teamColor == Auto
    ensures m.team.Some? ==> m.team.value == p.teamColor
  {
    Registration(p.teamName, if p.teamColor == Auto then None else Some(p.teamColor))
  }

  function Extend(c: Client, events: seq<Event>): Client {
    if c.sessions == [] then c
    else
      var last := |c.sessions| - 1;
      c.(sessions := c.sessions[last := c.sessions[last].(events := c.sessions[last].events + events)])
  }

  /** `Connect`: the client afterwards, and whether it reports success. */
  function Connect(c: Client, p: ConnectionParameters, h: Handshake): (Client, bool) {
    var down := c.(connected := false, socket := Closed);
    if !h.reached then (down.(socket := Unconnected), false)
    else
      var greeted := Client(false, Attached, c.sessions + [Session(p.address, p.port, [Heard(h.greeting)])]);
      if Refuses(h.greeting) then (greeted.(socket := Closed), false)
      else if !Welcomes(h.greeting) then (greeted, false)
      else
        var registered := Extend(greeted, [Wrote(RegistrationFor(p)), Heard(h.confirmation)]);
        if !Welcomes(h.confirmation) then (registered.(socket := Closed), false)
        else (registered.(connected := true), true)
  }

  const CLIENT_ERROR := Result(false, "Client error.")

  /** What `SendRequest` makes of the reply it waited for. */
  function ResultOf(reply: Option<ControllerToTeam>): Result {
    if reply == None || reply.value.controllerReply == None then CLIENT_ERROR
    else
      var r := reply.value.controllerReply.value;
      Result(r.statusCode == Some(OK), if r.reason.Some? then r.reason.value else "")
  }

  /** What a caller learns from a result: exactly an OK is accepted, and the reason is the controller's. */
  lemma ResultTellsReply(reply: Option<ControllerToTeam>)
    ensures ResultOf(reply).accepted <==>
      reply.Some? && reply.value.controllerReply.Some? && reply.value.controllerReply.value.statusCode == Some(OK)
    ensures reply == None || reply.value.controllerReply == None ==> ResultOf(reply).reason == "Client error."
    ensures reply.Some? && reply.value.controllerReply.Some? ==>
      match reply.value.controllerReply.value.reason
      case Some(reason) => ResultOf(reply).reason == reason
      case None => ResultOf(reply).reason == ""
  {
  }

  function Disconnect(c: Client): Client {
    c.(connected := false, socket := Closed)
  }

  function SendRequest(c: Client, request: Request, reply: Option<ControllerToTeam>): (Client, Result) {
    (Extend(c, [Wrote(ToController(request)), Heard(reply)]), ResultOf(reply))
  }

  /** The address at the other end of the current session. */
  function Peer(c: Client): Option<string> {
    if c.socket == Attached && c.sessions != [] then Some(c.sessions[|c.sessions| - 1].address) else None
  }

  // ---------------------------------------------------------------------------------------------
  // The language of a session
  // ---------------------------------------------------------------------------------------------

  /**
   What may happen on a session, event by event.  The controller is heard first.  A registration is
   written second, after a first reply that welcomes, and nowhere else.  Requests come at every
   second place after that, each after a reply has been heard, and only if the reply to the
   registration welcomed too.
   */
  predicate EventFits(events: seq<Event>, i: nat)
    requires i < |events|
  {
    if i % 2 == 0 then events[i].Heard?
    else if i == 1 then
      events[1].Wrote? && events[1].message.Registration? && WelcomedAt(events, 0)
    else
      events[i].Wrote? && events[i].message.ToController? && WelcomedAt(events, 0) && WelcomedAt(events, 2)
  }

  predicate WelcomedAt(events: seq<Event>, i: nat) {
    i < |events| && events[i].Heard? && Welcomes(events[i].reply)
  }

  predicate InLanguage(events: seq<Event>) {
    forall i: nat | i < |events| :: EventFits(events, i)
  }

  /** The handshake went through and the client is between two exchanges. */
  predicate Registered(events: seq<Event>) {
    && |events| >= 3 && |events| % 2 == 1
    && WelcomedAt(events, 0) && WelcomedAt(events, 2)
  }

  /** The messages written on a session, in order. */
  function Written(events: seq<Event>): seq<ClientMessage> {
    if events == [] then []
    else
      var before := Written(events[..|events| - 1]);
      var last := events[|events| - 1];
      if last.Wrote? then before + [last.message] else before
  }

  /** What every callback keeps: all sessions speak the language, and connected means registered. */
  ghost predicate ClientInv(c: Client) {
    && (forall i | 0 <= i < |c.sessions| :: InLanguage(c.sessions[i].events))
    && (c.connected ==>
          c.socket == Attached && c.sessions != [] && Registered(c.sessions[|c.sessions| - 1].events))
  }

  /**
   A connection attempt succeeds exactly when the controller is reached and welcomes twice.  It opens
   one new session, to the given endpoint, on which the team is registered only after the first
   welcome, with its name and colour, and leaves the old ones alone.
   */
  lemma ConnectKeepsInv(c: Client, p: ConnectionParameters, h: Handshake)
    requires ClientInv(c)
    ensures var (after, success) := Connect(c, p, h);
            && ClientInv(after) && success == after.connected
            && (success <==> h.reached && Welcomes(h.greeting) && Welcomes(h.confirmation))
            && (success ==> Peer(after) == Some(p.address))
            && c.sessions <= after.sessions
            && |after.sessions| == |c.sessions| + (if h.reached then 1 else 0)
    ensures h.reached ==>
      var session := Connect(c, p, h).0.sessions[|c.sessions|];
      && session.address == p.address && session.port == p.port
      && session.events[0] == Heard(h.greeting)
      && (!Welcomes(h.greeting) ==> |session.events| == 1 && Written(session.events) == [])
      && (Welcomes(h.greeting) ==>
            && |session.events| == 3 && session.events[1].Wrote? && session.events[2] == Heard(h.confirmation)
            && Written(session.events) == [session.events[1].message]
            && var m := session.events[1].message;
               && m.Registration? && m.teamName == p.teamName
               && (m.team == None <==> p.teamColor == Auto)
               && (m.team.Some? ==> m.team.value == p.teamColor))
  {
    var greeting := [Heard(h.greeting)];
    var session := [Heard(h.greeting), Wrote(RegistrationFor(p)), Heard(h.confirmation)];
    assert greeting + [Wrote(RegistrationFor(p)), Heard(h.confirmation)] == session;
    if Welcomes(h.greeting) {
      assert InLanguage(session);
    }
    assert InLanguage(greeting);
    assert greeting[..0] == [] && session[..2][..1] == greeting && session[..2][1] == session[1];
    assert Written(greeting) == [];
    assert Written(session[..2]) == [] + [RegistrationFor(p)];
  }

  /**
   How an attempt leaves the socket: not closed after a failure exactly when the TCP connect failed,
   or when what came in place of a greeting had no payload; a refusal at either stage closes it.
   */
  lemma SocketLeftOpenIff(c: Client, p: ConnectionParameters, h: Handshake)
    ensures var (after, success) := Connect(c, p, h);
      && (after.socket == Unconnected <==> !h.reached)
      && (after.socket == Attached <==>
            h.reached && (success || h.greeting == None || h.greeting.value.controllerReply == None))
      && (!success ==>
            (after.socket != Closed <==>
               !h.reached || h.greeting == None || h.greeting.value.controllerReply == None))
  {
  }

  /**
   A request on a registered session is written at the end of it, followed by what was heard; all
   else stays as it is.
   */
  lemma SendRequestKeepsInv(c: Client, request: Request, reply: Option<ControllerToTeam>)
    requires ClientInv(c) && c.connected
    ensures var (after, _) := SendRequest(c, request, reply);
            && ClientInv(after) && after.connected && after.socket == c.socket
            && Peer(after) == Peer(c)
            && OnlyLastSessionGrew(c, after, [Wrote(ToController(request)), Heard(reply)])
  {
    var last := c.sessions[|c.sessions| - 1].events;
    var more := last + [Wrote(ToController(request)), Heard(reply)];
    forall i: nat | i < |more|
      ensures EventFits(more, i)
    {
      assert i < |last| ==> EventFits(last, i);
    }
    assert Registered(more);
  }

  /** The last session has these events more at its end; no other session has changed. */
  predicate OnlyLastSessionGrew(before: Client, after: Client, events: seq<Event>) {
    var n := |before.sessions|;
    && |after.sessions| == n > 0
    && after.sessions[..n - 1] == before.sessions[..n - 1]
    && after.sessions[n - 1].address == before.sessions[n - 1].address
    && after.sessions[n - 1].port == before.sessions[n - 1].port
    && after.sessions[n - 1].events == before.sessions[n - 1].events + events
  }

  /** A session cut short by an exception in a write is still in the language. */
  lemma LanguageIsPrefixClosed(events: seq<Event>, n: nat)
    requires InLanguage(events) && n <= |events|
    ensures InLanguage(events[..n])
  {
    forall i: nat | i < n
      ensures EventFits(events[..n], i)
    {
      assert EventFits(events, i);
    }
  }

  /** On the wire: nothing, or one registration followed by requests only. */
  predicate RegistrationThenRequests(messages: seq<ClientMessage>) {
    forall i | 0 <= i < |messages| ::
      if i == 0 then messages[i].Registration? else messages[i].ToController?
  }

  lemma {:induction false} WireLanguage(events: seq<Event>)
    requires InLanguage(events)
    ensures RegistrationThenRequests(Written(events))
    ensures |Written(events)| == |events| / 2
  {
    if events != [] {
      LanguageIsPrefixClosed(events, |events| - 1);
      assert EventFits(events, |events| - 1);
      WireLanguage(events[..|events| - 1]);
    }
  }

  /** Nothing was registered before a welcome, and nothing requested before a second one. */
  lemma WritesFollowWelcomes(events: seq<Event>)
    requires InLanguage(events)
    ensures |Written(events)| >= 1 ==> WelcomedAt(events, 0)
    ensures |Written(events)| >= 2 ==> WelcomedAt(events, 2)
  {
    WireLanguage(events);
    if |events| >= 4 {
      assert EventFits(events, 3);
    } else if |events| >= 2 {
      assert EventFits(events, 1);
    }
  }

  // ---------------------------------------------------------------------------------------------
  // Requests and replies
  // ---------------------------------------------------------------------------------------------

  /**
   A row of requests: the client afterwards, the results, and what is left unread.  Each request is
   written, and answered by whatever the wait that follows it brings.
   */
  ghost function Exchanges(parse: Bytes -> Option<ControllerToTeam>, c: Client, inbound: Bytes,
                           requests: seq<Request>, windows: seq<Window>)
    : (outcome: (Client, seq<Result>, Bytes))
    requires |requests| == |windows|
    requires forall i | 0 <= i < |windows| :: Paced(windows[i])
    ensures |outcome.1| == |requests|
    decreases |windows|
  {
    if windows == [] then (c, [], inbound)
    else
      var wait := WaitForReply(parse, windows[0], inbound);
      var (next, result) := SendRequest(c, requests[0], wait.reply);
      var (after, results, left) := Exchanges(parse, next, wait.inbound, requests[1..], windows[1..]);
      (after, [result] + results, left)
  }

  /** Each request is followed by the reply beside it. */
  function Conversation(requests: seq<Request>, replies: seq<ControllerToTeam>): seq<Event>
    requires |requests| == |replies|
  {
    if requests == [] then []
    else [Wrote(ToController(requests[0])), Heard(Some(replies[0]))] + Conversation(requests[1..], replies[1..])
  }

  /** These bytes are found by pass n, the first to find any, in time; nothing else comes or fails. */
  ghost predicate PromptAt(w: Window, bytes: Bytes, n: nat) {
    && Paced(w)
    && (forall j: nat | j < n :: QuietPass(w, j))
    && w.tick(n).now < Deadline(w)
    && w.tick(n).arrived == bytes && w.tick(n).late == []
    && !w.tick(n).availableFails && !w.tick(n).readFails
  }

  /** They are found by some pass before the deadline, the first or a later one. */
  ghost predicate Prompt(w: Window, bytes: Bytes) {
    exists n: nat :: PromptAt(w, bytes, n)
  }

  /** Nothing comes at all; the wait ends with the deadline. */
  ghost predicate Silent(w: Window) {
    Paced(w) && forall k: nat :: w.tick(k).arrived == [] && !w.tick(k).availableFails
  }

  lemma {:induction false} SilenceTimesOut(parse: Bytes -> Option<ControllerToTeam>, w: Window, k: nat)
    requires Silent(w)
    ensures WaitFrom(parse, w, [], k).reply == None && WaitFrom(parse, w, [], k).inbound == []
    decreases PassesLeft(w, k)
  {
    if w.tick(k).now < Deadline(w) {
      SilenceTimesOut(parse, w, k + 1);
    }
  }

  /** Delimited parsing takes the first frame of what it is given, and ignores what follows. */
  ghost predicate ReadsFirstFrame(parse: Bytes -> Option<ControllerToTeam>, frame: ControllerToTeam -> Bytes) {
    && (forall m: ControllerToTeam, rest: Bytes :: parse(frame(m) + rest) == Some(m))
    && (forall m: ControllerToTeam :: frame(m) != [])
  }

  ghost predicate PromptReplies(frame: ControllerToTeam -> Bytes, windows: seq<Window>,
                                replies: seq<ControllerToTeam>) {
    && |windows| == |replies|
    && forall i | 0 <= i < |windows| ::
         |frame(replies[i])| <= BUFFER_SIZE && Prompt(windows[i], frame(replies[i]))
  }

  lemma OneExchange(parse: Bytes -> Option<ControllerToTeam>, frame: ControllerToTeam -> Bytes,
                    w: Window, reply: ControllerToTeam)
    requires ReadsFirstFrame(parse, frame) && |frame(reply)| <= BUFFER_SIZE && Prompt(w, frame(reply))
    ensures var wait := WaitForReply(parse, w, []);
            wait.reply == Some(reply) && wait.inbound == []
  {
    var n: nat :| PromptAt(w, frame(reply), n);
    QuietPassesAreSlept(parse, w, 0, n);
    assert [] + frame(reply) + [] == frame(reply);
    assert parse(frame(reply) + []) == Some(reply);
    assert frame(reply)[..|frame(reply)|] == frame(reply);
  }

  /**
   On a registered session with nothing unread and one prompt reply per request: the requests are
   written in order, each before its reply; the i-th result is that of the i-th reply; nothing is left
   unread, and the client is still connected.
   */
  lemma {:induction false} RepliesMatchRequests(
      parse: Bytes -> Option<ControllerToTeam>, frame: ControllerToTeam -> Bytes,
      c: Client, requests: seq<Request>, windows: seq<Window>, replies: seq<ControllerToTeam>)
    requires ClientInv(c) && c.connected && |requests| == |windows|
    requires ReadsFirstFrame(parse, frame) && PromptReplies(frame, windows, replies)
    ensures var (after, results, left) := Exchanges(parse, c, [], requests, windows);
      && left == [] && |results| == |replies|
      && (forall i | 0 <= i < |replies| ::
            && results[i] == ResultOf(Some(replies[i]))
            && (results[i].accepted <==> replies[i].controllerReply.Some?
                                         && replies[i].controllerReply.value.statusCode == Some(OK))
            && (replies[i].controllerReply.Some? && replies[i].controllerReply.value.reason.Some? ==>
                  results[i].reason == replies[i].controllerReply.value.reason.value))
      && ClientInv(after) && after == Extend(c, Conversation(requests, replies))
    decreases |windows|
  {
    var last := |c.sessions| - 1;
    if windows == [] {
      assert c.sessions[last].events + [] == c.sessions[last].events;
    } else {
      OneExchange(parse, frame, windows[0], replies[0]);
      SendRequestKeepsInv(c, requests[0], Some(replies[0]));
      var next := SendRequest(c, requests[0], Some(replies[0])).0;
      RepliesMatchRequests(parse, frame, next, requests[1..], windows[1..], replies[1..]);
      ExtendTwice(c, [Wrote(ToController(requests[0])), Heard(Some(replies[0]))],
                  Conversation(requests[1..], replies[1..]));
    }
  }

  lemma ExtendTwice(c: Client, first: seq<Event>, second: seq<Event>)
    requires c.sessions != []
    ensures Extend(Extend(c, first), second) == Extend(c, first + second)
  {
    var last := |c.sessions| - 1;
    assert c.sessions[last].events + (first + second) == c.sessions[last].events + first + second;
  }

  /** The wait that finds a stale frame and a reply behind it. */
  lemma StaleWait(parse: Bytes -> Option<ControllerToTeam>, frame: ControllerToTeam -> Bytes,
                  stale: ControllerToTeam, reply: ControllerToTeam, inbound: Bytes, w: Window, n: nat)
    requires ReadsFirstFrame(parse, frame) && |frame(stale)| <= BUFFER_SIZE
    requires PromptAt(w, w.tick(n).arrived, n) && (n == 0 || inbound == [])
    requires inbound + w.tick(n).arrived == frame(stale) + frame(reply)
    ensures var k := Min(|frame(stale)| + |frame(reply)|, BUFFER_SIZE) - |frame(stale)|;
      var wait := WaitForReply(parse, w, inbound);
      wait.reply == Some(stale) && wait.inbound == frame(reply)[k..]
  {
    if n > 0 {
      QuietPassesAreSlept(parse, w, 0, n);
    }
    var both := frame(stale) + frame(reply);
    var k := Min(|both|, BUFFER_SIZE);
    assert both + [] == both;
    assert both[..k] == frame(stale) + frame(reply)[..k - |frame(stale)|];
    assert both[k..] == frame(reply)[k - |frame(stale)|..];
  }

  /**
   A frame that is there before the reply answers the request in its place; the reply is read along
   with it, by the first pass or, if nothing was unread before, by the first that finds anything.
   Exactly when the two fit the buffer together is nothing left unread after that, and then results
   and replies match again; otherwise the rest of the reply stays in front of the next.
   */
  lemma StaleFrameAnswersOnce(
      parse: Bytes -> Option<ControllerToTeam>, frame: ControllerToTeam -> Bytes, stale: ControllerToTeam,
      c: Client, inbound: Bytes, requests: seq<Request>, windows: seq<Window>, replies: seq<ControllerToTeam>, n: nat)
    requires ClientInv(c) && c.connected && |requests| == |windows| == |replies| > 0
    requires ReadsFirstFrame(parse, frame) && PromptReplies(frame, windows[1..], replies[1..])
    requires PromptAt(windows[0], windows[0].tick(n).arrived, n) && (n == 0 || inbound == [])
    requires inbound + windows[0].tick(n).arrived == frame(stale) + frame(replies[0])
    requires |frame(stale)| <= BUFFER_SIZE
    ensures var (_, results, left) := Exchanges(parse, c, inbound, requests, windows);
      var unread := WaitForReply(parse, windows[0], inbound).inbound;
      var surplus := |frame(stale)| + |frame(replies[0])| - BUFFER_SIZE;
      && results[0] == ResultOf(Some(stale))
      && (if surplus <= 0 then unread == []
          else |unread| == surplus && unread == frame(replies[0])[|frame(replies[0])| - surplus..])
      && (surplus <= 0 ==>
            && left == [] && |results| == |replies|
            && forall i | 1 <= i < |replies| :: results[i] == ResultOf(Some(replies[i])))
  {
    StaleWait(parse, frame, stale, replies[0], inbound, windows[0], n);
    SendRequestKeepsInv(c, requests[0], Some(stale));
    if |frame(stale)| + |frame(replies[0])| <= BUFFER_SIZE {
      var next := SendRequest(c, requests[0], Some(stale)).0;
      RepliesMatchRequests(parse, frame, next, requests[1..], windows[1..], replies[1..]);
    }
  }

  /**
   The first request times out; its reply comes in before that of the second, and answers the second
   request.  If the two replies fit the buffer together, results and replies match from the third on.
   */
  lemma LateReplyAnswersNextRequest(
      parse: Bytes -> Option<ControllerToTeam>, frame: ControllerToTeam -> Bytes,
      c: Client, requests: seq<Request>, windows: seq<Window>, replies: seq<ControllerToTeam>)
    requires ClientInv(c) && c.connected && |requests| == |windows| == |replies| >= 2
    requires ReadsFirstFrame(parse, frame) && PromptReplies(frame, windows[2..], replies[2..])
    requires Silent(windows[0]) && Prompt(windows[1], frame(replies[0]) + frame(replies[1]))
    requires |frame(replies[0])| <= BUFFER_SIZE
    ensures var (_, results, left) := Exchanges(parse, c, [], requests, windows);
      && results[0] == CLIENT_ERROR && results[1] == ResultOf(Some(replies[0]))
      && (|frame(replies[0])| + |frame(replies[1])| <= BUFFER_SIZE ==>
            && left == [] && |results| == |replies|
            && forall i | 2 <= i < |replies| :: results[i] == ResultOf(Some(replies[i])))
  {
    SilenceTimesOut(parse, windows[0], 0);
    SendRequestKeepsInv(c, requests[0], None);
    var next := SendRequest(c, requests[0], None).0;
    assert windows[1..][1..] == windows[2..] && replies[1..][1..] == replies[2..];
    var n: nat :| PromptAt(windows[1], frame(replies[0]) + frame(replies[1]), n);
    StaleFrameAnswersOnce(parse, frame, replies[0], next, [], requests[1..], windows[1..], replies[1..], n);
  }

  /**
   A reply that is late every time: after one silence, each request finds the reply to the request
   before, alone, and is answered by it.  Nothing in the client ever brings them back together.
   */
  lemma LateRepliesStayBehind(
      parse: Bytes -> Option<ControllerToTeam>, frame: ControllerToTeam -> Bytes,
      c: Client, requests: seq<Request>, windows: seq<Window>, replies: seq<ControllerToTeam>)
    requires ClientInv(c) && c.connected && |requests| == |windows| == |replies| + 1
    requires ReadsFirstFrame(parse, frame) && PromptReplies(frame, windows[1..], replies)
    requires Silent(windows[0])
    ensures var (after, results, left) := Exchanges(parse, c, [], requests, windows);
      && after.connected && left == [] && |results| == |requests| && results[0] == CLIENT_ERROR
      && forall i | 1 <= i < |requests| :: results[i] == ResultOf(Some(replies[i - 1]))
  {
    SilenceTimesOut(parse, windows[0], 0);
    SendRequestKeepsInv(c, requests[0], None);
    var next := SendRequest(c, requests[0], None).0;
    RepliesMatchRequests(parse, frame, next, requests[1..], windows[1..], replies);
  }
}
