/**
 The whole system: a game controller that may answer anything, the team client node, the bridge
 node with its two threads, and the status messages, service requests and replies that travel
 between them.  A run is any sequence of steps; a step that is not possible changes nothing.
 */
module GcSystem {
  import opened Basics
  import opened ByteCodec
  import Ros
  import T = TeamProtocol
  import N = TeamClientNodes
  import B = BridgeProtocol

  // Every change of the client's connectivity starts a new epoch.  Statuses and replies carry the
  // epoch in which they were made; the code neither sends nor reads these numbers.

  datatype Status = Status(connected: bool, epoch: nat)

  datatype ServiceRequest = ServiceRequest(id: nat, address: string)

  /**
   What the reconnect service reported to a request for `address`, and how the client node stood when
   it did: whether its client was connected, to whom, and the node's address.
   */
  datatype ServiceReply = ServiceReply(
    success: bool, address: string, epoch: nat, connected: bool, peer: Option<string>, gcIpAddress: string)

  datatype BeliefSource = NothingYet | StatusMessage | ReconnectReply

  datatype Grant = Grant(id: nat, reply: ServiceReply)

  /** How things stood when the bridge's callback looked at its flag. */
  datatype Check = Check(flag: bool, source: BeliefSource, deliveredEpoch: Option<nat>, epoch: nat, connected: bool)

  datatype System = System(
    node: N.Node,
    bridge: B.Bridge,
    statuses: seq<Status>,            // published and not yet delivered, oldest first
    requests: seq<ServiceRequest>,    // reconnect requests of the bridge, not yet served
    replies: map<nat, ServiceReply>,  // replies, by request
    // History.
    epoch: nat,
    deliveredEpoch: Option<nat>,      // of the last status the bridge was given
    beliefEpoch: nat,                 // of what the bridge's flag was last set from
    beliefSource: BeliefSource,
    grants: seq<Grant>,               // the replies on which the bridge set its flag
    lastCheck: Check,                 // the last look at the flag that found it clear
    checks: seq<Check>,               // those that led to the attempts, one for each
    received: seq<Bytes>,             // the datagrams handed to the bridge's callback
    receiveFailed: bool)              // a receive has completed with an error

  datatype Step =
    | Datagram(sender: string, datagram: Bytes, serviceIsReady: bool)
    | ClockIsRead(now: int)
    | ReceiveError
    | WaitTimesOut
    | ReplyArrives
    | FlagIsSet
    | StatusDelivered
    | StatusLost(i: nat)
    | ReconnectServed(i: nat, handshake: T.Handshake)
    | OperatorReconnects(address: string, handshake: T.Handshake)
    | OperatorRequests(request: T.Request, reply: Option<T.ControllerToTeam>)
    | PingTimer(reply: Option<T.ControllerToTeam>)
    | ParametersSet(gcIpAddress: string, gcPort: nat, teamName: string, teamColor: T.TeamColor)

  /** The client node has done something; a change of connectivity starts an epoch. */
  function AfterNode(s: System, node: N.Node): System {
    s.(node := node, epoch := if node.client.connected == s.node.client.connected then s.epoch else s.epoch + 1)
  }

  function AfterDatagram(translate: B.Translate, s: System, step: Step): System
    requires step.Datagram? && s.bridge.outstanding > 0
  {
    var bridge := B.OnDatagram(translate, s.bridge, step.sender, step.datagram, step.serviceIsReady);
    s.(bridge := bridge,
       received := s.received + [B.Fitting(step.datagram)],
       lastCheck := if bridge.phase.Checked?
                    then Check(s.bridge.teamClientConnected, s.beliefSource, s.deliveredEpoch, s.epoch,
                               s.node.client.connected)
                    else s.lastCheck)
  }

  function AfterClock(s: System, now: int): System
    requires s.bridge.phase.Checked?
  {
    var bridge := B.OnClock(s.bridge, now);
    if bridge.phase == B.Listening then s.(bridge := bridge)
    else
      s.(bridge := bridge,
         requests := s.requests + [ServiceRequest(|s.bridge.attempts|, s.bridge.phase.sender)],
         checks := s.checks + [s.lastCheck])
  }

  function AfterServing(s: System, i: nat, h: T.Handshake): System
    requires i < |s.requests|
  {
    var request := s.requests[i];
    var (node, success) := N.HandleReconnect(s.node, request.address, h);
    var after := AfterNode(s, node);
    after.(requests := s.requests[..i] + s.requests[i + 1..],
           replies := s.replies[request.id := ServiceReply(
             success, request.address, after.epoch, node.client.connected, T.Peer(node.client), node.gcIpAddress)])
  }

  function AfterDelivery(s: System): System
    requires s.statuses != []
  {
    var status := s.statuses[0];
    s.(bridge := B.OnStatus(s.bridge, status.connected), statuses := s.statuses[1..],
       deliveredEpoch := Some(status.epoch), beliefEpoch := status.epoch, beliefSource := StatusMessage)
  }

  function AfterFlag(s: System): System
    requires s.bridge.phase.Confirmed? && s.bridge.phase.id in s.replies
  {
    var id := s.bridge.phase.id;
    s.(bridge := B.SetFlag(s.bridge), beliefEpoch := s.replies[id].epoch, beliefSource := ReconnectReply,
       grants := s.grants + [Grant(id, s.replies[id])])
  }

  function AfterPing(s: System, reply: Option<T.ControllerToTeam>): System {
    var (node, published) := N.PingCallback(s.node, reply);
    var after := AfterNode(s, node);
    after.(statuses := s.statuses + [Status(published, after.epoch)])
  }

  function Apply(translate: B.Translate, s: System, step: Step): System {
    match step
    case Datagram(sender, _, _) =>
      if s.bridge.outstanding > 0 && sender != "" then AfterDatagram(translate, s, step) else s
    case ClockIsRead(now) =>
      if s.bridge.phase.Checked? then AfterClock(s, now) else s
    case ReceiveError =>
      if s.bridge.outstanding > 0
      then s.(bridge := B.OnReceiveError(s.bridge), receiveFailed := true) else s
    case WaitTimesOut =>
      if s.bridge.phase.Awaiting? then s.(bridge := B.Rearm(s.bridge)) else s
    case ReplyArrives =>
      if s.bridge.phase.Awaiting? && s.bridge.phase.id in s.replies
      then s.(bridge := B.OnReply(s.bridge, s.replies[s.bridge.phase.id].success)) else s
    case FlagIsSet =>
      if s.bridge.phase.Confirmed? && s.bridge.phase.id in s.replies then AfterFlag(s) else s
    case StatusDelivered =>
      if s.statuses != [] then AfterDelivery(s) else s
    case StatusLost(i) =>
      if i < |s.statuses| then s.(statuses := s.statuses[..i] + s.statuses[i + 1..]) else s
    case ReconnectServed(i, h) =>
      if i < |s.requests| then AfterServing(s, i, h) else s
    case OperatorReconnects(address, h) => AfterNode(s, N.HandleReconnect(s.node, address, h).0)
    case OperatorRequests(request, reply) => AfterNode(s, N.HandleRequest(s.node, request, reply).0)
    case PingTimer(reply) => AfterPing(s, reply)
    case ParametersSet(gcIpAddress, gcPort, teamName, teamColor) =>
      s.(node := s.node.(gcIpAddress := gcIpAddress, gcPort := gcPort, teamName := teamName, teamColor := teamColor))
  }

  function Run(translate: B.Translate, s: System, steps: seq<Step>): System
    decreases |steps|
  {
    if steps == [] then s else Run(translate, Apply(translate, s, steps[0]), steps[1..])
  }

  const NO_CHECK := Check(false, NothingYet, None, 0, false)

  /** Both nodes have been constructed; the client node has made its first attempt to connect. */
  function Start(gcIpAddress: string, gcPort: nat, teamName: string, teamColor: T.TeamColor, h: T.Handshake): System {
    var node := N.Node(T.Client(false, T.Closed, []), gcIpAddress, gcPort, teamName, teamColor);
    AfterNode(System(node, B.INITIAL, [], [], map[], 0, None, 0, NothingYet, [], NO_CHECK, [], [], false),
              N.Connect(node, h).0)
  }

  // ---------------------------------------------------------------------------------------------
  // Invariants
  // ---------------------------------------------------------------------------------------------

  predicate Odd(n: nat) {
    n % 2 == 1
  }

  ghost predicate NodeInv(s: System) {
    T.ClientInv(s.node.client) && s.node.client.connected == Odd(s.epoch)
  }

  ghost predicate StatusesInv(s: System) {
    && (forall i | 0 <= i < |s.statuses| ::
          s.statuses[i].connected == Odd(s.statuses[i].epoch) && s.statuses[i].epoch <= s.epoch)
    && (forall i, j | 0 <= i <= j < |s.statuses| :: s.statuses[i].epoch <= s.statuses[j].epoch)
    && (s.deliveredEpoch.Some? ==>
          && s.deliveredEpoch.value <= s.epoch
          && forall i | 0 <= i < |s.statuses| :: s.deliveredEpoch.value <= s.statuses[i].epoch)
  }

  ghost predicate SoundReply(r: ServiceReply, b: B.Bridge, id: nat) {
    && id < |b.attempts| && r.address == b.attempts[id].sender
    && (r.success ==> r.connected && r.peer == Some(r.address) && r.gcIpAddress == r.address && Odd(r.epoch))
  }

  ghost predicate ServiceInv(s: System) {
    && (forall i | 0 <= i < |s.requests| ::
          && s.requests[i].id < |s.bridge.attempts| && s.requests[i].address != ""
          && s.requests[i].address == s.bridge.attempts[s.requests[i].id].sender
          && s.requests[i].id !in s.replies)
    && (forall i, j | 0 <= i < j < |s.requests| :: s.requests[i].id != s.requests[j].id)
    && (forall id | id in s.replies :: SoundReply(s.replies[id], s.bridge, id) && s.replies[id].epoch <= s.epoch)
    && (forall i | 0 <= i < |s.grants| ::
          s.grants[i].reply.success && SoundReply(s.grants[i].reply, s.bridge, s.grants[i].id))
    && (s.bridge.phase.Checked? ==> s.bridge.phase.sender != "")
    && (s.bridge.phase.Awaiting? ==> s.bridge.phase.id < |s.bridge.attempts|)
    && (s.bridge.phase.Confirmed? ==>
          s.bridge.phase.id in s.replies && s.replies[s.bridge.phase.id].success)
  }

  ghost predicate BeliefInv(s: System) {
    && s.bridge.teamClientConnected == Odd(s.beliefEpoch) && s.beliefEpoch <= s.epoch
    && (s.beliefSource == NothingYet ==> s.deliveredEpoch == None)
    && (s.beliefSource == StatusMessage ==> s.deliveredEpoch == Some(s.beliefEpoch))
    && (s.beliefSource == ReconnectReply ==> s.bridge.teamClientConnected)
  }

  /** A look at the flag found it clear, and the client connected only if no current status had come. */
  predicate ClearFlag(c: Check) {
    && !c.flag && c.source != ReconnectReply
    && (c.connected ==> c.deliveredEpoch != Some(c.epoch))
  }

  ghost predicate CheckInv(s: System) {
    && |s.checks| == |s.bridge.attempts|
    && (forall i | 0 <= i < |s.checks| :: ClearFlag(s.checks[i]))
    && (s.bridge.phase.Checked? ==> ClearFlag(s.lastCheck))
  }

  /** Attempts are a retry time apart, and the clock of the last one is remembered. */
  ghost predicate RateInv(b: B.Bridge) {
    && (forall i | 0 <= i < |b.attempts| - 1 ::
          b.attempts[i].time + B.RECONNECT_RETRY_TIME <= b.attempts[i + 1].time)
    && (b.attempts == [] ==> b.lastReconnectAttemptTime == 0)
    && (b.attempts != [] ==>
          && b.lastReconnectAttemptTime == b.attempts[|b.attempts| - 1].time
          && B.RECONNECT_RETRY_TIME <= b.attempts[0].time)
  }

  /** The in-order conversion of the datagrams that parse. */
  function Converted(translate: B.Translate, datagrams: seq<Bytes>): seq<Ros.Referee> {
    if datagrams == [] then []
    else
      var n := |datagrams| - 1;
      Converted(translate, datagrams[..n])
      + match translate(datagrams[n]) case Some(m) => [m] case None => []
  }

  /**
   Until a receive fails, either one receive is armed or the callback is running, never both; the
   callback works on the last datagram.
   */
  ghost predicate ReceptionInv(translate: B.Translate, s: System) {
    && s.bridge.outstanding + (if s.bridge.phase == B.Listening then 0 else 1)
       == (if s.receiveFailed then 0 else 1)
    && (s.bridge.phase != B.Listening ==>
          s.received != [] && s.bridge.buffer == s.received[|s.received| - 1])
    && s.bridge.published == Converted(translate, s.received)
  }

  ghost predicate Inv(translate: B.Translate, s: System) {
    && NodeInv(s) && StatusesInv(s) && ServiceInv(s) && BeliefInv(s) && CheckInv(s)
    && RateInv(s.bridge) && ReceptionInv(translate, s)
  }

  // ---------------------------------------------------------------------------------------------
  // Every step keeps every invariant
  // ---------------------------------------------------------------------------------------------

  predicate IsNodeStep(step: Step) {
    || step.ReconnectServed? || step.OperatorReconnects? || step.OperatorRequests?
    || step.PingTimer? || step.ParametersSet?
  }

  lemma BridgeStepLeavesNode(translate: B.Translate, s: System, step: Step)
    requires !IsNodeStep(step)
    ensures Apply(translate, s, step).node == s.node && Apply(translate, s, step).epoch == s.epoch
  {
  }

  lemma ServingKeepsNode(s: System, i: nat, h: T.Handshake)
    requires NodeInv(s) && i < |s.requests|
    ensures NodeInv(AfterServing(s, i, h)) && s.epoch <= AfterServing(s, i, h).epoch
  {
    N.ReconnectReports(s.node, s.requests[i].address, h);
  }

  lemma PingKeepsNode(s: System, reply: Option<T.ControllerToTeam>)
    requires NodeInv(s)
    ensures NodeInv(AfterPing(s, reply)) && s.epoch <= AfterPing(s, reply).epoch
  {
    N.PingPublishesTruth(s.node, reply);
  }

  lemma StepKeepsNode(translate: B.Translate, s: System, step: Step)
    requires NodeInv(s)
    ensures NodeInv(Apply(translate, s, step)) && s.epoch <= Apply(translate, s, step).epoch
  {
    match step
    case ReconnectServed(i, h) =>
      if i < |s.requests| {
        ServingKeepsNode(s, i, h);
      }
    case OperatorReconnects(address, h) => N.ReconnectReports(s.node, address, h);
    case OperatorRequests(request, reply) => N.RequestKeepsConnection(s.node, request, reply);
    case PingTimer(reply) => PingKeepsNode(s, reply);
    case ParametersSet(_, _, _, _) =>
    case _ => BridgeStepLeavesNode(translate, s, step);
  }

  /** The epoch counts the changes of the client's connectivity. */
  lemma EpochCountsChanges(translate: B.Translate, s: System, step: Step)
    ensures var after := Apply(translate, s, step);
            after.epoch == s.epoch + if after.node.client.connected == s.node.client.connected then 0 else 1
  {
  }

  lemma PingKeepsStatuses(s: System, reply: Option<T.ControllerToTeam>)
    requires NodeInv(s) && StatusesInv(s)
    ensures StatusesInv(AfterPing(s, reply))
  {
    N.PingPublishesTruth(s.node, reply);
  }

  lemma FewerStatuses(s: System, step: Step)
    requires StatusesInv(s) && (step.StatusLost? || step.StatusDelivered?)
    ensures StatusesInv(if step.StatusLost? && step.i < |s.statuses|
                        then s.(statuses := s.statuses[..step.i] + s.statuses[step.i + 1..])
                        else if step.StatusDelivered? && s.statuses != [] then AfterDelivery(s) else s)
  {
  }

  lemma StepKeepsStatuses(translate: B.Translate, s: System, step: Step)
    requires NodeInv(s) && StatusesInv(s)
    ensures StatusesInv(Apply(translate, s, step))
  {
    match step
    case PingTimer(reply) => PingKeepsStatuses(s, reply);
    case StatusLost(_) => FewerStatuses(s, step);
    case StatusDelivered => FewerStatuses(s, step);
    case _ =>
      EpochCountsChanges(translate, s, step);
  }

  lemma ServingKeepsService(s: System, i: nat, h: T.Handshake)
    requires NodeInv(s) && ServiceInv(s) && i < |s.requests|
    ensures ServiceInv(AfterServing(s, i, h))
  {
    N.ReconnectReports(s.node, s.requests[i].address, h);
  }

  lemma ClockKeepsService(s: System, now: int)
    requires ServiceInv(s) && s.bridge.phase.Checked?
    ensures ServiceInv(AfterClock(s, now))
  {
    var after := AfterClock(s, now);
    if after.bridge.phase != B.Listening {
      assert forall i | 0 <= i < |s.requests| :: after.requests[i] == s.requests[i];
    }
  }

  lemma NodeStepKeepsService(s: System, after: System)
    requires ServiceInv(s) && s.epoch <= after.epoch
    requires after.bridge == s.bridge && after.requests == s.requests && after.replies == s.replies
    requires after.grants == s.grants
    ensures ServiceInv(after)
  {
  }

  lemma BridgeStepKeepsService(translate: B.Translate, s: System, step: Step)
    requires ServiceInv(s) && !IsNodeStep(step)
    ensures ServiceInv(Apply(translate, s, step))
  {
    if step.ClockIsRead? && s.bridge.phase.Checked? {
      ClockKeepsService(s, step.now);
    }
  }

  lemma StepKeepsService(translate: B.Translate, s: System, step: Step)
    requires NodeInv(s) && ServiceInv(s)
    ensures ServiceInv(Apply(translate, s, step))
  {
    match step
    case ReconnectServed(i, h) =>
      if i < |s.requests| {
        ServingKeepsService(s, i, h);
      }
    case OperatorReconnects(_, _) => NodeStepKeepsService(s, Apply(translate, s, step));
    case OperatorRequests(_, _) => NodeStepKeepsService(s, Apply(translate, s, step));
    case PingTimer(_) => NodeStepKeepsService(s, Apply(translate, s, step));
    case ParametersSet(_, _, _, _) => NodeStepKeepsService(s, Apply(translate, s, step));
    case _ => BridgeStepKeepsService(translate, s, step);
  }

  lemma StepKeepsBelief(translate: B.Translate, s: System, step: Step)
    requires NodeInv(s) && StatusesInv(s) && ServiceInv(s) && BeliefInv(s)
    ensures BeliefInv(Apply(translate, s, step))
  {
    StepKeepsNode(translate, s, step);
  }

  lemma StepKeepsChecks(translate: B.Translate, s: System, step: Step)
    requires NodeInv(s) && BeliefInv(s) && CheckInv(s)
    ensures CheckInv(Apply(translate, s, step))
  {
  }

  lemma ClockKeepsRate(b: B.Bridge, now: int)
    requires RateInv(b) && b.phase.Checked?
    ensures RateInv(B.OnClock(b, now))
  {
  }

  lemma OnlyClockAttempts(translate: B.Translate, s: System, step: Step)
    requires !step.ClockIsRead?
    ensures var after := Apply(translate, s, step).bridge;
      after.attempts == s.bridge.attempts && after.lastReconnectAttemptTime == s.bridge.lastReconnectAttemptTime
  {
  }

  lemma StepKeepsRate(translate: B.Translate, s: System, step: Step)
    requires RateInv(s.bridge)
    ensures RateInv(Apply(translate, s, step).bridge)
  {
    if !step.ClockIsRead? {
      OnlyClockAttempts(translate, s, step);
    } else if s.bridge.phase.Checked? {
      ClockKeepsRate(s.bridge, step.now);
    }
  }

  lemma ConvertedOfOneMore(translate: B.Translate, datagrams: seq<Bytes>, datagram: Bytes)
    ensures Converted(translate, datagrams + [datagram]) == Converted(translate, datagrams)
      + match translate(datagram) case Some(m) => [m] case None => []
  {
    assert (datagrams + [datagram])[..|datagrams|] == datagrams;
  }

  lemma StepKeepsReception(translate: B.Translate, s: System, step: Step)
    requires ReceptionInv(translate, s)
    ensures ReceptionInv(translate, Apply(translate, s, step))
  {
    if step.Datagram? {
      ConvertedOfOneMore(translate, s.received, B.Fitting(step.datagram));
    }
  }

  lemma StepKeepsInv(translate: B.Translate, s: System, step: Step)
    requires Inv(translate, s)
    ensures Inv(translate, Apply(translate, s, step)) && s.epoch <= Apply(translate, s, step).epoch
  {
    StepKeepsNode(translate, s, step);
    StepKeepsStatuses(translate, s, step);
    StepKeepsService(translate, s, step);
    StepKeepsBelief(translate, s, step);
    StepKeepsChecks(translate, s, step);
    StepKeepsRate(translate, s, step);
    StepKeepsReception(translate, s, step);
  }

  lemma {:induction false} RunKeepsInv(translate: B.Translate, s: System, steps: seq<Step>)
    requires Inv(translate, s)
    ensures Inv(translate, Run(translate, s, steps)) && s.epoch <= Run(translate, s, steps).epoch
    decreases |steps|
  {
    if steps != [] {
      StepKeepsInv(translate, s, steps[0]);
      RunKeepsInv(translate, Apply(translate, s, steps[0]), steps[1..]);
    }
  }

  lemma StartInv(translate: B.Translate, gcIpAddress: string, gcPort: nat, teamName: string,
                 teamColor: T.TeamColor, h: T.Handshake)
    ensures Inv(translate, Start(gcIpAddress, gcPort, teamName, teamColor, h))
  {
    var node := N.Node(T.Client(false, T.Closed, []), gcIpAddress, gcPort, teamName, teamColor);
    if gcIpAddress != "" {
      T.ConnectKeepsInv(node.client, N.ParametersOf(node), h);
    }
  }

  /** The states that some run from some start leads to. */
  ghost predicate Reachable(translate: B.Translate, s: System) {
    exists gcIpAddress, gcPort, teamName, teamColor, h, steps ::
      s == Run(translate, Start(gcIpAddress, gcPort, teamName, teamColor, h), steps)
  }

  lemma ReachableInv(translate: B.Translate, s: System)
    requires Reachable(translate, s)
    ensures Inv(translate, s)
  {
    var gcIpAddress, gcPort, teamName, teamColor, h, steps :|
      s == Run(translate, Start(gcIpAddress, gcPort, teamName, teamColor, h), steps);
    StartInv(translate, gcIpAddress, gcPort, teamName, teamColor, h);
    RunKeepsInv(translate, Start(gcIpAddress, gcPort, teamName, teamColor, h), steps);
  }
}
