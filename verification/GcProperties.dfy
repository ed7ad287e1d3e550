/**
 What holds in every run of the system, and two runs that show where a promise of the design stops.
 */
module GcProperties {
  import opened Basics
  import opened GcSystem
  import opened ByteCodec
  import T = TeamProtocol
  import N = TeamClientNodes
  import B = BridgeProtocol

  // ---------------------------------------------------------------------------------------------
  // The bridge's belief
  // ---------------------------------------------------------------------------------------------

  predicate Agrees(s: System) {
    s.bridge.teamClientConnected == s.node.client.connected
  }

  /** The bridge is right, and stays right whatever happens before connectivity changes again. */
  ghost predicate AgreesUntilChange(translate: B.Translate, s: System) {
    forall steps: seq<Step> :: Run(translate, s, steps).epoch == s.epoch ==> Agrees(Run(translate, s, steps))
  }

  /** The bridge's thread holds a reply that reported success, or one is waiting for it. */
  predicate GrantInHand(s: System) {
    match s.bridge.phase
    case Confirmed(_) => true
    case Awaiting(id) => id in s.replies && s.replies[id].success
    case _ => false
  }

  /** No status on its way contradicts the client's state, and neither does the bridge's own thread. */
  ghost predicate NothingContradicts(s: System) {
    && (forall i | 0 <= i < |s.statuses| :: s.statuses[i].connected == s.node.client.connected)
    && (s.node.client.connected || !GrantInHand(s))
  }

  lemma BridgeStepKeepsAgreement(translate: B.Translate, s: System, step: Step)
    requires ServiceInv(s) && Agrees(s) && NothingContradicts(s) && !IsNodeStep(step)
    ensures Agrees(Apply(translate, s, step)) && NothingContradicts(Apply(translate, s, step))
  {
    BridgeStepLeavesNode(translate, s, step);
  }

  lemma StepKeepsAgreement(translate: B.Translate, s: System, step: Step)
    requires NodeInv(s) && ServiceInv(s) && Agrees(s) && NothingContradicts(s)
    requires Apply(translate, s, step).epoch == s.epoch
    ensures Agrees(Apply(translate, s, step)) && NothingContradicts(Apply(translate, s, step))
  {
    EpochCountsChanges(translate, s, step);
    match step
    case ReconnectServed(i, h) => ServingKeepsAgreement(s, i, h);
    case PingTimer(reply) => N.PingPublishesTruth(s.node, reply);
    case OperatorReconnects(_, _) =>
    case OperatorRequests(_, _) =>
    case ParametersSet(_, _, _, _) =>
    case _ => BridgeStepKeepsAgreement(translate, s, step);
  }

  lemma ServingKeepsAgreement(s: System, i: nat, h: T.Handshake)
    requires NodeInv(s) && ServiceInv(s) && NothingContradicts(s)
    ensures i < |s.requests| && AfterServing(s, i, h).epoch == s.epoch ==>
      NothingContradicts(AfterServing(s, i, h))
  {
    if i < |s.requests| {
      ServingKeepsService(s, i, h);
    }
  }

  lemma {:induction false} RunKeepsAgreement(translate: B.Translate, s: System, steps: seq<Step>)
    requires Inv(translate, s) && Agrees(s) && NothingContradicts(s)
    requires Run(translate, s, steps).epoch == s.epoch
    ensures Agrees(Run(translate, s, steps))
    decreases |steps|
  {
    if steps != [] {
      var next := Apply(translate, s, steps[0]);
      StepKeepsInv(translate, s, steps[0]);
      RunKeepsInv(translate, next, steps[1..]);
      StepKeepsAgreement(translate, s, steps[0]);
      RunKeepsAgreement(translate, next, steps[1..]);
    }
  }

  function Deliveries(n: nat): seq<Step> {
    if n == 0 then [] else [StatusDelivered] + Deliveries(n - 1)
  }

  /** Once the first n statuses on their way have been delivered, the flag is what the last one said. */
  lemma {:induction false} DeliveringSetsFlag(translate: B.Translate, s: System, n: nat)
    requires n <= |s.statuses|
    ensures var after := Run(translate, s, Deliveries(n));
      && after.bridge == (if n == 0 then s.bridge else B.OnStatus(s.bridge, s.statuses[n - 1].connected))
      && after.node == s.node && after.epoch == s.epoch && after.receiveFailed == s.receiveFailed
    decreases n
  {
    if n > 0 {
      assert Deliveries(n)[1..] == Deliveries(n - 1);
      DeliveringSetsFlag(translate, AfterDelivery(s), n - 1);
    }
  }

  /** A run within the epoch that ends in disagreement. */
  lemma RunToDisagreement(translate: B.Translate, s: System) returns (steps: seq<Step>)
    requires Inv(translate, s) && !(Agrees(s) && NothingContradicts(s))
    ensures Run(translate, s, steps).epoch == s.epoch && !Agrees(Run(translate, s, steps))
  {
    if !Agrees(s) {
      steps := [];
    } else if i :| 0 <= i < |s.statuses| && s.statuses[i].connected != s.node.client.connected {
      steps := Deliveries(i + 1);
      DeliveringSetsFlag(translate, s, i + 1);
    } else if s.bridge.phase.Confirmed? {
      steps := [FlagIsSet];
      assert steps[1..] == [];
    } else {
      steps := [ReplyArrives, FlagIsSet];
      assert steps[1..] == [FlagIsSet] && steps[1..][1..] == [];
      var replied := Apply(translate, s, ReplyArrives);
      assert replied.bridge.phase.Confirmed? && replied.replies == s.replies;
      assert Run(translate, s, steps) == Apply(translate, replied, FlagIsSet);
    }
  }

  lemma AgreementLastsIff(translate: B.Translate, s: System)
    requires Inv(translate, s)
    ensures AgreesUntilChange(translate, s) <==> Agrees(s) && NothingContradicts(s)
  {
    if Agrees(s) && NothingContradicts(s) {
      forall steps | Run(translate, s, steps).epoch == s.epoch
        ensures Agrees(Run(translate, s, steps))
      {
        RunKeepsAgreement(translate, s, steps);
      }
    } else {
      var steps := RunToDisagreement(translate, s);
    }
  }

  /** After a current status come only current ones; and a flag that disagrees was set from a reply. */
  lemma AfterCurrentStatus(s: System)
    requires NodeInv(s) && StatusesInv(s) && BeliefInv(s) && s.deliveredEpoch == Some(s.epoch)
    ensures forall i | 0 <= i < |s.statuses| :: s.statuses[i].connected == s.node.client.connected
    ensures s.beliefSource == StatusMessage || s.node.client.connected ==> Agrees(s)
  {
  }

  /**
   When the bridge's flag is what a status published since the last change of connectivity said, it
   equals the client's state until the next change, whatever else happens, if and only if the client
   is connected or the bridge's thread has no success to report.
   */
  lemma CurrentStatusLastsIff(translate: B.Translate, s: System)
    requires Reachable(translate, s)
    requires s.deliveredEpoch == Some(s.epoch) && s.beliefSource == StatusMessage
    ensures AgreesUntilChange(translate, s) <==> s.node.client.connected || !GrantInHand(s)
  {
    ReachableInv(translate, s);
    AfterCurrentStatus(s);
    AgreementLastsIff(translate, s);
  }

  /** The same, told when the next status is one published since the last change: delivering it settles. */
  lemma CurrentStatusSettlesIff(translate: B.Translate, s: System)
    requires Reachable(translate, s) && s.statuses != [] && s.statuses[0].epoch == s.epoch
    ensures AgreesUntilChange(translate, Apply(translate, s, StatusDelivered))
            <==> s.node.client.connected || !GrantInHand(s)
  {
    ReachableInv(translate, s);
    StepKeepsInv(translate, s, StatusDelivered);
    AfterCurrentStatus(Apply(translate, s, StatusDelivered));
    AgreementLastsIff(translate, Apply(translate, s, StatusDelivered));
  }

  /** No reconnect request of the bridge is queued, being served, or waiting for its reply. */
  predicate Quiet(s: System) {
    s.requests == [] && s.bridge.phase == B.Listening
  }

  /** In particular, a current status delivered while no reconnect is under way settles the flag. */
  lemma QuietStatusSettles(translate: B.Translate, s: System)
    requires Reachable(translate, s) && s.statuses != [] && s.statuses[0].epoch == s.epoch
    requires Quiet(s)
    ensures AgreesUntilChange(translate, Apply(translate, s, StatusDelivered))
  {
    CurrentStatusSettlesIff(translate, s);
  }

  // ---------------------------------------------------------------------------------------------
  // A run that ends in disagreement
  // ---------------------------------------------------------------------------------------------

  const WELCOME := Some(T.ControllerToTeam(Some(T.ControllerReply(Some(T.OK), None, None))))

  const FRIENDLY := T.Handshake(true, WELCOME, WELCOME)

  const UNREACHABLE := T.Handshake(false, None, None)

  const BLANK := Start("", 10008, "Test Team", T.Auto, UNREACHABLE)

  /** A datagram makes the bridge ask for a connection to its sender, and the client node connects. */
  function Discovery(d: Bytes): seq<Step> {
    [Datagram("10.0.0.1", d, true), ClockIsRead(B.RECONNECT_RETRY_TIME), ReconnectServed(0, FRIENDLY)]
  }

  /** The reply arrives, then the ping fails and its status is delivered. */
  const CONNECTION_LOST: seq<Step> := [ReplyArrives, PingTimer(None), StatusDelivered]

  lemma {:induction false} RunOfConcat(translate: B.Translate, s: System, first: seq<Step>, second: seq<Step>)
    ensures Run(translate, s, first + second) == Run(translate, Run(translate, s, first), second)
    decreases |first|
  {
    if first == [] {
      assert first + second == second;
    } else {
      assert (first + second)[1..] == first[1..] + second;
      RunOfConcat(translate, Apply(translate, s, first[0]), first[1..], second);
    }
  }

  lemma RunOneMore(translate: B.Translate, s: System, steps: seq<Step>, step: Step)
    ensures Run(translate, s, steps + [step]) == Apply(translate, Run(translate, s, steps), step)
  {
    RunOfConcat(translate, s, steps, [step]);
    assert [step][1..] == [];
  }

  lemma RunOfThree(translate: B.Translate, s: System, steps: seq<Step>)
    requires |steps| == 3
    ensures Run(translate, s, steps)
            == Apply(translate, Apply(translate, Apply(translate, s, steps[0]), steps[1]), steps[2])
  {
    var s1 := Apply(translate, s, steps[0]);
    var s2 := Apply(translate, s1, steps[1]);
    assert Run(translate, s1, steps[1..]) == Run(translate, s2, steps[2..]);
    assert Run(translate, s2, steps[2..]) == Run(translate, Apply(translate, s2, steps[2]), steps[3..]);
  }

  lemma DiscoveryAsks(translate: B.Translate, d: Bytes)
    requires translate(B.Fitting(d)).Some?
    ensures var asked := Apply(translate, Apply(translate, BLANK, Discovery(d)[0]), Discovery(d)[1]);
      && asked.requests == [ServiceRequest(0, "10.0.0.1")] && asked.bridge.phase == B.Awaiting(0)
      && asked.node == BLANK.node && asked.epoch == 0 && asked.statuses == [] && asked.deliveredEpoch == None
  {
  }

  lemma DiscoverySucceeds(translate: B.Translate, d: Bytes)
    requires translate(B.Fitting(d)).Some?
    ensures var s := Run(translate, BLANK, Discovery(d));
      && s.node.client.connected && s.requests == [] && s.statuses == []
      && s.bridge.phase == B.Awaiting(0) && 0 in s.replies && s.replies[0].success
  {
    RunOfThree(translate, BLANK, Discovery(d));
    DiscoveryAsks(translate, d);
  }

  lemma FlagIsLate(translate: B.Translate, s: System)
    requires s.node.client.connected && s.requests == [] && s.statuses == []
    requires s.bridge.phase == B.Awaiting(0) && 0 in s.replies && s.replies[0].success
    ensures var after := Apply(translate, Run(translate, s, CONNECTION_LOST), FlagIsSet);
      && Quiet(after) && after.deliveredEpoch == Some(after.epoch) && !Agrees(after)
      && after.bridge.teamClientConnected
  {
    RunOfThree(translate, s, CONNECTION_LOST);
    var replied := Apply(translate, s, ReplyArrives);
    assert Apply(translate, replied, PingTimer(None)).statuses == [Status(false, s.epoch + 1)];
  }

  /**
   Being quiet and having delivered a current status is not enough: the flag may have been set by a
   thread that was late.  The bridge then believes in a connection that is gone.
   */
  lemma LateFlagBreaksAgreement(translate: B.Translate, d: Bytes)
    requires translate(B.Fitting(d)).Some?
    ensures var s := Run(translate, BLANK, Discovery(d) + CONNECTION_LOST + [FlagIsSet]);
      && Reachable(translate, s) && Quiet(s) && s.deliveredEpoch == Some(s.epoch) && !Agrees(s)
      && s.bridge.teamClientConnected
  {
    DiscoverySucceeds(translate, d);
    FlagIsLate(translate, Run(translate, BLANK, Discovery(d)));
    RunOfConcat(translate, BLANK, Discovery(d), CONNECTION_LOST);
    RunOneMore(translate, BLANK, Discovery(d) + CONNECTION_LOST, FlagIsSet);
  }

  // ---------------------------------------------------------------------------------------------
  // Reconnect attempts
  // ---------------------------------------------------------------------------------------------

  ghost predicate MakesAttempt(translate: B.Translate, s: System, step: Step) {
    |s.bridge.attempts| < |Apply(translate, s, step).bridge.attempts|
  }

  lemma AttemptNeedsCheck(translate: B.Translate, s: System, step: Step)
    ensures MakesAttempt(translate, s, step) ==>
      var after := Apply(translate, s, step);
      && step.ClockIsRead? && s.bridge.phase.Checked?
      && after.bridge.attempts == s.bridge.attempts + [B.Attempt(step.now, s.bridge.phase.sender)]
      && after.requests == s.requests + [ServiceRequest(|s.bridge.attempts|, s.bridge.phase.sender)]
      && after.checks == s.checks + [s.lastCheck] && after.node == s.node && after.epoch == s.epoch
    ensures !MakesAttempt(translate, s, step) ==>
      |Apply(translate, s, step).requests| <= |s.requests|
  {
  }

  /**
   In every run, each attempt goes back to a look at the flag that found it clear: nothing had been
   believed yet, or the last status delivered said "disconnected"; and if the client was connected at
   that moment, no status published since it connected had been delivered.
   */
  lemma AttemptsFollowBelief(translate: B.Translate, s: System, i: nat)
    requires Reachable(translate, s) && i < |s.bridge.attempts|
    ensures |s.checks| == |s.bridge.attempts|
    ensures var check := s.checks[i];
      && !check.flag && check.source != ReconnectReply
      && (check.connected ==> check.deliveredEpoch != Some(check.epoch))
  {
    ReachableInv(translate, s);
  }

  /** Up to the next change of connectivity, no request to reconnect is sent to a connected client. */
  ghost predicate AttemptsSpareConnectedClient(translate: B.Translate, s: System) {
    forall steps: seq<Step>, step: Step ::
      var before := Run(translate, s, steps);
      before.epoch == s.epoch && MakesAttempt(translate, before, step) ==> !before.node.client.connected
  }

  /** Up to the next change of connectivity, no request of the bridge is served to a connected client. */
  ghost predicate NeverReconfiguredWhileConnected(translate: B.Translate, s: System) {
    forall steps: seq<Step>, step: Step ::
      var before := Run(translate, s, steps);
      before.epoch == s.epoch && step.ReconnectServed? && step.i < |before.requests|
      ==> !before.node.client.connected
  }

  /**
   What can still make the bridge ask: a status on its way says "disconnected", or the bridge has found
   the flag clear and goes on from there, or the flag is clear and not about to be set.
   */
  ghost predicate Disbelief(s: System) {
    || (exists i :: 0 <= i < |s.statuses| && !s.statuses[i].connected)
    || s.bridge.phase.Checked?
    || (!s.bridge.teamClientConnected && !s.bridge.phase.Confirmed?)
  }

  ghost predicate Trust(s: System) {
    s.receiveFailed || !Disbelief(s)
  }

  lemma TrustMakesNoAttempt(translate: B.Translate, s: System, step: Step)
    requires ReceptionInv(translate, s) && Trust(s)
    ensures !MakesAttempt(translate, s, step)
  {
    AttemptNeedsCheck(translate, s, step);
  }

  lemma StepKeepsTrust(translate: B.Translate, s: System, step: Step)
    requires NodeInv(s) && ReceptionInv(translate, s) && s.node.client.connected && Trust(s)
    requires Apply(translate, s, step).epoch == s.epoch
    ensures Apply(translate, s, step).node.client.connected && Trust(Apply(translate, s, step))
  {
    EpochCountsChanges(translate, s, step);
    if step.PingTimer? {
      N.PingPublishesTruth(s.node, step.reply);
    }
  }

  lemma {:induction false} RunKeepsTrust(translate: B.Translate, s: System, steps: seq<Step>)
    requires Inv(translate, s) && s.node.client.connected && Trust(s)
    requires Run(translate, s, steps).epoch == s.epoch
    ensures Trust(Run(translate, s, steps)) && |Run(translate, s, steps).requests| <= |s.requests|
    decreases |steps|
  {
    if steps != [] {
      var next := Apply(translate, s, steps[0]);
      StepKeepsInv(translate, s, steps[0]);
      RunKeepsInv(translate, next, steps[1..]);
      StepKeepsTrust(translate, s, steps[0]);
      TrustMakesNoAttempt(translate, s, steps[0]);
      AttemptNeedsCheck(translate, s, steps[0]);
      RunKeepsTrust(translate, next, steps[1..]);
    }
  }

  /** How the multicast thread gets back to its event loop, unless it is about to ask. */
  function Return(s: System): seq<Step> {
    match s.bridge.phase
    case Awaiting(_) => [WaitTimesOut]
    case Confirmed(_) => [FlagIsSet]
    case _ => []
  }

  lemma ReturnLeadsBack(translate: B.Translate, s: System)
    requires Inv(translate, s) && !s.bridge.phase.Checked?
    ensures var after := Run(translate, s, Return(s));
      && after.bridge.phase == B.Listening && after.node == s.node && after.epoch == s.epoch
      && after.statuses == s.statuses && after.receiveFailed == s.receiveFailed
      && after.bridge.teamClientConnected == (s.bridge.teamClientConnected || s.bridge.phase.Confirmed?)
  {
    if Return(s) != [] {
      assert Return(s)[1..] == [];
    }
  }

  /** In the event loop, with the flag clear, a datagram that parses leads to the next phase. */
  lemma ListeningChecks(translate: B.Translate, s: System, d: Bytes)
    requires ReceptionInv(translate, s) && !s.receiveFailed && s.bridge.phase == B.Listening
    requires !s.bridge.teamClientConnected && translate(B.Fitting(d)).Some?
    ensures var after := Apply(translate, s, Datagram("10.0.0.1", d, true));
      after.bridge.phase.Checked? && after.node == s.node && after.epoch == s.epoch
  {
  }

  /** A run within the epoch that ends where the bridge has found its flag clear. */
  lemma RunToCheck(translate: B.Translate, s: System, d: Bytes) returns (steps: seq<Step>)
    requires Inv(translate, s) && !Trust(s) && translate(B.Fitting(d)).Some?
    ensures var before := Run(translate, s, steps);
      before.epoch == s.epoch && before.node == s.node && before.bridge.phase.Checked?
  {
    if s.bridge.phase.Checked? {
      return [];
    }
    ReturnLeadsBack(translate, s);
    var back := Run(translate, s, Return(s));
    var n := 0;
    if i :| 0 <= i < |s.statuses| && !s.statuses[i].connected {
      n := i + 1;
    }
    steps := Return(s) + Deliveries(n);
    RunOfConcat(translate, s, Return(s), Deliveries(n));
    DeliveringSetsFlag(translate, back, n);
    RunKeepsInv(translate, s, steps);
    ListeningChecks(translate, Run(translate, s, steps), d);
    RunOneMore(translate, s, steps, Datagram("10.0.0.1", d, true));
    steps := steps + [Datagram("10.0.0.1", d, true)];
  }

  function Ask(s: System): Step {
    ClockIsRead(s.bridge.lastReconnectAttemptTime + B.RECONNECT_RETRY_TIME)
  }

  /** From there the bridge asks for a reconnect, which then waits to be served. */
  lemma CheckLeadsToRequest(translate: B.Translate, s: System)
    requires s.bridge.phase.Checked?
    ensures MakesAttempt(translate, s, Ask(s))
    ensures var after := Apply(translate, s, Ask(s));
      after.requests != [] && after.node == s.node && after.epoch == s.epoch
  {
  }

  /**
   Given that some datagram parses: no request is sent to a connected client until the next change of
   connectivity, if and only if the client is disconnected, or nothing is received any more, or
   nothing can still make the bridge ask.
   */
  lemma AttemptsSpareConnectedClientIff(translate: B.Translate, s: System, d: Bytes)
    requires Reachable(translate, s) && translate(B.Fitting(d)).Some?
    ensures AttemptsSpareConnectedClient(translate, s)
            <==> !s.node.client.connected || s.receiveFailed || !Disbelief(s)
  {
    ReachableInv(translate, s);
    if s.node.client.connected && !Trust(s) {
      var steps := RunToCheck(translate, s, d);
      CheckLeadsToRequest(translate, Run(translate, s, steps));
    } else {
      forall steps: seq<Step>, step: Step
        | Run(translate, s, steps).epoch == s.epoch && MakesAttempt(translate, Run(translate, s, steps), step)
        ensures !Run(translate, s, steps).node.client.connected
      {
        RunKeepsInv(translate, s, steps);
        if s.node.client.connected {
          RunKeepsTrust(translate, s, steps);
          TrustMakesNoAttempt(translate, Run(translate, s, steps), step);
        }
      }
    }
  }

  lemma TrustIsNeverReconfigured(translate: B.Translate, s: System)
    requires Inv(translate, s)
    requires s.node.client.connected ==> s.requests == [] && Trust(s)
    ensures NeverReconfiguredWhileConnected(translate, s)
  {
    forall steps: seq<Step>, step: Step
      | && Run(translate, s, steps).epoch == s.epoch
        && step.ReconnectServed? && step.i < |Run(translate, s, steps).requests|
      ensures !Run(translate, s, steps).node.client.connected
    {
      RunKeepsInv(translate, s, steps);
      if s.node.client.connected {
        RunKeepsTrust(translate, s, steps);
      }
    }
  }

  lemma RequestMayBeServed(translate: B.Translate, s: System, steps: seq<Step>)
    requires Run(translate, s, steps).epoch == s.epoch && Run(translate, s, steps).requests != []
    requires Run(translate, s, steps).node.client.connected
    ensures !NeverReconfiguredWhileConnected(translate, s)
  {
    var step := ReconnectServed(0, UNREACHABLE);
    assert step.i < |Run(translate, s, steps).requests|;
  }

  lemma CheckedMayBeReconfigured(translate: B.Translate, s: System, steps: seq<Step>)
    requires Run(translate, s, steps).epoch == s.epoch && Run(translate, s, steps).bridge.phase.Checked?
    requires Run(translate, s, steps).node.client.connected
    ensures !NeverReconfiguredWhileConnected(translate, s)
  {
    var before := Run(translate, s, steps);
    CheckLeadsToRequest(translate, before);
    RunOneMore(translate, s, steps, Ask(before));
    RequestMayBeServed(translate, s, steps + [Ask(before)]);
  }

  /**
   The design wants only clients reconfigured that are not connected already.  Given that some datagram
   parses, this holds until the next change of connectivity if and only if the client is disconnected,
   or no request of the bridge is waiting to be served and nothing can still make the bridge ask.
   */
  lemma NeverReconfiguredWhileConnectedIff(translate: B.Translate, s: System, d: Bytes)
    requires Reachable(translate, s) && translate(B.Fitting(d)).Some?
    ensures NeverReconfiguredWhileConnected(translate, s)
            <==> !s.node.client.connected || (s.requests == [] && (s.receiveFailed || !Disbelief(s)))
  {
    ReachableInv(translate, s);
    if s.node.client.connected && s.requests != [] {
      RequestMayBeServed(translate, s, []);
    } else if s.node.client.connected && !Trust(s) {
      var steps := RunToCheck(translate, s, d);
      CheckedMayBeReconfigured(translate, s, steps);
    } else {
      TrustIsNeverReconfigured(translate, s);
    }
  }

  /**
   Once a status published since the last change has been delivered: if and only if the client is
   disconnected, or no request is waiting to be served or about to be sent.
   */
  lemma CurrentStatusNeverReconfiguredIff(translate: B.Translate, s: System)
    requires Reachable(translate, s) && s.deliveredEpoch == Some(s.epoch)
    ensures NeverReconfiguredWhileConnected(translate, s)
            <==> !s.node.client.connected || (s.requests == [] && !s.bridge.phase.Checked?)
  {
    ReachableInv(translate, s);
    AfterCurrentStatus(s);
    if s.node.client.connected && s.requests != [] {
      RequestMayBeServed(translate, s, []);
    } else if s.node.client.connected && s.bridge.phase.Checked? {
      CheckedMayBeReconfigured(translate, s, []);
    } else {
      TrustIsNeverReconfigured(translate, s);
    }
  }

  /**
   A client that connected before the bridge heard of it can lose its connection to discovery: the
   first datagram makes the bridge reconnect it, and that reconnect may fail.
   */
  lemma DiscoveryCanDropConnection(translate: B.Translate, d: Bytes)
    requires translate(B.Fitting(d)).Some?
    ensures var s0 := Start("10.0.0.1", 10008, "Test Team", T.Auto, FRIENDLY);
      var s1 := Apply(translate, s0, Datagram("10.0.0.2", d, true));
      var s2 := Apply(translate, s1, ClockIsRead(B.RECONNECT_RETRY_TIME));
      var s3 := Apply(translate, s2, ReconnectServed(0, UNREACHABLE));
      s0.node.client.connected && s2.node.client.connected && !s3.node.client.connected
  {
    var s0 := Start("10.0.0.1", 10008, "Test Team", T.Auto, FRIENDLY);
    var s1 := Apply(translate, s0, Datagram("10.0.0.2", d, true));
    assert s1.bridge.phase == B.Checked("10.0.0.2");
    var s2 := Apply(translate, s1, ClockIsRead(B.RECONNECT_RETRY_TIME));
    assert s2.requests == [ServiceRequest(0, "10.0.0.2")];
  }

  /** A request is sent, and before it is served the client connects on an operator's request. */
  function RequestOvertaken(d: Bytes): seq<Step> {
    [Discovery(d)[0], Discovery(d)[1], OperatorReconnects("10.0.0.1", FRIENDLY)]
  }

  const BRIDGE_LEARNS: seq<Step> := [WaitTimesOut, PingTimer(WELCOME), StatusDelivered]

  lemma OvertakenRequestWaits(translate: B.Translate, d: Bytes)
    requires translate(B.Fitting(d)).Some?
    ensures var s := Run(translate, BLANK, RequestOvertaken(d));
      && s.node.client.connected && s.node.gcIpAddress != "" && s.statuses == []
      && s.requests == [ServiceRequest(0, "10.0.0.1")] && s.bridge.phase == B.Awaiting(0)
  {
    RunOfThree(translate, BLANK, RequestOvertaken(d));
    DiscoveryAsks(translate, d);
  }

  lemma BridgeLearns(translate: B.Translate, s: System)
    requires s.node.client.connected && s.statuses == [] && s.bridge.phase == B.Awaiting(0)
    ensures var after := Run(translate, s, BRIDGE_LEARNS);
      && after.node.client.connected && after.deliveredEpoch == Some(after.epoch)
      && after.bridge.teamClientConnected && after.statuses == [] && after.bridge.phase == B.Listening
      && after.requests == s.requests
  {
    RunOfThree(translate, s, BRIDGE_LEARNS);
    var listening := Apply(translate, s, WaitTimesOut);
    assert Apply(translate, listening, PingTimer(WELCOME)).statuses == [Status(true, s.epoch)];
  }

  /**
   The bridge need not be mistaken for this to happen: a request sent while the client was
   disconnected can cost it its connection after the bridge has learnt of it and sends no more.
   */
  lemma QueuedRequestCanDropConnection(translate: B.Translate, d: Bytes)
    requires translate(B.Fitting(d)).Some?
    ensures var s := Run(translate, BLANK, RequestOvertaken(d) + BRIDGE_LEARNS);
      && Reachable(translate, s) && s.node.client.connected && s.deliveredEpoch == Some(s.epoch)
      && Agrees(s) && !Disbelief(s)
      && !Apply(translate, s, ReconnectServed(0, UNREACHABLE)).node.client.connected
  {
    OvertakenRequestWaits(translate, d);
    BridgeLearns(translate, Run(translate, BLANK, RequestOvertaken(d)));
    RunOfConcat(translate, BLANK, RequestOvertaken(d), BRIDGE_LEARNS);
  }

  /** How many attempts fall between two instants. */
  function AttemptsBetween(attempts: seq<B.Attempt>, from: int, to: int): nat {
    if attempts == [] then 0
    else
      var n := |attempts| - 1;
      AttemptsBetween(attempts[..n], from, to) + if from <= attempts[n].time <= to then 1 else 0
  }

  ghost predicate Spaced(attempts: seq<B.Attempt>) {
    forall i | 0 <= i < |attempts| - 1 :: attempts[i].time + B.RECONNECT_RETRY_TIME <= attempts[i + 1].time
  }

  lemma {:induction false} NoneAfterTheLast(attempts: seq<B.Attempt>, from: int, to: int, last: int)
    requires Spaced(attempts) && last <= to
    requires attempts != [] ==> attempts[|attempts| - 1].time <= last
    ensures AttemptsBetween(attempts, from, to) == AttemptsBetween(attempts, from, last)
  {
    if attempts != [] {
      var n := |attempts| - 1;
      assert n > 0 ==> attempts[n - 1].time + B.RECONNECT_RETRY_TIME <= attempts[n].time;
      NoneAfterTheLast(attempts[..n], from, to, last);
    }
  }

  lemma {:induction false} SpacedAttemptsAreFew(attempts: seq<B.Attempt>, from: int, to: int)
    requires Spaced(attempts)
    ensures AttemptsBetween(attempts, from, to)
            <= if from <= to then (to - from) / B.RECONNECT_RETRY_TIME + 1 else 0
  {
    if attempts != [] {
      var n := |attempts| - 1;
      var t := attempts[n].time;
      if from <= t <= to {
        var before := t - B.RECONNECT_RETRY_TIME;
        assert n > 0 ==> attempts[n - 1].time <= before;
        NoneAfterTheLast(attempts[..n], from, to, before);
        SpacedAttemptsAreFew(attempts[..n], from, before);
      } else {
        SpacedAttemptsAreFew(attempts[..n], from, to);
      }
    }
  }

  /**
   In every run, a window of any length in nanoseconds holds at most one attempt per full second, plus
   one, whatever the clock does; and the first attempt is not in the clock's first second.
   */
  lemma RateLimit(translate: B.Translate, s: System, from: int, length: nat)
    requires Reachable(translate, s)
    ensures AttemptsBetween(s.bridge.attempts, from, from + length) <= length / 1_000_000_000 + 1
    ensures s.bridge.attempts != [] ==> 1_000_000_000 <= s.bridge.attempts[0].time
  {
    ReachableInv(translate, s);
    SpacedAttemptsAreFew(s.bridge.attempts, from, from + length);
  }

  /**
   Whenever the bridge set its flag, the reply it relied on was made while the client was connected
   on a session with the sender the bridge had deduced, which was also the node's address.
   */
  lemma FlagIsSound(translate: B.Translate, s: System, i: nat)
    requires Reachable(translate, s) && i < |s.grants|
    ensures var grant := s.grants[i];
      && grant.id < |s.bridge.attempts|
      && grant.reply.success && grant.reply.connected
      && grant.reply.peer == Some(s.bridge.attempts[grant.id].sender)
      && grant.reply.gcIpAddress == s.bridge.attempts[grant.id].sender
  {
    ReachableInv(translate, s);
  }

  // ---------------------------------------------------------------------------------------------
  // Sessions and reception
  // ---------------------------------------------------------------------------------------------

  /**
   In every run, what the client wrote on each session is a prefix of one registration followed by
   requests; the registration followed a welcome, the requests a second one; and a client that calls
   itself connected has an open socket on a session that got both.
   */
  lemma SessionsSpeakTheProtocol(translate: B.Translate, s: System)
    requires Reachable(translate, s)
    ensures forall i | 0 <= i < |s.node.client.sessions| ::
      var events := s.node.client.sessions[i].events;
      && T.RegistrationThenRequests(T.Written(events))
      && (|T.Written(events)| >= 1 ==> T.WelcomedAt(events, 0))
      && (|T.Written(events)| >= 2 ==> T.WelcomedAt(events, 2))
    ensures s.node.client.connected ==>
      var sessions := s.node.client.sessions;
      s.node.client.socket == T.Attached && sessions != [] && T.Registered(sessions[|sessions| - 1].events)
  {
    ReachableInv(translate, s);
    forall i | 0 <= i < |s.node.client.sessions|
      ensures var events := s.node.client.sessions[i].events;
        && T.RegistrationThenRequests(T.Written(events))
        && (|T.Written(events)| >= 1 ==> T.WelcomedAt(events, 0))
        && (|T.Written(events)| >= 2 ==> T.WelcomedAt(events, 2))
    {
      T.WireLanguage(s.node.client.sessions[i].events);
      T.WritesFollowWelcomes(s.node.client.sessions[i].events);
    }
  }

  /**
   In every run, until a receive fails, either one receive is armed or the callback is running, never
   both, so that the callback works on the datagram it was called with; and what is published is the
   in-order conversion of the datagrams that parse, whatever became of the reconnect attempts.
   */
  lemma ReceptionIsSerial(translate: B.Translate, s: System)
    requires Reachable(translate, s)
    ensures s.bridge.outstanding + (if s.bridge.phase == B.Listening then 0 else 1)
            == if s.receiveFailed then 0 else 1
    ensures s.bridge.phase != B.Listening ==>
      s.received != [] && s.bridge.buffer == s.received[|s.received| - 1]
    ensures s.bridge.published == Converted(translate, s.received)
  {
    ReachableInv(translate, s);
  }

  /**
   The end of the callback.  A reply that reports success leads on to the flag, without touching it; any
   other, or none in time, puts the bridge back into its event loop with one receive armed, and so
   does setting the flag.
   */
  lemma WaitingEnds(translate: B.Translate, s: System)
    requires Reachable(translate, s)
    ensures s.bridge.phase.Awaiting? && s.bridge.phase.id in s.replies ==>
      var after := Apply(translate, s, ReplyArrives).bridge;
      && after.teamClientConnected == s.bridge.teamClientConnected
      && (after.phase == B.Confirmed(s.bridge.phase.id) <==> s.replies[s.bridge.phase.id].success)
      && (after.phase != B.Listening <==> s.replies[s.bridge.phase.id].success)
      && after.outstanding == if after.phase == B.Listening then 1 else 0
    ensures s.bridge.phase.Awaiting? ==>
      var after := Apply(translate, s, WaitTimesOut).bridge;
      && after.teamClientConnected == s.bridge.teamClientConnected
      && after.phase == B.Listening && after.outstanding == 1
    ensures s.bridge.phase.Confirmed? ==>
      var after := Apply(translate, s, FlagIsSet).bridge;
      after.teamClientConnected && after.phase == B.Listening && after.outstanding == 1
  {
    ReachableInv(translate, s);
  }

  /** What an operator asks for is written on the current session, if the client is connected. */
  lemma OperatorRequestIsWritten(translate: B.Translate, s: System, request: T.Request,
                                 reply: Option<T.ControllerToTeam>)
    requires Reachable(translate, s)
    ensures var after := Apply(translate, s, OperatorRequests(request, reply));
      && after.bridge == s.bridge && after.epoch == s.epoch
      && (!s.node.client.connected ==> after.node == s.node)
      && (s.node.client.connected ==>
            T.OnlyLastSessionGrew(s.node.client, after.node.client,
                                  [T.Wrote(T.ToController(request)), T.Heard(reply)]))
  {
    ReachableInv(translate, s);
    N.RequestKeepsConnection(s.node, request, reply);
  }

  predicate Stopped(s: System) {
    s.bridge.outstanding == 0 && s.bridge.phase == B.Listening
  }

  /** After the first receive error nothing is received, published or attempted any more. */
  lemma {:induction false} NothingAfterReceiveError(translate: B.Translate, s: System, steps: seq<Step>)
    requires Stopped(s)
    ensures var later := Run(translate, s, steps);
      && Stopped(later) && later.received == s.received
      && later.bridge.published == s.bridge.published && later.bridge.attempts == s.bridge.attempts
    decreases |steps|
  {
    if steps != [] {
      NothingAfterReceiveError(translate, Apply(translate, s, steps[0]), steps[1..]);
    }
  }

  lemma ReceiveErrorStops(translate: B.Translate, s: System)
    requires Reachable(translate, s) && s.bridge.outstanding > 0
    ensures Stopped(Apply(translate, s, ReceiveError))
  {
    ReachableInv(translate, s);
  }
}
