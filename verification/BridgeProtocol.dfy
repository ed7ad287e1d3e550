/**
 What the multicast bridge does with datagrams, status messages and replies, as functions of its
 state.  The multicast callback blocks while it waits for the team client node, so it is cut at the
 points where status messages can be delivered on the other thread.
 */
module BridgeProtocol {
  import opened Basics
  import opened ByteCodec
  import Ros

  const RECEIVE_BUFFER_SIZE: nat := 4096
  const RECONNECT_RETRY_TIME: int := 1_000_000_000

  /** Parse a datagram and convert it to the ROS message that is published, if it parses. */
  type Translate = Bytes -> Option<Ros.Referee>

  /** Where the multicast thread is: in the event loop, or inside the callback. */
  datatype Phase =
    | Listening
    | Checked(sender: string)  // the client was believed disconnected; nothing has been sent yet
    | Awaiting(id: nat)        // a reconnect request has been sent; waiting for its reply
    | Confirmed(id: nat)       // the reply reported success; the flag is about to be set

  /** A reconnect attempt: when, and to which sender. */
  datatype Attempt = Attempt(time: int, sender: string)

  datatype Bridge = Bridge(
    teamClientConnected: bool,
    lastReconnectAttemptTime: int,
    phase: Phase,
    outstanding: nat,               // receives that are armed
    buffer: Bytes,                  // the datagram in the receive buffer
    published: seq<Ros.Referee>,
    attempts: seq<Attempt>)

  /** A new bridge: nothing believed, one receive armed. */
  const INITIAL: Bridge := Bridge(false, 0, Listening, 1, [], [], [])

  /** What fits the receive buffer; the rest of a longer datagram is lost. */
  function Fitting(datagram: Bytes): (kept: Bytes)
    ensures |kept| == Min(|datagram|, 4096) && kept <= datagram
  {
    datagram[..Min(|datagram|, RECEIVE_BUFFER_SIZE)]
  }

  /** The callback has returned: arm the next receive. */
  function Rearm(b: Bridge): Bridge {
    b.(phase := Listening, outstanding := b.outstanding + 1)
  }

  /** A datagram arrives and the callback runs until it has looked at the flag. */
  function OnDatagram(translate: Translate, b: Bridge, sender: string, datagram: Bytes,
                      serviceIsReady: bool): Bridge
    requires b.outstanding > 0
  {
    var received := b.(outstanding := b.outstanding - 1, buffer := Fitting(datagram));
    match translate(received.buffer)
    case None => Rearm(received)
    case Some(m) =>
      var told := received.(published := received.published + [m]);
      if told.teamClientConnected || !serviceIsReady then Rearm(told)
      else told.(phase := Checked(sender))
  }

  /** The rest of the callback up to its return, or to the wait for the reply to its request. */
  function OnClock(b: Bridge, now: int): Bridge
    requires b.phase.Checked?
  {
    if now - b.lastReconnectAttemptTime < RECONNECT_RETRY_TIME then Rearm(b)
    else
      b.(lastReconnectAttemptTime := now,
         phase := Awaiting(|b.attempts|),
         attempts := b.attempts + [Attempt(now, b.phase.sender)])
  }

  /**
   From datagram to attempt, whatever happens to the flag in between: the callback returns and arms the
   next receive, or it has made one attempt: it found the flag clear, a retry time after the attempt
   before, and asks for a connection to the sender.
   */
  lemma DatagramOutcome(translate: Translate, b: Bridge, sender: string, datagram: Bytes,
                        serviceIsReady: bool, flag: bool, now: int)
    requires b.outstanding > 0 && b.phase == Listening
    ensures var told := OnDatagram(translate, b, sender, datagram, serviceIsReady);
      var after := if told.phase.Checked? then OnClock(told.(teamClientConnected := flag), now) else told;
      && told.teamClientConnected == b.teamClientConnected
      && told.attempts == b.attempts && told.lastReconnectAttemptTime == b.lastReconnectAttemptTime
      && (told.phase.Checked? <==>
            translate(Fitting(datagram)).Some? && !b.teamClientConnected && serviceIsReady)
      && (after.attempts != b.attempts <==>
            told.phase.Checked? && b.lastReconnectAttemptTime + 1_000_000_000 <= now)
      && if after.attempts == b.attempts
         then after.phase == Listening && after.outstanding == b.outstanding
              && after.lastReconnectAttemptTime == b.lastReconnectAttemptTime
         else
           && after.attempts == b.attempts + [Attempt(now, sender)]
           && after.phase == Awaiting(|b.attempts|) && after.outstanding == b.outstanding - 1
           && !b.teamClientConnected && serviceIsReady
           && after.lastReconnectAttemptTime == now
  {
  }

  /** A receive that fails is not armed again. */
  function OnReceiveError(b: Bridge): Bridge
    requires b.outstanding > 0
  {
    b.(outstanding := b.outstanding - 1)
  }

  /** A success leads on to the flag; a failure ends the callback, which arms the next receive. */
  function OnReply(b: Bridge, success: bool): (after: Bridge)
    requires b.phase.Awaiting?
    ensures after.teamClientConnected == b.teamClientConnected
    ensures success ==> after.phase == Confirmed(b.phase.id) && after.outstanding == b.outstanding
    ensures !success ==> after.phase == Listening && after.outstanding == b.outstanding + 1
  {
    if success then b.(phase := Confirmed(b.phase.id)) else Rearm(b)
  }

  function SetFlag(b: Bridge): Bridge {
    Rearm(b.(teamClientConnected := true))
  }

  function OnStatus(b: Bridge, connected: bool): Bridge {
    b.(teamClientConnected := connected)
  }
}
