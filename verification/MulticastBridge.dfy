/**
 `multicast_receiver.cpp` and `gc_multicast_bridge_node.cpp`: datagrams are received one at a time
 into one buffer, republished, and used to discover the game controller.
 */
module MulticastBridges {
  import opened Basics
  import opened ByteCodec
  import opened BridgeProtocol
  import Proto
  import Ros
  import Conversion

  function ConvertReferee(m: Option<Proto.Referee>): Option<Ros.Referee> {
    if m.Some? then Some(Conversion.FromReferee(m.value)) else None
  }

  /** `ParseFromArray` followed by `fromProto`. */
  function ParseAndConvert(decode: Bytes -> Option<Proto.Referee>): Translate {
    (datagram: Bytes) => ConvertReferee(decode(datagram))
  }

  class MulticastReceiver {
    const buffer: array<byte>
    var senderAddress: string
    var outstanding: nat

    ghost predicate Valid()
      reads this
    {
      buffer.Length == RECEIVE_BUFFER_SIZE
    }

    constructor ()
      ensures Valid() && outstanding == 1 && fresh(buffer)
    {
      buffer := new byte[RECEIVE_BUFFER_SIZE];
      senderAddress, outstanding := "", 1;
    }

    /** An armed receive completes: the datagram is in the buffer, cut to its size. */
    method Complete(sender: string, datagram: Bytes) returns (bytesReceived: nat)
      requires Valid() && outstanding > 0
      modifies this`senderAddress, this`outstanding, buffer
      ensures Valid() && outstanding == old(outstanding) - 1 && senderAddress == sender
      ensures bytesReceived <= buffer.Length && buffer[..bytesReceived] == Fitting(datagram)
    {
      bytesReceived := Min(|datagram|, RECEIVE_BUFFER_SIZE);
      forall i | 0 <= i < bytesReceived {
        buffer[i] := datagram[i];
      }
      senderAddress, outstanding := sender, outstanding - 1;
    }

    method Fail()
      requires outstanding > 0
      modifies this`outstanding
      ensures outstanding == old(outstanding) - 1
    {
      outstanding := outstanding - 1;
    }

    method Arm()
      modifies this`outstanding
      ensures outstanding == old(outstanding) + 1
    {
      outstanding := outstanding + 1;
    }
  }

  class GCMulticastBridgeNode {
    const decode: Bytes -> Option<Proto.Referee>
    const receiver: MulticastReceiver
    var teamClientConnected: bool
    var lastReconnectAttemptTime: int
    var published: seq<Ros.Referee>
    /** Where the multicast thread stands in its callback. */
    var phase: Phase
    /** The requests sent to the reconnect service; a request is known by its place among them. */
    var attempts: seq<Attempt>
    /** How much of the buffer the last datagram fills. */
    ghost var received: nat

    ghost predicate Valid()
      reads this, receiver
    {
      receiver.Valid() && received <= receiver.buffer.Length
    }

    ghost function View(): Bridge
      reads this, receiver, receiver.buffer
      requires Valid()
    {
      Bridge(teamClientConnected, lastReconnectAttemptTime, phase, receiver.outstanding,
             receiver.buffer[..received], published, attempts)
    }

    constructor (decode: Bytes -> Option<Proto.Referee>)
      ensures Valid() && View() == INITIAL && this.decode == decode
      ensures fresh(receiver) && fresh(receiver.buffer)
    {
      this.decode := decode;
      receiver := new MulticastReceiver();
      teamClientConnected, lastReconnectAttemptTime, published, phase := false, 0, [], Listening;
      received, attempts := 0, [];
    }

    /** The receive completes: with an error it is not armed again, otherwise the callback runs. */
    method HandleMulticastReceiveFrom(error: bool, sender: string, datagram: Bytes, serviceIsReady: bool)
      requires Valid() && receiver.outstanding > 0 && phase == Listening
      modifies this, receiver, receiver.buffer
      ensures Valid()
      ensures View() == if error then OnReceiveError(old(View()))
                        else OnDatagram(ParseAndConvert(decode), old(View()), sender, datagram, serviceIsReady)
    {
      if error {
        receiver.Fail();
        return;
      }
      var bytesReceived := Receive(sender, datagram);
      PublishMulticastMessage(receiver.senderAddress, receiver.buffer[..bytesReceived], serviceIsReady);
      if phase == Listening {
        receiver.Arm();
      }
    }

    method Receive(sender: string, datagram: Bytes) returns (bytesReceived: nat)
      requires Valid() && receiver.outstanding > 0
      modifies this`received, receiver, receiver.buffer
      ensures Valid() && receiver.senderAddress == sender
      ensures View() == old(View()).(outstanding := old(receiver.outstanding) - 1, buffer := Fitting(datagram))
      ensures bytesReceived == received
    {
      bytesReceived := receiver.Complete(sender, datagram);
      received := bytesReceived;
    }

    /** The callback up to the point where it returns, or has found the flag clear. */
    method PublishMulticastMessage(senderAddress: string, buffer: Bytes, serviceIsReady: bool)
      requires phase == Listening
      modifies this`published, this`phase
      ensures published == old(published) +
        match ConvertReferee(decode(buffer)) case Some(m) => [m] case None => []
      ensures phase == if decode(buffer).Some? && !teamClientConnected && serviceIsReady
                       then Checked(senderAddress) else Listening
    {
      var refereeProto := decode(buffer);
      if refereeProto == None {
        return;
      }
      published := published + [Conversion.FromReferee(refereeProto.value)];
      if teamClientConnected || !serviceIsReady {
        return;
      }
      phase := Checked(senderAddress);
    }

    /** The callback after its look at the flag, up to its return or to the wait for a reply. */
    method RequestReconnect(now: int)
      requires Valid() && phase.Checked?
      modifies this`lastReconnectAttemptTime, this`phase, this`attempts, receiver`outstanding
      ensures Valid() && View() == OnClock(old(View()), now)
      ensures attempts == old(attempts) + if now - old(lastReconnectAttemptTime) >= RECONNECT_RETRY_TIME
                                          then [Attempt(now, old(phase.sender))] else []
    {
      var timeSinceLastAttempt := now - lastReconnectAttemptTime;
      if timeSinceLastAttempt < RECONNECT_RETRY_TIME {
        ReturnFromCallback();
        return;
      }
      lastReconnectAttemptTime := now;
      var id := |attempts|;
      attempts := attempts + [Attempt(now, phase.sender)];
      phase := Awaiting(id);
    }

    /** The wait ends: without a reply in time (`None`), or with what the service reported. */
    method FinishWaiting(reply: Option<bool>)
      requires Valid() && phase.Awaiting?
      modifies this`phase, receiver`outstanding
      ensures Valid()
      ensures View() == if reply == None then Rearm(old(View())) else OnReply(old(View()), reply.value)
      ensures teamClientConnected == old(teamClientConnected)
      ensures if reply == Some(true)
              then phase == Confirmed(old(phase.id)) && receiver.outstanding == old(receiver.outstanding)
              else phase == Listening && receiver.outstanding == old(receiver.outstanding) + 1
    {
      if reply == None {
        ReturnFromCallback();
        return;
      }
      if !reply.value {
        ReturnFromCallback();
        return;
      }
      phase := Confirmed(phase.id);
    }

    method SetTeamClientConnected()
      requires Valid() && phase.Confirmed?
      modifies this`teamClientConnected, this`phase, receiver`outstanding
      ensures Valid() && View() == SetFlag(old(View()))
      ensures teamClientConnected && phase == Listening && receiver.outstanding == old(receiver.outstanding) + 1
    {
      teamClientConnected := true;
      ReturnFromCallback();
    }

    method ReturnFromCallback()
      requires Valid()
      modifies this`phase, receiver`outstanding
      ensures Valid() && View() == Rearm(old(View()))
    {
      phase := Listening;
      receiver.Arm();
    }

    method TeamClientConnectionStatusCallback(connected: bool)
      requires Valid()
      modifies this`teamClientConnected
      ensures Valid() && View() == OnStatus(old(View()), connected)
    {
      teamClientConnected := connected;
    }
  }
}
