/**
 `team_client.cpp`: a client object over a TCP socket.  The bytes that the network delivers come in
 as parameters; what the object does with them is proved equal to the functions of `TeamProtocol`.
 */
module TeamClients {
  import opened Basics
  import opened ByteCodec
  import opened TeamProtocol

  class TeamClient {
    const parse: Bytes -> Option<ControllerToTeam>
    var connected: bool
    const buffer: array<byte>
    var socket: SocketState
    /** Bytes that have arrived on the current session and have not been read. */
    var inbound: Bytes
    /** Everything that happened on every session. */
    ghost var sessions: seq<Session>

    ghost predicate Valid()
      reads this
    {
      buffer.Length == BUFFER_SIZE && (socket == Attached ==> sessions != [])
    }

    ghost function View(): Client
      reads this
    {
      Client(connected, socket, sessions)
    }

    constructor (parse: Bytes -> Option<ControllerToTeam>)
      ensures Valid() && this.parse == parse && fresh(buffer)
      ensures View() == Client(false, Closed, []) && inbound == []
    {
      this.parse := parse;
      connected, socket, inbound, sessions := false, Closed, [], [];
      buffer := new byte[BUFFER_SIZE];
    }

    /** The polling loop: look, sleep while there is nothing, read once, parse the first frame. */
    method WaitForReply(w: Window) returns (reply: Option<ControllerToTeam>)
      requires Valid() && Paced(w)
      modifies this`inbound, buffer
      ensures Valid()
      ensures var wait := TeamProtocol.WaitForReply(parse, w, old(inbound));
              reply == wait.reply && inbound == wait.inbound
    {
      var k := 0;
      var bytesReceived := 0;
      var timeout := w.start + REPLY_TIMEOUT;
      ghost var goal := TeamProtocol.WaitForReply(parse, w, inbound);
      while true
        invariant goal == WaitFrom(parse, w, inbound, k)
        decreases PassesLeft(w, k)
      {
        var t := w.tick(k);
        if t.now >= timeout {
          return None;
        }
        inbound := inbound + t.arrived;
        if t.availableFails {
          return None;
        }
        if inbound == [] {
          k := k + 1;
          continue;
        }
        if t.readFails {
          return None;
        }
        inbound := inbound + t.late;
        bytesReceived := Min(|inbound|, BUFFER_SIZE);
        forall i | 0 <= i < bytesReceived {
          buffer[i] := inbound[i];
        }
        assert buffer[..bytesReceived] == inbound[..bytesReceived];
        inbound := inbound[bytesReceived..];
        break;
      }
      reply := parse(buffer[..bytesReceived]);
    }

    ghost method Record(events: seq<Event>)
      requires sessions != []
      modifies this`sessions
      ensures View() == Extend(old(View()), events)
    {
      var last := |sessions| - 1;
      sessions := sessions[last := sessions[last].(events := sessions[last].events + events)];
    }

    method AttemptToConnectSocket(address: string, port: nat, reached: bool, w: Window) returns (success: bool)
      requires Valid() && Paced(w)
      modifies this`socket, this`inbound, this`sessions, buffer
      ensures Valid()
      ensures var wait := TeamProtocol.WaitForReply(parse, w, []);
        && success == (reached && Welcomes(wait.reply))
        && View() == Client(connected,
                            if !reached then Unconnected
                            else if Refuses(wait.reply) then Closed else Attached,
                            old(sessions)
                            + if reached then [Session(address, port, [Heard(wait.reply)])] else [])
        && (reached ==> inbound == wait.inbound)
    {
      if socket != Closed {
        socket := Closed;
      }
      if !reached {
        // The socket was opened for the attempt and is not closed when the attempt fails.
        socket := Unconnected;
        assert sessions + [] == sessions;
        return false;
      }
      socket, inbound := Attached, [];
      ghost var before, current := sessions, Session(address, port, []);
      sessions := sessions + [current];
      var controllerToTeam := WaitForReply(w);
      Record([Heard(controllerToTeam)]);
      assert current.events + [Heard(controllerToTeam)] == [Heard(controllerToTeam)];
      assert View().sessions == before + [Session(address, port, [Heard(controllerToTeam)])];
      if controllerToTeam == None {
        return false;
      }
      if controllerToTeam.value.controllerReply == None {
        return false;
      }
      var controllerReply := controllerToTeam.value.controllerReply.value;
      if controllerReply.statusCode != None && controllerReply.statusCode != Some(OK) {
        socket := Closed;
        return false;
      }
      return true;
    }

    method AttemptToRegister(p: ConnectionParameters, w: Window) returns (success: bool)
      requires Valid() && Paced(w) && socket == Attached
      modifies this`inbound, this`sessions, buffer
      ensures Valid()
      ensures var wait := TeamProtocol.WaitForReply(parse, w, old(inbound));
        && success == Welcomes(wait.reply)
        && View() == Extend(old(View()), [Wrote(RegistrationFor(p)), Heard(wait.reply)])
        && inbound == wait.inbound
    {
      var team: Option<TeamColor> := None;
      match p.teamColor {
        case Blue => team := Some(Blue);
        case Yellow => team := Some(Yellow);
        case Auto =>
      }
      var controllerToTeam := WaitForReply(w);
      Record([Wrote(Registration(p.teamName, team)), Heard(controllerToTeam)]);
      if controllerToTeam == None {
        return false;
      }
      if controllerToTeam.value.controllerReply == None {
        return false;
      }
      var controllerReply := controllerToTeam.value.controllerReply.value;
      if controllerReply.statusCode != None && controllerReply.statusCode != Some(OK) {
        return false;
      }
      return true;
    }

    method Connect(p: ConnectionParameters, reached: bool, greeting: Window, confirmation: Window)
      returns (success: bool)
      requires Valid() && Paced(greeting) && Paced(confirmation)
      modifies this, buffer
      ensures Valid()
      ensures var first := TeamProtocol.WaitForReply(parse, greeting, []);
        var second := TeamProtocol.WaitForReply(parse, confirmation, first.inbound);
        && (View(), success)
           == TeamProtocol.Connect(old(View()), p, Handshake(reached, first.reply, second.reply))
        && (success ==> inbound == second.inbound)
    {
      connected := false;
      var socketConnected := AttemptToConnectSocket(p.address, p.port, reached, greeting);
      if !socketConnected {
        assert reached || sessions == old(sessions);
        return false;
      }
      var registered := AttemptToRegister(p, confirmation);
      if !registered {
        socket := Closed;
        return false;
      }
      connected := true;
      return true;
    }

    method Disconnect()
      requires Valid()
      modifies this`connected, this`socket
      ensures Valid() && View() == TeamProtocol.Disconnect(old(View()))
    {
      connected := false;
      socket := Closed;
    }

    /** A write on a socket that is not connected throws, so there must be a session. */
    method SendRequest(request: Request, w: Window) returns (result: Result)
      requires Valid() && Paced(w) && socket == Attached
      modifies this`inbound, this`sessions, buffer
      ensures Valid()
      ensures var wait := TeamProtocol.WaitForReply(parse, w, old(inbound));
        && (View(), result) == TeamProtocol.SendRequest(old(View()), request, wait.reply)
        && inbound == wait.inbound
    {
      var controllerToTeam := WaitForReply(w);
      Record([Wrote(ToController(request)), Heard(controllerToTeam)]);
      if controllerToTeam == None {
        return Result(false, "Client error.");
      }
      if controllerToTeam.value.controllerReply == None {
        return Result(false, "Client error.");
      }
      var controllerReply := controllerToTeam.value.controllerReply.value;
      result := Result(controllerReply.statusCode == Some(OK), "");
      if controllerReply.reason.Some? {
        result := result.(reason := controllerReply.reason.value);
      }
    }
  }
}
