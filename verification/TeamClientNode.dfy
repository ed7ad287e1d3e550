/**
 `team_client_node.cpp`: a ROS node that owns a team client and guards it.  Its callbacks run one at
 a time, each from start to end.
 */
module TeamClientNodes {
  import opened Basics
  import T = TeamProtocol
  import TeamClients

  const NOT_CONNECTED := T.Result(false, "Team client is not connected to the Game Controller.")

  /** The node's parameters and its client. */
  datatype Node = Node(client: T.Client, gcIpAddress: string, gcPort: nat, teamName: string, teamColor: T.TeamColor)

  function ParametersOf(n: Node): T.ConnectionParameters {
    T.ConnectionParameters(n.gcIpAddress, n.gcPort, n.teamName, n.teamColor)
  }

  /** Without an address nothing is attempted, and that counts as success. */
  function Connect(n: Node, h: T.Handshake): (Node, bool) {
    if n.gcIpAddress == "" then (n, true)
    else
      var (client, success) := T.Connect(n.client, ParametersOf(n), h);
      (n.(client := client), success)
  }

  function HandleReconnect(n: Node, serverAddress: string, h: T.Handshake): (Node, bool) {
    Connect(if serverAddress != "" then n.(gcIpAddress := serverAddress) else n, h)
  }

  /** The keeper, substitution and advantage services: refused unless connected. */
  function HandleRequest(n: Node, request: T.Request, reply: Option<T.ControllerToTeam>): (Node, T.Result) {
    if !n.client.connected then (n, NOT_CONNECTED)
    else
      var (client, result) := T.SendRequest(n.client, request, reply);
      (n.(client := client), result)
  }

  /** The ping timer: the node afterwards, and the status it publishes. */
  function PingCallback(n: Node, reply: Option<T.ControllerToTeam>): (Node, bool) {
    if !n.client.connected then (n, false)
    else
      var (client, result) := T.SendRequest(n.client, T.Ping, reply);
      (n.(client := if result.accepted then client else T.Disconnect(client)), result.accepted)
  }

  /**
   What a reconnect that reports success is worth: the client is connected, unless the node has no
   address at all, in which case nothing was done.  With an address in the request there always is
   one; it is the node's address afterwards, and the session is with it.
   */
  lemma ReconnectReports(n: Node, serverAddress: string, h: T.Handshake)
    requires T.ClientInv(n.client)
    ensures var (after, success) := HandleReconnect(n, serverAddress, h);
      && T.ClientInv(after.client)
      && after.gcIpAddress == (if serverAddress == "" then n.gcIpAddress else serverAddress)
      && (if after.gcIpAddress == "" then success && after == n else success == after.client.connected)
      && after.gcPort == n.gcPort && after.teamName == n.teamName && after.teamColor == n.teamColor
      && (success && serverAddress != "" ==>
            && after.client.connected && T.Peer(after.client) == Some(serverAddress)
            && after.gcIpAddress == serverAddress)
  {
    var asked := if serverAddress != "" then n.(gcIpAddress := serverAddress) else n;
    if asked.gcIpAddress != "" {
      T.ConnectKeepsInv(asked.client, ParametersOf(asked), h);
    }
  }

  /** A session that a reconnect opens has the node's address and port, and registers its team. */
  lemma ReconnectUsesParameters(n: Node, serverAddress: string, h: T.Handshake)
    requires T.ClientInv(n.client)
    ensures var (after, success) := HandleReconnect(n, serverAddress, h);
      |after.client.sessions| > |n.client.sessions| ==>
        var session := after.client.sessions[|after.client.sessions| - 1];
        && session.address == after.gcIpAddress && session.port == n.gcPort
        && (T.Written(session.events) != [] ==>
              && T.Written(session.events)[0].Registration?
              && T.Written(session.events)[0].teamName == n.teamName
              && (T.Written(session.events)[0].team == None <==> n.teamColor == T.Auto)
              && (n.teamColor != T.Auto ==> T.Written(session.events)[0].team == Some(n.teamColor)))
  {
    var asked := if serverAddress != "" then n.(gcIpAddress := serverAddress) else n;
    if asked.gcIpAddress != "" {
      T.ConnectKeepsInv(asked.client, ParametersOf(asked), h);
    }
  }

  /**
   A request changes nothing unless the client is connected, and never changes whether it is.  When it
   is, that very request is written, and the caller learns what the reply to it says.
   */
  lemma RequestKeepsConnection(n: Node, request: T.Request, reply: Option<T.ControllerToTeam>)
    requires T.ClientInv(n.client)
    ensures var (after, result) := HandleRequest(n, request, reply);
      && T.ClientInv(after.client) && after.client.connected == n.client.connected
      && T.Peer(after.client) == T.Peer(n.client)
      && after.gcIpAddress == n.gcIpAddress
      && (n.client.connected ==>
            && result == T.ResultOf(reply)
            && T.OnlyLastSessionGrew(n.client, after.client, [T.Wrote(T.ToController(request)), T.Heard(reply)]))
      && (!n.client.connected ==>
            && after == n && !result.accepted
            && result.reason == "Team client is not connected to the Game Controller.")
  {
    if n.client.connected {
      T.SendRequestKeepsInv(n.client, request, reply);
    }
  }

  /** The published status is the truth about the client when the callback ends. */
  lemma PingPublishesTruth(n: Node, reply: Option<T.ControllerToTeam>)
    requires T.ClientInv(n.client)
    ensures var (after, published) := PingCallback(n, reply);
      && T.ClientInv(after.client) && published == after.client.connected
      && (published <==> n.client.connected && T.ResultOf(reply).accepted)
      && (n.client.connected ==>
            && after.client.socket == (if published then n.client.socket else T.Closed)
            && T.OnlyLastSessionGrew(n.client, after.client, [T.Wrote(T.ToController(T.Ping)), T.Heard(reply)]))
      && (!n.client.connected ==> after == n)
  {
    if n.client.connected {
      T.SendRequestKeepsInv(n.client, T.Ping, reply);
    }
  }

  class TeamClientNode {
    const teamClient: TeamClients.TeamClient
    var gcIpAddress: string
    var gcPort: nat
    var teamName: string
    var teamColor: T.TeamColor
    /** The status messages published so far. */
    var connectionStatus: seq<bool>

    ghost predicate Valid()
      reads this, teamClient
    {
      teamClient.Valid() && T.ClientInv(teamClient.View())
    }

    ghost function View(): Node
      reads this, teamClient
    {
      Node(teamClient.View(), gcIpAddress, gcPort, teamName, teamColor)
    }

    /** The node tries to connect once, as soon as it is set up. */
    constructor (teamClient: TeamClients.TeamClient, gcIpAddress: string, gcPort: nat, teamName: string,
                 teamColor: T.TeamColor, reached: bool, greeting: T.Window, confirmation: T.Window)
      requires teamClient.Valid() && teamClient.View() == T.Client(false, T.Closed, [])
      requires T.Paced(greeting) && T.Paced(confirmation)
      modifies teamClient, teamClient.buffer
      ensures Valid() && this.teamClient == teamClient && connectionStatus == []
      ensures var first := T.WaitForReply(teamClient.parse, greeting, []);
        var second := T.WaitForReply(teamClient.parse, confirmation, first.inbound);
        View() == Connect(Node(T.Client(false, T.Closed, []), gcIpAddress, gcPort, teamName, teamColor),
                          T.Handshake(reached, first.reply, second.reply)).0
    {
      this.teamClient := teamClient;
      this.gcIpAddress, this.gcPort, this.teamName, this.teamColor := gcIpAddress, gcPort, teamName, teamColor;
      connectionStatus := [];
      new;
      var _ := ConnectClient(reached, greeting, confirmation);
    }

    method ConnectClient(reached: bool, greeting: T.Window, confirmation: T.Window) returns (success: bool)
      requires Valid() && T.Paced(greeting) && T.Paced(confirmation)
      modifies teamClient, teamClient.buffer
      ensures Valid()
      ensures var first := T.WaitForReply(teamClient.parse, greeting, []);
        var second := T.WaitForReply(teamClient.parse, confirmation, first.inbound);
        (View(), success) == Connect(old(View()), T.Handshake(reached, first.reply, second.reply))
    {
      ghost var first := T.WaitForReply(teamClient.parse, greeting, []);
      ghost var second := T.WaitForReply(teamClient.parse, confirmation, first.inbound);
      T.ConnectKeepsInv(teamClient.View(), ParametersOf(View()), T.Handshake(reached, first.reply, second.reply));
      if gcIpAddress == "" {
        return true;
      }
      success := teamClient.Connect(T.ConnectionParameters(gcIpAddress, gcPort, teamName, teamColor),
                                    reached, greeting, confirmation);
    }

    method HandleReconnectTeamClient(serverAddress: string, reached: bool, greeting: T.Window, confirmation: T.Window)
      returns (success: bool)
      requires Valid() && T.Paced(greeting) && T.Paced(confirmation)
      modifies this`gcIpAddress, teamClient, teamClient.buffer
      ensures Valid()
      ensures var first := T.WaitForReply(teamClient.parse, greeting, []);
        var second := T.WaitForReply(teamClient.parse, confirmation, first.inbound);
        (View(), success)
        == HandleReconnect(old(View()), serverAddress, T.Handshake(reached, first.reply, second.reply))
    {
      if serverAddress != "" {
        gcIpAddress := serverAddress;
      }
      success := ConnectClient(reached, greeting, confirmation);
    }

    /** The guard that the keeper, substitution and advantage handlers share. */
    method HandleServiceRequest(request: T.Request, w: T.Window) returns (response: T.Result)
      requires Valid() && T.Paced(w)
      modifies teamClient, teamClient.buffer
      ensures Valid()
      ensures (View(), response)
        == HandleRequest(old(View()), request, T.WaitForReply(teamClient.parse, w, old(teamClient.inbound)).reply)
    {
      if !teamClient.connected {
        return NOT_CONNECTED;
      }
      T.SendRequestKeepsInv(teamClient.View(), request,
                            T.WaitForReply(teamClient.parse, w, teamClient.inbound).reply);
      response := teamClient.SendRequest(request, w);
    }

    method OnPingTimer(w: T.Window)
      requires Valid() && T.Paced(w)
      modifies this`connectionStatus, teamClient, teamClient.buffer
      ensures Valid()
      ensures var (after, status) :=
          PingCallback(old(View()), T.WaitForReply(teamClient.parse, w, old(teamClient.inbound)).reply);
        View() == after && connectionStatus == old(connectionStatus) + [status]
    {
      var connected := teamClient.connected;
      if teamClient.connected {
        T.SendRequestKeepsInv(teamClient.View(), T.Ping,
                              T.WaitForReply(teamClient.parse, w, teamClient.inbound).reply);
        var result := teamClient.SendRequest(T.Ping, w);
        connected := result.accepted;
        if !result.accepted {
          teamClient.Disconnect();
        }
      }
      connectionStatus := connectionStatus + [connected];
    }
  }
}
