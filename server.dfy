/**
 * The signalling server as the program keeps it: the `rooms` map and the
 * per-connection fields, updated in place by the `connection`, `message`
 * and `close` handlers. Each handler is proved to have exactly the effect
 * that module Handlers specifies.
 */
module Server {
  import opened Wrappers
  import opened Envelopes
  import opened MemberSets
  import opened Handlers
  import opened Properties

  /** One `forEach` over a room's member set that sends `env` to every member
      except `skip`, in insertion order. */
  method Broadcast(members: seq<ConnId>, skip: Option<ConnId>, env: Outbound) returns (out: seq<Send>)
    ensures out == Fanout(Except(members, skip), env)
  {
    out := [];
    var i := 0;
    assert members[..0] == [];
    assert Except([], skip) == [];
    while i < |members|
      invariant 0 <= i <= |members|
      invariant out == Fanout(Except(members[..i], skip), env)
    {
      var peer := members[i];
      BroadcastStep(members, i, skip, env, out);
      if Some(peer) != skip {
        out := out + [Send(peer, env)];
      }
      i := i + 1;
    }
    assert members[..i] == members;
  }

  /** One turn of the `forEach` loop in `Broadcast`. */
  lemma BroadcastStep(members: seq<ConnId>, i: nat, skip: Option<ConnId>, env: Outbound, out: seq<Send>)
    requires i < |members| && out == Fanout(Except(members[..i], skip), env)
    ensures Fanout(Except(members[..i + 1], skip), env)
      == if Some(members[i]) != skip then out + [Send(members[i], env)] else out
  {
    assert members[..i + 1] == members[..i] + [members[i]];
    ExceptSnoc(members[..i], members[i], skip);
    if Some(members[i]) != skip {
      FanoutSnoc(Except(members[..i], skip), members[i], env);
    } else {
      assert Except(members[..i + 1], skip) == Except(members[..i], skip) + [];
    }
  }

  class SignallingServer {
    /** room id to the set of member connections */
    var rooms: map<RoomId, seq<ConnId>>
    /** the `peerId` and `roomId` fields of each open connection */
    var conns: map<ConnId, Peer>

    function State(): Registry
      reads this
    {
      Registry(rooms, conns)
    }

    constructor ()
      ensures State() == Empty
      ensures WellFormed(State()) && Coherent(State())
    {
      rooms := map[];
      conns := map[];
    }

    /** A new connection: `roomId` starts out null, `peerId` is drawn by the caller. */
    method Connect(ws: ConnId, peerId: PeerId)
      requires Unseen(State(), ws)
      modifies this
      ensures State() == ConnectStep(old(State()), ws, peerId)
      ensures WellFormed(old(State())) ==> WellFormed(State())
      ensures Coherent(old(State())) ==> Coherent(State())
    {
      ConnectKeepsInvariants(State(), ws, peerId);
      conns := conns[ws := Peer(peerId, None)];
    }

    /** The `message` handler: dispatch on the frame's type. */
    method OnMessage(ws: ConnId, msg: Inbound, freshId: RoomId) returns (out: seq<Send>)
      requires ws in conns
      modifies this
      ensures Step(State(), out) == MessageStep(old(State()), ws, msg, freshId)
      ensures WellFormed(old(State())) && freshId != "" ==> WellFormed(State())
      ensures Coherent(old(State())) && Disciplined(old(State()), ws, msg, freshId) ==> Coherent(State())
    {
      if WellFormed(State()) && freshId != "" {
        MessageKeepsWellFormed(State(), ws, msg, freshId);
      }
      if Coherent(State()) && Disciplined(State(), ws, msg, freshId) {
        MessageKeepsCoherent(State(), ws, msg, freshId);
      }
      if msg.kind == "create" {
        out := Create(ws, freshId);
      } else if msg.kind == "join" {
        out := Join(ws, msg.roomId);
      } else {
        out := Relay(ws, msg.kind, msg.payload);
      }
    }

    method Create(ws: ConnId, newId: RoomId) returns (out: seq<Send>)
      requires ws in conns
      modifies this
      ensures Step(State(), out) == CreateStep(old(State()), ws, newId)
    {
      rooms := rooms[newId := [ws]];
      conns := conns[ws := conns[ws].(roomId := Some(newId))];
      out := [Send(ws, Created(newId, conns[ws].peerId))];
    }

    method Join(ws: ConnId, roomId: Option<RoomId>) returns (out: seq<Send>)
      requires ws in conns
      modifies this
      ensures Step(State(), out) == JoinStep(old(State()), ws, roomId)
    {
      if roomId.None? || roomId.value !in rooms {
        out := [Send(ws, Error(RoomNotFound))];
        return;
      }
      var r := roomId.value;
      var members := rooms[r];
      if ws !in members {
        members := members + [ws];
      }
      rooms := rooms[r := members];
      conns := conns[ws := conns[ws].(roomId := Some(r))];
      var peerId := conns[ws].peerId;
      out := Broadcast(members, Some(ws), PeerJoined(peerId));
      out := out + [Send(ws, Joined(r, peerId, |members|))];
    }

    /** Forwarding of every other message type, including `leave`. */
    method Relay(ws: ConnId, kind: string, payload: Payload) returns (out: seq<Send>)
      requires ws in conns
      modifies this
      ensures Step(State(), out) == RelayStep(old(State()), ws, kind, payload)
    {
      if !Truthy(conns[ws].roomId) {
        out := [Send(ws, Error(NotInRoom))];
        return;
      }
      var r := conns[ws].roomId.value;
      if r !in rooms {
        out := [Send(ws, Error(RoomNotFound))];
        return;
      }
      var members := rooms[r];
      var peerId := conns[ws].peerId;
      out := Broadcast(members, Some(ws), Relayed(kind, peerId, payload));
      if kind == "leave" {
        members := Removed(members, ws);
        rooms := rooms[r := members];
        conns := conns[ws := conns[ws].(roomId := None)];
        var notes := Broadcast(members, None, PeerLeft(peerId));
        out := out + notes;
        if |members| == 0 {
          rooms := DeleteKey(rooms, conns[ws].roomId);
        }
      }
    }

    /** The `close` handler. */
    method OnClose(ws: ConnId) returns (out: seq<Send>)
      requires ws in conns
      modifies this
      ensures Step(State(), out) == CloseStep(old(State()), ws)
      ensures WellFormed(old(State())) ==> WellFormed(State())
      ensures WellFormed(old(State())) && Coherent(old(State())) ==> Coherent(State())
    {
      if WellFormed(State()) {
        CloseKeepsWellFormed(State(), ws);
        if Coherent(State()) {
          CloseKeepsCoherent(State(), ws);
        }
      }
      var cur := conns[ws].roomId;
      var peerId := conns[ws].peerId;
      out := [];
      if Truthy(cur) && cur.value in rooms {
        var r := cur.value;
        var members := Removed(rooms[r], ws);
        rooms := rooms[r := members];
        out := Broadcast(members, None, PeerLeft(peerId));
        if |members| == 0 {
          rooms := rooms - {r};
        }
      }
      conns := conns - {ws};
    }
  }
}
