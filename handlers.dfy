/**
 * The room registry of the signalling server and its two event handlers,
 * `message` and `close`, as functions from the registry before an event to
 * the registry after it and the frames sent. These functions are the
 * specification that the class in module Server implements step by step.
 */
module Handlers {
  import opened Wrappers
  import opened Envelopes
  import opened MemberSets

  /** The two fields the server keeps on each `ws` object. */
  datatype Peer = Peer(peerId: PeerId, roomId: Option<RoomId>)

  /** The whole server state: the `rooms` map (room id to member set) and,
      for every open connection, its `Peer` fields. */
  datatype Registry = Registry(rooms: map<RoomId, seq<ConnId>>, conns: map<ConnId, Peer>)

  /** The effect of one event: the registry afterwards and the frames sent, in order. */
  datatype Step = Step(next: Registry, out: seq<Send>)

  /** The server before any connection arrives. */
  const Empty := Registry(map[], map[])

  /** JavaScript truthiness of `ws.roomId`: `null` and the empty string are false. */
  predicate Truthy(roomId: Option<RoomId>) {
    roomId.Some? && roomId.value != ""
  }

  /** `Map.prototype.delete` with a key that may be `null`; no room is keyed by
      `null`, so then nothing is deleted. */
  function DeleteKey(rooms: map<RoomId, seq<ConnId>>, key: Option<RoomId>): map<RoomId, seq<ConnId>> {
    if key.Some? then rooms - {key.value} else rooms
  }

  /** A connection the server has never seen: a new `ws` object is not open
      and is a member of no room's set. */
  predicate Unseen(g: Registry, ws: ConnId) {
    ws !in g.conns && forall r :: r in g.rooms ==> ws !in g.rooms[r]
  }

  /** The `connection` event: a new `ws` gets a fresh peer id and no room. */
  function ConnectStep(g: Registry, ws: ConnId, peerId: PeerId): Registry
    requires Unseen(g, ws)
  {
    g.(conns := g.conns[ws := Peer(peerId, None)])
  }

  /** `create`: a new room holding only the sender, under the id `newId`
      drawn for it. A live room with that id is replaced. */
  function CreateStep(g: Registry, ws: ConnId, newId: RoomId): Step
    requires ws in g.conns
  {
    var peer := g.conns[ws];
    Step(Registry(g.rooms[newId := [ws]], g.conns[ws := peer.(roomId := Some(newId))]),
         [Send(ws, Created(newId, peer.peerId))])
  }

  /** `join`: an unknown room id is refused; otherwise the sender is added to the
      room, the other members hear `peer-joined`, and the sender gets `joined`
      with the room's size. */
  function JoinStep(g: Registry, ws: ConnId, roomId: Option<RoomId>): Step
    requires ws in g.conns
  {
    if roomId.None? || roomId.value !in g.rooms then
      Step(g, [Send(ws, Error(RoomNotFound))])
    else
      var r := roomId.value;
      var peer := g.conns[ws];
      var members := Added(g.rooms[r], ws);
      Step(Registry(g.rooms[r := members], g.conns[ws := peer.(roomId := Some(r))]),
           Fanout(Removed(members, ws), PeerJoined(peer.peerId))
           + [Send(ws, Joined(r, peer.peerId, |members|))])
  }

  /** Every other message type: forwarded to the other members of the sender's
      own room, and then, for `leave`, the sender is taken out of that room. */
  function RelayStep(g: Registry, ws: ConnId, kind: string, payload: Payload): Step
    requires ws in g.conns
  {
    var peer := g.conns[ws];
    if !Truthy(peer.roomId) then
      Step(g, [Send(ws, Error(NotInRoom))])
    else if peer.roomId.value !in g.rooms then
      Step(g, [Send(ws, Error(RoomNotFound))])
    else
      var r := peer.roomId.value;
      var members := g.rooms[r];
      var relayed := Fanout(Removed(members, ws), Relayed(kind, peer.peerId, payload));
      if kind != "leave" then
        Step(g, relayed)
      else
        var rest := Removed(members, ws);
        var conns := g.conns[ws := peer.(roomId := None)];
        var rooms := g.rooms[r := rest];
        // the clean-up deletes the key `ws.roomId`, which was just set to null
        Step(Registry(if |rest| == 0 then DeleteKey(rooms, conns[ws].roomId) else rooms, conns),
             relayed + Fanout(rest, PeerLeft(peer.peerId)))
  }

  /** The `message` event. `freshId` is the id `nanoid` would draw for a `create`. */
  function MessageStep(g: Registry, ws: ConnId, msg: Inbound, freshId: RoomId): Step
    requires ws in g.conns
  {
    if msg.kind == "create" then CreateStep(g, ws, freshId)
    else if msg.kind == "join" then JoinStep(g, ws, msg.roomId)
    else RelayStep(g, ws, msg.kind, msg.payload)
  }

  /** The `close` event: the connection leaves its room, which is deleted once
      empty, and the connection itself is gone. */
  function CloseStep(g: Registry, ws: ConnId): Step
    requires ws in g.conns
  {
    var peer := g.conns[ws];
    var conns := g.conns - {ws};
    if Truthy(peer.roomId) && peer.roomId.value in g.rooms then
      var r := peer.roomId.value;
      var rest := Removed(g.rooms[r], ws);
      Step(Registry(if |rest| == 0 then g.rooms - {r} else g.rooms[r := rest], conns),
           Fanout(rest, PeerLeft(peer.peerId)))
    else
      Step(Registry(g.rooms, conns), [])
  }
}
