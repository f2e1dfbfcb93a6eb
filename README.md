# Room registry and message handler of a WebRTC signalling server

This project models the core of a WebSocket signalling server for WebRTC
(`server/index.js`). Two endpoints use the server to find each other and to
exchange session-negotiation frames (offer, answer, ICE candidate). After that
exchange they talk directly.

The server keeps two pieces of state:

- `rooms`: a map from room id to a JavaScript `Set` of connections;
- on each connection object `ws`: an immutable `peerId` and a `roomId` that
  is `null` when the connection is in no room.

The `message` handler serves `create`, `join` and every other frame type.
Other types are forwarded to the sender's room, and `leave` is also handled
after forwarding. The `close` handler evicts a disconnecting connection.
Each handler emits a sequence of sends `(connection, frame)`.

Modules:

- `Wrappers`: `Option`; `None` stands for `null` or a missing field.
- `Envelopes`: connection ids, inbound and outbound frames, `Send`, `Fanout`
  (the same frame to a list of connections).
- `MemberSets`: a `Set` as a duplicate-free sequence in insertion order.
  `forEach` visits that order, so it fixes the order of notifications.
  Contains `Set.add` (`Added`) and `Set.delete` (`Removed`).
- `Handlers`: the state as a value (`Registry`) and each handler as a
  function from the state before an event to the state after it and the
  sends (`Step`). These functions are the specification.
- `Properties`: what the handlers promise, stated and proved over `Handlers`.
- `Server`: the server as the program keeps it. The class `SignallingServer`
  holds the `rooms` and `conns` fields and updates them in place. Its
  `forEach` loops become `Broadcast`. Each handler method is proved to have
  exactly the effect of its `Handlers` function, and to keep the invariants.

The model keeps these behaviours of the code as written:

- `leave` clears `ws.roomId` before it runs `rooms.delete(ws.roomId)`. That
  call deletes the key `null`, so a room emptied by `leave` stays in the map
  (`DeleteKey`, `LeaveKeepsEmptyRoom`). `close` does delete an emptied room.
- `leave` is forwarded like any other frame before it is handled. Each
  remaining member gets the relayed `leave` and then `peer-left`.
- `create` and `join` ignore the caller's current room, and `create`
  overwrites a live room with the same id. The membership invariant
  `Coherent` therefore holds only under `Disciplined`: `create` and `join`
  come from connections in no room, and `create` gets an unused id.
  `JoinWhileAttached` and `CreateOverwrites` show how the invariant breaks
  without that discipline.
- Forwarding routes by the room stored for the sender, never by the frame's
  `roomId`. `join` has no capacity limit.

Some of the code's behaviour differs from what its own comments or a reader
of the protocol might expect. The model follows the code:

- The comment "cleanup empty room" (server/index.js:107) suggests that `leave`
  deletes a room it empties. It does not (see above); only `close` does.
- A second `leave` is not ignored: it is answered with `not-in-room`
  (`LeaveTwice`).
- `created` tells the creator only the room id and its own peer id, not how
  many members the room has.
- `create` never fails: it does not check whether the drawn id is taken, and
  `join` has no `room-full` refusal. The only errors are `room-not-found`
  and `not-in-room`.
- A frame cannot be addressed to one peer. The comment at server/index.js:93
  describes what happens: every forwarded frame goes to the whole room
  except the sender.

## Model

| member | source | states |
|---|---|---|
| `Server.SignallingServer.constructor` | server/index.js:25 | the server starts with no rooms and no connections, a state where both invariants hold |
| `Server.SignallingServer.Connect` | server/index.js:35-37 | a new connection, which is open nowhere and in no room's set, gets its peer id and a null `roomId`; the invariants are kept |
| `Server.SignallingServer.OnMessage` | server/index.js:39-110 | the in-place `message` handler has exactly the effect of `MessageStep`; it keeps `WellFormed` for a non-empty drawn id, and keeps `Coherent` under `Disciplined` |
| `Server.SignallingServer.Create` | server/index.js:51-57 | the in-place `create` branch has exactly the effect of `CreateStep` |
| `Server.SignallingServer.Join` | server/index.js:60-79 | the in-place `join` branch, with its `forEach` notification loop, has exactly the effect of `JoinStep` |
| `Server.SignallingServer.Relay` | server/index.js:81-109 | the in-place forwarding and `leave` code has exactly the effect of `RelayStep`, including deleting the key `null` after `leave` |
| `Server.SignallingServer.OnClose` | server/index.js:112-121 | the in-place `close` handler has exactly the effect of `CloseStep`; it keeps `WellFormed`, and keeps `Coherent` when `WellFormed` holds |
| `Server.Broadcast` | server/index.js:94-99 | a `forEach` over a member set sends the frame to every member except the skipped one, once each, in insertion order |
| `MemberSets.Added` | server/index.js:66 | `Set.add` adds exactly the new element, leaves the old ones in place, grows the set by one only if the element was new, and keeps the set duplicate-free |
| `MemberSets.Removed` | server/index.js:103 | `Set.delete` keeps exactly the other elements, keeps the set duplicate-free, and shrinks it by one when the element was present |
| `MemberSets.Except` | server/index.js:71 | the `peer !== ws` test reaches exactly the members other than the sender |
| `MemberSets.RemovedInOrder` | server/index.js:94-99 | deleting a member keeps the others in insertion order |
| `Properties.CreateEffect` | server/index.js:51-56 | after `create`, the new room holds only the sender, the sender points at it, other rooms and connections are unchanged, and only the sender gets `created` with the room id and its peer id |
| `Properties.CreateOverwrites` | server/index.js:52-53 | a `create` whose drawn id names a live room drops that room's other members while their `roomId` still names it, which breaks `Coherent` |
| `Properties.JoinUnknownRoom` | server/index.js:61-64 | `join` answers `room-not-found`, to the sender only, exactly when the id names no live room, and then nothing changes |
| `Properties.JoinKnownRoom` | server/index.js:65-67 | joining a live room of any size succeeds: exactly the sender is added to the room's set, after the members already there, whose order is kept; the set stays duplicate-free; the sender points at the room, and nothing else changes |
| `Properties.JoinNotifications` | server/index.js:69-77 | after a successful `join`, each other member gets `peer-joined` with the joiner's peer id exactly once, in the room's insertion order, and the joiner last gets `joined` whose `peers` is the new set size |
| `Properties.JoinWhileAttached` | server/index.js:60-67 | a `join` from a connection already in another room leaves it a member of both, so `Coherent` fails |
| `Properties.NotInRoomReply` | server/index.js:82-85 | a frame other than `create`/`join` from a connection with a null `roomId` gets exactly one reply, `not-in-room`, to the sender; that reply is sent exactly in this case, and nothing changes |
| `Properties.TruthyIsAttached` | server/index.js:82 | under `WellFormed`, the test `!ws.roomId` is the test for null |
| `Properties.RelayRouting` | server/index.js:87-99 | a relayed frame reaches each member of the sender's room except the sender exactly once, in insertion order, with the same type, `from` set to the sender's peer id and the payload unchanged; the state is unchanged |
| `Properties.RoutingIgnoresFrameRoom` | server/index.js:87 | the `roomId` field of a forwarded frame has no effect on the result |
| `Properties.LeaveEffect` | server/index.js:94-108 | `leave` removes the sender from its room and clears its `roomId`; the members left keep their order; no connection opens or closes; each remaining member gets the relayed `leave` and then `peer-left`, both in insertion order; the room stays even when empty |
| `Properties.LeaveKeepsEmptyRoom` | server/index.js:103-108 | when the last member leaves, the room stays in the map, empty, and a later `close` sends nothing and deletes nothing; a `close` instead of the `leave` deletes the room |
| `Properties.LeaveTwice` | server/index.js:82-108 | a second `leave` changes nothing and gets `not-in-room` |
| `Properties.CloseEffect` | server/index.js:112-120 | `close` from a live room removes the connection; the members left keep their order; each remaining member gets `peer-left` once, in insertion order; the room is deleted exactly when nobody is left in it; other rooms are unchanged |
| `Properties.CloseNoticeOrder` | server/index.js:116-118 | the `peer-left` notices of `close` go to room members, in the room's insertion order |
| `Properties.CloseOutsideRoom` | server/index.js:114-115 | `close` with a null `roomId` or an unknown room changes no room and sends nothing |
| `Properties.MessageKeepsWellFormed` | server/index.js:50-109 | every `message` event keeps sets duplicate-free and room ids non-empty, given a non-empty drawn id |
| `Properties.JoinKeepsWellFormed` | server/index.js:65-67 | `join` keeps sets duplicate-free and room ids non-empty |
| `Properties.RelayKeepsWellFormed` | server/index.js:102-108 | forwarding and `leave` keep sets duplicate-free and room ids non-empty |
| `Properties.CloseKeepsWellFormed` | server/index.js:112-121 | `close` keeps sets duplicate-free and room ids non-empty |
| `Properties.ConnectKeepsInvariants` | server/index.js:35-37 | a new connection, in no room's set, keeps both invariants |
| `Properties.AtMostOneRoom` | server/index.js:53-54 | under `Coherent`, a connection is a member of at most one room |
| `Properties.CreateKeepsCoherent` | server/index.js:51-54 | a `create` from a connection in no room, with an unused id, keeps the membership invariant |
| `Properties.JoinKeepsCoherent` | server/index.js:60-67 | a `join` from a connection in no room keeps the membership invariant |
| `Properties.RelayKeepsCoherent` | server/index.js:82-108 | forwarding and `leave` keep the membership invariant, although `leave` can leave an empty room behind |
| `Properties.MessageKeepsCoherent` | server/index.js:50-109 | under `Disciplined`, every `message` event keeps the membership invariant |
| `Properties.CloseKeepsCoherent` | server/index.js:114-119 | `close` keeps the membership invariant |
| `Properties.CloseLeavesNoGhost` | server/index.js:114-119 | under the membership invariant, a closed connection is a member of no room afterwards |
| `Properties.RelayReachesOnlyRoomMates` | server/index.js:94-106 | under `Coherent`, forwarded frames and `peer-left` notices of `leave` reach only connections whose `roomId` is the sender's |
| `Properties.JoinReachesOnlyRoomMates` | server/index.js:70-74 | under `Coherent`, `peer-joined` notices of a `join` from outside any room reach only connections in the joined room |
| `Properties.CloseReachesOnlyRoomMates` | server/index.js:116-118 | under `Coherent`, `peer-left` notices of `close` reach only the closing connection's room mates |
| `Properties.TwoPeerSession` | server/index.js:51-119 | A creates R; B joins and A hears `peer-joined`; A's offer reaches B unchanged; B's close notifies A; R survives A's `leave` (empty) but not A's `close` |
| `Properties.JoinMissingRoomSession` | server/index.js:60-64 | joining an id that names no room is refused and the joiner stays outside every room |

## Left out

- HTTP, Express, CORS, the health route, `listen` and the WebSocket server
  (server/index.js:1-22) are transport plumbing.
- JSON parsing of inbound frames is left out (server/index.js:40-46). A frame
  that is not valid JSON is dropped by the code; the model receives decoded
  frames. A missing or non-string `roomId` is `None`. A missing `type` acts
  like any name other than `create`, `join` and `leave`. The payload is an
  opaque string.
- Server.SignallingServer.OnMessage: takes only frames that decode to an
  object with a string `type` (server/index.js:42-48). A frame whose text is
  `null` parses, then throws an uncaught TypeError when line 48 destructures
  it; the model has no such frame. A `type` that is missing or not a string
  is forwarded as it is in the `type` field of the relayed frame; the model
  relays a string `kind`, so those values are not distinguished from strings.
- `send` is a recorded `Send` (server/index.js:27-33). JSON encoding is left
  out, and so is a send that throws and is caught. Such a send is still
  listed in the output.
- `nanoid(8)` is not modelled. The drawn peer id is a parameter of `Connect`
  and the drawn room id is the `freshId` parameter of `OnMessage`. Their
  uniqueness is not assumed: `Disciplined` asks for an unused room id, and
  `WellFormed` asks only that it be non-empty.
- A closed connection is dropped from `conns`. The code does not clear
  `ws.roomId` on close, but no further event can arrive for that object.
- JavaScript's `Set.size` is the length of the member sequence. The two agree
  because `WellFormed` keeps sets duplicate-free.
- Node runs the handlers one at a time, so they are sequential calls here.
  No concurrency is modelled.
- The browser client (client/main.js) is UI, media and timer code and is not
  part of this model.
- The socket.io variant (server-index.js) is a thin wrapper around library
  calls and is not part of this model.
