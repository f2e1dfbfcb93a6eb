/**
 * The messages of the signalling protocol, after JSON decoding (inbound) and
 * before JSON encoding (outbound), and the sends the server emits.
 */
module Envelopes {
  import opened Wrappers

  /** An opaque connection handle: the `ws` object of one WebSocket. */
  type ConnId = nat
  /** A room identifier: a key of the `rooms` map. */
  type RoomId = string
  /** A peer identifier, assigned once per connection. */
  type PeerId = string
  /** The negotiation payload (an SDP description or an ICE candidate), never inspected. */
  type Payload = string

  /** A decoded inbound frame `{ type, roomId, payload }`. A missing or
      non-string `roomId` is `None`. */
  datatype Inbound = Inbound(kind: string, roomId: Option<RoomId>, payload: Payload)

  /** The `message` field of an `error` frame. */
  datatype ErrorCode = RoomNotFound | NotInRoom

  /** The frames the server sends. */
  datatype Outbound =
    | Created(roomId: RoomId, peerId: PeerId)
    | Joined(roomId: RoomId, peerId: PeerId, peers: nat)
    | PeerJoined(peerId: PeerId)
    | PeerLeft(peerId: PeerId)
    | Error(message: ErrorCode)
      /** A forwarded frame `{ type, from, payload }`. */
    | Relayed(kind: string, from: PeerId, payload: Payload)

  /** One call of `send(ws, payload)`. */
  datatype Send = Send(to: ConnId, env: Outbound)

  /** The same frame sent to each of `to`, in order. */
  function Fanout(to: seq<ConnId>, env: Outbound): (out: seq<Send>)
    ensures |out| == |to|
    ensures forall i :: 0 <= i < |to| ==> out[i] == Send(to[i], env)
  {
    if to == [] then [] else [Send(to[0], env)] + Fanout(to[1..], env)
  }

  /** Sending to one more connection appends one send. */
  lemma FanoutSnoc(to: seq<ConnId>, c: ConnId, env: Outbound)
    ensures Fanout(to + [c], env) == Fanout(to, env) + [Send(c, env)]
  {
    var a, b := Fanout(to + [c], env), Fanout(to, env) + [Send(c, env)];
    assert |a| == |b|;
    forall i | 0 <= i < |a| ensures a[i] == b[i] {
      if i < |to| {
        assert (to + [c])[i] == to[i];
      }
    }
  }
}
