/**
 * What the `message` and `close` handlers promise, stated over the
 * specification in module Handlers: the effect of each branch, the
 * invariants they keep, and the quirks of the program as written.
 */
module Properties {
  import opened Wrappers
  import opened Envelopes
  import opened MemberSets
  import opened Handlers

  /** Every room is a duplicate-free set under a non-empty id, and every
      connection's `roomId` is null or non-empty (ids come from `nanoid`). */
  ghost predicate WellFormed(g: Registry) {
    && (forall r :: r in g.rooms ==> r != "" && NoDup(g.rooms[r]))
    && (forall c :: c in g.conns && g.conns[c].roomId.Some? ==> g.conns[c].roomId.value != "")
  }

  /** A connection whose `roomId` is `r` is a member of the live room `r`. */
  ghost predicate Attached(g: Registry) {
    forall c :: c in g.conns && g.conns[c].roomId.Some? ==>
      g.conns[c].roomId.value in g.rooms && c in g.rooms[g.conns[c].roomId.value]
  }

  /** Every member of a room is an open connection whose `roomId` names that room. */
  ghost predicate Exclusive(g: Registry) {
    forall r, m :: r in g.rooms && m in g.rooms[r] ==> m in g.conns && g.conns[m].roomId == Some(r)
  }

  /** The membership invariant. */
  ghost predicate Coherent(g: Registry) {
    Attached(g) && Exclusive(g)
  }

  /** The discipline under which `Coherent` is kept: `create` and `join` only
      from a connection that is in no room, and `create` only with an id that
      names no live room. */
  ghost predicate Disciplined(g: Registry, ws: ConnId, msg: Inbound, freshId: RoomId)
    requires ws in g.conns
  {
    && (msg.kind == "create" || msg.kind == "join" ==> g.conns[ws].roomId == None)
    && (msg.kind == "create" ==> freshId !in g.rooms)
  }

  predicate IsRelayed(kind: string) {
    kind != "create" && kind != "join"
  }

  // ---------------------------------------------------------------- create

  /** `create` makes the sender the only member of the room `freshId`, points
      the sender at it, and answers the sender alone with `created`. */
  lemma CreateEffect(g: Registry, ws: ConnId, msg: Inbound, freshId: RoomId)
    requires ws in g.conns && msg.kind == "create"
    ensures var s := MessageStep(g, ws, msg, freshId);
      && s.next.rooms.Keys == g.rooms.Keys + {freshId}
      && s.next.rooms[freshId] == [ws]
      && (forall r :: r in g.rooms && r != freshId ==> s.next.rooms[r] == g.rooms[r])
      && s.next.conns.Keys == g.conns.Keys
      && s.next.conns[ws] == Peer(g.conns[ws].peerId, Some(freshId))
      && (forall c :: c in g.conns && c != ws ==> s.next.conns[c] == g.conns[c])
      && s.out == [Send(ws, Created(freshId, g.conns[ws].peerId))]
  {
  }

  /** `create` does not check the id against the live rooms: the members of a
      room already under that id are dropped from it, while their `roomId`
      still names it. */
  lemma CreateOverwrites(g: Registry, ws: ConnId, msg: Inbound, freshId: RoomId, m: ConnId)
    requires ws in g.conns && msg.kind == "create"
    requires freshId in g.rooms && m in g.rooms[freshId] && m != ws
    requires m in g.conns && g.conns[m].roomId == Some(freshId)
    ensures var s := MessageStep(g, ws, msg, freshId);
      m !in s.next.rooms[freshId] && !Coherent(s.next)
  {
    var s := MessageStep(g, ws, msg, freshId);
    assert s.next.conns[m].roomId == Some(freshId);
  }

  // ---------------------------------------------------------------- join

  /** `join` fails exactly when the named room is not live; then the sender
      alone hears `room-not-found` and nothing changes. */
  lemma JoinUnknownRoom(g: Registry, ws: ConnId, msg: Inbound, freshId: RoomId)
    requires ws in g.conns && msg.kind == "join"
    ensures var s := MessageStep(g, ws, msg, freshId);
      && (s.out == [Send(ws, Error(RoomNotFound))] <==> msg.roomId.None? || msg.roomId.value !in g.rooms)
      && (msg.roomId.None? || msg.roomId.value !in g.rooms ==> s.next == g)
  {
    var s := MessageStep(g, ws, msg, freshId);
    if msg.roomId.Some? && msg.roomId.value in g.rooms {
      assert s.out[|s.out| - 1].env.Joined?;
    }
  }

  /** A `join` of a live room always succeeds, whatever its size: the sender
      becomes a member of the room and points at it, and nothing else changes. */
  lemma JoinKnownRoom(g: Registry, ws: ConnId, msg: Inbound, freshId: RoomId)
    requires WellFormed(g) && ws in g.conns && msg.kind == "join"
    requires msg.roomId.Some? && msg.roomId.value in g.rooms
    ensures var s := MessageStep(g, ws, msg, freshId);
      var r, p := msg.roomId.value, g.conns[ws].peerId;
      && s.next.rooms.Keys == g.rooms.Keys
      && (forall c :: c in s.next.rooms[r] <==> c in g.rooms[r] || c == ws)
      && s.next.rooms[r][..|g.rooms[r]|] == g.rooms[r]
      && NoDup(s.next.rooms[r])
      && |s.next.rooms[r]| == |g.rooms[r]| + (if ws in g.rooms[r] then 0 else 1)
      && (forall q :: q in g.rooms && q != r ==> s.next.rooms[q] == g.rooms[q])
      && s.next.conns.Keys == g.conns.Keys
      && s.next.conns[ws] == Peer(p, Some(r))
      && (forall c :: c in g.conns && c != ws ==> s.next.conns[c] == g.conns[c])
  {
  }

  /** After a successful `join`, every other member hears `peer-joined` with
      the joiner's peer id exactly once, and the joiner last gets `joined`
      with the room's new size. */
  lemma JoinNotifications(g: Registry, ws: ConnId, msg: Inbound, freshId: RoomId)
    requires WellFormed(g) && ws in g.conns && msg.kind == "join"
    requires msg.roomId.Some? && msg.roomId.value in g.rooms
    ensures var s := MessageStep(g, ws, msg, freshId);
      var r, p := msg.roomId.value, g.conns[ws].peerId;
      && |s.out| == |s.next.rooms[r]|
      && s.out[|s.out| - 1] == Send(ws, Joined(r, p, |s.next.rooms[r]|))
      && (forall i :: 0 <= i < |s.out| - 1 ==>
            s.out[i].env == PeerJoined(p) && s.out[i].to != ws && s.out[i].to in g.rooms[r])
      && (forall c :: c in g.rooms[r] && c != ws ==> Send(c, PeerJoined(p)) in s.out)
      && (forall i, j :: 0 <= i < j < |s.out| ==> s.out[i].to != s.out[j].to)
      && (forall i, j :: 0 <= i < j < |s.out| - 1 ==>
            IndexOf(s.next.rooms[r], s.out[i].to) < IndexOf(s.next.rooms[r], s.out[j].to))
  {
    var s := MessageStep(g, ws, msg, freshId);
    var r, p := msg.roomId.value, g.conns[ws].peerId;
    var members := Added(g.rooms[r], ws);
    var others := Removed(members, ws);
    RemovedInOrder(members, ws);
    assert s.next.rooms[r] == members;
    assert s.out == Fanout(others, PeerJoined(p)) + [Send(ws, Joined(r, p, |members|))];
    forall c | c in g.rooms[r] && c != ws ensures Send(c, PeerJoined(p)) in s.out {
      var k := IndexOf(others, c);
      assert s.out[k] == Send(c, PeerJoined(p));
    }
    forall i, j | 0 <= i < j < |s.out| ensures s.out[i].to != s.out[j].to {
      if j < |s.out| - 1 {
        assert s.out[i].to == others[i] && s.out[j].to == others[j];
      } else {
        assert s.out[i].to in others;
      }
    }
  }

  /** Joining a second room while still in a first one leaves the connection
      a member of both, so the membership invariant breaks. */
  lemma JoinWhileAttached(g: Registry, ws: ConnId, msg: Inbound, freshId: RoomId, prev: RoomId)
    requires ws in g.conns && msg.kind == "join"
    requires g.conns[ws].roomId == Some(prev) && prev in g.rooms && ws in g.rooms[prev]
    requires msg.roomId.Some? && msg.roomId.value in g.rooms && msg.roomId.value != prev
    ensures var s := MessageStep(g, ws, msg, freshId);
      && ws in s.next.rooms[prev] && ws in s.next.rooms[msg.roomId.value]
      && s.next.conns[ws].roomId == msg.roomId
      && !Coherent(s.next)
  {
  }

  // ---------------------------------------------------------------- relay

  /** Outside a room, every message other than `create` and `join` gets
      exactly one reply, `not-in-room`, to the sender, and changes nothing. */
  lemma NotInRoomReply(g: Registry, ws: ConnId, msg: Inbound, freshId: RoomId)
    requires ws in g.conns && IsRelayed(msg.kind)
    ensures var s := MessageStep(g, ws, msg, freshId);
      && (s.out == [Send(ws, Error(NotInRoom))] <==> !Truthy(g.conns[ws].roomId))
      && (!Truthy(g.conns[ws].roomId) ==> s.next == g)
  {
  }

  /** Under `WellFormed`, `!ws.roomId` tests exactly for null. */
  lemma TruthyIsAttached(g: Registry, ws: ConnId)
    requires WellFormed(g) && ws in g.conns
    ensures Truthy(g.conns[ws].roomId) <==> g.conns[ws].roomId.Some?
  {
  }

  /** A relayed message goes once to every member of the sender's room but the
      sender, in the room's insertion order, with the same type, the sender's
      peer id and the payload unchanged; nothing changes. */
  lemma RelayRouting(g: Registry, ws: ConnId, msg: Inbound, freshId: RoomId)
    requires WellFormed(g) && ws in g.conns && IsRelayed(msg.kind) && msg.kind != "leave"
    requires Truthy(g.conns[ws].roomId) && g.conns[ws].roomId.value in g.rooms
    ensures var s := MessageStep(g, ws, msg, freshId);
      var members, env := g.rooms[g.conns[ws].roomId.value], Relayed(msg.kind, g.conns[ws].peerId, msg.payload);
      && s.next == g
      && |s.out| == |members| - (if ws in members then 1 else 0)
      && (forall i :: 0 <= i < |s.out| ==> s.out[i].to != ws && s.out[i].to in members && s.out[i].env == env)
      && (forall c :: c in members && c != ws ==> Send(c, env) in s.out)
      && (forall i, j :: 0 <= i < j < |s.out| ==> IndexOf(members, s.out[i].to) < IndexOf(members, s.out[j].to))
  {
    var members := g.rooms[g.conns[ws].roomId.value];
    var env := Relayed(msg.kind, g.conns[ws].peerId, msg.payload);
    var s := MessageStep(g, ws, msg, freshId);
    var others := Removed(members, ws);
    assert s.out == Fanout(others, env);
    RemovedInOrder(members, ws);
    forall c | c in members && c != ws ensures Send(c, env) in s.out {
      assert s.out[IndexOf(others, c)] == Send(c, env);
    }
  }

  /** Routing uses the room stored for the sender, never the frame's `roomId`. */
  lemma RoutingIgnoresFrameRoom(g: Registry, ws: ConnId, msg: Inbound, freshId: RoomId, claimed: Option<RoomId>)
    requires ws in g.conns && IsRelayed(msg.kind)
    ensures MessageStep(g, ws, msg.(roomId := claimed), freshId) == MessageStep(g, ws, msg, freshId)
  {
  }

  // ---------------------------------------------------------------- leave

  /** `leave` takes the sender out of its room and clears its `roomId`; every
      remaining member first gets the relayed `leave` and then `peer-left`.
      The room stays in the map even when it is now empty. */
  lemma LeaveEffect(g: Registry, ws: ConnId, msg: Inbound, freshId: RoomId)
    requires WellFormed(g) && ws in g.conns && msg.kind == "leave"
    requires Truthy(g.conns[ws].roomId) && g.conns[ws].roomId.value in g.rooms
    ensures var s := MessageStep(g, ws, msg, freshId);
      var r, p := g.conns[ws].roomId.value, g.conns[ws].peerId;
      var rest := s.next.rooms[r];
      && s.next.rooms.Keys == g.rooms.Keys
      && (forall c :: c in rest <==> c in g.rooms[r] && c != ws)
      && InOrderOf(rest, g.rooms[r])
      && (forall q :: q in g.rooms && q != r ==> s.next.rooms[q] == g.rooms[q])
      && s.next.conns.Keys == g.conns.Keys
      && s.next.conns[ws] == Peer(p, None)
      && (forall c :: c in g.conns && c != ws ==> s.next.conns[c] == g.conns[c])
      && |s.out| == 2 * |rest|
      && (forall i :: 0 <= i < |rest| ==>
            s.out[i] == Send(rest[i], Relayed("leave", p, msg.payload))
            && s.out[|rest| + i] == Send(rest[i], PeerLeft(p)))
  {
    RemovedInOrder(g.rooms[g.conns[ws].roomId.value], ws);
  }

  /** The room a last member leaves is kept, empty, and a later `close` of
      that connection neither deletes it nor sends anything; a `close` instead
      of the `leave` deletes it. */
  lemma LeaveKeepsEmptyRoom(g: Registry, ws: ConnId, msg: Inbound, freshId: RoomId)
    requires ws in g.conns && msg.kind == "leave"
    requires Truthy(g.conns[ws].roomId) && g.conns[ws].roomId.value in g.rooms
    requires g.rooms[g.conns[ws].roomId.value] == [ws]
    ensures var r := g.conns[ws].roomId.value;
      var s := MessageStep(g, ws, msg, freshId);
      var c := CloseStep(s.next, ws);
      && r in s.next.rooms && s.next.rooms[r] == []
      && c.out == [] && c.next.rooms == s.next.rooms
      && r !in CloseStep(g, ws).next.rooms
  {
    var r := g.conns[ws].roomId.value;
    assert Removed([ws], ws) == [];
  }

  /** A second `leave` is not a no-op: it is answered with `not-in-room`. */
  lemma LeaveTwice(g: Registry, ws: ConnId, msg: Inbound, freshId: RoomId)
    requires ws in g.conns && msg.kind == "leave"
    requires Truthy(g.conns[ws].roomId) && g.conns[ws].roomId.value in g.rooms
    ensures var s := MessageStep(g, ws, msg, freshId);
      var t := MessageStep(s.next, ws, msg, freshId);
      t.next == s.next && t.out == [Send(ws, Error(NotInRoom))]
  {
  }

  // ---------------------------------------------------------------- close

  /** `close` from a live room: the connection is gone, every remaining member
      hears `peer-left` once, and the room is deleted exactly when nobody is
      left in it. */
  lemma CloseEffect(g: Registry, ws: ConnId)
    requires WellFormed(g) && ws in g.conns
    requires Truthy(g.conns[ws].roomId) && g.conns[ws].roomId.value in g.rooms
    ensures var s := CloseStep(g, ws);
      var r, p := g.conns[ws].roomId.value, g.conns[ws].peerId;
      && s.next.conns == g.conns - {ws}
      && (r in s.next.rooms <==> exists c :: c in g.rooms[r] && c != ws)
      && (r in s.next.rooms ==> forall c :: c in s.next.rooms[r] <==> c in g.rooms[r] && c != ws)
      && (r in s.next.rooms ==> InOrderOf(s.next.rooms[r], g.rooms[r]))
      && (forall q :: q in g.rooms && q != r ==> q in s.next.rooms && s.next.rooms[q] == g.rooms[q])
      && |s.out| == |g.rooms[r]| - (if ws in g.rooms[r] then 1 else 0)
      && (forall i :: 0 <= i < |s.out| ==> s.out[i].env == PeerLeft(p) && s.out[i].to != ws && s.out[i].to in g.rooms[r])
      && (forall c :: c in g.rooms[r] && c != ws ==> Send(c, PeerLeft(p)) in s.out)
      && (forall i, j :: 0 <= i < j < |s.out| ==> IndexOf(g.rooms[r], s.out[i].to) < IndexOf(g.rooms[r], s.out[j].to))
  {
    var r, p := g.conns[ws].roomId.value, g.conns[ws].peerId;
    var rest := Removed(g.rooms[r], ws);
    var s := CloseStep(g, ws);
    CloseNoticeOrder(g, ws);
    forall c | c in g.rooms[r] && c != ws ensures Send(c, PeerLeft(p)) in s.out {
      assert s.out[IndexOf(rest, c)] == Send(c, PeerLeft(p));
    }
    if rest != [] {
      assert rest[0] in g.rooms[r] && rest[0] != ws;
    }
  }

  /** The `peer-left` notices of `close` follow the room's insertion order. */
  lemma CloseNoticeOrder(g: Registry, ws: ConnId)
    requires WellFormed(g) && ws in g.conns
    requires Truthy(g.conns[ws].roomId) && g.conns[ws].roomId.value in g.rooms
    ensures var s, members := CloseStep(g, ws), g.rooms[g.conns[ws].roomId.value];
      && (forall i :: 0 <= i < |s.out| ==> s.out[i].to in members)
      && (forall i, j :: 0 <= i < j < |s.out| ==> IndexOf(members, s.out[i].to) < IndexOf(members, s.out[j].to))
  {
    var members := g.rooms[g.conns[ws].roomId.value];
    assert CloseStep(g, ws).out == Fanout(Removed(members, ws), PeerLeft(g.conns[ws].peerId));
    RemovedInOrder(members, ws);
  }

  /** `close` outside a live room changes no room and sends nothing. */
  lemma CloseOutsideRoom(g: Registry, ws: ConnId)
    requires ws in g.conns
    requires !(Truthy(g.conns[ws].roomId) && g.conns[ws].roomId.value in g.rooms)
    ensures var s := CloseStep(g, ws);
      s.next == Registry(g.rooms, g.conns - {ws}) && s.out == []
  {
  }

  // ---------------------------------------------------------------- invariants

  /** Sets stay duplicate-free and ids non-empty across a `message` event,
      given that `nanoid` never draws the empty string. */
  lemma MessageKeepsWellFormed(g: Registry, ws: ConnId, msg: Inbound, freshId: RoomId)
    requires WellFormed(g) && ws in g.conns && freshId != ""
    ensures WellFormed(MessageStep(g, ws, msg, freshId).next)
  {
    if msg.kind == "create" {
      assert NoDup([ws]);
    } else if msg.kind == "join" {
      JoinKeepsWellFormed(g, ws, msg.roomId);
    } else {
      RelayKeepsWellFormed(g, ws, msg.kind, msg.payload);
    }
  }

  lemma JoinKeepsWellFormed(g: Registry, ws: ConnId, roomId: Option<RoomId>)
    requires WellFormed(g) && ws in g.conns
    ensures WellFormed(JoinStep(g, ws, roomId).next)
  {
    if roomId.Some? && roomId.value in g.rooms {
      var r0 := roomId.value;
      var n := JoinStep(g, ws, roomId).next;
      assert n.rooms == g.rooms[r0 := Added(g.rooms[r0], ws)];
      assert n.conns == g.conns[ws := Peer(g.conns[ws].peerId, Some(r0))];
    }
  }

  lemma RelayKeepsWellFormed(g: Registry, ws: ConnId, kind: string, payload: Payload)
    requires WellFormed(g) && ws in g.conns
    ensures WellFormed(RelayStep(g, ws, kind, payload).next)
  {
    var peer := g.conns[ws];
    if kind == "leave" && Truthy(peer.roomId) && peer.roomId.value in g.rooms {
      var r0 := peer.roomId.value;
      var n := RelayStep(g, ws, kind, payload).next;
      assert n.rooms == g.rooms[r0 := Removed(g.rooms[r0], ws)];
      assert n.conns == g.conns[ws := Peer(peer.peerId, None)];
    }
  }

  lemma CloseKeepsWellFormed(g: Registry, ws: ConnId)
    requires WellFormed(g) && ws in g.conns
    ensures WellFormed(CloseStep(g, ws).next)
  {
  }

  lemma ConnectKeepsInvariants(g: Registry, ws: ConnId, peerId: PeerId)
    requires Unseen(g, ws)
    ensures WellFormed(g) ==> WellFormed(ConnectStep(g, ws, peerId))
    ensures Coherent(g) ==> Coherent(ConnectStep(g, ws, peerId))
  {
  }

  /** Under `Coherent`, a connection is a member of at most one room. */
  lemma AtMostOneRoom(g: Registry, c: ConnId, r1: RoomId, r2: RoomId)
    requires Coherent(g)
    requires r1 in g.rooms && r2 in g.rooms && c in g.rooms[r1] && c in g.rooms[r2]
    ensures r1 == r2
  {
    assert g.conns[c].roomId == Some(r1) && g.conns[c].roomId == Some(r2);
  }

  /** A `create` from outside any room, with an unused id, keeps the
      membership invariant. */
  lemma CreateKeepsCoherent(g: Registry, ws: ConnId, newId: RoomId)
    requires Coherent(g) && ws in g.conns && g.conns[ws].roomId == None && newId !in g.rooms
    ensures Coherent(CreateStep(g, ws, newId).next)
  {
    var n := CreateStep(g, ws, newId).next;
    forall r, m | r in n.rooms && m in n.rooms[r] ensures m in n.conns && n.conns[m].roomId == Some(r) {
      if r != newId {
        assert m in g.rooms[r] && m != ws;
      }
    }
  }

  /** A `join` from outside any room keeps the membership invariant. */
  lemma JoinKeepsCoherent(g: Registry, ws: ConnId, roomId: Option<RoomId>)
    requires Coherent(g) && ws in g.conns && g.conns[ws].roomId == None
    ensures Coherent(JoinStep(g, ws, roomId).next)
  {
    if roomId.Some? && roomId.value in g.rooms {
      var r0 := roomId.value;
      var members := Added(g.rooms[r0], ws);
      var n := JoinStep(g, ws, roomId).next;
      assert n.rooms == g.rooms[r0 := members];
      assert n.conns == g.conns[ws := Peer(g.conns[ws].peerId, Some(r0))];
      forall r, m | r in n.rooms && m in n.rooms[r] ensures m in n.conns && n.conns[m].roomId == Some(r) {
        if m != ws {
          assert m in g.rooms[r];
        }
      }
      forall c | c in n.conns && n.conns[c].roomId.Some?
        ensures n.conns[c].roomId.value in n.rooms && c in n.rooms[n.conns[c].roomId.value]
      {
        if c != ws {
          assert g.conns[c] == n.conns[c];
        }
      }
    }
  }

  /** Forwarding, and `leave` in particular, keeps the membership invariant. */
  lemma RelayKeepsCoherent(g: Registry, ws: ConnId, kind: string, payload: Payload)
    requires Coherent(g) && ws in g.conns
    ensures Coherent(RelayStep(g, ws, kind, payload).next)
  {
    var peer := g.conns[ws];
    if kind == "leave" && Truthy(peer.roomId) && peer.roomId.value in g.rooms {
      var r0 := peer.roomId.value;
      var n := RelayStep(g, ws, kind, payload).next;
      assert n.rooms == g.rooms[r0 := Removed(g.rooms[r0], ws)];
      forall r, m | r in n.rooms && m in n.rooms[r] ensures m in n.conns && n.conns[m].roomId == Some(r) {
        assert m in g.rooms[r] && m != ws;
      }
      forall c | c in n.conns && n.conns[c].roomId.Some?
        ensures n.conns[c].roomId.value in n.rooms && c in n.rooms[n.conns[c].roomId.value]
      {
        assert c != ws;
      }
    }
  }

  /** A disciplined `message` event keeps the membership invariant. */
  lemma MessageKeepsCoherent(g: Registry, ws: ConnId, msg: Inbound, freshId: RoomId)
    requires Coherent(g) && ws in g.conns && Disciplined(g, ws, msg, freshId)
    ensures Coherent(MessageStep(g, ws, msg, freshId).next)
  {
    if msg.kind == "create" {
      CreateKeepsCoherent(g, ws, freshId);
    } else if msg.kind == "join" {
      JoinKeepsCoherent(g, ws, msg.roomId);
    } else {
      RelayKeepsCoherent(g, ws, msg.kind, msg.payload);
    }
  }

  /** A `close` keeps the membership invariant. */
  lemma CloseKeepsCoherent(g: Registry, ws: ConnId)
    requires WellFormed(g) && Coherent(g) && ws in g.conns
    ensures Coherent(CloseStep(g, ws).next)
  {
    var n := CloseStep(g, ws).next;
    assert n.conns == g.conns - {ws};
    if Truthy(g.conns[ws].roomId) && g.conns[ws].roomId.value in g.rooms {
      var r0 := g.conns[ws].roomId.value;
      var rest := Removed(g.rooms[r0], ws);
      assert n.rooms == if rest == [] then g.rooms - {r0} else g.rooms[r0 := rest];
      forall r, m | r in n.rooms && m in n.rooms[r] ensures m in n.conns && n.conns[m].roomId == Some(r) {
        assert m in g.rooms[r] && m != ws;
      }
      forall c | c in n.conns && n.conns[c].roomId.Some?
        ensures n.conns[c].roomId.value in n.rooms && c in n.rooms[n.conns[c].roomId.value]
      {
        assert c != ws && c in g.conns;
        if g.conns[c].roomId == Some(r0) {
          assert c in rest;
        }
      }
    } else {
      forall r, m | r in n.rooms && m in n.rooms[r] ensures m in n.conns && n.conns[m].roomId == Some(r) {
        assert m in g.rooms[r] && m != ws;
      }
    }
  }

  /** Under the membership invariant a closed connection leaves no ghost: it
      is a member of no room afterwards. */
  lemma CloseLeavesNoGhost(g: Registry, ws: ConnId)
    requires WellFormed(g) && Coherent(g) && ws in g.conns
    ensures var n := CloseStep(g, ws).next;
      forall r :: r in n.rooms ==> ws !in n.rooms[r]
  {
    var n := CloseStep(g, ws).next;
    forall r | r in n.rooms ensures ws !in n.rooms[r] {
      assert r in g.rooms;
      if ws in g.rooms[r] {
        assert g.conns[ws].roomId == Some(r);
      }
    }
  }

  /** Under the membership invariant, a relayed message and the `peer-left`
      notices of a `leave` reach only connections whose `roomId` names the
      sender's room. */
  lemma RelayReachesOnlyRoomMates(g: Registry, ws: ConnId, msg: Inbound, freshId: RoomId)
    requires Coherent(g) && ws in g.conns && IsRelayed(msg.kind)
    ensures var s := MessageStep(g, ws, msg, freshId);
      forall i :: 0 <= i < |s.out| && s.out[i].to != ws ==>
        s.out[i].to in g.conns && g.conns[s.out[i].to].roomId == g.conns[ws].roomId
  {
    var s := MessageStep(g, ws, msg, freshId);
    var peer := g.conns[ws];
    if Truthy(peer.roomId) && peer.roomId.value in g.rooms {
      var r := peer.roomId.value;
      var others := Removed(g.rooms[r], ws);
      var relayed := Fanout(others, Relayed(msg.kind, peer.peerId, msg.payload));
      var n := |others|;
      if msg.kind == "leave" {
        assert s.out == relayed + Fanout(others, PeerLeft(peer.peerId));
      } else {
        assert s.out == relayed;
      }
      forall i | 0 <= i < |s.out| && s.out[i].to != ws
        ensures s.out[i].to in g.conns && g.conns[s.out[i].to].roomId == peer.roomId
      {
        var k := if i < n then i else i - n;
        assert s.out[i].to == others[k] && others[k] in g.rooms[r];
      }
    }
  }

  /** The same for the `peer-joined` notices of a disciplined `join`. */
  lemma JoinReachesOnlyRoomMates(g: Registry, ws: ConnId, msg: Inbound, freshId: RoomId)
    requires Coherent(g) && ws in g.conns && msg.kind == "join" && g.conns[ws].roomId == None
    ensures var s := MessageStep(g, ws, msg, freshId);
      forall i :: 0 <= i < |s.out| && s.out[i].to != ws ==>
        s.out[i].to in g.conns && g.conns[s.out[i].to].roomId == msg.roomId
  {
    var s := MessageStep(g, ws, msg, freshId);
    if msg.roomId.Some? && msg.roomId.value in g.rooms {
      var r, p := msg.roomId.value, g.conns[ws].peerId;
      var members := Added(g.rooms[r], ws);
      var others := Removed(members, ws);
      assert s.out == Fanout(others, PeerJoined(p)) + [Send(ws, Joined(r, p, |members|))];
      forall i | 0 <= i < |s.out| && s.out[i].to != ws
        ensures s.out[i].to in g.conns && g.conns[s.out[i].to].roomId == msg.roomId
      {
        assert i < |others|;
        assert s.out[i] == Send(others[i], PeerJoined(p));
        assert others[i] in members && others[i] != ws;
        assert others[i] in g.rooms[r];
      }
    }
  }

  /** The same for the `peer-left` notices of a `close`. */
  lemma CloseReachesOnlyRoomMates(g: Registry, ws: ConnId)
    requires Coherent(g) && ws in g.conns
    ensures var s := CloseStep(g, ws);
      forall i :: 0 <= i < |s.out| ==>
        s.out[i].to != ws && s.out[i].to in g.conns && g.conns[s.out[i].to].roomId == g.conns[ws].roomId
  {
    var s := CloseStep(g, ws);
    var peer := g.conns[ws];
    if Truthy(peer.roomId) && peer.roomId.value in g.rooms {
      var r := peer.roomId.value;
      var rest := Removed(g.rooms[r], ws);
      forall i | 0 <= i < |s.out|
        ensures s.out[i].to != ws && s.out[i].to in g.conns && g.conns[s.out[i].to].roomId == peer.roomId
      {
        assert s.out[i].to == rest[i] && rest[i] in g.rooms[r];
      }
    }
  }

  // ---------------------------------------------------------------- a session

  /** Two peers meet: A creates room R, B joins it, A's offer reaches B with
      A's peer id and the payload unchanged, B disconnects and A hears of it.
      If A then leaves, R is still resolvable (empty); if A disconnects instead,
      R is gone. */
  lemma TwoPeerSession(a: ConnId, b: ConnId, pa: PeerId, pb: PeerId, R: RoomId, offer: Payload)
    requires a != b && R != ""
    ensures var g0 := ConnectStep(ConnectStep(Empty, a, pa), b, pb);
      var s1 := MessageStep(g0, a, Inbound("create", None, ""), R);
      var s2 := MessageStep(s1.next, b, Inbound("join", Some(R), ""), R);
      var s3 := MessageStep(s2.next, a, Inbound("offer", Some(R), offer), R);
      var s4 := CloseStep(s3.next, b);
      && s1.out == [Send(a, Created(R, pa))]
      && s2.out == [Send(a, PeerJoined(pb)), Send(b, Joined(R, pb, 2))]
      && s3.out == [Send(b, Relayed("offer", pa, offer))]
      && s4.out == [Send(a, PeerLeft(pb))]
      && a in s4.next.conns
      && MessageStep(s4.next, a, Inbound("leave", Some(R), ""), R).next.rooms == map[R := []]
      && CloseStep(s4.next, a).next.rooms == map[]
  {
    var ca, cb := Peer(pa, Some(R)), Peer(pb, Some(R));
    var g1 := Registry(map[R := [a]], map[a := ca, b := Peer(pb, None)]);
    var g2 := Registry(map[R := [a, b]], map[a := ca, b := cb]);
    var g4 := Registry(map[R := [a]], map[a := ca]);
    SessionOpen(a, b, pa, pb, R, g1);
    SessionJoin(a, b, pa, pb, R, g1, g2);
    SessionOffer(a, b, pa, pb, R, offer, g2);
    SessionClose(a, b, pa, pb, R, g2, g4);
    SessionEnd(a, pa, R, g4);
  }

  lemma SessionOpen(a: ConnId, b: ConnId, pa: PeerId, pb: PeerId, R: RoomId, g1: Registry)
    requires a != b && g1 == Registry(map[R := [a]], map[a := Peer(pa, Some(R)), b := Peer(pb, None)])
    ensures MessageStep(ConnectStep(ConnectStep(Empty, a, pa), b, pb), a, Inbound("create", None, ""), R)
      == Step(g1, [Send(a, Created(R, pa))])
  {
  }

  lemma SessionJoin(a: ConnId, b: ConnId, pa: PeerId, pb: PeerId, R: RoomId, g1: Registry, g2: Registry)
    requires a != b && g1 == Registry(map[R := [a]], map[a := Peer(pa, Some(R)), b := Peer(pb, None)])
    requires g2 == Registry(map[R := [a, b]], map[a := Peer(pa, Some(R)), b := Peer(pb, Some(R))])
    ensures MessageStep(g1, b, Inbound("join", Some(R), ""), R)
      == Step(g2, [Send(a, PeerJoined(pb)), Send(b, Joined(R, pb, 2))])
  {
    assert Added([a], b) == [a, b];
    assert Removed([a, b], b) == [a] by {
      assert [a, b][1..] == [b];
    }
  }

  lemma SessionOffer(a: ConnId, b: ConnId, pa: PeerId, pb: PeerId, R: RoomId, offer: Payload, g2: Registry)
    requires a != b && R != ""
    requires g2 == Registry(map[R := [a, b]], map[a := Peer(pa, Some(R)), b := Peer(pb, Some(R))])
    ensures MessageStep(g2, a, Inbound("offer", Some(R), offer), R) == Step(g2, [Send(b, Relayed("offer", pa, offer))])
  {
    assert Removed([a, b], a) == [b] by {
      assert [a, b][1..] == [b];
    }
  }

  lemma SessionClose(a: ConnId, b: ConnId, pa: PeerId, pb: PeerId, R: RoomId, g2: Registry, g4: Registry)
    requires a != b && R != ""
    requires g2 == Registry(map[R := [a, b]], map[a := Peer(pa, Some(R)), b := Peer(pb, Some(R))])
    requires g4 == Registry(map[R := [a]], map[a := Peer(pa, Some(R))])
    ensures CloseStep(g2, b) == Step(g4, [Send(a, PeerLeft(pb))])
  {
    assert Removed([a, b], b) == [a] by {
      assert [a, b][1..] == [b];
    }
  }

  lemma SessionEnd(a: ConnId, pa: PeerId, R: RoomId, g4: Registry)
    requires R != "" && g4 == Registry(map[R := [a]], map[a := Peer(pa, Some(R))])
    ensures a in g4.conns
    ensures MessageStep(g4, a, Inbound("leave", Some(R), ""), R).next.rooms == map[R := []]
    ensures CloseStep(g4, a).next.rooms == map[]
  {
    assert Removed([a], a) == [];
  }

  /** Joining an id that names no room is refused and leaves the joiner outside. */
  lemma JoinMissingRoomSession(c: ConnId, pc: PeerId, missing: RoomId)
    ensures var g0 := ConnectStep(Empty, c, pc);
      var s := MessageStep(g0, c, Inbound("join", Some(missing), ""), missing);
      s.out == [Send(c, Error(RoomNotFound))] && s.next.conns[c].roomId == None
  {
  }
}
