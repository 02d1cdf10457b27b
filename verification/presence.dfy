/**
 The presence protocol: the `connection` greeting, the `join-room` sequence
 (first-in-room or new-user, snapshot bootstrap, room-user-change), and the
 departure of a socket (`disconnecting`, the adapter's leave-all, `disconnect`).
 */
module Presence {
  import opened Protocol
  import opened RoomRegistry

  /** A socket whose room holds it is alone exactly when the room has at most one member. */
  lemma AloneIffAtMostOne(members: set<Id>, id: Id)
    requires id in members
    ensures |members| <= 1 <==> members == {id}
  {
    if members != {id} {
      var other :| other in members && other != id;
      assert other in members - {id};
      assert |members - {id}| >= 1;
      assert |members| == |members - {id}| + 1;
    } else {
      assert |members| == 1;
    }
  }

  /** `connection`: socket.io has put the new socket in the room named by its id,
      and the handler emits `init-room` to that room. */
  function OnConnection(reg: Registry, id: Id): (r: Effect)
    ensures r.next.connected == reg.connected + {id}
    ensures Members(r.next, id) == Members(reg, id) + {id}
    ensures forall room :: room != id ==> Members(r.next, room) == Members(reg, room)
    ensures r.next.roomData == reg.roomData
    ensures forall x :: Received(r.out, x) == if x == id || x in Members(reg, id) then [InitRoom] else []
  {
    var next := Join(reg.(connected := reg.connected + {id}), id, id);
    var out := [Emit(Members(next, id), InitRoom)];
    assert forall x :: Received(out, x) == if x in Members(next, id) then [InitRoom] else [] by {
      forall x { ReceivedSingle(out[0], x); }
    }
    Effect(next, out)
  }

  /** A socket whose id names no existing room is the only one greeted. */
  lemma ConnectionGreetsOnlyNewSocket(reg: Registry, id: Id)
    requires Members(reg, id) == {}
    ensures Received(OnConnection(reg, id).out, id) == [InitRoom]
    ensures forall x :: x != id ==> Received(OnConnection(reg, id).out, x) == []
  {
  }

  /** `join-room`: the socket joins `room`; then first-in-room goes to the room named
      by the socket's id when the room has at most one member after the insertion,
      and new-user goes to the other members otherwise; the cached snapshot, if any,
      goes to the joiner alone; last, every member receives the member list. */
  function OnJoinRoom(reg: Registry, sender: Id, room: Id): (r: Effect)
    ensures Members(r.next, room) == Members(reg, room) + {sender}
    ensures forall other :: other != room ==> Members(r.next, other) == Members(reg, other)
    ensures r.next.connected == reg.connected && r.next.roomData == reg.roomData
    ensures |r.out| == if room in reg.roomData then 3 else 2
  {
    var next := Join(reg, sender, room);
    var members := Members(next, room);
    var presence :=
      if |members| <= 1 then Emit(Members(next, sender), FirstInRoom)
      else Emit(members - {sender}, NewUser(sender));
    var bootstrap :=
      match Cached(reg, room)
      case Some(s) => [Emit({sender}, ClientBroadcast(s.data, s.iv))]
      case None => [];
    Effect(next, [presence] + bootstrap + [Emit(members, RoomUserChange(members))])
  }

  /** What each socket receives from a join, message by message. */
  lemma JoinRoomInbox(reg: Registry, sender: Id, room: Id, x: Id)
    ensures
      var members := Members(reg, room) + {sender};
      var alone := members == {sender};
      Received(OnJoinRoom(reg, sender, room).out, x) ==
        (if alone && x in Members(OnJoinRoom(reg, sender, room).next, sender) then [FirstInRoom] else [])
        + (if !alone && x in members && x != sender then [NewUser(sender)] else [])
        + (if x == sender && room in reg.roomData
           then [ClientBroadcast(reg.roomData[room].data, reg.roomData[room].iv)] else [])
        + (if x in members then [RoomUserChange(members)] else [])
  {
    var next := Join(reg, sender, room);
    var members := Members(next, room);
    var presence :=
      if |members| <= 1 then Emit(Members(next, sender), FirstInRoom)
      else Emit(members - {sender}, NewUser(sender));
    var bootstrap :=
      if room in reg.roomData
      then [Emit({sender}, ClientBroadcast(reg.roomData[room].data, reg.roomData[room].iv))]
      else [];
    var change := Emit(members, RoomUserChange(members));
    var out := OnJoinRoom(reg, sender, room).out;
    assert out == [presence] + bootstrap + [change];
    var first := if members == {sender} && x in Members(next, sender) then [FirstInRoom] else [];
    var announce := if members != {sender} && x in members && x != sender then [NewUser(sender)] else [];
    assert Received([presence], x) == first + announce by {
      AloneIffAtMostOne(members, sender);
      ReceivedSingle(presence, x);
    }
    assert Received(bootstrap, x) ==
           if x == sender && room in reg.roomData
           then [ClientBroadcast(reg.roomData[room].data, reg.roomData[room].iv)] else [] by {
      if room in reg.roomData {
        ReceivedSingle(bootstrap[0], x);
      }
    }
    assert Received([change], x) == if x in members then [RoomUserChange(members)] else [] by {
      ReceivedSingle(change, x);
    }
    assert Received(out, x) == Received([presence], x) + Received(bootstrap, x) + Received([change], x) by {
      ReceivedAppend([presence] + bootstrap, [change], x);
      ReceivedAppend([presence], bootstrap, x);
    }
  }

  /** What each socket receives from a join into an occupied room: the other
      members hear of the joiner, the joiner gets the cached snapshot if there is
      one, and every member gets the member list. */
  lemma JoinOccupiedInbox(reg: Registry, sender: Id, room: Id, x: Id)
    requires Members(reg, room) - {sender} != {}
    ensures
      var members := Members(reg, room) + {sender};
      Received(OnJoinRoom(reg, sender, room).out, x) ==
        (if x in members && x != sender then [NewUser(sender)] else [])
        + (if x == sender && room in reg.roomData
           then [ClientBroadcast(reg.roomData[room].data, reg.roomData[room].iv)] else [])
        + (if x in members then [RoomUserChange(members)] else [])
  {
    assert Members(reg, room) + {sender} != {sender};
    JoinRoomInbox(reg, sender, room, x);
  }

  /** The joiner, which sits in its private room as every connected socket does,
      learns it is first exactly when nobody else is in the room, and then no socket
      is told new-user. First-in-room is addressed to the room named by the joiner's
      id: it reaches exactly that room's members, so while that room holds only the
      joiner, no other socket is told first-in-room. */
  lemma JoinFirstInRoom(reg: Registry, sender: Id, room: Id, x: Id)
    requires sender in Members(reg, sender)
    ensures var out := OnJoinRoom(reg, sender, room).out;
            FirstInRoom in Received(out, sender) <==> Members(reg, room) <= {sender}
    ensures var out := OnJoinRoom(reg, sender, room).out;
            Members(reg, room) <= {sender} ==> NewUser(sender) !in Received(out, x)
    ensures var out := OnJoinRoom(reg, sender, room).out;
            Members(reg, room) <= {sender} ==> (FirstInRoom in Received(out, x) <==> x in Members(reg, sender))
    ensures var out := OnJoinRoom(reg, sender, room).out;
            Members(reg, sender) == {sender} && x != sender ==> FirstInRoom !in Received(out, x)
  {
    var r := OnJoinRoom(reg, sender, room);
    assert sender in Members(r.next, sender);
    assert Members(r.next, sender) == Members(reg, sender);
    assert Members(reg, room) <= {sender} <==> Members(reg, room) + {sender} == {sender};
    JoinRoomInbox(reg, sender, room, sender);
    JoinRoomInbox(reg, sender, room, x);
    if Members(reg, sender) == {sender} && x != sender {
      assert x !in Members(r.next, sender);
    }
  }

  /** Joining an occupied room tells each other member that the joiner arrived;
      the joiner is not told about itself, and no socket is told first-in-room. */
  lemma JoinNewUser(reg: Registry, sender: Id, room: Id, x: Id)
    requires Members(reg, room) - {sender} != {}
    ensures var inbox := Received(OnJoinRoom(reg, sender, room).out, x);
            NewUser(sender) in inbox <==> x in Members(reg, room) && x != sender
    ensures FirstInRoom !in Received(OnJoinRoom(reg, sender, room).out, x)
  {
    assert Members(reg, room) + {sender} != {sender};
    JoinRoomInbox(reg, sender, room, x);
  }

  /** A join announces the joiner at most once to any socket. */
  lemma JoinNewUserOnce(reg: Registry, sender: Id, room: Id, x: Id)
    ensures multiset(Received(OnJoinRoom(reg, sender, room).out, x))[NewUser(sender)] <= 1
  {
    JoinRoomInbox(reg, sender, room, x);
  }

  /** The cached snapshot reaches the joiner, exactly as cached, and no one else;
      without a snapshot no scene data is sent at all. */
  lemma JoinBootstrap(reg: Registry, sender: Id, room: Id, x: Id)
    ensures forall data, iv ::
              ClientBroadcast(data, iv) in Received(OnJoinRoom(reg, sender, room).out, x) <==>
              x == sender && Cached(reg, room) == Some(Snapshot(data, iv))
  {
    JoinRoomInbox(reg, sender, room, x);
  }

  /** After a join every member of the room, joiner included, receives the room's
      member set as it is after the insertion, and no socket receives another list. */
  lemma JoinRoomUserChange(reg: Registry, sender: Id, room: Id, x: Id)
    ensures var r := OnJoinRoom(reg, sender, room);
            RoomUserChange(Members(r.next, room)) in Received(r.out, x) <==> x in Members(r.next, room)
    ensures var r := OnJoinRoom(reg, sender, room);
            forall s :: RoomUserChange(s) in Received(r.out, x) ==> s == Members(r.next, room)
  {
    JoinRoomInbox(reg, sender, room, x);
  }

  /** The `disconnecting` handler: for each room in `order` (the sequence in which
      socket.io enumerates the socket's rooms) the members other than the departing
      socket receive their own list, unless there are none. */
  function OnDisconnecting(reg: Registry, sender: Id, order: seq<Id>): (out: Outbox)
    ensures |out| <= |order|
    ensures forall i :: 0 <= i < |out| ==>
              && out[i].to != {}
              && sender !in out[i].to
              && out[i].msg == RoomUserChange(out[i].to)
              && exists room :: room in order && out[i].to == Members(reg, room) - {sender}
    ensures forall room :: room in order && Members(reg, room) - {sender} != {} ==>
              Emit(Members(reg, room) - {sender}, RoomUserChange(Members(reg, room) - {sender})) in out
  {
    if order == [] then []
    else
      var clients := Members(reg, order[0]) - {sender};
      var notice := if clients != {} then [Emit(clients, RoomUserChange(clients))] else [];
      var rest := OnDisconnecting(reg, sender, order[1..]);
      assert forall room :: room in order[1..] ==> room in order;
      assert forall room :: room in order ==> room == order[0] || room in order[1..];
      notice + rest
  }

  /** The `disconnecting` notices carry nothing but member lists, and none reaches
      the departing socket. */
  lemma DisconnectingOnlyListsOthers(reg: Registry, sender: Id, order: seq<Id>, x: Id)
    ensures forall m :: m in Received(OnDisconnecting(reg, sender, order), x) ==>
              m.RoomUserChange? && x != sender
  {
    var out := OnDisconnecting(reg, sender, order);
    forall m | m in Received(out, x)
      ensures m.RoomUserChange? && x != sender
    {
      ReceivedMember(out, x, m);
    }
  }

  /** Every member list a socket is sent on a departure is the remaining membership
      of a room enumerated in `order`, and the socket is in it. */
  lemma DisconnectingNoticeHasRoom(reg: Registry, sender: Id, order: seq<Id>, x: Id, s: set<Id>)
    ensures RoomUserChange(s) in Received(OnDisconnecting(reg, sender, order), x) ==>
              x in s && exists room :: room in order && s == Members(reg, room) - {sender}
  {
    var out := OnDisconnecting(reg, sender, order);
    ReceivedMember(out, x, RoomUserChange(s));
    if RoomUserChange(s) in Received(out, x) {
      var i :| 0 <= i < |out| && x in out[i].to && out[i].msg == RoomUserChange(s);
      assert out[i].msg == RoomUserChange(out[i].to);
      assert out[i].to == s;
      var room :| room in order && out[i].to == Members(reg, room) - {sender};
    }
  }

  /** Every remaining member of every room enumerated in `order` is sent that
      room's remaining membership. */
  lemma DisconnectingNoticeReaches(reg: Registry, sender: Id, order: seq<Id>, room: Id, x: Id)
    requires room in order && x in Members(reg, room) - {sender}
    ensures RoomUserChange(Members(reg, room) - {sender}) in Received(OnDisconnecting(reg, sender, order), x)
  {
    var out := OnDisconnecting(reg, sender, order);
    var s := Members(reg, room) - {sender};
    ReceivedMember(out, x, RoomUserChange(s));
    var e := Emit(s, RoomUserChange(s));
    assert e in out;
    var i :| 0 <= i < |out| && out[i] == e;
  }

  /** With `order` listing the socket's rooms, a socket is sent a member list
      exactly when it shares one of those rooms with the departing socket, and the
      list is that room's remaining members. */
  lemma DisconnectingInbox(reg: Registry, sender: Id, order: seq<Id>, x: Id, s: set<Id>)
    requires forall room :: room in order <==> room in RoomsOf(reg, sender)
    ensures RoomUserChange(s) in Received(OnDisconnecting(reg, sender, order), x) <==>
            exists room :: room in RoomsOf(reg, sender) && x in s && s == Members(reg, room) - {sender}
  {
    if RoomUserChange(s) in Received(OnDisconnecting(reg, sender, order), x) {
      DisconnectingNoticeHasRoom(reg, sender, order, x, s);
      var room :| room in order && s == Members(reg, room) - {sender};
      assert room in RoomsOf(reg, sender);
    }
    if exists room :: room in RoomsOf(reg, sender) && x in s && s == Members(reg, room) - {sender} {
      var room :| room in RoomsOf(reg, sender) && x in s && s == Members(reg, room) - {sender};
      DisconnectingNoticeReaches(reg, sender, order, room, x);
    }
  }

  /** The server side of `disconnect`: the adapter has already removed the socket
      from every room, and the socket is gone from the namespace. */
  function OnDisconnect(reg: Registry, id: Id): (r: Registry)
    ensures r.connected == reg.connected - {id}
    ensures forall room :: Members(r, room) == Members(reg, room) - {id}
    ensures RoomsOf(r, id) == {}
    ensures r.roomData == reg.roomData
  {
    LeaveAll(reg, id).(connected := reg.connected - {id})
  }

  /** A closing socket: `disconnecting` runs against the registry as it was, then
      leave-all and `disconnect` tear the socket down. */
  function OnClose(reg: Registry, id: Id, order: seq<Id>): (r: Effect)
    ensures r.next.roomData == reg.roomData
    ensures forall room :: Members(r.next, room) == Members(reg, room) - {id}
    ensures r.next.connected == reg.connected - {id}
  {
    Effect(OnDisconnect(reg, id), OnDisconnecting(reg, id, order))
  }

  /** The greeting of a new socket keeps the registry invariants. */
  lemma ConnectionPreservesWellFormed(reg: Registry, id: Id)
    requires WellFormed(reg)
    ensures WellFormed(OnConnection(reg, id).next)
  {
    AddSocketKeepsWellFormed(reg, id);
  }

  /** A join by a connected socket keeps the registry invariants. */
  lemma JoinRoomPreservesWellFormed(reg: Registry, sender: Id, room: Id)
    requires WellFormed(reg) && sender in reg.connected
    ensures WellFormed(OnJoinRoom(reg, sender, room).next)
  {
    JoinKeepsWellFormed(reg, sender, room);
  }

  /** After a teardown no room lists the departed socket and the invariants hold. */
  lemma DisconnectPreservesWellFormed(reg: Registry, id: Id)
    requires WellFormed(reg)
    ensures WellFormed(OnDisconnect(reg, id))
    ensures forall room :: id !in Members(OnDisconnect(reg, id), room)
  {
    LeaveAllKeepsWellFormed(reg, id);
  }

  /** A snapshot outlives its room: after the last member leaves, the next socket
      to join is bootstrapped with it. */
  lemma SnapshotSurvivesEmptyRoom(reg: Registry, leaving: Id, order: seq<Id>, joiner: Id, room: Id, s: Snapshot)
    requires Cached(reg, room) == Some(s)
    requires Members(reg, room) <= {leaving}
    ensures var closed := OnClose(reg, leaving, order).next;
            && Members(closed, room) == {}
            && ClientBroadcast(s.data, s.iv) in Received(OnJoinRoom(closed, joiner, room).out, joiner)
  {
    var closed := OnClose(reg, leaving, order).next;
    assert Cached(closed, room) == Some(s);
    JoinBootstrap(closed, joiner, room, joiner);
  }
}
