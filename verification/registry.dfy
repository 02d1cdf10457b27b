/**
 The room registry: the sockets that are connected, the socket.io adapter's
 room table, and the server's `roomData` snapshot cache. The adapter is not
 visible to the server code; it is modelled as a map from room id to a finite
 set of socket ids, where joining is set insertion and a room disappears from
 the table once its last member leaves.
 */
module RoomRegistry {
  import opened Protocol

  /** The last full scene a client broadcast to a room, as the pair it was sent with. */
  datatype Snapshot = Snapshot(data: Bytes, iv: Bytes)

  datatype Registry = Registry(
    connected: set<Id>,
    rooms: map<Id, set<Id>>,
    roomData: map<Id, Snapshot>)

  /** The result of handling one inbound event: the new registry and the emissions, in order. */
  datatype Effect = Effect(next: Registry, out: Outbox)

  /** A registry with nobody connected, as at process start. */
  const Initial: Registry := Registry({}, map[], map[])

  /** The members of `room`; a room the adapter does not know has none. */
  function Members(reg: Registry, room: Id): set<Id>
  {
    if room in reg.rooms then reg.rooms[room] else {}
  }

  /** The rooms socket `id` belongs to (socket.io's `socket.rooms`). */
  function RoomsOf(reg: Registry, id: Id): set<Id>
  {
    set room | room in reg.rooms && id in reg.rooms[room]
  }

  /** The cached snapshot of `room`, if a full broadcast has recorded one. */
  function Cached(reg: Registry, room: Id): Option<Snapshot>
  {
    if room in reg.roomData then Some(reg.roomData[room]) else None
  }

  /** The invariants of the room table: every listed room has a member, every
      member is connected, and every connected socket is in its private room. */
  predicate WellFormed(reg: Registry)
  {
    && (forall room :: room in reg.rooms ==> reg.rooms[room] != {} && reg.rooms[room] <= reg.connected)
    && (forall id :: id in reg.connected ==> id in Members(reg, id))
  }

  /** `socket.join(room)`: insertion into the room's member set, creating the room if needed. */
  function Join(reg: Registry, id: Id, room: Id): (r: Registry)
    ensures Members(r, room) == Members(reg, room) + {id}
    ensures forall other :: other != room ==> Members(r, other) == Members(reg, other)
    ensures r.connected == reg.connected && r.roomData == reg.roomData
  {
    reg.(rooms := reg.rooms[room := Members(reg, room) + {id}])
  }

  /** The adapter's leave-all on disconnect: `id` is removed from every room, and a
      room it leaves empty is deleted from the table. */
  function LeaveAll(reg: Registry, id: Id): (r: Registry)
    ensures forall room :: Members(r, room) == Members(reg, room) - {id}
    ensures RoomsOf(r, id) == {}
    ensures forall room :: room in r.rooms && r.rooms[room] == {} ==>
              room in reg.rooms && reg.rooms[room] == {}
    ensures r.connected == reg.connected && r.roomData == reg.roomData
  {
    var rooms := map room | room in reg.rooms && reg.rooms[room] != {id}
                   :: reg.rooms[room] - {id};
    reg.(rooms := rooms)
  }

  /** `roomData[roomID] = [encryptedData, iv]`: replaces the room's snapshot. */
  function RecordSnapshot(reg: Registry, room: Id, snapshot: Snapshot): (r: Registry)
    ensures Cached(r, room) == Some(snapshot)
    ensures forall other :: other != room ==> Cached(r, other) == Cached(reg, other)
    ensures r.connected == reg.connected && r.rooms == reg.rooms
  {
    reg.(roomData := reg.roomData[room := snapshot])
  }

  /** Joining a room keeps the invariants, provided the joiner is connected. */
  lemma JoinKeepsWellFormed(reg: Registry, id: Id, room: Id)
    requires WellFormed(reg) && id in reg.connected
    ensures WellFormed(Join(reg, id, room))
  {
    var r := Join(reg, id, room);
    forall other | other in r.rooms
      ensures r.rooms[other] != {} && r.rooms[other] <= r.connected
    {
      if other == room {
        assert r.rooms[other] == Members(reg, room) + {id};
      } else {
        assert other in reg.rooms && r.rooms[other] == reg.rooms[other];
      }
    }
    forall c | c in r.connected
      ensures c in Members(r, c)
    {
      assert c in Members(reg, c);
    }
  }

  /** A new socket, placed in its private room, keeps the invariants. */
  lemma AddSocketKeepsWellFormed(reg: Registry, id: Id)
    requires WellFormed(reg)
    ensures WellFormed(Join(reg.(connected := reg.connected + {id}), id, id))
  {
    var r := Join(reg.(connected := reg.connected + {id}), id, id);
    forall room | room in r.rooms
      ensures r.rooms[room] != {} && r.rooms[room] <= r.connected
    {
      assert r.rooms[room] == Members(r, room);
      if room != id {
        assert Members(r, room) == Members(reg, room);
      }
    }
    forall c | c in r.connected
      ensures c in Members(r, c)
    {
      if c != id {
        assert c in Members(reg, c);
      }
    }
  }

  /** The invariants read only the connected set and the room table. */
  lemma SameTableKeepsWellFormed(reg: Registry, r: Registry)
    requires WellFormed(reg) && r.connected == reg.connected && r.rooms == reg.rooms
    ensures WellFormed(r)
  {
  }

  /** After a leave-all, every listed room still has a member, and none of them is `id`. */
  lemma LeaveAllRoomsNonEmpty(reg: Registry, id: Id, room: Id)
    requires WellFormed(reg)
    ensures room in LeaveAll(reg, id).rooms ==>
              LeaveAll(reg, id).rooms[room] != {} && LeaveAll(reg, id).rooms[room] <= reg.connected - {id}
  {
    var left := LeaveAll(reg, id);
    if room in left.rooms {
      assert left.rooms[room] == Members(left, room) == Members(reg, room) - {id};
      assert room in reg.rooms && reg.rooms[room] != {};
    }
  }

  /** After a leave-all, every other connected socket is still in its private room. */
  lemma LeaveAllKeepsOwnRoom(reg: Registry, id: Id, c: Id)
    requires WellFormed(reg) && c in reg.connected && c != id
    ensures c in Members(LeaveAll(reg, id), c)
  {
    assert c in Members(reg, c);
  }

  /** Removing a socket from every room and from the connected set keeps the invariants. */
  lemma LeaveAllKeepsWellFormed(reg: Registry, id: Id)
    requires WellFormed(reg)
    ensures WellFormed(LeaveAll(reg, id).(connected := reg.connected - {id}))
  {
    var left := LeaveAll(reg, id);
    var r := left.(connected := reg.connected - {id});
    forall room | room in r.rooms
      ensures r.rooms[room] != {} && r.rooms[room] <= r.connected
    {
      LeaveAllRoomsNonEmpty(reg, id, room);
    }
    forall c | c in r.connected
      ensures c in Members(r, c)
    {
      LeaveAllKeepsOwnRoom(reg, id, c);
    }
  }
}
