/**
 Two end-to-end runs of the relay, worked through on the model: a room filled
 by three sockets with a full broadcast and a late joiner who is bootstrapped
 with the snapshot, and a sole member leaving a room without any notice.
 */
module Scenarios {
  import opened Protocol
  import opened RoomRegistry
  import opened Presence
  import opened Broadcast

  const A: Id := "A"
  const B: Id := "B"
  const C: Id := "C"

  /** The registry once A, B and C have connected: each sits in its private room. */
  function ThreeConnected(): (reg: Registry)
    ensures WellFormed(reg)
    ensures reg.connected == {A, B, C} && reg.roomData == map[]
    ensures forall id :: id in reg.connected ==> Members(reg, id) == {id}
    ensures forall room :: room !in {A, B, C} ==> Members(reg, room) == {}
  {
    Registry({A, B, C}, map[A := {A}, B := {B}, C := {C}], map[])
  }

  /** Connecting A, B and C in turn to a fresh server yields that registry, each
      socket alone in its private room. */
  lemma ConnectingThree()
    ensures var a := OnConnection(Initial, A).next;
            var b := OnConnection(a, B).next;
            var c := OnConnection(b, C).next;
            && c.connected == ThreeConnected().connected
            && c.roomData == ThreeConnected().roomData
            && forall room :: Members(c, room) == Members(ThreeConnected(), room)
  {
    ConnectingThreeTable();
    ConnectingThreeSockets();
  }

  /** The room table after the three connections. */
  lemma ConnectingThreeTable()
    ensures var a := OnConnection(Initial, A).next;
            var b := OnConnection(a, B).next;
            forall room :: Members(OnConnection(b, C).next, room) == Members(ThreeConnected(), room)
  {
  }

  /** The connected set and the snapshot cache after the three connections. */
  lemma ConnectingThreeSockets()
    ensures var a := OnConnection(Initial, A).next;
            var b := OnConnection(a, B).next;
            var c := OnConnection(b, C).next;
            c.connected == {A, B, C} && c.roomData == map[]
  {
  }

  const R1: Id := "r1"

  /** A has joined "r1", where it is alone. */
  function AfterA(): (reg: Registry)
    ensures Members(reg, R1) == {A} && Members(reg, A) == {A} && reg.roomData == map[]
  {
    assert R1 !in {A, B, C};
    OnJoinRoom(ThreeConnected(), A, R1).next
  }

  /** B has joined "r1" after A. */
  function AfterB(): (reg: Registry)
    ensures Members(reg, R1) == {A, B} && Members(reg, A) == {A} && reg.roomData == map[]
  {
    OnJoinRoom(AfterA(), B, R1).next
  }

  /** A has sent a full broadcast of (p, v) to "r1". */
  function AfterSend(p: Bytes, v: Bytes): (reg: Registry)
    ensures Members(reg, R1) == {A, B} && Members(reg, A) == {A}
    ensures Cached(reg, R1) == Some(Snapshot(p, v))
  {
    OnServerBroadcast(AfterB(), A, R1, p, v, true).next
  }

  /** C has joined "r1" late. */
  function AfterC(p: Bytes, v: Bytes): (reg: Registry)
    ensures Members(reg, R1) == {A, B, C} && Members(reg, A) == {A}
  {
    OnJoinRoom(AfterSend(p, v), C, R1).next
  }

  /** A joins "r1" first and is told so. */
  lemma FirstJoinerIsTold()
    ensures Received(OnJoinRoom(ThreeConnected(), A, R1).out, A) == [FirstInRoom, RoomUserChange({A})]
  {
    var reg := ThreeConnected();
    assert R1 !in {A, B, C};
    JoinRoomInbox(reg, A, R1, A);
    assert Members(reg, R1) + {A} == {A};
  }

  /** B joins: A hears of B, and both get the list {A, B}. */
  lemma SecondJoinerIsAnnounced()
    ensures Received(OnJoinRoom(AfterA(), B, R1).out, A) == [NewUser(B), RoomUserChange({A, B})]
    ensures Received(OnJoinRoom(AfterA(), B, R1).out, B) == [RoomUserChange({A, B})]
  {
    assert {A} + {B} == {A, B} != {B};
    JoinRoomInbox(AfterA(), B, R1, A);
    JoinRoomInbox(AfterA(), B, R1, B);
  }

  /** A's full broadcast reaches B and not A. */
  lemma BroadcastSkipsSender(p: Bytes, v: Bytes)
    ensures Received(OnServerBroadcast(AfterB(), A, R1, p, v, true).out, A) == []
    ensures Received(OnServerBroadcast(AfterB(), A, R1, p, v, true).out, B) == [ClientBroadcast(p, v)]
  {
  }

  /** C joins late: it is sent A's snapshot, then the list {A, B, C}. */
  lemma LateJoinerIsBootstrapped(p: Bytes, v: Bytes)
    ensures Received(OnJoinRoom(AfterSend(p, v), C, R1).out, C) == [ClientBroadcast(p, v), RoomUserChange({A, B, C})]
  {
    JoinAfterTwoCached(AfterSend(p, v), p, v);
  }

  /** C joins late: A and B hear of C, then get the list {A, B, C}. */
  lemma LateJoinerIsAnnounced(p: Bytes, v: Bytes, x: Id)
    requires x == A || x == B
    ensures Received(OnJoinRoom(AfterSend(p, v), C, R1).out, x) == [NewUser(C), RoomUserChange({A, B, C})]
  {
    JoinAfterTwo(AfterSend(p, v), x);
  }

  /** C joins "r1" while A and B are in it. */
  lemma JoinAfterTwo(reg: Registry, x: Id)
    requires Members(reg, R1) == {A, B}
    ensures x == C ==>
              Received(OnJoinRoom(reg, C, R1).out, x) ==
              (if R1 in reg.roomData then [ClientBroadcast(reg.roomData[R1].data, reg.roomData[R1].iv)] else [])
              + [RoomUserChange({A, B, C})]
    ensures x == A || x == B ==>
              Received(OnJoinRoom(reg, C, R1).out, x) == [NewUser(C), RoomUserChange({A, B, C})]
  {
    assert A in Members(reg, R1) - {C};
    assert Members(reg, R1) + {C} == {A, B, C};
    JoinOccupiedInbox(reg, C, R1, x);
  }

  /** C joins "r1" while A and B are in it and (p, v) is cached for it. */
  lemma JoinAfterTwoCached(reg: Registry, p: Bytes, v: Bytes)
    requires Members(reg, R1) == {A, B} && Cached(reg, R1) == Some(Snapshot(p, v))
    ensures Received(OnJoinRoom(reg, C, R1).out, C) == [ClientBroadcast(p, v), RoomUserChange({A, B, C})]
  {
    assert R1 in reg.roomData && reg.roomData[R1] == Snapshot(p, v);
    JoinAfterTwo(reg, C);
  }

  /** A leaves: B and C get the list {B, C}; A's private room yields nothing. */
  lemma DepartureIsAnnounced(p: Bytes, v: Bytes)
    ensures var out := OnClose(AfterC(p, v), A, [A, R1]).out;
            && Received(out, A) == []
            && Received(out, B) == [RoomUserChange({B, C})]
            && Received(out, C) == [RoomUserChange({B, C})]
  {
    LeavingTwoRooms(AfterC(p, v), A, R1);
  }

  /** The `disconnecting` notices for a socket enumerated in two rooms. */
  lemma DisconnectingTwoRooms(reg: Registry, sender: Id, first: Id, second: Id)
    ensures OnDisconnecting(reg, sender, [first, second]) ==
            OnDisconnecting(reg, sender, [first]) + OnDisconnecting(reg, sender, [second])
  {
    var order := [first, second];
    assert order[1..] == [second];
    assert [second][1..] == [] && [first][1..] == [];
  }

  /** A leaves while alone in its private room and sharing `room` with B and C. */
  lemma LeavingTwoRooms(reg: Registry, leaving: Id, room: Id)
    requires leaving == A && room != A
    requires Members(reg, A) == {A} && Members(reg, room) == {A, B, C}
    ensures var out := OnClose(reg, leaving, [leaving, room]).out;
            && Received(out, A) == []
            && Received(out, B) == [RoomUserChange({B, C})]
            && Received(out, C) == [RoomUserChange({B, C})]
  {
    DisconnectingTwoRooms(reg, A, A, room);
    assert [A][1..] == [] && [room][1..] == [];
    assert {A, B, C} - {A} == {B, C};
    var out := OnClose(reg, leaving, [leaving, room]).out;
    assert out == [Emit({B, C}, RoomUserChange({B, C}))];
    ReceivedSingle(out[0], A);
    ReceivedSingle(out[0], B);
    ReceivedSingle(out[0], C);
  }

  /** The sole member of "r2" leaves: nobody is sent a member list. */
  lemma SoleMemberLeavesSilently()
    ensures
      var r2 := "r2";
      var joined := OnJoinRoom(ThreeConnected(), A, r2).next;
      OnClose(joined, A, [A, r2]).out == []
  {
    var r2 := "r2";
    var reg := ThreeConnected();
    assert r2 !in {A, B, C};
    var joined := OnJoinRoom(reg, A, r2).next;
    assert Members(joined, r2) - {A} == {};
    assert Members(joined, A) - {A} == {};
    DisconnectingTwoRooms(joined, A, A, r2);
    assert [A][1..] == [] && [r2][1..] == [];
  }
}
