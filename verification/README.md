# Excalidraw room relay, modelled in Dafny

This project models the room relay of the Excalidraw collaboration server. That
relay is the `connection` handler of `src/index.ts`, shown as a pure transition
system. The server keeps three pieces of state:

- the set of connected sockets;
- socket.io's room table, a map from room id to the set of member sockets;
- the `roomData` snapshot cache, a map from room id to the last full scene
  broadcast to that room, stored as an encrypted payload and an initialisation
  vector.

Each inbound event from a socket is a function from the registry to a new
registry and an outbox. The outbox is a sequence of emissions, one per `emit`
call, and each emission holds a message and the set of sockets it fans out to.
`Protocol.Received` gives one socket's inbox from an outbox, in order.

The modules follow the code's structure:

- `Protocol` (protocol.dfy): ids, messages, emissions and inboxes.
- `RoomRegistry` (registry.dfy): the room table, which the adapter keeps and the
  server reads. Joining inserts into a set. On disconnect the socket is removed
  from every room, and a room left empty is deleted. Also the snapshot cache and
  the table's invariants: every listed room has members, every member is
  connected, and every connected socket is in its private room.
- `Presence` (presence.dfy): the `init-room` greeting; `join-room`, which sends
  first-in-room or new-user, then the snapshot bootstrap, then
  room-user-change; and the departure (`disconnecting`, leave-all,
  `disconnect`).
- `Broadcast` (broadcast.dfy): `server-broadcast` and
  `server-volatile-broadcast`.
- `SessionRelay` (relay.dfy): `slotSelected`, `sessionLogoutByTeacher` and
  `sessionStartedByTeacher`.
- `Server` (server.dfy): the event dispatcher, runs of events, and properties of
  whole runs. These cover which snapshot a room holds, who is in a room, and
  that the table's invariants are kept.
- `Scenarios` (scenarios.dfy): two end-to-end runs worked through on the model.
  In the first, A and B join "r1", A sends a full broadcast, C joins late and is
  bootstrapped, and A leaves. In the second, the sole member of a room leaves.

Socket ids and room ids share one type, because socket.io puts every socket in a
private room named by its own id, and the model keeps that room. Three things
follow from keeping it:

- `io.to(socket.id)` reaches every member of the room named by the sender's
  id. So `init-room` and `first-in-room` reach the connecting or joining socket
  and also any socket that has joined a room with that name.
  `Presence.OnConnection` states who receives `init-room`.
  `Presence.JoinFirstInRoom` states that a first-in-room reaches exactly the
  members of the room named by the joiner's id, and so only the joiner while
  nobody else is in that room.
- The `<= 1` test is made after the insertion.
- The `disconnecting` loop also visits the private room. It sends nothing there
  unless another socket has joined a room with that name; such a socket is sent
  the room's remaining members, as for any other room.

Three behaviours of the code that a reader might not expect, all modelled as
written:

- `first-in-room` and `init-room` are meant for the joining or connecting socket,
  but they are addressed to the room named by its id, as above.
- A socket may broadcast to a room it has not joined. All the members of that
  room except the sender still receive the payload.
- The snapshot of a room is never removed, even after the room empties. The
  next joiner receives it (`Presence.SnapshotSurvivesEmptyRoom`).

socket.io runs a closing socket's teardown in one go, and the handler sees only
its two ends. First the `disconnecting` event fires (src/index.ts:103-113),
while the socket is still in all its rooms. Then socket.io itself removes the
socket from every room and from the namespace. Last the `disconnect` event
fires (src/index.ts:115-117), and it only detaches the handlers. The model's
`RoomRegistry.LeaveAll` and `Presence.OnDisconnect` are that middle step of
socket.io. They are cited at the `disconnect` handler, which is the first point
where the removal can be seen.

## Model

| member | source | states |
|---|---|---|
| RoomRegistry.Join | src/index.ts:44 | the joined room gains exactly the joiner; no other room, no connected socket and no snapshot changes |
| RoomRegistry.LeaveAll | src/index.ts:115-117 | socket.io's leave-all before `disconnect` fires: the leaving socket is removed from every room and nobody else moves; afterwards it belongs to no room, and no room that had members stays listed with none |
| RoomRegistry.RecordSnapshot | src/index.ts:88 | the room's snapshot becomes exactly the given pair; other rooms' snapshots, the room table and the connected set are unchanged |
| RoomRegistry.JoinKeepsWellFormed | src/index.ts:44 | a join by a connected socket keeps the invariants: no listed room is empty, every member is connected, and every connected socket is in its private room |
| RoomRegistry.AddSocketKeepsWellFormed | src/index.ts:40-41 | adding a new socket to its private room keeps the invariants |
| RoomRegistry.LeaveAllKeepsWellFormed | src/index.ts:115-117 | removing a socket from every room and from the connected set keeps the invariants |
| Presence.OnConnection | src/index.ts:41 | the new socket is connected and in its private room; `init-room` reaches exactly the members of the room named by its id, and nothing else is sent |
| Presence.ConnectionGreetsOnlyNewSocket | src/index.ts:41 | when no room has that socket's name yet, the new socket is the only one greeted |
| Presence.OnJoinRoom | src/index.ts:42-58 | the room gains exactly the joiner and nothing else changes; the join emits three messages when the room has a snapshot and two otherwise |
| Presence.JoinRoomInbox | src/index.ts:44-57 | every socket's inbox after a join: first-in-room if the joiner is alone, else new-user to the other members; then the cached pair to the joiner; then the post-join member set to every member |
| Presence.JoinOccupiedInbox | src/index.ts:47-57 | joining an occupied room sends new-user to every other member and not to the joiner, the snapshot to the joiner alone, and the member set to all members |
| Presence.JoinFirstInRoom | src/index.ts:44-49 | the joiner gets first-in-room exactly when nobody else was in the room; in that case nobody gets new-user, and first-in-room reaches exactly the members of the room named by the joiner's id, so nobody else while that room is the joiner's own |
| Presence.JoinNewUser | src/index.ts:45-48 | joining an occupied room sends new-user to a socket exactly when that socket was already a member and is not the joiner; nobody gets first-in-room |
| Presence.JoinNewUserOnce | src/index.ts:48 | a join announces the joiner at most once to any socket |
| Presence.JoinBootstrap | src/index.ts:50-53 | a socket receives a scene pair on a join exactly when it is the joiner and that pair is the room's cached snapshot; with no snapshot, no scene data is sent |
| Presence.JoinRoomUserChange | src/index.ts:54-57 | every member after the join, joiner included, gets the post-join member set, and nobody gets any other list |
| Presence.OnDisconnecting | src/index.ts:103-113 | each notice goes to a non-empty set that excludes the departing socket, lists exactly its recipients, and is the remaining membership of a room in the enumeration; every enumerated room with remaining members gets its notice |
| Presence.DisconnectingOnlyListsOthers | src/index.ts:109-110 | a departure sends nothing but member lists, and nothing to the departing socket |
| Presence.DisconnectingNoticeHasRoom | src/index.ts:105-110 | every list a socket receives on a departure contains that socket and is the remaining membership of an enumerated room |
| Presence.DisconnectingNoticeReaches | src/index.ts:105-110 | every remaining member of every enumerated room receives that room's remaining membership |
| Presence.DisconnectingInbox | src/index.ts:103-113 | when the enumeration covers the departing socket's rooms, a socket receives a list exactly when it shares one of those rooms, and the list is that room's remaining members |
| Presence.OnDisconnect | src/index.ts:115-117 | socket.io's teardown before `disconnect` fires: the socket leaves the connected set and every room, and the snapshots are untouched |
| Presence.OnClose | src/index.ts:103-117 | a teardown removes the socket from every room and from the connected set, and leaves the snapshots as they were |
| Presence.ConnectionPreservesWellFormed | src/index.ts:41 | a connection keeps the room-table invariants |
| Presence.JoinRoomPreservesWellFormed | src/index.ts:44 | a join by a connected socket keeps the room-table invariants |
| Presence.DisconnectPreservesWellFormed | src/index.ts:115-117 | a teardown keeps the invariants and leaves no room listing the departed socket |
| Presence.SnapshotSurvivesEmptyRoom | src/index.ts:50-53 | after the last member of a room leaves, the room is empty, yet the next joiner is still sent the cached snapshot |
| Broadcast.OnServerBroadcast | src/index.ts:77-92 | a full broadcast sets the room's snapshot to exactly the pair; a partial one changes nothing; other rooms' snapshots and all memberships are kept; the pair reaches exactly the room's members other than the sender |
| Broadcast.OnServerVolatileBroadcast | src/index.ts:94-101 | no state changes; the pair reaches exactly the room's members other than the sender that are ready to receive |
| Broadcast.VolatileWithinReliable | src/index.ts:90-99 | a volatile broadcast's inbox is a prefix of the reliable one's, equal to it when every member is ready, and it leaves the registry as a partial reliable broadcast does |
| SessionRelay.OnSignal | src/index.ts:60-75 | a session signal reaches, unchanged, exactly the connected sockets other than the sender; the registry is untouched |
| SessionRelay.RelayIgnoresRooms | src/index.ts:64 | registries with the same connected sockets relay a signal identically, whatever their rooms and snapshots |
| Server.Step | src/index.ts:40-118 | dispatches each event to its handler; what it does is stated by the Step lemmas below |
| Server.CloseStepInbox | src/index.ts:103-113 | an admissible close sends a socket a member list exactly when it shares one of the departing socket's rooms, and the list is that room's remaining members |
| Server.StepSnapshot | src/index.ts:86-89 | after any event a room's snapshot is the pair of a full broadcast to it, if the event is one, and otherwise what it was |
| Server.BroadcastStepSnapshot | src/index.ts:86-89 | a broadcast event records its pair exactly when it is full, in its own room only |
| Server.OtherStepKeepsSnapshots | src/index.ts:40-118 | only a broadcast can change the snapshot cache |
| Server.StepMembership | src/index.ts:40-118 | only the sender's membership changes: a connection adds it to its private room, a join to the joined room, a close removes it from every room |
| Server.ConnectStepMembership | src/index.ts:40-41 | a connection only adds the new socket to its private room |
| Server.JoinStepMembership | src/index.ts:44 | a join only adds the sender to the joined room |
| Server.CloseStepMembership | src/index.ts:103-117 | a close only removes the sender, from every room |
| Server.OtherStepKeepsMembership | src/index.ts:60-101 | broadcasts and session relays leave the room table alone |
| Server.StepPreservesWellFormed | src/index.ts:40-118 | every handler keeps the room-table invariants for any admissible event |
| Server.ConnectStepPreservesWellFormed | src/index.ts:40-41 | a connection keeps the invariants |
| Server.JoinStepPreservesWellFormed | src/index.ts:42-58 | a join by a connected socket keeps the invariants |
| Server.CloseStepPreservesWellFormed | src/index.ts:103-117 | a teardown keeps the invariants |
| Server.RelayStepPreservesWellFormed | src/index.ts:60-101 | broadcasts and relays keep the invariants |
| Server.RunPreservesWellFormed | src/index.ts:40-118 | after any admissible run from a well-formed registry, no listed room is empty, no room holds a disconnected socket, and every connected socket is in its private room |
| Server.RunSnapshot | src/index.ts:13 | after any run, a room's snapshot is the one its last full broadcast carried; nothing else ever alters it |
| Server.RunMembership | src/index.ts:40-118 | after any run, a socket is in a room exactly when it has a join of that room with no later close |
| Server.LastFullBroadcastHolds | src/index.ts:86-89 | the last full broadcast to a room stays its snapshot until a later full broadcast to that room |
| Server.BootstrapAfterFullBroadcast | src/index.ts:50-53 | after a full broadcast, any later joiner is sent exactly that pair until another full broadcast to the room replaces it |
| Server.JoinReportsOutstandingJoins | src/index.ts:54-57 | the member list a join sends names exactly the sockets with an outstanding join of the room, the joiner included |
| Scenarios.ThreeConnected | src/index.ts:40-41 | three connected sockets, each alone in its private room, form a well-formed registry |
| Scenarios.ConnectingThree | src/index.ts:40-41 | connecting A, B and C in turn yields that registry: the same connected set, the same room table and an empty snapshot cache |
| Scenarios.FirstJoinerIsTold | src/index.ts:45-46 | A, joining an empty "r1", gets first-in-room and then the list {A} |
| Scenarios.SecondJoinerIsAnnounced | src/index.ts:47-57 | when B joins "r1", A gets new-user(B) and then {A, B}, and B gets only {A, B} |
| Scenarios.BroadcastSkipsSender | src/index.ts:90 | A's full broadcast to "r1" reaches B and not A |
| Scenarios.LateJoinerIsBootstrapped | src/index.ts:50-57 | C, joining "r1" late, gets A's pair and then {A, B, C} |
| Scenarios.LateJoinerIsAnnounced | src/index.ts:48-57 | when C joins, A and B each get new-user(C) and then {A, B, C} |
| Scenarios.LeavingTwoRooms | src/index.ts:103-113 | A leaving its private room and a room shared with B and C sends {B, C} to B and C and nothing to A |
| Scenarios.DepartureIsAnnounced | src/index.ts:103-113 | when A leaves the scenario's registry, B and C get {B, C} and A gets nothing |
| Scenarios.SoleMemberLeavesSilently | src/index.ts:109-111 | the sole member of a room leaving sends no member list at all |

## Left out

- The Express app, static hosting and the health endpoint (src/index.ts:10-19): HTTP plumbing with no relay state.
- `server.listen`, the port and process start-up (src/index.ts:11, 21-25): I/O.
- The CORS pre-flight headers (src/index.ts:27-38): transport configuration.
- The `debug` logging calls: side effects with no state.
- socket.io's transport, buffering and backpressure. A reliable emission is delivered to every socket in its set. Which sockets a volatile emission reaches is the `ready` parameter of `Broadcast.OnServerVolatileBroadcast`; the real drop decision happens inside the transport and is not modelled.
- Concurrency: each handler is one atomic step, and handlers run one at a time, as on the single-threaded event loop.
- Payload contents and encryption: payloads are opaque byte sequences. The session signals' arguments are an integer and strings, forwarded unchanged.
- Presence.OnJoinRoom: the room-user-change list is modelled as a set. Its order, the order in which the adapter keeps its keys, is not modelled.
- Presence.OnDisconnecting: the order in which `for ... in socket.rooms` visits the rooms is the `order` parameter. `Presence.DisconnectingInbox` assumes the order lists exactly the departing socket's rooms.
- socket.io's adapter lives in a library and is not part of this model. Its room table is abstracted as a map of finite sets: joining inserts, and leave-all removes the socket from every room and deletes rooms left empty.
- `disconnecting`, socket.io's leave-all and removal from the namespace, and `disconnect` form one `Close` event, because socket.io runs them back to back when a socket closes. `socket.removeAllListeners()` only detaches the handlers. Its effect is that a closed socket raises no more events, and `Server.Admissible` captures this: a socket outside the connected set may only connect afresh.
- Server.StepPreservesWellFormed: assumes socket.io's guarantees as `Server.Admissible`. A connection has a fresh id, and every other event comes from a connected socket. A close enumerates each of the socket's rooms exactly once, as the keys of `socket.rooms` do.
- Malformed event arguments, such as a missing room id or a non-boolean flag, are out of scope: events are typed.
- JavaScript object-key quirks in `roomData` and the adapter's table (keys such as `__proto__`) are not modelled. A room id is any string.
