/**
 The connection handler as a transition system: each inbound event of one socket
 is dispatched to its handler, and a run of events folds the handlers over the
 registry. Handlers run one at a time, each to completion.
 */
module Server {
  import opened Protocol
  import opened RoomRegistry
  import opened Presence
  import opened Broadcast
  import opened SessionRelay

  /** The inbound events. `Connect` is socket.io's `connection`; `Close` is the
      teardown socket.io runs in one go: `disconnecting`, leave-all, `disconnect`,
      with `order` the sequence in which it enumerates the socket's rooms. */
  datatype Event =
    | Connect
    | JoinRoom(room: Id)
    | ServerBroadcast(room: Id, data: Bytes, iv: Bytes, containsAllData: bool)
    | ServerVolatileBroadcast(room: Id, data: Bytes, iv: Bytes, ready: set<Id>)
    | Session(signal: Signal)
    | Close(order: seq<Id>)

  /** An event together with the socket it came from. */
  datatype Input = Input(sender: Id, event: Event)

  /** The snapshot `event` records for `room`: only a full broadcast to that room records one. */
  function Recorded(event: Event, room: Id): Option<Snapshot>
  {
    if event.ServerBroadcast? && event.containsAllData && event.room == room
    then Some(Snapshot(event.data, event.iv))
    else None
  }

  /** Whether `x` is in `room` after `event` from `sender`, given whether it was
      before: a close drops the sender from every room, a join puts it in the room,
      a connection puts it in its private room, and nothing else moves anyone. */
  function MemberAfter(sender: Id, event: Event, x: Id, room: Id, before: bool): bool
  {
    if sender != x then before
    else if event.Close? then false
    else if event == JoinRoom(room) || (event.Connect? && room == x) then true
    else before
  }

  /** Dispatches one inbound event to its handler. */
  function Step(reg: Registry, input: Input): Effect
  {
    var sender := input.sender;
    match input.event
    case Connect => OnConnection(reg, sender)
    case JoinRoom(room) => OnJoinRoom(reg, sender, room)
    case ServerBroadcast(room, data, iv, containsAllData) =>
      OnServerBroadcast(reg, sender, room, data, iv, containsAllData)
    case ServerVolatileBroadcast(room, data, iv, ready) =>
      OnServerVolatileBroadcast(reg, sender, room, data, iv, ready)
    case Session(signal) => OnSignal(reg, sender, signal)
    case Close(order) => OnClose(reg, sender, order)
  }

  /** Only a full broadcast changes a snapshot, and only that of its own room. */
  lemma StepSnapshot(reg: Registry, input: Input, room: Id)
    ensures Cached(Step(reg, input).next, room) ==
            if Recorded(input.event, room).Some? then Recorded(input.event, room) else Cached(reg, room)
  {
    if input.event.ServerBroadcast? {
      BroadcastStepSnapshot(reg, input, room);
    } else {
      assert Step(reg, input).next.roomData == reg.roomData by {
        OtherStepKeepsSnapshots(reg, input);
      }
    }
  }

  /** A broadcast step records its pair exactly when it is full, in its own room only. */
  lemma BroadcastStepSnapshot(reg: Registry, input: Input, room: Id)
    requires input.event.ServerBroadcast?
    ensures Cached(Step(reg, input).next, room) ==
            if Recorded(input.event, room).Some? then Recorded(input.event, room) else Cached(reg, room)
  {
    var e := input.event;
    assert Step(reg, input) == OnServerBroadcast(reg, input.sender, e.room, e.data, e.iv, e.containsAllData);
  }

  /** Every event but a broadcast leaves the snapshot cache as it was. */
  lemma OtherStepKeepsSnapshots(reg: Registry, input: Input)
    requires !input.event.ServerBroadcast?
    ensures Step(reg, input).next.roomData == reg.roomData
  {
  }

  /** Only the sender's own membership can change: a join adds it to the room, a
      connection to its private room, and a close removes it from every room. */
  lemma StepMembership(reg: Registry, input: Input, x: Id, room: Id)
    ensures x in Members(Step(reg, input).next, room) <==>
            MemberAfter(input.sender, input.event, x, room, x in Members(reg, room))
  {
    var sender := input.sender;
    var event := input.event;
    if event.Connect? {
      ConnectStepMembership(reg, input, x, room);
    } else if event.JoinRoom? {
      JoinStepMembership(reg, input, x, room);
    } else if event.Close? {
      CloseStepMembership(reg, input, x, room);
    } else {
      OtherStepKeepsMembership(reg, input);
    }
  }

  /** A connection only adds the new socket to its private room. */
  lemma ConnectStepMembership(reg: Registry, input: Input, x: Id, room: Id)
    requires input.event.Connect?
    ensures x in Members(Step(reg, input).next, room) <==>
            MemberAfter(input.sender, input.event, x, room, x in Members(reg, room))
  {
    assert Step(reg, input) == OnConnection(reg, input.sender);
  }

  /** A join only adds the sender to the joined room. */
  lemma JoinStepMembership(reg: Registry, input: Input, x: Id, room: Id)
    requires input.event.JoinRoom?
    ensures x in Members(Step(reg, input).next, room) <==>
            MemberAfter(input.sender, input.event, x, room, x in Members(reg, room))
  {
    assert Step(reg, input) == OnJoinRoom(reg, input.sender, input.event.room);
  }

  /** A close only removes the sender, from every room. */
  lemma CloseStepMembership(reg: Registry, input: Input, x: Id, room: Id)
    requires input.event.Close?
    ensures x in Members(Step(reg, input).next, room) <==>
            MemberAfter(input.sender, input.event, x, room, x in Members(reg, room))
  {
    assert Step(reg, input).next == OnDisconnect(reg, input.sender);
  }

  /** Broadcasts and relays leave the room table as it was. */
  lemma OtherStepKeepsMembership(reg: Registry, input: Input)
    requires input.event.ServerBroadcast? || input.event.ServerVolatileBroadcast? || input.event.Session?
    ensures Step(reg, input).next.rooms == reg.rooms
  {
  }

  /** What socket.io guarantees about who raises an event: a new connection has a
      fresh id, and every other event comes from a connected socket. A close
      enumerates the keys of `socket.rooms`: each room of the socket exactly once. */
  predicate Admissible(reg: Registry, input: Input)
  {
    if input.event.Connect? then input.sender !in reg.connected
    else input.sender in reg.connected &&
         (input.event.Close? ==> EnumeratesRooms(reg, input.sender, input.event.order))
  }

  /** `order` lists each room of socket `id` exactly once, and nothing else. */
  predicate EnumeratesRooms(reg: Registry, id: Id, order: seq<Id>)
  {
    && (forall room :: room in order ==> room in RoomsOf(reg, id))
    && (forall room :: room in RoomsOf(reg, id) ==> room in order)
    && (forall i, j :: 0 <= i < j < |order| ==> order[i] != order[j])
  }

  /** An admissible close tells a socket a member list exactly when it shares a room
      with the departing socket, and the list is that room's remaining members. */
  lemma CloseStepInbox(reg: Registry, input: Input, x: Id, s: set<Id>)
    requires Admissible(reg, input) && input.event.Close?
    ensures RoomUserChange(s) in Received(Step(reg, input).out, x) <==>
            exists room :: room in RoomsOf(reg, input.sender) && x in s && s == Members(reg, room) - {input.sender}
  {
    assert Step(reg, input).out == OnDisconnecting(reg, input.sender, input.event.order);
    DisconnectingInbox(reg, input.sender, input.event.order, x, s);
  }

  /** A connection by a fresh id keeps the room table well formed. */
  lemma ConnectStepPreservesWellFormed(reg: Registry, input: Input)
    requires WellFormed(reg) && input.event.Connect?
    ensures WellFormed(Step(reg, input).next)
  {
    assert Step(reg, input) == OnConnection(reg, input.sender);
    ConnectionPreservesWellFormed(reg, input.sender);
  }

  /** A join by a connected socket keeps the room table well formed. */
  lemma JoinStepPreservesWellFormed(reg: Registry, input: Input)
    requires WellFormed(reg) && input.event.JoinRoom? && input.sender in reg.connected
    ensures WellFormed(Step(reg, input).next)
  {
    assert Step(reg, input) == OnJoinRoom(reg, input.sender, input.event.room);
    JoinRoomPreservesWellFormed(reg, input.sender, input.event.room);
  }

  /** A close keeps the room table well formed. */
  lemma CloseStepPreservesWellFormed(reg: Registry, input: Input)
    requires WellFormed(reg) && input.event.Close?
    ensures WellFormed(Step(reg, input).next)
  {
    assert Step(reg, input).next == OnDisconnect(reg, input.sender);
    DisconnectPreservesWellFormed(reg, input.sender);
  }

  /** Broadcasts and relays leave the room table and the connected set alone. */
  lemma RelayStepPreservesWellFormed(reg: Registry, input: Input)
    requires WellFormed(reg)
    requires input.event.ServerBroadcast? || input.event.ServerVolatileBroadcast? || input.event.Session?
    ensures WellFormed(Step(reg, input).next)
  {
    var next := Step(reg, input).next;
    assert next.rooms == reg.rooms && next.connected == reg.connected;
    SameTableKeepsWellFormed(reg, next);
  }

  /** Every handler keeps the room table well formed. */
  lemma StepPreservesWellFormed(reg: Registry, input: Input)
    requires WellFormed(reg) && Admissible(reg, input)
    ensures WellFormed(Step(reg, input).next)
  {
    if input.event.Connect? {
      ConnectStepPreservesWellFormed(reg, input);
    } else if input.event.JoinRoom? {
      JoinStepPreservesWellFormed(reg, input);
    } else if input.event.Close? {
      CloseStepPreservesWellFormed(reg, input);
    } else {
      RelayStepPreservesWellFormed(reg, input);
    }
  }

  /** The registry after `trace`, started from `reg`. */
  function Run(reg: Registry, trace: seq<Input>): Registry
    decreases |trace|
  {
    if trace == [] then reg
    else Step(Run(reg, trace[..|trace| - 1]), trace[|trace| - 1]).next
  }

  /** Every event of `trace` is admissible where it happens. */
  predicate ValidTrace(reg: Registry, trace: seq<Input>)
    decreases |trace|
  {
    trace == [] ||
    (ValidTrace(reg, trace[..|trace| - 1]) && Admissible(Run(reg, trace[..|trace| - 1]), trace[|trace| - 1]))
  }

  /** The invariants hold after any admissible run. */
  lemma {:induction false} RunPreservesWellFormed(reg: Registry, trace: seq<Input>)
    requires WellFormed(reg) && ValidTrace(reg, trace)
    ensures WellFormed(Run(reg, trace))
    decreases |trace|
  {
    if trace != [] {
      var prefix := trace[..|trace| - 1];
      RunPreservesWellFormed(reg, prefix);
      StepPreservesWellFormed(Run(reg, prefix), trace[|trace| - 1]);
    }
  }

  /** The snapshot of the last full broadcast to `room` in `trace`, or `initial`
      when there is none. */
  function LastFullBroadcast(initial: Option<Snapshot>, trace: seq<Input>, room: Id): Option<Snapshot>
    decreases |trace|
  {
    if trace == [] then initial
    else if Recorded(trace[|trace| - 1].event, room).Some? then Recorded(trace[|trace| - 1].event, room)
    else LastFullBroadcast(initial, trace[..|trace| - 1], room)
  }

  /** Whether `x` has a join of `room` in `trace` (its connection, for its private
      room) with no later close; `initially` says whether it was a member before. */
  predicate Joined(initially: bool, trace: seq<Input>, x: Id, room: Id)
    decreases |trace|
  {
    if trace == [] then initially
    else
      MemberAfter(trace[|trace| - 1].sender, trace[|trace| - 1].event, x, room,
                  Joined(initially, trace[..|trace| - 1], x, room))
  }

  /** The cached snapshot of a room is the one its last full broadcast carried;
      joins, volatile and partial broadcasts, relays and departures never alter it. */
  lemma {:induction false} RunSnapshot(reg: Registry, trace: seq<Input>, room: Id)
    ensures Cached(Run(reg, trace), room) == LastFullBroadcast(Cached(reg, room), trace, room)
    decreases |trace|
  {
    if trace != [] {
      RunSnapshot(reg, trace[..|trace| - 1], room);
      StepSnapshot(Run(reg, trace[..|trace| - 1]), trace[|trace| - 1], room);
    }
  }

  /** A room's members are exactly the sockets with an outstanding join of it. */
  lemma {:induction false} RunMembership(reg: Registry, trace: seq<Input>, x: Id, room: Id)
    ensures x in Members(Run(reg, trace), room) <==> Joined(x in Members(reg, room), trace, x, room)
    decreases |trace|
  {
    if trace != [] {
      RunMembership(reg, trace[..|trace| - 1], x, room);
      StepMembership(Run(reg, trace[..|trace| - 1]), trace[|trace| - 1], x, room);
    }
  }

  /** A full broadcast stays the room's snapshot until a later full broadcast to
      the same room supersedes it. */
  lemma {:induction false} LastFullBroadcastHolds(
    initial: Option<Snapshot>, before: seq<Input>, broadcast: Input, after: seq<Input>, room: Id)
    requires Recorded(broadcast.event, room).Some?
    requires forall i :: 0 <= i < |after| ==> Recorded(after[i].event, room) == None
    ensures LastFullBroadcast(initial, before + [broadcast] + after, room) == Recorded(broadcast.event, room)
    decreases |after|
  {
    var trace := before + [broadcast] + after;
    if after == [] {
      assert trace[|trace| - 1] == broadcast;
    } else {
      var shorter := after[..|after| - 1];
      assert trace[..|trace| - 1] == before + [broadcast] + shorter;
      assert trace[|trace| - 1] == after[|after| - 1];
      LastFullBroadcastHolds(initial, before, broadcast, shorter, room);
    }
  }

  /** After a full broadcast of (data, iv) to a room, any later joiner is sent
      exactly that pair, until another full broadcast to the room supersedes it. */
  lemma BootstrapAfterFullBroadcast(
    reg: Registry, before: seq<Input>, sender: Id, room: Id, data: Bytes, iv: Bytes,
    after: seq<Input>, joiner: Id)
    requires forall i :: 0 <= i < |after| ==> Recorded(after[i].event, room) == None
    ensures var trace := before + [Input(sender, ServerBroadcast(room, data, iv, true))] + after;
            ClientBroadcast(data, iv) in Received(OnJoinRoom(Run(reg, trace), joiner, room).out, joiner)
  {
    var broadcast := Input(sender, ServerBroadcast(room, data, iv, true));
    var trace := before + [broadcast] + after;
    RunSnapshot(reg, trace, room);
    LastFullBroadcastHolds(Cached(reg, room), before, broadcast, after, room);
    JoinBootstrap(Run(reg, trace), joiner, room, joiner);
  }

  /** The member list a join sends reports exactly the sockets with an outstanding
      join of the room, the joiner included. */
  lemma JoinReportsOutstandingJoins(reg: Registry, trace: seq<Input>, joiner: Id, room: Id, x: Id, y: Id)
    ensures var reg' := Run(reg, trace);
            var members := Members(OnJoinRoom(reg', joiner, room).next, room);
            && (RoomUserChange(members) in Received(OnJoinRoom(reg', joiner, room).out, x) <==>
                Joined(x in Members(reg, room), trace + [Input(joiner, JoinRoom(room))], x, room))
            && (y in members <==> Joined(y in Members(reg, room), trace + [Input(joiner, JoinRoom(room))], y, room))
  {
    var trace' := trace + [Input(joiner, JoinRoom(room))];
    assert trace'[..|trace'| - 1] == trace;
    assert Run(reg, trace') == OnJoinRoom(Run(reg, trace), joiner, room).next;
    RunMembership(reg, trace', x, room);
    RunMembership(reg, trace', y, room);
    JoinRoomUserChange(Run(reg, trace), joiner, room, x);
  }
}
