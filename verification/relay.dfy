/**
 The session control relay: `slotSelected`, `sessionLogoutByTeacher` and
 `sessionStartedByTeacher` are passed on, arguments untouched, to every other
 connected socket, whatever rooms anyone is in.
 */
module SessionRelay {
  import opened Protocol
  import opened RoomRegistry

  /** `socket.broadcast.emit(name, ...args)` for one of the three session signals. */
  function OnSignal(reg: Registry, sender: Id, signal: Signal): (r: Effect)
    ensures r.next == reg
    ensures forall x :: Received(r.out, x) ==
              if x in reg.connected && x != sender then [Relayed(signal)] else []
  {
    var out := [Emit(reg.connected - {sender}, Relayed(signal))];
    assert forall x :: Received(out, x) == if x in out[0].to then [out[0].msg] else [] by {
      forall x { ReceivedSingle(out[0], x); }
    }
    Effect(reg, out)
  }

  /** The relay ignores rooms: two registries with the same connected sockets relay
      a signal to the same sockets, whatever their room tables and snapshots. */
  lemma RelayIgnoresRooms(a: Registry, b: Registry, sender: Id, signal: Signal, x: Id)
    requires a.connected == b.connected
    ensures Received(OnSignal(a, sender, signal).out, x) == Received(OnSignal(b, sender, signal).out, x)
  {
  }
}
