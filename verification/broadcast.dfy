/**
 The broadcast engine: `server-broadcast` (reliable, optionally recording the
 room's snapshot) and `server-volatile-broadcast` (best effort). Both fan out
 to the target room and never back to the sender.
 */
module Broadcast {
  import opened Protocol
  import opened RoomRegistry

  /** `server-broadcast`: a full broadcast first replaces the room's snapshot with
      exactly the pair it carries; then every member of the room but the sender
      receives the pair. The sender need not be a member of the room. */
  function OnServerBroadcast(reg: Registry, sender: Id, room: Id, data: Bytes, iv: Bytes, containsAllData: bool)
    : (r: Effect)
    ensures containsAllData ==> Cached(r.next, room) == Some(Snapshot(data, iv))
    ensures !containsAllData ==> r.next == reg
    ensures forall other :: other != room ==> Cached(r.next, other) == Cached(reg, other)
    ensures r.next.rooms == reg.rooms && r.next.connected == reg.connected
    ensures forall x :: Received(r.out, x) ==
              if x in Members(reg, room) && x != sender then [ClientBroadcast(data, iv)] else []
  {
    var next := if containsAllData then RecordSnapshot(reg, room, Snapshot(data, iv)) else reg;
    var out := [Emit(Members(reg, room) - {sender}, ClientBroadcast(data, iv))];
    assert forall x :: Received(out, x) == if x in out[0].to then [out[0].msg] else [] by {
      forall x { ReceivedSingle(out[0], x); }
    }
    Effect(next, out)
  }

  /** `server-volatile-broadcast`: the same fan-out, but only to the recipients the
      transport can reach at once (`ready`); the rest are dropped. No state changes. */
  function OnServerVolatileBroadcast(reg: Registry, sender: Id, room: Id, data: Bytes, iv: Bytes, ready: set<Id>)
    : (r: Effect)
    ensures r.next == reg
    ensures forall x :: Received(r.out, x) ==
              if x in Members(reg, room) && x != sender && x in ready then [ClientBroadcast(data, iv)] else []
  {
    var out := [Emit((Members(reg, room) - {sender}) * ready, ClientBroadcast(data, iv))];
    assert forall x :: Received(out, x) == if x in out[0].to then [out[0].msg] else [] by {
      forall x { ReceivedSingle(out[0], x); }
    }
    Effect(reg, out)
  }

  /** A volatile broadcast reaches a subset of the sockets the reliable broadcast of
      the same pair reaches, all of them when every one is ready, and, unlike a full
      reliable broadcast, leaves the snapshot cache alone. */
  lemma VolatileWithinReliable(reg: Registry, sender: Id, room: Id, data: Bytes, iv: Bytes, ready: set<Id>, x: Id)
    ensures var volatile := OnServerVolatileBroadcast(reg, sender, room, data, iv, ready);
            var reliable := OnServerBroadcast(reg, sender, room, data, iv, false);
            && Received(volatile.out, x) <= Received(reliable.out, x)
            && (Members(reg, room) <= ready ==> Received(volatile.out, x) == Received(reliable.out, x))
            && volatile.next == reliable.next
  {
  }
}
