/**
 The vocabulary of the relay: identifiers, the messages the server emits, and
 the emissions a handler produces. An emission is one `emit` call: a message and
 the set of sockets socket.io fans it out to.
 */
module Protocol {

  /** socket.io names sockets and rooms with strings, and every socket sits in a
      private room named by its own id, so one type serves both. */
  type Id = string

  /** Encrypted scene data and initialisation vectors; the relay never looks inside. */
  type Bytes = seq<bv8>

  datatype Option<+T> = None | Some(value: T)

  /** The out-of-band session signals, forwarded verbatim under the name they arrived with. */
  datatype Signal =
    | SlotSelected(slotIndex: int, sessionIdentifier: string)
    | SessionLogoutByTeacher(sessionIdentifier: string)
    | SessionStartedByTeacher(sessionIdentifier: string)

  /** The events the server emits to clients. The list of `room-user-change` is
      kept as a set: its order is whatever order the adapter keeps its keys in. */
  datatype Message =
    | InitRoom
    | FirstInRoom
    | NewUser(id: Id)
    | ClientBroadcast(data: Bytes, iv: Bytes)
    | RoomUserChange(members: set<Id>)
    | Relayed(signal: Signal)

  /** One `emit` call and the sockets it reaches. */
  datatype Emit = Emit(to: set<Id>, msg: Message)

  type Outbox = seq<Emit>

  /** The messages socket `id` receives from `out`, in emission order. */
  function Received(out: Outbox, id: Id): (inbox: seq<Message>)
    ensures |inbox| <= |out|
  {
    if out == [] then []
    else (if id in out[0].to then [out[0].msg] else []) + Received(out[1..], id)
  }

  /** A socket receives a message exactly when some emission carries it to that socket. */
  lemma {:induction false} ReceivedMember(out: Outbox, id: Id, m: Message)
    ensures m in Received(out, id) <==> exists i :: 0 <= i < |out| && id in out[i].to && out[i].msg == m
  {
    if out != [] {
      ReceivedMember(out[1..], id, m);
      assert forall i :: 0 < i < |out| ==> out[i] == out[1..][i - 1];
      if exists i :: 0 <= i < |out| && id in out[i].to && out[i].msg == m {
        var i :| 0 <= i < |out| && id in out[i].to && out[i].msg == m;
        if i > 0 {
          assert out[1..][i - 1] == out[i];
        }
      }
    }
  }

  /** Inboxes of consecutive emissions concatenate. */
  lemma {:induction false} ReceivedAppend(a: Outbox, b: Outbox, id: Id)
    ensures Received(a + b, id) == Received(a, id) + Received(b, id)
  {
    if a == [] {
      assert a + b == b;
    } else {
      var head := if id in a[0].to then [a[0].msg] else [];
      assert (a + b)[0] == a[0];
      assert (a + b)[1..] == a[1..] + b;
      ReceivedAppend(a[1..], b, id);
      assert Received(a + b, id) == head + (Received(a[1..], id) + Received(b, id));
      assert head + (Received(a[1..], id) + Received(b, id)) == (head + Received(a[1..], id)) + Received(b, id);
    }
  }

  /** A single emission reaches exactly its recipients. */
  lemma ReceivedSingle(e: Emit, id: Id)
    ensures Received([e], id) == if id in e.to then [e.msg] else []
  {
    assert [e][1..] == [];
  }
}
