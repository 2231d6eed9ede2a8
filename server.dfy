/**
 * server.js run in place: the `connections` Map is a field that the
 * handlers reassign, and every `send` call appends to `outbox`. Whether a
 * socket's `readyState` is OPEN is given, per call, by the set `open`.
 * Each handler is proved to do what the matching step in Protocol says.
 */
module Server {
  import opened Messages
  import opened Registry
  import opened Protocol

  class Relay {
    /** The `connections` Map, in insertion order. */
    var connections: seq<Entry>
    /** Every `send` call so far, oldest first. */
    var outbox: seq<Delivery>

    ghost predicate Valid()
      reads this
    {
      Invariant(connections)
    }

    /** The state at start-up: no connections, nothing sent. */
    constructor ()
      ensures Valid()
      ensures connections == [] && outbox == []
    {
      connections := [];
      outbox := [];
    }

    /** sendError: the error goes to ws only, and only while ws is open. */
    method SendError(ws: Socket, kind: ErrorKind, open: set<Socket>)
      modifies this`outbox
      ensures outbox == old(outbox) + ErrorTo(ws, kind, open)
    {
      if ws in open {
        outbox := outbox + [(ws, Error(kind))];
      }
    }

    /** The 'message' listener: a frame that does not parse gets the format error. */
    method OnMessage(ws: Socket, msg: Inbound, open: set<Socket>)
      requires Valid()
      modifies this
      ensures Valid()
      ensures connections == Dispatch(old(connections), ws, msg, open).entries
      ensures outbox == old(outbox) + Dispatch(old(connections), ws, msg, open).sent
    {
      match msg
      case Malformed =>
        SendError(ws, InvalidFormat, open);
      case Parsed(data) =>
        HandleMessage(ws, data, open);
    }

    /** handleMessage: dispatch on the message's `type`. */
    method HandleMessage(ws: Socket, data: Data, open: set<Socket>)
      requires Valid()
      modifies this
      ensures Valid()
      ensures connections == Dispatch(old(connections), ws, Parsed(data), open).entries
      ensures outbox == old(outbox) + Dispatch(old(connections), ws, Parsed(data), open).sent
    {
      if data.kind == "connect" {
        HandleConnect(ws, data, open);
      } else if data.kind == "sync" {
        HandleSync(ws, data, open);
      } else {
        SendError(ws, UnknownType, open);
      }
    }

    /** handleConnect: the three checks, each with its early return, then register and acknowledge. */
    method HandleConnect(ws: Socket, data: Data, open: set<Socket>)
      requires Valid()
      modifies this
      ensures Valid()
      ensures connections == Connect(old(connections), ws, data.role, data.id, open).entries
      ensures outbox == old(outbox) + Connect(old(connections), ws, data.role, data.id, open).sent
    {
      var role, id := data.role, data.id;
      if id == "" || |id| != 3 || !AllDigits(id) {
        SendError(ws, InvalidId, open);
        return;
      }
      if role == SENDER {
        var existingSender := Get(connections, id);
        if existingSender.Some? && existingSender.value.role == SENDER {
          SendError(ws, IdInUse, open);
          return;
        }
      }
      if role == RECEIVER {
        var sender := Get(connections, id);
        if sender.None? || sender.value.role != SENDER {
          SendError(ws, NoSender, open);
          return;
        }
      }
      connections := Set(connections, id, Record(ws, role, id));
      outbox := outbox + [(ws, Connected)];
      if role == RECEIVER {
        var sender := Get(connections, id);
        if sender.Some? && sender.value.ws in open {
          outbox := outbox + [(sender.value.ws, ReceiverConnected)];
        }
      }
    }

    /** handleSync: resolve the caller, then forward to the matching receivers in Map order. */
    method HandleSync(ws: Socket, data: Data, open: set<Socket>)
      modifies this`outbox
      ensures outbox == old(outbox) + SyncStep(connections, ws, data.fields, open).sent
    {
      var connection := FindConnectionByWebSocket(ws);
      if connection.None? || connection.value.role != SENDER {
        SendError(ws, SyncNotAllowed, open);
        return;
      }
      var senderId := connection.value.id;
      var i := 0;
      while i < |connections|
        invariant 0 <= i <= |connections|
        invariant outbox == old(outbox) + Forward(connections[..i], senderId, data.fields, open)
      {
        var (id, conn) := connections[i];
        if id == senderId && conn.role == RECEIVER && conn.ws in open {
          outbox := outbox + [(conn.ws, Sync(data.fields))];
        }
        ForwardSnoc(connections, i, senderId, data.fields, open);
        i := i + 1;
      }
      assert connections[..i] == connections;
    }

    /** findConnectionByWebSocket: the first record, in Map order, whose socket is ws. */
    method FindConnectionByWebSocket(ws: Socket) returns (r: Option<Record>)
      ensures r == FindByWebSocket(connections, ws)
      ensures r.None? <==> forall j :: 0 <= j < |connections| ==> connections[j].1.ws != ws
      ensures r.Some? ==>
        (exists i :: 0 <= i < |connections| && connections[i].1 == r.value &&
           r.value.ws == ws && forall j :: 0 <= j < i ==> connections[j].1.ws != ws)
    {
      var i := 0;
      while i < |connections|
        invariant 0 <= i <= |connections|
        invariant forall j :: 0 <= j < i ==> connections[j].1.ws != ws
      {
        if connections[i].1.ws == ws {
          return Some(connections[i].1);
        }
        i := i + 1;
      }
      return None;
    }

    /** The 'close' listener: delete the first pair whose socket is ws, then stop. */
    method OnClose(ws: Socket)
      requires Valid()
      modifies this`connections
      ensures Valid()
      ensures connections == Closed(old(connections), ws)
    {
      var i := 0;
      while i < |connections|
        invariant 0 <= i <= |connections|
        invariant connections == old(connections)
        invariant forall j :: 0 <= j < i ==> connections[j].1.ws != ws
      {
        var (id, connection) := connections[i];
        if connection.ws == ws {
          assert FirstWithSocket(connections, ws) == Some(i);
          RemovePreservesInvariant(connections, i);
          DeleteAt(connections, id, i);
          connections := Delete(connections, id);
          break;
        }
        i := i + 1;
      }
    }

    /** The periodic sweep: delete, while iterating, every pair whose socket is not open. */
    method Sweep(open: set<Socket>)
      requires Valid()
      modifies this`connections
      ensures Valid()
      ensures connections == Live(old(connections), open)
    {
      var i := 0;
      ghost var k := 0;
      while i < |connections|
        invariant 0 <= i <= |connections|
        invariant k <= |old(connections)|
        invariant Invariant(connections)
        invariant connections[..i] == Live(old(connections)[..k], open)
        invariant connections[i..] == old(connections)[k..]
        decreases |connections| - i
      {
        var (id, connection) := connections[i];
        SweepStep(connections, i, old(connections), k, open);
        if connection.ws !in open {
          RemovePreservesInvariant(connections, i);
          DeleteAt(connections, id, i);
          connections := Delete(connections, id);
        } else {
          i := i + 1;
        }
        k := k + 1;
      }
      assert old(connections)[..k] == old(connections);
      LiveMembers(old(connections), open);
    }
  }
}
