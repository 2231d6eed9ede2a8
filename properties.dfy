/**
 * What the handlers of server.js do over several calls, as the code is
 * written. The comments in handleConnect and handleSync say that a
 * receiver's connect notifies its sender and that a sender's sync reaches
 * the receivers of its id; the lemmas below show that the code as written
 * does neither, because `connections.set(id, …)` keeps one record per id.
 */
module Properties {
  import opened Messages
  import opened Registry
  import opened Protocol

  /**
   * Given the Map's invariant, handleSync never forwards anything: the only
   * pair whose key is the sender's id is the sender's own pair, and its role
   * is "sender". All a sync can produce is the error to its caller.
   */
  lemma SyncNeverForwards(m: seq<Entry>, ws: Socket, f: SyncFields, open: set<Socket>)
    requires Invariant(m)
    ensures forall d :: d in SyncStep(m, ws, f, open).sent ==> d == (ws, Error(SyncNotAllowed))
  {
    match FirstWithSocket(m, ws)
    case None =>
    case Some(i) =>
      var c := m[i].1;
      if c.role == SENDER {
        assert m[i] in m;
        forall e | e in m && e.0 == c.id ensures e.1.role == SENDER {
          var j :| 0 <= j < |m| && m[j] == e;
          assert m[j].0 == m[i].0;
        }
      }
  }

  /**
   * A receiver admitted at id replaces the sender stored there: the record
   * at id is now the receiver's, and the sender's record is stored under no
   * key at all.
   */
  lemma ReceiverReplacesSender(m: seq<Entry>, ws: Socket, id: string, open: set<Socket>)
    requires Invariant(m) && ValidId(id) && HeldBySender(m, id)
    ensures var r := Connect(m, ws, RECEIVER, id, open);
      && Get(r.entries, id) == Some(Record(ws, RECEIVER, id))
      && !HeldBySender(r.entries, id)
      && |r.entries| == |m|
      && forall e :: e in r.entries ==> e.1 != Get(m, id).value
  {
    var s := Get(m, id).value;
    var r := Connect(m, ws, RECEIVER, id, open);
    assert HasKey(m, id);
    forall e | e in r.entries ensures e.1 != s {
      var i :| 0 <= i < |r.entries| && r.entries[i] == e;
      if m[i].0 != id {
        assert m[i] in m;
        assert (id, s) in m;
      }
    }
  }

  /**
   * A sender pairs with a receiver on "123" and then syncs, all sockets
   * open. As written, the receiver's connect overwrites the sender's record,
   * the "receiver connected" notice goes back to the receiver, and the
   * sender's sync is refused because its socket is no longer registered.
   */
  lemma PairingAsWritten(s: Socket, r: Socket, f: SyncFields)
    requires s != r
    ensures var open := {s, r};
      var a := Connect([], s, SENDER, "123", open);
      var b := Connect(a.entries, r, RECEIVER, "123", open);
      && a.entries == [("123", Record(s, SENDER, "123"))]
      && a.sent == [(s, Connected)]
      && b.entries == [("123", Record(r, RECEIVER, "123"))]
      && b.sent == [(r, Connected), (r, ReceiverConnected)]
      && SyncStep(b.entries, s, f, open).sent == [(s, Error(SyncNotAllowed))]
      && SyncStep(b.entries, r, f, open).sent == [(r, Error(SyncNotAllowed))]
  {
    var open := {s, r};
    ClaimAsWritten(s, open);
    JoinAsWritten(s, r, open);
    var joined := [("123", Record(r, RECEIVER, "123"))];
    assert FirstWithSocket(joined, s) == None;
    assert FirstWithSocket(joined, r) == Some(0);
  }

  /** The first step of that run: the sender claims the free id "123". */
  lemma ClaimAsWritten(s: Socket, open: set<Socket>)
    ensures Connect([], s, SENDER, "123", open) == Step([("123", Record(s, SENDER, "123"))], [(s, Connected)])
  {
    assert ValidId("123");
    assert !HasKey([], "123");
  }

  /** The second step: the receiver's connect replaces the sender and notifies the receiver itself. */
  lemma JoinAsWritten(s: Socket, r: Socket, open: set<Socket>)
    requires r in open
    ensures Connect([("123", Record(s, SENDER, "123"))], r, RECEIVER, "123", open) ==
      Step([("123", Record(r, RECEIVER, "123"))], [(r, Connected), (r, ReceiverConnected)])
  {
    var m := [("123", Record(s, SENDER, "123"))];
    assert ValidId("123");
    assert HeldBySender(m, "123");
    assert Set(m, "123", Record(r, RECEIVER, "123")) == [("123", Record(r, RECEIVER, "123"))];
  }

  /**
   * Once the sweep has dropped the record at id because its socket is not
   * open, the id reads as free and a new sender connect for it is admitted.
   */
  lemma SweepFreesId(m: seq<Entry>, open: set<Socket>, id: string)
    requires Invariant(m) && Get(m, id).Some? && Get(m, id).value.ws !in open
    ensures !HasKey(Live(m, open), id)
    ensures Admits(Live(m, open), SENDER, id)
  {
    var live := Live(m, open);
    LiveMembers(m, open);
    assert (id, Get(m, id).value) in m;
    forall e | e in live ensures e.0 != id {
      var j :| 0 <= j < |m| && m[j] == e;
    }
    assert forall i :: 0 <= i < |live| ==> live[i] in live;
  }

  /**
   * When a socket closes, the id of its first record reads as free
   * afterwards, so a sender may claim that id again.
   */
  lemma CloseFreesId(m: seq<Entry>, ws: Socket)
    requires Invariant(m) && FindByWebSocket(m, ws).Some?
    ensures var c := FindByWebSocket(m, ws).value;
      !HasKey(Closed(m, ws), c.id) && Admits(Closed(m, ws), SENDER, c.id)
  {
    var i := FirstWithSocket(m, ws).value;
    var c := m[i].1;
    assert c.id == m[i].0 && ValidId(c.id) by {
      assert m[i] in m;
    }
    RemoveAt(m, i);
  }

  /** One thing that can happen to the server between two others. */
  datatype Event =
    | Receive(ws: Socket, msg: Inbound, open: set<Socket>)   // a frame arrives on ws
    | Close(ws: Socket)                                       // ws fires 'close'
    | Tick(open: set<Socket>)                                 // the periodic sweep runs

  /** The effect of one event on the Map, and what it sends. */
  function Apply(m: seq<Entry>, e: Event): Step
  {
    match e
    case Receive(ws, msg, open) => Dispatch(m, ws, msg, open)
    case Close(ws) => Step(Closed(m, ws), [])
    case Tick(open) => Step(Live(m, open), [])
  }

  /** The events in order, from Map m: the final Map and everything sent. */
  function Run(m: seq<Entry>, events: seq<Event>): Step
    decreases |events|
  {
    if events == [] then Step(m, [])
    else
      var before := Run(m, events[..|events| - 1]);
      var last := Apply(before.entries, events[|events| - 1]);
      Step(last.entries, before.sent + last.sent)
  }

  /** One event keeps the invariant and sends no sync. */
  lemma ApplyKeepsInvariant(m: seq<Entry>, e: Event)
    requires Invariant(m)
    ensures Invariant(Apply(m, e).entries)
    ensures forall d :: d in Apply(m, e).sent ==> !d.1.Sync?
  {
    match e
    case Receive(ws, msg, open) =>
      if msg.Parsed? && msg.data.kind == "sync" {
        SyncNeverForwards(m, ws, msg.data.fields, open);
      }
    case Close(ws) =>
    case Tick(open) =>
      LiveMembers(m, open);
  }

  /**
   * In every run of the server from an empty Map, whatever frames arrive,
   * whichever sockets close and whenever the sweep runs, the invariant
   * holds at the end and no sync message is ever sent to anyone.
   */
  lemma {:induction false} NoRunForwardsSync(events: seq<Event>)
    ensures Invariant(Run([], events).entries)
    ensures forall d :: d in Run([], events).sent ==> !d.1.Sync?
    decreases |events|
  {
    if events != [] {
      var init := events[..|events| - 1];
      NoRunForwardsSync(init);
      ApplyKeepsInvariant(Run([], init).entries, events[|events| - 1]);
    }
  }
}
