/**
 * The pairing that the comments of handleConnect and handleSync describe:
 * one session per id, holding the sender that claimed it and the receivers
 * that joined it, so that a receiver joins a sender instead of replacing it.
 * The same checks and messages as server.js for the roles "sender" and
 * "receiver"; the storage differs, and a connect with any other role, which
 * server.js stores and acknowledges, has no counterpart here.
 */
module Sessions {
  import opened Messages
  import opened Protocol

  datatype Role = Sender | Receiver

  /** The pairing state of one id: its sender and, in joining order, its receivers. */
  datatype Session = Session(id: string, sender: Socket, receivers: seq<Socket>)

  /** The effect of one message on the sessions: the sessions afterwards and the messages sent. */
  datatype Paired = Paired(sessions: seq<Session>, sent: seq<Delivery>)

  predicate UniqueIds(ss: seq<Session>) {
    forall i, j :: 0 <= i < j < |ss| ==> ss[i].id != ss[j].id
  }

  /** The position of the session for id. */
  function Find(ss: seq<Session>, id: string): (r: Option<nat>)
    ensures r.Some? ==> r.value < |ss| && ss[r.value].id == id
    ensures r.None? ==> forall i :: 0 <= i < |ss| ==> ss[i].id != id
  {
    if |ss| == 0 then None
    else if ss[|ss| - 1].id == id then Some(|ss| - 1)
    else Find(ss[..|ss| - 1], id)
  }

  /** The position of the first session whose sender is ws. */
  function FindBySender(ss: seq<Session>, ws: Socket): (r: Option<nat>)
    ensures r.Some? ==> r.value < |ss| && ss[r.value].sender == ws
    ensures r.None? ==> forall i :: 0 <= i < |ss| ==> ss[i].sender != ws
  {
    if |ss| == 0 then None
    else if ss[0].sender == ws then Some(0)
    else
      assert forall i :: 1 <= i < |ss| ==> ss[i] == ss[1..][i - 1];
      match FindBySender(ss[1..], ws)
      case None => None
      case Some(i) => Some(i + 1)
  }

  /**
   * connect: a sender opens a session for a free id; a receiver joins the
   * session of id, and the session's sender is told, if its socket is open.
   */
  function Connect(ss: seq<Session>, ws: Socket, role: Role, id: string, open: set<Socket>): (r: Paired)
    ensures !ValidId(id) ==> r == Paired(ss, ErrorTo(ws, InvalidId, open))
    ensures ValidId(id) && role == Sender ==>
      if Find(ss, id).Some? then r == Paired(ss, ErrorTo(ws, IdInUse, open))
      else r.sessions == ss + [Session(id, ws, [])] && r.sent == [(ws, Connected)]
    ensures ValidId(id) && role == Receiver && Find(ss, id).None? ==> r == Paired(ss, ErrorTo(ws, NoSender, open))
    ensures ValidId(id) && role == Receiver && Find(ss, id).Some? ==>
      var i := Find(ss, id).value;
      var s := ss[i].sender;
      && |r.sessions| == |ss|
      && r.sessions[i] == Session(id, s, ss[i].receivers + [ws])
      && (forall j :: 0 <= j < |ss| && j != i ==> r.sessions[j] == ss[j])
      && r.sent == [(ws, Connected)] + (if s in open then [(s, ReceiverConnected)] else [])
    ensures UniqueIds(ss) ==> UniqueIds(r.sessions)
  {
    if !ValidId(id) then Paired(ss, ErrorTo(ws, InvalidId, open))
    else match role
      case Sender =>
        if Find(ss, id).Some? then Paired(ss, ErrorTo(ws, IdInUse, open))
        else Paired(ss + [Session(id, ws, [])], [(ws, Connected)])
      case Receiver =>
        match Find(ss, id)
        case None => Paired(ss, ErrorTo(ws, NoSender, open))
        case Some(i) =>
          var s := ss[i];
          var joined := ss[i := Session(id, s.sender, s.receivers + [ws])];
          Paired(joined, [(ws, Connected)] + (if s.sender in open then [(s.sender, ReceiverConnected)] else []))
  }

  /** One sync, with the five fields, to each open receiver, in joining order. */
  function Deliver(receivers: seq<Socket>, f: SyncFields, open: set<Socket>): seq<Delivery>
    decreases |receivers|
  {
    if receivers == [] then []
    else
      var init, last := receivers[..|receivers| - 1], receivers[|receivers| - 1];
      Deliver(init, f, open) + (if last in open then [(last, Sync(f))] else [])
  }

  /** Delivery reaches exactly the open receivers, each with the sync fields. */
  lemma {:induction false} DeliverTargets(receivers: seq<Socket>, f: SyncFields, open: set<Socket>)
    ensures forall d :: d in Deliver(receivers, f, open) ==> d.1 == Sync(f)
    ensures forall x :: (x, Sync(f)) in Deliver(receivers, f, open) <==> x in receivers && x in open
    decreases |receivers|
  {
    if receivers != [] {
      var init, last := receivers[..|receivers| - 1], receivers[|receivers| - 1];
      assert receivers == init + [last];
      DeliverTargets(init, f, open);
    }
  }

  /** sync: only a socket that holds a session as its sender may relay, and it relays to that session's receivers. */
  function SyncStep(ss: seq<Session>, ws: Socket, f: SyncFields, open: set<Socket>): (r: Paired)
    ensures r.sessions == ss
    ensures FindBySender(ss, ws).None? ==> r.sent == ErrorTo(ws, SyncNotAllowed, open)
    ensures FindBySender(ss, ws).Some? ==>
      var rs := ss[FindBySender(ss, ws).value].receivers;
      (forall d :: d in r.sent ==> d.1 == Sync(f)) &&
      (forall x :: (x, Sync(f)) in r.sent <==> x in rs && x in open)
  {
    match FindBySender(ss, ws)
    case None => Paired(ss, ErrorTo(ws, SyncNotAllowed, open))
    case Some(i) =>
      DeliverTargets(ss[i].receivers, f, open);
      Paired(ss, Deliver(ss[i].receivers, f, open))
  }

  /**
   * The run that fails in server.js, on the sessions: a sender claims
   * "123", a receiver joins it, and the sender's sync reaches the receiver,
   * while a sync from the receiver is still refused.
   */
  lemma PairingRelays(s: Socket, r: Socket, f: SyncFields)
    requires s != r
    ensures var open := {s, r};
      var a := Connect([], s, Sender, "123", open);
      var b := Connect(a.sessions, r, Receiver, "123", open);
      && a.sent == [(s, Connected)]
      && b.sessions == [Session("123", s, [r])]
      && b.sent == [(r, Connected), (s, ReceiverConnected)]
      && SyncStep(b.sessions, s, f, open).sent == [(r, Sync(f))]
      && SyncStep(b.sessions, r, f, open).sent == [(r, Error(SyncNotAllowed))]
  {
    var open := {s, r};
    var a := Connect([], s, Sender, "123", open);
    assert a.sessions == [Session("123", s, [])] && a.sent == [(s, Connected)] by {
      assert ValidId("123");
    }
    var b := Connect(a.sessions, r, Receiver, "123", open);
    assert b.sessions == [Session("123", s, [r])] by {
      assert ValidId("123");
      assert Find(a.sessions, "123") == Some(0);
      assert a.sessions[0].receivers + [r] == [r];
      assert |b.sessions| == 1 && b.sessions[0] == Session("123", s, [r]);
    }
    assert b.sent == [(r, Connected), (s, ReceiverConnected)] by {
      assert ValidId("123");
      assert Find(a.sessions, "123") == Some(0);
    }
    assert SyncStep(b.sessions, s, f, open).sent == [(r, Sync(f))] by {
      assert FindBySender(b.sessions, s) == Some(0);
      assert Deliver([r], f, open) == Deliver([], f, open) + [(r, Sync(f))];
    }
    assert FindBySender(b.sessions, r) == None;
  }

  /**
   * Once a receiver has joined the session of a sender, every later sync
   * from that sender reaches the receiver while its socket is open, however
   * many other receivers joined, provided the sender's socket is the sender
   * of no other session (otherwise its sync goes to the first of them).
   */
  lemma JoinedReceiverGetsSync(ss: seq<Session>, s: Socket, r: Socket, id: string, f: SyncFields, open: set<Socket>)
    requires UniqueIds(ss) && ValidId(id)
    requires Find(ss, id).Some? && ss[Find(ss, id).value].sender == s
    requires forall i :: 0 <= i < |ss| && ss[i].id != id ==> ss[i].sender != s
    requires r in open
    ensures var joined := Connect(ss, r, Receiver, id, open).sessions;
      (r, Sync(f)) in SyncStep(joined, s, f, open).sent
  {
    var i := Find(ss, id).value;
    var joined := Connect(ss, r, Receiver, id, open).sessions;
    assert joined[i].sender == s && r in joined[i].receivers;
    assert FindBySender(joined, s) == Some(i);
  }
}
