/**
 * The message handlers of server.js as functions of the `connections` Map:
 * each one maps the Map before the call, the calling socket, the message and
 * the set of open sockets to the Map after the call and the list of `send`
 * calls it makes, in order. The class in server.dfy runs these steps in place.
 */
module Protocol {
  import opened Messages
  import opened Registry

  const SENDER := "sender"
  const RECEIVER := "receiver"

  /** The effect of one handler: the Map afterwards and the messages sent, in order. */
  datatype Step = Step(entries: seq<Entry>, sent: seq<Delivery>)

  predicate IsDigit(c: char) {
    '0' <= c <= '9'
  }

  /** `/^\d+$/.test(s)`: at least one character, and every one a decimal digit. */
  function AllDigits(s: string): (b: bool)
    ensures b <==> |s| > 0 && forall i :: 0 <= i < |s| ==> IsDigit(s[i])
  {
    |s| > 0 && IsDigit(s[0]) &&
    (|s| == 1 || (assert forall i :: 1 <= i < |s| ==> s[i] == s[1..][i - 1]; AllDigits(s[1..])))
  }

  /** The id check of handleConnect: not empty, three long, digits only. */
  function ValidId(id: string): (b: bool)
    ensures b <==> |id| == 3 && IsDigit(id[0]) && IsDigit(id[1]) && IsDigit(id[2])
  {
    !(id == "" || |id| != 3 || !AllDigits(id))
  }

  /** `sendError(ws, …)`: one error, to ws only, and only if ws is open. */
  function ErrorTo(ws: Socket, kind: ErrorKind, open: set<Socket>): (out: seq<Delivery>)
    ensures |out| <= 1
    ensures |out| == 1 <==> ws in open
    ensures forall d :: d in out ==> d == (ws, Error(kind))
  {
    if ws in open then [(ws, Error(kind))] else []
  }

  /**
   * What holds of `connections` between two handlers: no key twice, every
   * key passed the id check, and every record's id is the key it is stored
   * under.
   */
  predicate Invariant(m: seq<Entry>) {
    UniqueKeys(m) && forall e :: e in m ==> e.0 == e.1.id && ValidId(e.0)
  }

  /** Deleting one pair keeps the invariant. */
  lemma RemovePreservesInvariant(m: seq<Entry>, i: nat)
    requires Invariant(m) && i < |m|
    ensures Invariant(m[..i] + m[i + 1..])
  {
    RemoveAt(m, i);
  }

  /** The record stored at id has role "sender". */
  predicate HeldBySender(m: seq<Entry>, id: string) {
    Get(m, id).Some? && Get(m, id).value.role == SENDER
  }

  /**
   * A connect passes every check of handleConnect: the id is valid, a
   * sender does not find a sender at id, and a receiver does. Any other role
   * is checked only for its id.
   */
  predicate Admits(m: seq<Entry>, role: string, id: string) {
    && ValidId(id)
    && !(role == SENDER && HeldBySender(m, id))
    && !(role == RECEIVER && !HeldBySender(m, id))
  }

  /** handleConnect. */
  function Connect(m: seq<Entry>, ws: Socket, role: string, id: string, open: set<Socket>): (r: Step)
    // each refusal sends one error to the caller (if open) and leaves the Map alone
    ensures !ValidId(id) ==> r == Step(m, ErrorTo(ws, InvalidId, open))
    ensures ValidId(id) && role == SENDER && HeldBySender(m, id) ==> r == Step(m, ErrorTo(ws, IdInUse, open))
    ensures ValidId(id) && role == RECEIVER && !HeldBySender(m, id) ==> r == Step(m, ErrorTo(ws, NoSender, open))
    // an admitted connect, whatever its role, stores {ws, role, id} at id, over any earlier record
    ensures Admits(m, role, id) ==> r.entries == Set(m, id, Record(ws, role, id))
    ensures Admits(m, role, id) && UniqueKeys(m) ==> Get(r.entries, id) == Some(Record(ws, role, id))
    // ... acknowledges the caller, and a receiver's "notify the sender" reaches the caller itself
    ensures Admits(m, role, id) && role != RECEIVER ==> r.sent == [(ws, Connected)]
    ensures Admits(m, role, id) && role == RECEIVER && UniqueKeys(m) ==>
      r.sent == [(ws, Connected)] + (if ws in open then [(ws, ReceiverConnected)] else [])
    ensures Invariant(m) ==> Invariant(r.entries)
  {
    if !ValidId(id) then Step(m, ErrorTo(ws, InvalidId, open))
    else if role == SENDER && HeldBySender(m, id) then Step(m, ErrorTo(ws, IdInUse, open))
    else if role == RECEIVER && !HeldBySender(m, id) then Step(m, ErrorTo(ws, NoSender, open))
    else
      var stored := Set(m, id, Record(ws, role, id));
      var notify :=
        if role != RECEIVER then []
        else match Get(stored, id)
          case Some(sender) => if sender.ws in open then [(sender.ws, ReceiverConnected)] else []
          case None => [];
      assert UniqueKeys(m) ==> UniqueKeys(stored) && Get(stored, id) == Some(Record(ws, role, id)) by {
        if UniqueKeys(m) {
          SetGet(m, id, Record(ws, role, id));
        }
      }
      assert Invariant(m) ==> Invariant(stored) by {
        if Invariant(m) {
          forall e | e in stored ensures e.0 == e.1.id && ValidId(e.0) {
            var i :| 0 <= i < |stored| && stored[i] == e;
            if i < |m| { assert m[i] in m; }
          }
        }
      }
      Step(stored, [(ws, Connected)] + notify)
  }

  /**
   * The forwarding loop of handleSync: one sync, with the five fields, to
   * each pair in Map order whose key is id, whose role is "receiver" and
   * whose socket is open.
   */
  function Forward(m: seq<Entry>, id: string, f: SyncFields, open: set<Socket>): (r: seq<Delivery>)
    ensures |r| <= |m|
    ensures forall k :: 0 <= k < |r| ==> r[k].1 == Sync(f) && r[k].0 in open
    decreases |m|
  {
    if m == [] then []
    else
      var init, last := m[..|m| - 1], m[|m| - 1];
      Forward(init, id, f, open) +
      (if last.0 == id && last.1.role == RECEIVER && last.1.ws in open then [(last.1.ws, Sync(f))] else [])
  }

  /**
   * The forwarding loop sends the five fields only to open receivers stored
   * under id, and to every one of them.
   */
  lemma {:induction false} ForwardTargets(m: seq<Entry>, id: string, f: SyncFields, open: set<Socket>)
    ensures forall d :: d in Forward(m, id, f, open) ==>
      d.1 == Sync(f) && d.0 in open && exists e :: e in m && e.0 == id && e.1.role == RECEIVER && e.1.ws == d.0
    ensures forall e :: e in m && e.0 == id && e.1.role == RECEIVER && e.1.ws in open ==>
      (e.1.ws, Sync(f)) in Forward(m, id, f, open)
    decreases |m|
  {
    if m != [] {
      var init, last := m[..|m| - 1], m[|m| - 1];
      assert m == init + [last];
      ForwardTargets(init, id, f, open);
    }
  }

  /** Scanning one more pair forwards to it exactly when it matches. */
  lemma ForwardSnoc(m: seq<Entry>, i: nat, id: string, f: SyncFields, open: set<Socket>)
    requires i < |m|
    ensures Forward(m[..i + 1], id, f, open) == Forward(m[..i], id, f, open) +
      (if m[i].0 == id && m[i].1.role == RECEIVER && m[i].1.ws in open then [(m[i].1.ws, Sync(f))] else [])
  {
    assert m[..i + 1][..i] == m[..i];
  }

  /** handleSync: never changes the Map; only a socket whose first record is a sender's may forward. */
  function SyncStep(m: seq<Entry>, ws: Socket, f: SyncFields, open: set<Socket>): (r: Step)
    ensures r.entries == m
    ensures FindByWebSocket(m, ws).None? ==> r.sent == ErrorTo(ws, SyncNotAllowed, open)
    ensures FindByWebSocket(m, ws).Some? && FindByWebSocket(m, ws).value.role != SENDER ==>
      r.sent == ErrorTo(ws, SyncNotAllowed, open)
    ensures FindByWebSocket(m, ws).Some? && FindByWebSocket(m, ws).value.role == SENDER ==>
      var sender := FindByWebSocket(m, ws).value;
      && (forall d :: d in r.sent ==>
            (d.1 == Sync(f) && d.0 in open &&
             exists e :: e in m && e.0 == sender.id && e.1.role == RECEIVER && e.1.ws == d.0))
      && (forall e :: e in m && e.0 == sender.id && e.1.role == RECEIVER && e.1.ws in open ==>
            (e.1.ws, Sync(f)) in r.sent)
  {
    match FindByWebSocket(m, ws)
    case None => Step(m, ErrorTo(ws, SyncNotAllowed, open))
    case Some(connection) =>
      if connection.role != SENDER then Step(m, ErrorTo(ws, SyncNotAllowed, open))
      else
        ForwardTargets(m, connection.id, f, open);
        Step(m, Forward(m, connection.id, f, open))
  }

  /**
   * The message listener: a frame that does not parse, or whose type is
   * neither "connect" nor "sync", gets one error and changes nothing.
   */
  function Dispatch(m: seq<Entry>, ws: Socket, msg: Inbound, open: set<Socket>): (r: Step)
    ensures msg.Malformed? ==> r == Step(m, ErrorTo(ws, InvalidFormat, open))
    ensures msg.Parsed? && msg.data.kind != "connect" && msg.data.kind != "sync" ==>
      r == Step(m, ErrorTo(ws, UnknownType, open))
    ensures r.entries == m || (msg.Parsed? && msg.data.kind == "connect" &&
      r.entries == Set(m, msg.data.id, Record(ws, msg.data.role, msg.data.id)))
    ensures Invariant(m) ==> Invariant(r.entries)
  {
    match msg
    case Malformed => Step(m, ErrorTo(ws, InvalidFormat, open))
    case Parsed(data) =>
      if data.kind == "connect" then Connect(m, ws, data.role, data.id, open)
      else if data.kind == "sync" then SyncStep(m, ws, data.fields, open)
      else Step(m, ErrorTo(ws, UnknownType, open))
  }
}
