# websocket-player relay server, modelled in Dafny

The relay server in `server.js` pairs two browser clients under a
three-digit id. A *sender* claims the id. A *receiver* then connects with
the same id. From then on the sender's `sync` messages (current time,
playing flag, loop flag, start and end time) should reach the receiver.
All state is one module-level JavaScript `Map`, `connections`, from id to
a record `{ws, role, id, connectedAt}`. Five handlers change it or read
it:

- the `message` listener, which parses the frame and dispatches on its `type`;
- `handleConnect`, which checks the id and the role, stores the record and acknowledges;
- `handleSync`, which finds the caller's record and forwards the five fields;
- the `close` listener, which deletes the caller's first record;
- a periodic sweep, which deletes every record whose socket is not open.

The model of the code as written has five modules:

- `Messages` (messages.dfy) holds the values. A socket is an opaque
  handle. A parsed frame is `Data`, and a frame that does not parse is
  `Malformed`. The four outbound message types are `OutMsg`, and the six
  error texts are `ErrorKind`.
- `Registry` (registry.dfy) models the `Map` as the sequence of its
  (key, record) pairs in insertion order. It defines `get`, `set` and
  `delete`, plus the three scans of the source: the first record with a
  given socket, the close handler's deletion, and the sweep.
- `Protocol` (protocol.dfy) writes each handler as a function. The
  function takes the Map before the call, the calling socket, the message
  and the set of open sockets. It returns the Map after the call and the
  `send` calls made, in order. Each function's contract states the
  handler's behaviour: which inputs it refuses, what it stores and to
  whom it sends.
- `Properties` (properties.dfy) proves what these handlers do over several
  calls, as the code is written.
- `Server` (server.dfy) runs the handlers in place. The class `Relay` has
  the `connections` field and an `outbox` field that records every `send`
  call. Its methods follow the source statement by statement: early
  returns, `for…of` loops with `break`, and deletion while iterating. Each
  method is proved to produce exactly the new Map and messages that the
  matching `Registry` or `Protocol` function gives. Each method also keeps the invariant
  `Protocol.Invariant`: no key twice, every key a valid id, and every
  record's `id` equal to its key.

`readyState === OPEN` is modelled as membership of the socket in the
`open` set that each handler receives. `ws.send` is modelled as appending
to `outbox`. `outbox` records each call to `send`, not whether the
message was delivered.

Two behaviours of the code differ from what its comments suggest, and
the model follows the code:

- A `connect` with a role other than "sender" or "receiver" passes both
  role checks, is stored under its id (over any record already there) and
  is acknowledged with `connected`.
- A receiver's `connections.set(id, …)` replaces the sender's record under
  the same id (see Findings).

A sixth module, `Sessions` (sessions.dfy), is the corrected pairing. It
keeps one session per id, with a sender slot and a list of receivers, and
proves that the sender's sync reaches every open receiver of its session,
when the sender's socket holds no other session. A socket may claim
several ids, as in server.js, and its sync then goes to the first of its
sessions.

## Model

| member | source | states |
|---|---|---|
| Registry.Get | server.js:68 | `get(k)` is absent exactly when no pair has key k. Otherwise it is a record stored under k. With unique keys, it is the record at k's position. |
| Registry.Set | server.js:85-90 | `set(k, v)` replaces the record in place at k's position. When k is absent, it appends (k, v) at the end. Every other pair stays where it was. |
| Registry.SetGet | server.js:85-90 | After `set(k, v)`, `get(k)` is v and every other key reads as before. Unique keys stay unique. |
| Registry.Delete | server.js:33 | `delete(k)` of an absent key changes nothing. |
| Registry.DeleteAt | server.js:33 | With unique keys, `delete(k)` removes exactly the pair at k's position and keeps every other pair in order. |
| Registry.FirstWithSocket | server.js:136-141 | Gives the position of the first pair, in insertion order, whose record's socket is ws. It gives none exactly when no record has that socket. |
| Registry.FindByWebSocket | server.js:135-142 | `findConnectionByWebSocket` gives null exactly when no record has socket ws. Otherwise it gives a record whose socket is ws, stored at a position before which no record has ws. |
| Registry.Closed | server.js:29-38 | The close handler deletes only the first pair whose socket matches. The pairs before and after it stay in order. If no pair matches, nothing changes. Unique keys stay unique. |
| Registry.Live | server.js:154-161 | The sweep never lengthens the Map and keeps only pairs that were in it and whose socket is open (the converse and key uniqueness are `Registry.LiveMembers`). |
| Registry.LiveMembers | server.js:154-161 | The sweep keeps exactly the pairs whose socket is open. It never lengthens the Map and never doubles a key. |
| Registry.LiveIdempotent | server.js:154-161 | A second sweep with the same open sockets changes nothing. |
| Protocol.AllDigits | server.js:61 | `/^\d+$/` holds exactly when the string is non-empty and every character is 0-9. |
| Protocol.ValidId | server.js:61 | The id check passes exactly for three characters that are all decimal digits. |
| Protocol.ErrorTo | server.js:144-151 | `sendError` sends at most one message, an error, only to the calling socket and only when it is open. |
| Protocol.Connect | server.js:58-110 | An invalid id is refused with one error and no change. A sender is refused exactly when the record at id has role "sender". A receiver is refused exactly when no such record exists. Any admitted connect, including one with an unknown role, stores {ws, role, id} at id over any earlier record. It acknowledges only the caller. A receiver's `receiver_connected` goes to the caller itself, if open. The invariant is kept. |
| Protocol.Forward | server.js:121-132 | The forwarding loop sends at most as many messages as there are pairs, and every message it sends is the sync with the five fields to an open socket (which sockets is `Protocol.ForwardTargets`). |
| Protocol.ForwardTargets | server.js:121-132 | The forwarding loop sends the five fields only to open sockets whose pair has the sender's id as key and role "receiver". Every such socket gets them. |
| Protocol.SyncStep | server.js:112-133 | A sync never changes the Map. A socket with no record, or whose first record is not a sender's, gets one error (if open) and nothing is forwarded. Otherwise exactly the open receivers stored under the sender's id are sent the fields: only they, and every one of them. |
| Protocol.Dispatch | server.js:45-56 | A frame that does not parse, or whose type is neither "connect" nor "sync", leaves the Map alone and gets at most one error, to its own socket. Only a connect can change the Map, and only by `set` at its id. The invariant is kept. |
| Properties.SyncNeverForwards | server.js:120-132 | Given the invariant, a sync sends nothing but the error to its caller. The only pair keyed by the sender's id is the sender's own. |
| Properties.ReceiverReplacesSender | server.js:84-90 | An admitted receiver overwrites the sender at id. The sender's record is then stored under no key, and the id no longer reads as held by a sender. |
| Properties.PairingAsWritten | server.js:84-133 | Sender S connects to "123", then receiver R does, both open. The Map then holds only R. R gets both `connected` and `receiver_connected`, and S gets nothing. A sync from S and a sync from R are both refused. |
| Properties.ClaimAsWritten | server.js:84-93 | The first step of that run: a sender connecting to the free id "123" is stored alone and acknowledged. |
| Properties.JoinAsWritten | server.js:84-109 | The second step: the receiver's connect for "123" leaves only the receiver's record, and both `connected` and `receiver_connected` go to the receiver. |
| Properties.SweepFreesId | server.js:154-161 | Once the sweep drops the record at id because its socket is closed, the id is free and a new sender connect for it is admitted. |
| Properties.CloseFreesId | server.js:29-38 | After a socket closes, the id of its first record is free and a sender may claim it again. |
| Properties.ApplyKeepsInvariant | server.js:17-161 | One event (a frame, a close or a sweep) keeps the Map's invariant and sends no sync message. |
| Properties.NoRunForwardsSync | server.js:14-161 | In every run from the empty Map, whatever frames arrive, whichever sockets close and whenever the sweep runs, the invariant holds and no sync message is ever sent. |
| Server.Relay.constructor | server.js:14 | The server starts with an empty Map, nothing sent and the invariant holding. |
| Server.Relay.SendError | server.js:144-151 | Appends the error to the outbox only when the socket is open. |
| Server.Relay.OnMessage | server.js:19-26 | A frame that fails to parse gets the format error. Any other frame goes to `handleMessage`. The new Map and the messages sent are those of `Protocol.Dispatch`, and the invariant is kept. |
| Server.Relay.HandleMessage | server.js:45-56 | Switches on `type` to `handleConnect`, `handleSync` or the unknown-type error, as `Protocol.Dispatch` says. |
| Server.Relay.HandleConnect | server.js:58-110 | The three checks with early returns, then `set`, the acknowledgement and the notification. The result is exactly `Protocol.Connect`'s, and the invariant is kept. |
| Server.Relay.HandleSync | server.js:112-133 | Finds the caller, then forwards in Map order. The outbox grows by exactly `Protocol.SyncStep`'s messages, and the Map is untouched. |
| Server.Relay.FindConnectionByWebSocket | server.js:135-142 | Returns the record of the first pair whose socket is ws. It returns null exactly when no record has that socket. |
| Server.Relay.OnClose | server.js:29-38 | The loop deletes the first matching pair and breaks. The new Map is `Registry.Closed` of the old, and the invariant is kept. |
| Server.Relay.Sweep | server.js:154-161 | Deletes while iterating. The new Map is the old one with exactly the closed sockets' pairs removed, in order, and the invariant is kept. |
| Sessions.Connect | server.js:58-110 | Corrected pairing. A sender opens a session for a free id, and is refused if the id is taken. A receiver joins the id's session, and is refused if there is none. The session's sender stays in place and gets `receiver_connected` if open. |
| Sessions.DeliverTargets | server.js:121-132 | Corrected forwarding sends the five fields to exactly the open receivers of the session. |
| Sessions.SyncStep | server.js:112-133 | Corrected sync. Only a socket holding a session as its sender may sync, and it reaches exactly that session's open receivers. Other sockets get the error. The sessions never change. |
| Sessions.PairingRelays | server.js:100-133 | The same run as `Properties.PairingAsWritten`, on the corrected pairing: S is told that R connected, S's sync reaches R, and R's sync is refused. |
| Sessions.JoinedReceiverGetsSync | server.js:120-132 | Once an open receiver has joined a sender's session, the sender's sync reaches it, when the sender's socket holds no other session. |

## Left out

- Express static file serving, the HTTP server, `server.listen` and the `PORT` fallback are process setup, not protocol.
- The `ws` library is left out. The `connection` event becomes the methods of `Server.Relay`. The `error` event only logs. Frame delivery is not modelled: `send` is appending to `outbox`, and `readyState` is membership in `open`.
- The `connected` acknowledgement at server.js:93 is sent without a `readyState` check, and the model appends it unconditionally. What the `ws` library does with a send on a closing socket is not modelled.
- `JSON.parse` and `JSON.stringify` are left out. An inbound frame is either `Malformed` or the parsed `Data`. Of the frames that parse to something other than an object, only `null` makes `data.type` throw into the same catch, so it counts as `Malformed`. A number, string, boolean or array has no `type` property, so it reaches the `default` branch at server.js:53-54; it is `Parsed` with every field empty and gets the unknown-type error. Sync field values are kept as opaque JSON text, or `Absent`.
- Exceptions thrown by `send` itself, which the catch at server.js:23-26 would turn into a format error, are not modelled.
- JavaScript type coercion of a non-string `id` or `role` (numbers, arrays) is left out. Both are strings, and a missing one is the empty string, which fails the same checks as `undefined`. `id.length` counts UTF-16 units, but any id with a character outside 0-9 is refused whatever its length, so counting characters refuses the same ids.
- `console.log`, `console.error` and the `connectedAt` timestamp are left out. They are logging and a clock value, and no handler reads them.
- The 30-second `setInterval` timing is left out. `Server.Relay.Sweep` is a method that can run between any two handlers.
- Sessions.Connect: only the two roles "sender" and "receiver" are covered. An unrecognised role is not part of the corrected pairing.

## Findings

| source | as written | input that shows it | evidently intended | confidence | as-written member | corrected member |
|---|---|---|---|---|---|---|
| server.js:84-109 | `connections.set(id, …)` for a receiver replaces the sender's record under the same id. The "notify the sender" lookup then finds the receiver's own record, so `receiver_connected` goes back to the receiver, and the sender is no longer registered. | Sender S sends `connect {role: "sender", id: "123"}`, then receiver R sends `connect {role: "receiver", id: "123"}`, both sockets open. | R is stored next to S, S stays registered, and S gets `receiver_connected`. | high (not executed) | Properties.PairingAsWritten | Sessions.PairingRelays |
| server.js:114-132 | The forwarding loop only looks at the pair whose key is the sender's id. That pair is the sender's own, with role "sender", so no sync is ever forwarded. After a pairing, the sender's own sync is refused as well, because its record was overwritten. | The same two connects, then `sync` from S. | R receives the five sync fields. | high (not executed) | Properties.SyncNeverForwards | Sessions.JoinedReceiverGetsSync |
