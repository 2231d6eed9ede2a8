/**
 * The values exchanged between the relay server and its clients: socket
 * handles, parsed inbound messages and the outbound messages the server sends.
 */
module Messages {

  datatype Option<T> = None | Some(value: T)

  /** An opaque handle for one client's websocket; only its identity matters. */
  datatype Socket = Socket(handle: nat)

  /** One field of a sync message: missing, or its JSON value kept verbatim as text. */
  datatype Field = Absent | Present(json: string)

  /** The five fields a sync message carries and the relay forwards. */
  datatype SyncFields = SyncFields(
    currentTime: Field,
    isPlaying: Field,
    loop: Field,
    startTime: Field,
    endTime: Field)

  /**
   * An inbound frame that parsed as a JSON object: its `type`, `role` and
   * `id` (a missing one reads as the empty string) and its sync fields.
   */
  datatype Data = Data(kind: string, role: string, id: string, fields: SyncFields)

  /** A frame as the message handler sees it: unparseable, or parsed. */
  datatype Inbound = Malformed | Parsed(data: Data)

  /** The six error texts the server can send, one constructor each. */
  datatype ErrorKind =
    | InvalidFormat    // the frame did not parse
    | UnknownType      // `type` is neither "connect" nor "sync"
    | InvalidId        // `id` is not three decimal digits
    | IdInUse          // a sender already holds the id
    | NoSender         // a receiver asked for an id no sender holds
    | SyncNotAllowed   // sync from a socket that is not a registered sender

  /** The JSON objects the server sends, by their `type`. */
  datatype OutMsg =
    | Connected
    | ReceiverConnected
    | Sync(fields: SyncFields)
    | Error(kind: ErrorKind)

  /** One call of `send`: the socket it was called on and the message. */
  type Delivery = (Socket, OutMsg)
}
