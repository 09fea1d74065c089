/**
 The vocabulary the signaling server speaks: connection and room identities,
 the participant record it keeps per room, and the outbound events it emits.
 */
module Protocol {
  import opened Wrappers

  /** Identifier the transport gives a connection (socket.io's `socket.id`). */
  datatype ConnId = ConnId(raw: string)

  /** Room name chosen by the client; neither validated nor normalised. */
  datatype RoomId = RoomId(raw: string)

  /** A client payload relayed without being looked at: a session description,
      a network candidate or a chat message, kept in its serialised form. */
  datatype Blob = Blob(json: string)

  /** What the server stores for one connection inside one room. */
  datatype Participant = Participant(id: ConnId, name: string, isCameraOn: bool, isMicOn: bool)

  /** The two presence flags a client can switch. */
  datatype Flag = Camera | Mic

  /** Server-to-client event names. */
  datatype Kind =
    | ExistingParticipants
    | UserJoined
    | Offer
    | Answer
    | IceCandidate
    | ReceiveMessage
    | UserToggleCamera
    | UserToggleMic
    | UserLeft

  /** The three kinds the server relays point to point. */
  type SignalKind = k: Kind | k.Offer? || k.Answer? || k.IceCandidate? witness Offer

  /** Event bodies, one shape per event family. */
  datatype Payload =
    | Roster(participants: set<Participant>)      // existing-participants
    | Joined(participant: Participant)            // user-joined
    | Signal(from: ConnId, body: Blob)            // offer, answer, ice-candidate
    | Chat(message: Blob)                         // receive-message
    | Switched(id: ConnId, on: bool)              // user-toggle-camera, user-toggle-mic
    | Departed(id: ConnId, name: Option<string>)  // user-left

  /** One emission: what was sent and to which connections. */
  datatype Event = Event(kind: Kind, payload: Payload, recipients: set<ConnId>)

  /** The name the event travels under on the wire. */
  function WireName(k: Kind): string
  {
    match k
    case ExistingParticipants => "existing-participants"
    case UserJoined => "user-joined"
    case Offer => "offer"
    case Answer => "answer"
    case IceCandidate => "ice-candidate"
    case ReceiveMessage => "receive-message"
    case UserToggleCamera => "user-toggle-camera"
    case UserToggleMic => "user-toggle-mic"
    case UserLeft => "user-left"
  }

  /** Distinct kinds travel under distinct names, so a client can tell every
      event apart by its name alone. */
  lemma WireNamesDistinct()
    ensures forall a: Kind, b: Kind :: a != b ==> WireName(a) != WireName(b)
  {
  }

  /** The broadcast that announces a change of `flag`. */
  function ToggleKind(flag: Flag): Kind
  {
    match flag
    case Camera => UserToggleCamera
    case Mic => UserToggleMic
  }

  /** The value of `flag` in a participant record. */
  function FlagOf(p: Participant, flag: Flag): bool
  {
    match flag
    case Camera => p.isCameraOn
    case Mic => p.isMicOn
  }
}
