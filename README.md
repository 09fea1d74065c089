# Room coordinator of a WebRTC signaling server

This project models the room coordinator of a small signaling server for
peer-to-peer video calls. The server keeps one in-memory table from room name
to that room's members (connection id to `{id, name, isCameraOn, isMicOn}`).
It reacts to client events:

- `join-room`
- `toggle-camera` and `toggle-mic`
- `leave-room`
- `disconnect`
- the relays `offer`, `answer` and `ice-candidate`
- `send-message`

Each handler runs to completion before the next one starts. It changes the
table and emits events to chosen connections.

Layout:

- `wrappers.dfy` (module `Wrappers`): `Option`. `None` stands for a field that
  JavaScript leaves `undefined`.
- `protocol.dfy` (module `Protocol`): connection and room ids, the participant
  record, and the outbound events. Each event is a kind, a payload and an
  explicit set of recipient connections.
- `room_table.dfy` (module `RoomTable`): each handler as a pure function from
  the table to a `Step`, which holds the new table and the events emitted in
  order. Lemmas next to each function state what the handler does. The
  predicate `Inv` is the table invariant: no room is empty, and every record
  is stored under its own connection id.
- `room_properties.dfy` (module `RoomProperties`): properties that tie
  handlers together. These cover the join reply, join followed by leave, and
  a disconnect as a run of leaves.
- `server.dfy` (module `Server`): class `Coordinator`. Its fields `rooms`
  (the table) and `outbox` (every emission so far) change in place. There is
  one method per handler. Each method's body follows the JavaScript step by
  step. Its `ensures` ties the new `rooms` and `outbox` to the `RoomTable`
  function and keeps `Valid()`. `Disconnect` loops over the room table like
  `rooms.forEach`, and its `ensures` gives the closed form of the result.

The transport's "everyone in the room except the sender" targeting
(`socket.to(roomId)`) is modelled as the room's member keys minus the sender.
Those keys are read at the moment of the emission, as the source does.
`io.to(roomId)` is all of the room's members. `io.to(to)` is the one
connection `to`.

Behaviour kept as the code has it, where a reader might expect otherwise:

- `leave-room` on an existing room that the caller is not in still emits
  `user-left` to every member, with no name (`LeaveByNonMember`). One might
  expect a no-op here.
- `send-message` reaches the sender only when the sender is a member of the
  room. The broadcast goes to the room, and the server does not check that
  the sender belongs to it.
- The relays forward the `from` that the client wrote, not the caller's id.

## Model

| member | source | states |
|---|---|---|
| `Protocol.WireNamesDistinct` | backend/server.js:50-116 | every outbound event kind travels under its own name (`existing-participants`, `user-joined`, `offer`, `answer`, `ice-candidate`, `receive-message`, `user-toggle-camera`, `user-toggle-mic`, `user-left`); no two kinds share one |
| `Server.Coordinator.constructor` | backend/server.js:27 | the room table starts empty, and so does the outbox |
| `Server.Coordinator.JoinRoom` | backend/server.js:32-59 | in-place join: the new table and the appended events are those of `Join`, and the table invariant is kept |
| `Server.Coordinator.Relay` | backend/server.js:62-75 | the invariant is kept and the room table is unchanged; exactly one event of the same kind goes to `to` alone and carries the client-supplied `from`, whoever the caller is |
| `Server.Coordinator.SendMessage` | backend/server.js:78-81 | the invariant is kept and the room table is unchanged; one `receive-message` goes to every member of the room, the sender included when it is a member; membership is not checked |
| `Server.Coordinator.ToggleCamera` | backend/server.js:84-91 | in-place camera toggle: the new table and events are those of `Toggle` with `Camera`, and the invariant is kept |
| `Server.Coordinator.ToggleMic` | backend/server.js:93-100 | in-place mic toggle: the new table and events are those of `Toggle` with `Mic`, and the invariant is kept |
| `Server.Coordinator.LeaveRoom` | backend/server.js:111-126 | in-place leave: the new table and events are those of `Leave`, and the invariant is kept |
| `Server.Coordinator.Disconnect` | backend/server.js:104-109 | visits each room that holds the caller exactly once and runs the leave logic there; the table ends as `Disconnected` (the caller is in no room); the outbox gains exactly one `user-left` per such room, built from that room as it was before |
| `RoomTable.Inv` | backend/server.js:27 | the table invariant every handler keeps: no room in the table is empty, and each participant record is stored under its own connection id |
| `RoomTable.Join` | backend/server.js:36-56 | the `join-room` handler on the table value: the room is created if absent, the caller is (re)inserted with both flags on, and the two replies are emitted; `JoinEffect` states what it promises |
| `RoomTable.JoinEffect` | backend/server.js:36-56 | after a join the room exists and holds the caller with both flags on; an old entry is overwritten; other members and other rooms are unchanged; `existing-participants` goes to the caller only and never lists it; `user-joined` with default flags goes to every other member and never to the caller |
| `RoomTable.JoinKeepsInv` | backend/server.js:36-47 | a join never leaves an empty room and stores the record under its own id |
| `RoomTable.LeftNotice` | backend/server.js:114-116 | a `user-left` names the leaver and goes to exactly the room's other members, never the leaver; it carries a name exactly when the leaver was a member, and then it is the name stored for the leaver |
| `RoomTable.Leave` | backend/server.js:111-124 | the leave logic on the table value: the caller leaves an existing room, one `user-left` goes out, and the room is deleted once empty; `LeaveEffect` states what it promises |
| `RoomTable.LeaveEffect` | backend/server.js:111-124 | leaving a missing room changes and emits nothing; otherwise the caller is gone from the room, the room is deleted exactly when it became empty, other rooms are unchanged, and one `user-left` reaches exactly the remaining members |
| `RoomTable.LeaveKeepsInv` | backend/server.js:115-119 | a leave deletes the room once it is empty, so no empty room stays |
| `RoomTable.Toggle` | backend/server.js:84-100 | the `toggle-camera` / `toggle-mic` handler on the table value: only a member of an existing room changes its flag and tells the others; `ToggleEffect` states what it promises |
| `RoomTable.ToggleEffect` | backend/server.js:84-100 | a non-member or a missing room: nothing changes and nothing is emitted; a member: only that participant's one flag changes, to the new value, and one toggle event with the caller's id and value goes to the other members |
| `RoomTable.ToggleKeepsInv` | backend/server.js:84-100 | a toggle keeps the table invariant |
| `RoomTable.LeaveEach` | backend/server.js:106-108 | running the leave logic room after room never adds a room and emits at most one event per room visited |
| `RoomTable.LeaveEachKeepsInv` | backend/server.js:106-108 | a run of leaves keeps the table invariant |
| `RoomTable.Disconnected` | backend/server.js:104-109 | closed form of the table after a disconnect: the caller is in no room; rooms without the caller are untouched; a room with the caller loses it and survives exactly when others remain; the invariant is kept |
| `RoomTable.DepartureNotices` | backend/server.js:106-116 | one `user-left` per room visited, in order, none of them to the leaver |
| `RoomProperties.JoinRosterIsOtherMembers` | backend/server.js:49-56 | `existing-participants` lists exactly the records of the other members as they were before the join; the ids it lists are exactly the recipients of `user-joined` |
| `RoomProperties.JoinThenLeaveRestores` | backend/server.js:36-119 | if the caller was not in the room, joining and then leaving restores the room table exactly; the `user-left` carries the join name and reaches the same connections as the `user-joined` |
| `RoomProperties.LeaveByNonMember` | backend/server.js:113-116 | leaving an existing room one is not in changes nothing, but it still emits `user-left` with no name to every member |
| `RoomProperties.LeaveExtendsLeftFrom` | backend/server.js:111-124 | leaving one more room after a set of leaves gives the table for that set plus the room |
| `RoomProperties.LeaveEachTable` | backend/server.js:106-108 | the table after a run of leaves depends only on which rooms were visited, not on their order |
| `RoomProperties.DisconnectClosedForm` | backend/server.js:104-109 | visiting exactly the caller's rooms, in any order, gives `Disconnected` |
| `RoomProperties.DisconnectNotifiesRemaining` | backend/server.js:106-116 | on a disconnect, each room's `user-left` reaches exactly the members still in that room afterwards |
| `RoomProperties.LeaveEachNotices` | backend/server.js:106-116 | leaving distinct existing rooms emits one `user-left` per room, in visiting order; each is built from the room as it was at the start |
| `RoomProperties.LeaveEachStep` | backend/server.js:106-108 | one more leave, applied to the state after a run of leaves, gives the state of the longer run, for both the table and the outbox |
| `RoomProperties.TwoJoins` | backend/server.js:32-56 | two joins to a fresh room: the first joiner is told of nobody; the second is told of the first, with flags on; the first is told of the second |

## Left out

- The Express app, CORS, `dotenv` configuration, the HTTP server and
  `server.listen` are left out. They are plumbing and configuration.
- Logging (`console.log`) is left out. It has no effect on state or emissions.
- socket.io's own room bookkeeping (`socket.join` and `socket.leave`) is left
  out. Recipients are computed from the room table instead.
- socket.io also puts every socket in a room named after the socket's own id.
  A room whose name equals some connection's id would also reach that
  connection. An `offer`, `answer` or `ice-candidate` whose `to` names a room
  would reach the whole room. The model treats room names and connection ids
  as separate, and treats `to` as one connection.
- Delivery is out of scope. An event sent to a connection that has gone away
  is simply lost. The model records what was emitted and to whom.
- Payload contents are left out. Session descriptions, network candidates
  and chat messages are relayed unchanged and modelled as an opaque `Blob`.
- Client fields are modelled as typed values. The flag in a toggle event is a
  `bool`. Room ids, connection ids and names are strings. Missing or
  ill-typed fields of a client event are not modelled.
- Connection ids and room names are strings wrapped in their own datatypes
  (`ConnId`, `RoomId`). They are only ever compared for equality.
- `RoomTable.Join`: the `existing-participants` array is modelled as a set
  of records. Its order, the insertion order of the room's map, is not
  modelled. The records have distinct ids, so the set loses nothing else.
- `Server.Coordinator.Disconnect`: the rooms may be visited in any order. The
  JavaScript `Map` visits them in insertion order. So the order of the
  `user-left` events across rooms is left open.
- Concurrency is left out. Handlers run one at a time to completion, so each
  is an atomic method.
