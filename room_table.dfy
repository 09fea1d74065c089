/**
 The room table as a value, and what each event handler does to it.

 Every handler is specified by a function from the table before the event to a
 `Step`: the table afterwards and the events emitted, in emission order. The
 transport's "everyone in the room except the sender" targeting is the set of
 keys of the room's member map, minus the sender, read at the moment of the
 emission.
 */
module RoomTable {
  import opened Wrappers
  import opened Protocol

  /** One room's members, keyed by connection. */
  type Room = map<ConnId, Participant>

  /** All rooms, keyed by name. */
  type Table = map<RoomId, Room>

  /** The outcome of one handler: the new table and what it emitted, in order. */
  datatype Step = Step(table: Table, emitted: seq<Event>)

  /** No empty room stays in the table. */
  predicate NoEmptyRooms(t: Table)
  {
    forall r :: r in t ==> t[r] != map[]
  }

  /** Every participant record is stored under its own connection id. */
  predicate KeyedById(t: Table)
  {
    forall r, c :: r in t && c in t[r] ==> t[r][c].id == c
  }

  /** The invariant every handler keeps. */
  predicate Inv(t: Table)
  {
    NoEmptyRooms(t) && KeyedById(t)
  }

  /** The connections in `roomId`; none when the room does not exist. */
  function Members(t: Table, roomId: RoomId): set<ConnId>
  {
    if roomId in t then t[roomId].Keys else {}
  }

  /** The rooms `caller` belongs to. */
  function RoomsOf(t: Table, caller: ConnId): set<RoomId>
  {
    set r | r in t && caller in t[r]
  }

  /** A newly joined participant: both flags on. */
  function Newcomer(caller: ConnId, userName: string): Participant
  {
    Participant(caller, userName, true, true)
  }

  /** The records in `room` whose id is not `caller`'s, as the join reply
      filters them. */
  function OtherRecords(room: Room, caller: ConnId): set<Participant>
  {
    set p | p in room.Values && p.id != caller
  }

  /** `join-room`: create the room if needed, (re)insert the caller with both
      flags on, reply to the caller with the other members' records, and tell
      the other members about the newcomer. */
  function Join(t: Table, roomId: RoomId, caller: ConnId, userName: string): Step
  {
    var room := (if roomId in t then t[roomId] else map[])[caller := Newcomer(caller, userName)];
    Step(t[roomId := room],
         [Event(ExistingParticipants, Roster(OtherRecords(room, caller)), {caller}),
          Event(UserJoined, Joined(Newcomer(caller, userName)), room.Keys - {caller})])
  }

  /** After a join the room exists and holds the caller with both flags on; an
      earlier entry of the caller is replaced, the other members and the other
      rooms are as they were. The caller alone gets `existing-participants`,
      which never lists the caller; every other member, and never the caller,
      gets `user-joined` with the default flags. */
  lemma JoinEffect(t: Table, roomId: RoomId, caller: ConnId, userName: string)
    ensures var s := Join(t, roomId, caller, userName);
      && s.table.Keys == t.Keys + {roomId}
      && s.table[roomId].Keys == Members(t, roomId) + {caller}
      && s.table[roomId][caller] == Participant(caller, userName, true, true)
      && (forall c :: c in Members(t, roomId) && c != caller ==> s.table[roomId][c] == t[roomId][c])
      && (forall r :: r in t && r != roomId ==> s.table[r] == t[r])
      && |s.emitted| == 2
      && s.emitted[0].kind == ExistingParticipants && s.emitted[0].recipients == {caller}
      && s.emitted[0].payload.Roster?
      && (forall p :: p in s.emitted[0].payload.participants ==> p.id != caller)
      && s.emitted[1] == Event(UserJoined, Joined(Participant(caller, userName, true, true)), Members(t, roomId) - {caller})
  {
  }

  /** Joining keeps the table free of empty rooms and keyed by id. */
  lemma JoinKeepsInv(t: Table, roomId: RoomId, caller: ConnId, userName: string)
    requires Inv(t)
    ensures Inv(Join(t, roomId, caller, userName).table)
  {
    var after := Join(t, roomId, caller, userName).table;
    assert caller in after[roomId];
    forall r | r in after ensures after[r] != map[] {
      if r != roomId {
        assert after[r] == t[r];
      }
    }
  }

  /** The `user-left` notice for `caller` leaving a room whose members were
      `room`: it carries the caller's last name there, if it had one. */
  function LeftNotice(room: Room, caller: ConnId): (e: Event)
    ensures e.kind == UserLeft && caller !in e.recipients
    ensures e.payload.Departed? && e.payload.id == caller
    ensures e.payload.name.Some? <==> caller in room
    ensures caller in room ==> e.payload.name == Some(room[caller].name)
    ensures e.recipients == room.Keys - {caller}
  {
    var remaining := room - {caller};
    Event(UserLeft,
          Departed(caller, if caller in room then Some(room[caller].name) else None),
          remaining.Keys - {caller})
  }

  /** `leave-room` (the shared leave logic): drop the caller from an existing
      room, notify the rest, and delete the room once its size is zero. */
  function Leave(t: Table, roomId: RoomId, caller: ConnId): Step
  {
    if roomId !in t then Step(t, [])
    else
      var room := t[roomId] - {caller};
      var notice := LeftNotice(t[roomId], caller);
      Step(if room == map[] then t - {roomId} else t[roomId := room], [notice])
  }

  /** Leaving a missing room changes nothing and emits nothing. Leaving an
      existing room removes the caller from it, deletes the room exactly when
      that left it empty, leaves every other room alone, and emits one
      `user-left` that reaches the members that remain. */
  lemma LeaveEffect(t: Table, roomId: RoomId, caller: ConnId)
    ensures var s := Leave(t, roomId, caller);
      && (roomId !in t ==> s == Step(t, []))
      && s.table.Keys <= t.Keys
      && (forall r :: r in t && r != roomId ==> r in s.table && s.table[r] == t[r])
      && (roomId in t ==> (roomId in s.table <==> t[roomId] - {caller} != map[]))
      && (roomId in s.table ==> s.table[roomId] == t[roomId] - {caller} && caller !in s.table[roomId])
      && (roomId in t ==> s.emitted == [LeftNotice(t[roomId], caller)])
      && (roomId in t ==> s.emitted[0].recipients == Members(s.table, roomId))
  {
  }

  /** Leaving keeps the table free of empty rooms and keyed by id. */
  lemma LeaveKeepsInv(t: Table, roomId: RoomId, caller: ConnId)
    requires Inv(t)
    ensures Inv(Leave(t, roomId, caller).table)
  {
  }

  /** `flag` of `p` set to `on`. */
  function WithFlag(p: Participant, flag: Flag, on: bool): Participant
  {
    match flag
    case Camera => p.(isCameraOn := on)
    case Mic => p.(isMicOn := on)
  }

  /** `toggle-camera` / `toggle-mic`: when the caller is a member of the room,
      set its flag and tell the other members; otherwise do nothing. */
  function Toggle(t: Table, roomId: RoomId, caller: ConnId, flag: Flag, on: bool): Step
  {
    if roomId in t && caller in t[roomId] then
      var room := t[roomId];
      var user := WithFlag(room[caller], flag, on);
      Step(t[roomId := room[caller := user]],
           [Event(ToggleKind(flag), Switched(caller, on), room.Keys - {caller})])
    else
      Step(t, [])
  }

  /** A toggle by a non-member, or on a missing room, changes nothing and
      emits nothing. A toggle by a member changes that one flag of that one
      participant and nothing else, and emits one event carrying the caller's
      id and the new value to the other members. */
  lemma ToggleEffect(t: Table, roomId: RoomId, caller: ConnId, flag: Flag, on: bool)
    ensures var s := Toggle(t, roomId, caller, flag, on);
      && (caller !in Members(t, roomId) ==> s == Step(t, []))
      && (caller in Members(t, roomId) ==>
        && s.table.Keys == t.Keys
        && s.table[roomId].Keys == t[roomId].Keys
        && (forall r :: r in t && r != roomId ==> s.table[r] == t[r])
        && (forall c :: c in t[roomId] && c != caller ==> s.table[roomId][c] == t[roomId][c])
        && s.table[roomId][caller].id == t[roomId][caller].id
        && s.table[roomId][caller].name == t[roomId][caller].name
        && FlagOf(s.table[roomId][caller], flag) == on
        && (forall g :: g != flag ==> FlagOf(s.table[roomId][caller], g) == FlagOf(t[roomId][caller], g))
        && s.emitted == [Event(ToggleKind(flag), Switched(caller, on), Members(t, roomId) - {caller})])
  {
  }

  /** Toggling keeps the table free of empty rooms and keyed by id. */
  lemma ToggleKeepsInv(t: Table, roomId: RoomId, caller: ConnId, flag: Flag, on: bool)
    requires Inv(t)
    ensures Inv(Toggle(t, roomId, caller, flag, on).table)
  {
  }

  /** The leave logic applied to the rooms of `order`, one after the other. */
  function LeaveEach(t: Table, caller: ConnId, order: seq<RoomId>): (s: Step)
    ensures s.table.Keys <= t.Keys
    ensures |s.emitted| <= |order|
    decreases |order|
  {
    if order == [] then Step(t, [])
    else
      var before := LeaveEach(t, caller, order[..|order| - 1]);
      var last := Leave(before.table, order[|order| - 1], caller);
      Step(last.table, before.emitted + last.emitted)
  }

  /** A run of leaves keeps the table free of empty rooms and keyed by id. */
  lemma {:induction false} LeaveEachKeepsInv(t: Table, caller: ConnId, order: seq<RoomId>)
    requires Inv(t)
    ensures Inv(LeaveEach(t, caller, order).table)
    decreases |order|
  {
    if order != [] {
      var prefix := order[..|order| - 1];
      LeaveEachKeepsInv(t, caller, prefix);
      LeaveKeepsInv(LeaveEach(t, caller, prefix).table, order[|order| - 1], caller);
    }
  }

  /** The room table once `caller` has left every room: each room loses the
      caller and disappears if that left it empty; other rooms stay as they are. */
  function Disconnected(t: Table, caller: ConnId): (r: Table)
    ensures r.Keys <= t.Keys
    ensures forall k :: k in r ==> caller !in r[k]
    ensures forall k :: k in t && caller !in t[k] ==> k in r && r[k] == t[k]
    ensures forall k :: k in t && caller in t[k] ==> (k in r <==> t[k] - {caller} != map[])
    ensures forall k :: k in r ==> r[k] == t[k] - {caller}
    ensures Inv(t) ==> Inv(r)
  {
    map k | k in t && (caller !in t[k] || t[k] - {caller} != map[]) :: t[k] - {caller}
  }

  /** One `user-left` notice per room of `order`, in that order, each computed
      from the room as it was before anything happened. */
  function DepartureNotices(t: Table, caller: ConnId, order: seq<RoomId>): (es: seq<Event>)
    requires forall r :: r in order ==> r in t
    ensures |es| == |order|
    ensures forall i :: 0 <= i < |order| ==> es[i].kind == UserLeft && caller !in es[i].recipients
  {
    seq(|order|, i requires 0 <= i < |order| => LeftNotice(t[order[i]], caller))
  }

  /** No element of `s` occurs twice. */
  predicate Distinct<T(==)>(s: seq<T>)
  {
    forall i, j :: 0 <= i < j < |s| ==> s[i] != s[j]
  }
}
