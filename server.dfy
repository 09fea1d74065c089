/**
 The room coordinator: the shared room table and the event handlers that
 change it in place, one run to completion at a time. Every emission is
 appended to `outbox` with the connections it is addressed to.
 */
module Server {
  import opened Wrappers
  import opened Protocol
  import opened RoomTable
  import opened RoomProperties

  class Coordinator {
    /** Room name to member map. */
    var rooms: Table
    /** Every event emitted so far, oldest first. */
    var outbox: seq<Event>

    ghost predicate Valid()
      reads this
    {
      Inv(rooms)
    }

    /** The empty room table the server starts with. */
    constructor ()
      ensures Valid() && rooms == map[] && outbox == []
    {
      rooms := map[];
      outbox := [];
    }

    /** `join-room` from connection `caller`. */
    method JoinRoom(caller: ConnId, roomId: RoomId, userName: string)
      requires Valid()
      modifies this
      ensures Valid()
      ensures rooms == Join(old(rooms), roomId, caller, userName).table
      ensures outbox == old(outbox) + Join(old(rooms), roomId, caller, userName).emitted
    {
      ghost var start := rooms;
      if roomId !in rooms {
        rooms := rooms[roomId := map[]];
      }
      var room := rooms[roomId];
      assert room == if roomId in start then start[roomId] else map[];
      room := room[caller := Participant(caller, userName, true, true)];
      rooms := rooms[roomId := room];
      ghost var step := Join(start, roomId, caller, userName);
      assert rooms == step.table;
      JoinKeepsInv(start, roomId, caller, userName);

      var others := OtherRecords(room, caller);
      outbox := outbox + [Event(ExistingParticipants, Roster(others), {caller})];
      outbox := outbox + [Event(UserJoined, Joined(Participant(caller, userName, true, true)), room.Keys - {caller})];
      assert outbox == old(outbox) + step.emitted;
    }

    /** `offer`, `answer` and `ice-candidate`: forward the payload to `to`,
        tagged with the `from` the client wrote, whoever `caller` is. */
    method Relay(caller: ConnId, kind: SignalKind, to: ConnId, from: ConnId, body: Blob)
      requires Valid()
      modifies this`outbox
      ensures Valid()
      ensures rooms == old(rooms)
      ensures outbox == old(outbox) + [Event(kind, Signal(from, body), {to})]
    {
      outbox := outbox + [Event(kind, Signal(from, body), {to})];
    }

    /** `send-message`: broadcast to every member of the room, the sender
        included when it is one; membership of the sender is not checked. */
    method SendMessage(caller: ConnId, roomId: RoomId, message: Blob)
      requires Valid()
      modifies this`outbox
      ensures Valid()
      ensures rooms == old(rooms)
      ensures outbox == old(outbox) + [Event(ReceiveMessage, Chat(message), Members(rooms, roomId))]
    {
      var recipients := if roomId in rooms then rooms[roomId].Keys else {};
      outbox := outbox + [Event(ReceiveMessage, Chat(message), recipients)];
    }

    /** `toggle-camera`. */
    method ToggleCamera(caller: ConnId, roomId: RoomId, isCameraOn: bool)
      requires Valid()
      modifies this
      ensures Valid()
      ensures rooms == Toggle(old(rooms), roomId, caller, Camera, isCameraOn).table
      ensures outbox == old(outbox) + Toggle(old(rooms), roomId, caller, Camera, isCameraOn).emitted
    {
      ToggleKeepsInv(rooms, roomId, caller, Camera, isCameraOn);
      if roomId in rooms && caller in rooms[roomId] {
        var room := rooms[roomId];
        var user := room[caller];
        user := user.(isCameraOn := isCameraOn);
        rooms := rooms[roomId := room[caller := user]];
        outbox := outbox + [Event(UserToggleCamera, Switched(caller, isCameraOn), room.Keys - {caller})];
      }
    }

    /** `toggle-mic`. */
    method ToggleMic(caller: ConnId, roomId: RoomId, isMicOn: bool)
      requires Valid()
      modifies this
      ensures Valid()
      ensures rooms == Toggle(old(rooms), roomId, caller, Mic, isMicOn).table
      ensures outbox == old(outbox) + Toggle(old(rooms), roomId, caller, Mic, isMicOn).emitted
    {
      ToggleKeepsInv(rooms, roomId, caller, Mic, isMicOn);
      if roomId in rooms && caller in rooms[roomId] {
        var room := rooms[roomId];
        var user := room[caller];
        user := user.(isMicOn := isMicOn);
        rooms := rooms[roomId := room[caller := user]];
        outbox := outbox + [Event(UserToggleMic, Switched(caller, isMicOn), room.Keys - {caller})];
      }
    }

    /** `leave-room`, and the leave logic `disconnect` runs per room. */
    method LeaveRoom(caller: ConnId, roomId: RoomId)
      requires Valid()
      modifies this
      ensures Valid()
      ensures rooms == Leave(old(rooms), roomId, caller).table
      ensures outbox == old(outbox) + Leave(old(rooms), roomId, caller).emitted
    {
      ghost var start := rooms;
      LeaveKeepsInv(rooms, roomId, caller);
      if roomId in rooms {
        var room := rooms[roomId];
        var name := if caller in room then Some(room[caller].name) else None;
        room := room - {caller};
        rooms := rooms[roomId := room];
        outbox := outbox + [Event(UserLeft, Departed(caller, name), room.Keys - {caller})];
        if room == map[] {  // the room's size is zero
          assert rooms - {roomId} == start - {roomId};
          rooms := rooms - {roomId};
        }
        assert room == start[roomId] - {caller};
      }
    }

    /** `disconnect`: run the leave logic for every room that holds `caller`,
        in an order the transport chooses; `visited` is that order. */
    method Disconnect(caller: ConnId) returns (ghost visited: seq<RoomId>)
      requires Valid()
      modifies this
      ensures Valid()
      ensures Distinct(visited) && forall r :: r in visited <==> r in RoomsOf(old(rooms), caller)
      ensures rooms == LeaveEach(old(rooms), caller, visited).table
      ensures outbox == old(outbox) + LeaveEach(old(rooms), caller, visited).emitted
      ensures rooms == Disconnected(old(rooms), caller)
      ensures outbox == old(outbox) + DepartureNotices(old(rooms), caller, visited)
    {
      ghost var start := rooms;
      var pending := rooms.Keys;
      visited := [];
      while pending != {}
        invariant Valid()
        invariant pending <= start.Keys
        invariant Distinct(visited)
        invariant forall r :: r in visited <==> r in RoomsOf(start, caller) && r !in pending
        invariant rooms == LeaveEach(start, caller, visited).table
        invariant outbox == old(outbox) + LeaveEach(start, caller, visited).emitted
        invariant forall r :: r in pending ==> r in rooms && rooms[r] == start[r]
        decreases pending
      {
        var roomId :| roomId in pending;
        pending := pending - {roomId};
        if caller in rooms[roomId] {
          ghost var (rooms0, outbox0) := (rooms, outbox);
          LeaveEffect(rooms0, roomId, caller);
          LeaveRoom(caller, roomId);
          LeaveEachStep(start, caller, visited, roomId, old(outbox), rooms0, outbox0, rooms, outbox);
          DistinctSnoc(visited, roomId);
          visited := visited + [roomId];
        }
      }
      DisconnectClosedForm(start, caller, visited);
      LeaveEachNotices(start, caller, visited);
    }
  }
}
