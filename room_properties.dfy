/**
 Properties that relate several handlers of the room table, or that hold of
 whole runs of them.
 */
module RoomProperties {
  import opened Wrappers
  import opened Protocol
  import opened RoomTable

  /** The `existing-participants` reply lists exactly the records of the
      room's other members as they were before the join, and the joiner learns
      about exactly the connections that learn about the joiner. */
  lemma JoinRosterIsOtherMembers(t: Table, roomId: RoomId, caller: ConnId, userName: string)
    requires KeyedById(t)
    ensures Join(t, roomId, caller, userName).emitted[0].payload
         == Roster(set c | c in Members(t, roomId) && c != caller :: t[roomId][c])
    ensures (set p | p in Join(t, roomId, caller, userName).emitted[0].payload.participants :: p.id)
         == Join(t, roomId, caller, userName).emitted[1].recipients
  {
    var s := Join(t, roomId, caller, userName);
    var room := s.table[roomId];
    var roster := s.emitted[0].payload.participants;
    var others := set c | c in Members(t, roomId) && c != caller :: t[roomId][c];
    forall p | p in roster ensures p in others {
      var c :| c in room && room[c] == p;
      assert room[c].id == c;
    }
    forall p | p in others ensures p in roster {
      var c :| c in Members(t, roomId) && c != caller && p == t[roomId][c];
      assert room[c] == p;
    }
    var ids := set p | p in roster :: p.id;
    forall c | c in s.emitted[1].recipients ensures c in ids {
      assert t[roomId][c] in others;
    }
  }

  /** Joining a room one was not in and leaving it again leaves the table as
      it was, and the `user-left` reaches exactly the members that got the
      `user-joined`, carrying the name given at the join. */
  lemma JoinThenLeaveRestores(t: Table, roomId: RoomId, caller: ConnId, userName: string)
    requires NoEmptyRooms(t)
    requires caller !in Members(t, roomId)
    ensures Leave(Join(t, roomId, caller, userName).table, roomId, caller).table == t
    ensures Leave(Join(t, roomId, caller, userName).table, roomId, caller).emitted
         == [Event(UserLeft, Departed(caller, Some(userName)),
                   Join(t, roomId, caller, userName).emitted[1].recipients)]
  {
    var joined := Join(t, roomId, caller, userName);
    var room := joined.table[roomId];
    var after := room - {caller};
    assert room[caller].name == userName;
    assert after.Keys - {caller} == room.Keys - {caller};
    if roomId in t {
      assert after == t[roomId];
      assert t[roomId] != map[];
      assert joined.table[roomId := after] == t;
    } else {
      assert after == map[];
      assert joined.table - {roomId} == t;
    }
  }

  /** Leaving an existing room one is not in keeps the table as it is but
      still tells every member that the caller left, with no name. */
  lemma LeaveByNonMember(t: Table, roomId: RoomId, caller: ConnId)
    requires NoEmptyRooms(t)
    requires roomId in t && caller !in t[roomId]
    ensures Leave(t, roomId, caller).table == t
    ensures Leave(t, roomId, caller).emitted == [Event(UserLeft, Departed(caller, None), t[roomId].Keys)]
  {
    var room := t[roomId];
    assert room - {caller} == room;
    assert t[roomId := room] == t;
  }

  /** The table after the leave logic has run for every room in `done`
      (any order, repetitions allowed). */
  function LeftFrom(t: Table, caller: ConnId, done: set<RoomId>): Table
  {
    map k | k in t && !(k in done && t[k] - {caller} == map[])
      :: if k in done then t[k] - {caller} else t[k]
  }

  /** Leaving one more room extends `done` by that room. */
  lemma LeaveExtendsLeftFrom(t: Table, caller: ConnId, done: set<RoomId>, roomId: RoomId)
    ensures Leave(LeftFrom(t, caller, done), roomId, caller).table == LeftFrom(t, caller, done + {roomId})
  {
    var before := LeftFrom(t, caller, done);
    var after := Leave(before, roomId, caller).table;
    var expected := LeftFrom(t, caller, done + {roomId});
    if roomId in before && roomId in done {
      assert before[roomId] - {caller} == before[roomId];
    }
    assert after.Keys == expected.Keys;
  }

  /** Running the leave logic room after room gives a table that depends only
      on which rooms were visited. */
  lemma {:induction false} LeaveEachTable(t: Table, caller: ConnId, order: seq<RoomId>)
    ensures LeaveEach(t, caller, order).table == LeftFrom(t, caller, set r | r in order)
    decreases |order|
  {
    if order == [] {
      assert LeftFrom(t, caller, {}) == t;
    } else {
      var prefix := order[..|order| - 1];
      var last := order[|order| - 1];
      LeaveEachTable(t, caller, prefix);
      LeaveExtendsLeftFrom(t, caller, (set r | r in prefix), last);
      assert (set r | r in order) == (set r | r in prefix) + {last} by {
        assert order == prefix + [last];
      }
    }
  }

  /** Appending an element that is not there yet keeps a sequence free of repeats. */
  lemma DistinctSnoc<T>(s: seq<T>, x: T)
    requires Distinct(s) && x !in s
    ensures Distinct(s + [x])
  {
  }

  /** One more leave, applied to a table and outbox that reflect a run of
      leaves, gives the table and outbox of the longer run. */
  lemma LeaveEachStep(t: Table, caller: ConnId, order: seq<RoomId>, roomId: RoomId, sent: seq<Event>,
                      rooms: Table, outbox: seq<Event>, rooms': Table, outbox': seq<Event>)
    requires rooms == LeaveEach(t, caller, order).table
    requires outbox == sent + LeaveEach(t, caller, order).emitted
    requires rooms' == Leave(rooms, roomId, caller).table
    requires outbox' == outbox + Leave(rooms, roomId, caller).emitted
    ensures rooms' == LeaveEach(t, caller, order + [roomId]).table
    ensures outbox' == sent + LeaveEach(t, caller, order + [roomId]).emitted
  {
    assert (order + [roomId])[..|order|] == order;
  }

  /** Visiting exactly the caller's rooms, in any order, ends in the closed
      form `Disconnected`: the caller is in no room, its rooms lost it (and
      are gone if it was their last member), and every other room is as it
      was. */
  lemma DisconnectClosedForm(t: Table, caller: ConnId, order: seq<RoomId>)
    requires forall r :: r in order <==> r in RoomsOf(t, caller)
    ensures LeaveEach(t, caller, order).table == Disconnected(t, caller)
  {
    LeaveEachTable(t, caller, order);
    var done := set r | r in order;
    var a := LeftFrom(t, caller, done);
    var b := Disconnected(t, caller);
    forall k | k in t && caller !in t[k] ensures t[k] - {caller} == t[k] { }
    assert a.Keys == b.Keys;
  }

  /** On a disconnect, the `user-left` for each of the caller's rooms reaches
      exactly the members that remain in that room afterwards. */
  lemma DisconnectNotifiesRemaining(t: Table, caller: ConnId)
    ensures forall r :: r in RoomsOf(t, caller) ==>
      LeftNotice(t[r], caller).recipients == Members(Disconnected(t, caller), r)
  {
    forall r | r in RoomsOf(t, caller)
      ensures LeftNotice(t[r], caller).recipients == Members(Disconnected(t, caller), r)
    {
      var rest := t[r] - {caller};
      if rest == map[] {
        assert rest.Keys == {};
      }
    }
  }

  /** Running the leave logic over distinct existing rooms emits one
      `user-left` per room, in visiting order, each computed from the room
      as it was at the start: earlier leaves never touch later rooms. */
  lemma {:induction false} LeaveEachNotices(t: Table, caller: ConnId, order: seq<RoomId>)
    requires Distinct(order)
    requires forall r :: r in order ==> r in t
    ensures LeaveEach(t, caller, order).emitted == DepartureNotices(t, caller, order)
    decreases |order|
  {
    if order != [] {
      var prefix := order[..|order| - 1];
      var last := order[|order| - 1];
      LeaveEachNotices(t, caller, prefix);
      LeaveEachTable(t, caller, prefix);
      var before := LeaveEach(t, caller, prefix).table;
      assert last !in prefix;
      assert last in before && before[last] == t[last];
    }
  }

  /** Two connections join the same fresh room: the first is told of nobody
      and nobody is told of it; the second is told of the first, with both
      flags on, and the first is told of the second. */
  lemma TwoJoins()
    ensures var first := Join(map[], RoomId("R1"), ConnId("C1"), "Alice");
            var second := Join(first.table, RoomId("R1"), ConnId("C2"), "Bob");
            && first.emitted == [Event(ExistingParticipants, Roster({}), {ConnId("C1")}),
                                 Event(UserJoined, Joined(Participant(ConnId("C1"), "Alice", true, true)), {})]
            && second.emitted == [Event(ExistingParticipants, Roster({Participant(ConnId("C1"), "Alice", true, true)}), {ConnId("C2")}),
                                  Event(UserJoined, Joined(Participant(ConnId("C2"), "Bob", true, true)), {ConnId("C1")})]
  {
    var alice := Participant(ConnId("C1"), "Alice", true, true);
    var first := Join(map[], RoomId("R1"), ConnId("C1"), "Alice");
    JoinEffect(map[], RoomId("R1"), ConnId("C1"), "Alice");
    JoinRosterIsOtherMembers(map[], RoomId("R1"), ConnId("C1"), "Alice");
    assert first.emitted[0].payload.participants == {} by {
      assert Members(map[], RoomId("R1")) == {};
    }
    assert first.table == map[RoomId("R1") := map[ConnId("C1") := alice]];
    JoinRosterIsOtherMembers(first.table, RoomId("R1"), ConnId("C2"), "Bob");
    var second := Join(first.table, RoomId("R1"), ConnId("C2"), "Bob");
    JoinEffect(first.table, RoomId("R1"), ConnId("C2"), "Bob");
    assert Members(first.table, RoomId("R1")) == {ConnId("C1")};
    assert ConnId("C1") != ConnId("C2");
    assert second.emitted[0].payload.participants == {alice};
  }
}
