/** What each event of one connection does to the registry and which sends it
    makes, as functions of the state before the event; and the properties the
    relay promises, proved about those functions. The class in module Relay
    performs the same steps in place. */
module Handler {
  import opened Protocol
  import opened Registry

  /** Line 58-60: the closure variables after a `join`, whatever its payload. */
  function AfterJoinSession(now: string, roomId: Option<string>, name: Option<string>): Session {
    Session(Some(now), roomId, name)
  }

  /** Lines 70-71: the client a `join` adds, when the id and the name are
      both truthy. */
  function Newcomer(conn: ConnId, now: string, name: Option<string>): Option<Client> {
    if now != "" && Truthy(name) then Some(Client(now, name.value, conn)) else None
  }

  /** Lines 63-72: the registry after a `join`. */
  function AfterJoin(rooms: Rooms, conn: ConnId, roomId: Option<string>, name: Option<string>, now: string): Rooms {
    if Truthy(roomId) then Enter(rooms, roomId.value, Newcomer(conn, now, name)) else rooms
  }

  /** Lines 74-96: the sends of a `join`, given the registry `after` it. */
  function JoinSends(after: Rooms, open: set<ConnId>, conn: ConnId, roomId: Option<string>, name: Option<string>,
                     now: string, stamp: string, stamp2: string): seq<Send>
  {
    if Truthy(roomId) then
      var room := roomId.value;
      [Send(conn, Joined(now, room, stamp))]
        + Fanout(Members(after, room), open, UserJoined(name, stamp2, ActiveUsers(after, room)))
    else
      [Send(conn, Error(ROOM_ID_REQUIRED))]
  }

  /** Lines 100-109: the sends of a `message` from session `s`. */
  function PostSends(rooms: Rooms, open: set<ConnId>, s: Session, content: Option<string>, stamp: string): seq<Send> {
    if InRoom(s) then
      Fanout(Members(rooms, s.currentRoom.value), open, Chat(content, s.username.value, s.userId.value, stamp))
    else []
  }

  /** Lines 124-137: the registry after the socket of session `s` closes. */
  function AfterClose(rooms: Rooms, s: Session): Rooms {
    if Leaves(s) then Leave(rooms, s.currentRoom.value, s.userId.value) else rooms
  }

  /** Lines 138-145: the sends of a close, given the registry `after` it. */
  function CloseSends(after: Rooms, open: set<ConnId>, s: Session, stamp: string): seq<Send> {
    if Leaves(s) && s.currentRoom.value in after then
      var room := s.currentRoom.value;
      Fanout(after[room], open, UserLeft(s.username, stamp, ActiveUsers(after, room)))
    else []
  }

  // ---------------------------------------------------------------- join

  /** A join whose room id is missing or empty only answers the sender with
      "Room ID is required"; the registry is unchanged and the session is left
      without a truthy room. */
  lemma JoinWithoutRoom(rooms: Rooms, open: set<ConnId>, conn: ConnId, roomId: Option<string>,
                        name: Option<string>, now: string, stamp: string, stamp2: string)
    requires !Truthy(roomId)
    ensures AfterJoin(rooms, conn, roomId, name, now) == rooms
    ensures JoinSends(rooms, open, conn, roomId, name, now, stamp, stamp2) == [Send(conn, Error(ROOM_ID_REQUIRED))]
    ensures !InRoom(AfterJoinSession(now, roomId, name)) && !Leaves(AfterJoinSession(now, roomId, name))
  {
  }

  /** A join with a room id and a name leaves the room present with the new
      client last and every other room as it was. */
  lemma JoinAddsNewcomer(rooms: Rooms, conn: ConnId, room: string, name: string, now: string)
    requires room != "" && name != "" && now != ""
    ensures var after := AfterJoin(rooms, conn, Some(room), Some(name), now);
      && room in after
      && after[room] == Members(rooms, room) + [Client(now, name, conn)]
      && (forall k :: k != room ==> (k in after <==> k in rooms) && (k in after ==> after[k] == rooms[k]))
  {
  }

  /** After such a join the sender is first told `joined` with its id and
      room, and the `users` list ends with the newcomer. */
  lemma JoinConfirmsNewcomer(rooms: Rooms, open: set<ConnId>, conn: ConnId, room: string, name: string,
                             now: string, stamp: string, stamp2: string)
    requires room != "" && name != "" && now != ""
    ensures var after := AfterJoin(rooms, conn, Some(room), Some(name), now);
      var users := ActiveUsers(after, room);
      && JoinSends(after, open, conn, Some(room), Some(name), now, stamp, stamp2)[0] == Send(conn, Joined(now, room, stamp))
      && |users| > 0 && users[|users| - 1] == UserInfo(name, now)
  {
    JoinAddsNewcomer(rooms, conn, room, name, now);
  }

  /** Then every open socket hears `user-joined` once per client it has in
      the room, the sender included. */
  lemma {:induction false} JoinAnnouncesNewcomer(rooms: Rooms, open: set<ConnId>, conn: ConnId, room: string, name: string,
                                                 now: string, stamp: string, stamp2: string)
    requires room != "" && name != "" && now != ""
    ensures var after := AfterJoin(rooms, conn, Some(room), Some(name), now);
      var hello := UserJoined(Some(name), stamp2, ActiveUsers(after, room));
      var sends := JoinSends(after, open, conn, Some(room), Some(name), now, stamp, stamp2);
      && (forall k :: multiset(sends)[Send(k, hello)] == if k in open then ClientsOn(after[room], k) else 0)
      && (conn in open ==> multiset(sends)[Send(conn, hello)] > 0)
  {
    var after := AfterJoin(rooms, conn, Some(room), Some(name), now);
    JoinAddsNewcomer(rooms, conn, room, name, now);
    var hello := UserJoined(Some(name), stamp2, ActiveUsers(after, room));
    var sends := JoinSends(after, open, conn, Some(room), Some(name), now, stamp, stamp2);
    assert sends == [Send(conn, Joined(now, room, stamp))] + Fanout(after[room], open, hello);
    forall k ensures multiset(sends)[Send(k, hello)] == if k in open then ClientsOn(after[room], k) else 0 {
      FanoutDelivery(after[room], open, hello, k);
    }
    ClientsOnAppend(Members(rooms, room), Client(now, name, conn), conn);
  }

  /** A join with a room id but no name creates the room when it is absent
      and adds nobody: the registry then holds an empty room, although the
      sender is still told `joined`. */
  lemma JoinWithoutNameLeavesEmptyRoom(rooms: Rooms, open: set<ConnId>, conn: ConnId, room: string,
                                       name: Option<string>, now: string, stamp: string, stamp2: string)
    requires room != "" && room !in rooms && !Truthy(name)
    ensures var after := AfterJoin(rooms, conn, Some(room), name, now);
      && room in after && after[room] == []
      && !NoEmptyRooms(after)
      && JoinSends(after, open, conn, Some(room), name, now, stamp, stamp2) == [Send(conn, Joined(now, room, stamp))]
  {
    EnterWithoutNewcomerLeavesEmptyRoom(rooms, room);
  }

  /** From a registry with no empty room, a join leaves an empty room exactly
      when it creates a room and adds nobody to it; a refused join, a join
      that adds a client and a nameless join into an existing room all keep
      every room non-empty. */
  lemma JoinKeepsNoEmptyRooms(rooms: Rooms, conn: ConnId, roomId: Option<string>, name: Option<string>, now: string)
    requires NoEmptyRooms(rooms)
    ensures NoEmptyRooms(AfterJoin(rooms, conn, roomId, name, now))
        <==> !(Truthy(roomId) && roomId.value !in rooms && Newcomer(conn, now, name).None?)
  {
    if Truthy(roomId) {
      var room := roomId.value;
      match Newcomer(conn, now, name)
      case Some(c) =>
        EnterKeepsNoEmptyRooms(rooms, room, c);
      case None =>
        if room !in rooms {
          EnterWithoutNewcomerLeavesEmptyRoom(rooms, room);
        } else {
          assert AfterJoin(rooms, conn, roomId, name, now) == rooms;
        }
    }
  }

  /** Joining the same room twice from one socket adds a second client:
      membership is not idempotent. */
  lemma {:induction false} RepeatedJoinAddsTwice(rooms: Rooms, conn: ConnId, room: string, name: string, now: string)
    requires room != "" && name != "" && now != ""
    ensures var twice := AfterJoin(AfterJoin(rooms, conn, Some(room), Some(name), now), conn, Some(room), Some(name), now);
      && twice[room] == Members(rooms, room) + [Client(now, name, conn), Client(now, name, conn)]
      && ClientsOn(twice[room], conn) == ClientsOn(Members(rooms, room), conn) + 2
  {
    var once := AfterJoin(rooms, conn, Some(room), Some(name), now);
    var twice := AfterJoin(once, conn, Some(room), Some(name), now);
    var c := Client(now, name, conn);
    var before := Members(rooms, room);
    assert once[room] == before + [c];
    assert twice[room] == Members(once, room) + [c] == before + [c] + [c];
    ClientsOnAppend(before, c, conn);
    ClientsOnAppend(before + [c], c, conn);
    assert before + [c] + [c] == before + [c, c];
  }

  // ---------------------------------------------------------------- message

  /** A message from a session lacking a room, an id or a name is dropped. */
  lemma PostFromOutsiderDropped(rooms: Rooms, open: set<ConnId>, s: Session, content: Option<string>, stamp: string)
    requires !InRoom(s)
    ensures PostSends(rooms, open, s, content, stamp) == []
  {
  }

  /** A message from a joined session reaches each open socket once per
      client it has in the sender's room, and no other socket; every send
      carries the content unchanged with the sender's name and id. */
  lemma {:induction false} PostReachesRoomOnly(rooms: Rooms, open: set<ConnId>, s: Session, content: Option<string>, stamp: string)
    requires InRoom(s)
    ensures var room := Members(rooms, s.currentRoom.value);
      var chat := Chat(content, s.username.value, s.userId.value, stamp);
      var sends := PostSends(rooms, open, s, content, stamp);
      && (forall m :: m in sends ==> m.msg == chat && m.to in open && ClientsOn(room, m.to) > 0)
      && (forall k :: multiset(sends)[Send(k, chat)] == if k in open then ClientsOn(room, k) else 0)
  {
    var room := Members(rooms, s.currentRoom.value);
    var chat := Chat(content, s.username.value, s.userId.value, stamp);
    var sends := PostSends(rooms, open, s, content, stamp);
    forall k ensures multiset(sends)[Send(k, chat)] == if k in open then ClientsOn(room, k) else 0 {
      FanoutDelivery(room, open, chat, k);
    }
    forall m | m in sends ensures ClientsOn(room, m.to) > 0 {
      FanoutDelivery(room, open, chat, m.to);
    }
  }

  // ---------------------------------------------------------------- close

  /** Closing a session that never got a truthy room and id changes nothing
      and sends nothing. */
  lemma CloseOutsiderNoEffect(rooms: Rooms, open: set<ConnId>, s: Session, stamp: string)
    requires !Leaves(s)
    ensures AfterClose(rooms, s) == rooms
    ensures CloseSends(rooms, open, s, stamp) == []
  {
  }

  /** Closing a joined session removes at most one client of its room, one
      carrying the session's id, and touches no other room. The room is
      deleted when that leaves it empty; otherwise the remaining open
      sockets hear `user-left` with the refreshed users list, once per
      client they have in the room. */
  lemma {:induction false} CloseRemovesAtMostOne(rooms: Rooms, open: set<ConnId>, s: Session, stamp: string)
    requires Leaves(s)
    ensures var room := s.currentRoom.value;
      var after := AfterClose(rooms, s);
      && |Members(rooms, room)| - 1 <= |Members(after, room)| <= |Members(rooms, room)|
      && (forall c: Client :: c.id != s.userId.value ==> multiset(Members(after, room))[c] == multiset(Members(rooms, room))[c])
      && (room in after ==> after[room] != [])
      && (forall k :: k != room ==> (k in after <==> k in rooms) && (k in after ==> after[k] == rooms[k]))
    ensures var room := s.currentRoom.value;
      var after := AfterClose(rooms, s);
      var left := UserLeft(s.username, stamp, ActiveUsers(after, room));
      var sends := CloseSends(after, open, s, stamp);
      && (room !in after ==> sends == [])
      && (room in after ==> forall k :: multiset(sends)[Send(k, left)] == if k in open then ClientsOn(after[room], k) else 0)
      && (forall m :: m in sends ==> m.msg == left)
  {
    var room := s.currentRoom.value;
    var after := AfterClose(rooms, s);
    var left := UserLeft(s.username, stamp, ActiveUsers(after, room));
    if room in rooms {
      RemoveFirstByIdRemovesOne(rooms[room], s.userId.value);
      RemoveFirstByIdKeepsOthers(rooms[room], s.userId.value);
      if room !in after {
        assert RemoveFirstById(rooms[room], s.userId.value) == [];
      }
    }
    if room in after {
      forall k ensures multiset(CloseSends(after, open, s, stamp))[Send(k, left)]
                       == if k in open then ClientsOn(after[room], k) else 0 {
        FanoutDelivery(after[room], open, left, k);
      }
    }
  }

  /** Closing keeps every room non-empty, and never leaves the closed
      session's room behind empty. */
  lemma CloseKeepsNoEmptyRooms(rooms: Rooms, s: Session)
    requires NoEmptyRooms(rooms)
    ensures NoEmptyRooms(AfterClose(rooms, s))
  {
    if Leaves(s) {
      LeaveKeepsNoEmptyRooms(rooms, s.currentRoom.value, s.userId.value);
    }
  }

  /** A socket that joined a second room keeps its first client in the first
      room: a connection can be a member of two rooms at once. */
  lemma {:induction false} RejoinElsewhereKeepsOldClient(rooms: Rooms, conn: ConnId, room1: string, room2: string,
                                                        name: string, now1: string, now2: string)
    requires room1 != "" && room2 != "" && room1 != room2 && name != "" && now1 != "" && now2 != ""
    ensures var after := AfterJoin(AfterJoin(rooms, conn, Some(room1), Some(name), now1), conn, Some(room2), Some(name), now2);
      ClientsOn(after[room1], conn) > 0 && ClientsOn(after[room2], conn) > 0
  {
    var once := AfterJoin(rooms, conn, Some(room1), Some(name), now1);
    ClientsOnAppend(Members(rooms, room1), Client(now1, name, conn), conn);
    ClientsOnAppend(Members(once, room2), Client(now2, name, conn), conn);
  }
}
