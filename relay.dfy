/** The relay process: the module-level `rooms` map, the closure state of
    every connection handler, which sockets are open, and every `send` made so
    far. Each handler runs to completion before the next event, so each method
    below is one atomic transition. */
module Relay {
  import opened Protocol
  import opened Registry
  import opened Handler

  /** Lines 129-134: the position of the first member, in iteration order,
      whose id is `id`; `|clients|` when there is none. */
  method FirstIndexById(clients: seq<Client>, id: string) returns (k: nat)
    ensures k <= |clients|
    ensures k < |clients| ==> clients[k].id == id
    ensures forall j :: 0 <= j < k ==> clients[j].id != id
  {
    k := 0;
    while k < |clients|
      invariant k <= |clients|
      invariant forall j :: 0 <= j < k ==> clients[j].id != id
    {
      if clients[k].id == id {
        return;
      }
      k := k + 1;
    }
  }

  class Relay {
    /** `rooms` (line 21). */
    var rooms: Rooms
    /** The `userId`, `currentRoom`, `username` of every connection ever made. */
    var sessions: map<ConnId, Session>
    /** Connections whose `close` event has not fired yet. */
    var live: set<ConnId>
    /** Connections whose socket is in the OPEN state. */
    var open: set<ConnId>
    /** Every `send` call, oldest first. */
    var outbox: seq<Send>

    /** Every member was added by a join with a truthy id and name from a
        connection the relay knows; an open socket has not closed. */
    ghost predicate Valid()
      reads this
    {
      && open <= live <= sessions.Keys
      && MembersKnown(rooms, sessions.Keys)
    }

    constructor ()
      ensures Valid()
      ensures rooms == map[] && sessions == map[] && live == {} && open == {} && outbox == []
    {
      rooms := map[];
      sessions := map[];
      live := {};
      open := {};
      outbox := [];
    }

    /** Line 47-50: a new socket connects; its handler starts with all three
        variables null. */
    method Connect(c: ConnId)
      requires Valid() && c !in sessions
      modifies this
      ensures Valid()
      ensures sessions == old(sessions)[c := Unjoined]
      ensures live == old(live) + {c} && open == old(open) + {c}
      ensures rooms == old(rooms) && outbox == old(outbox)
    {
      sessions := sessions[c := Unjoined];
      live := live + {c};
      open := open + {c};
    }

    /** The transport moves a socket out of the OPEN state (closing) before
        its `close` event fires. */
    method SocketClosing(c: ConnId)
      requires Valid()
      modifies this`open
      ensures Valid()
      ensures open == old(open) - {c}
    {
      open := open - {c};
    }

    /** `broadcastToRoom` (lines 24-33). */
    method BroadcastToRoom(key: string, msg: OutMsg)
      modifies this`outbox
      ensures outbox == old(outbox) + Fanout(Members(rooms, key), open, msg)
    {
      if key !in rooms {
        return;
      }
      var clients := rooms[key];
      var i := 0;
      while i < |clients|
        invariant 0 <= i <= |clients|
        invariant outbox == old(outbox) + Fanout(clients[..i], open, msg)
      {
        var client := clients[i];
        FanoutStep(clients, i, open, msg);
        if client.conn in open {
          outbox := outbox + [Send(client.conn, msg)];
        }
        i := i + 1;
      }
      assert clients[..i] == clients;
    }

    /** Lines 64-72: create the room when it is absent, then add the
        newcomer to its set. */
    method AddToRoom(room: string, newcomer: Option<Client>)
      modifies this`rooms
      ensures rooms == Enter(old(rooms), room, newcomer)
    {
      if room !in rooms {
        rooms := rooms[room := []];
      }
      var roomClients := rooms[room];
      if newcomer.Some? {
        rooms := rooms[room := roomClients + [newcomer.value]];
      }
    }

    /** The `join` branch (lines 57-98). `now` is `Date.now().toString()`;
        `stamp` and `stamp2` are the two `new Date().toISOString()` values. */
    method JoinRoom(c: ConnId, roomId: Option<string>, name: Option<string>, now: string, stamp: string, stamp2: string)
      requires Valid() && c in live
      modifies this
      ensures Valid()
      ensures sessions == old(sessions)[c := AfterJoinSession(now, roomId, name)]
      ensures rooms == AfterJoin(old(rooms), c, roomId, name, now)
      ensures outbox == old(outbox) + JoinSends(rooms, open, c, roomId, name, now, stamp, stamp2)
      ensures live == old(live) && open == old(open)
    {
      sessions := sessions[c := Session(Some(now), roomId, name)];
      assert sessions.Keys == old(sessions).Keys;
      if Truthy(roomId) {
        var room := roomId.value;
        AddToRoom(room, Newcomer(c, now, name));
        EnterKeepsMembersKnown(old(rooms), room, Newcomer(c, now, name), sessions.Keys);
        Welcome(c, room, name, now, stamp, stamp2);
      } else {
        outbox := outbox + [Send(c, Error(ROOM_ID_REQUIRED))];
      }
    }

    /** Lines 74-88: confirm the join to the sender, then announce it to the
        room with the refreshed users list. */
    method Welcome(c: ConnId, room: string, name: Option<string>, now: string, stamp: string, stamp2: string)
      requires room != ""
      modifies this`outbox
      ensures outbox == old(outbox) + JoinSends(rooms, open, c, Some(room), name, now, stamp, stamp2)
    {
      outbox := outbox + [Send(c, Joined(now, room, stamp))];
      var announce := UserJoined(name, stamp2, ActiveUsers(rooms, room));
      BroadcastToRoom(room, announce);
      assert outbox == old(outbox) + ([Send(c, Joined(now, room, stamp))] + Fanout(Members(rooms, room), open, announce));
    }

    /** The `message` branch (lines 100-110). */
    method Post(c: ConnId, content: Option<string>, stamp: string)
      requires Valid() && c in live
      modifies this`outbox
      ensures outbox == old(outbox) + PostSends(rooms, open, sessions[c], content, stamp)
    {
      var s := sessions[c];
      if !Truthy(s.currentRoom) || !Truthy(s.userId) || !Truthy(s.username) {
        return;
      }
      BroadcastToRoom(s.currentRoom.value, Chat(content, s.username.value, s.userId.value, stamp));
    }

    /** The `message` event handler (lines 52-121): dispatch on the parsed
        frame; a frame that fails to parse is answered with an error, one of
        an unknown type is ignored. */
    method HandleMessage(c: ConnId, frame: Inbound, now: string, stamp: string, stamp2: string)
      requires Valid() && c in live
      modifies this
      ensures Valid()
      ensures live == old(live) && open == old(open)
      ensures match frame
        case Join(roomId, name) =>
          && sessions == old(sessions)[c := AfterJoinSession(now, roomId, name)]
          && rooms == AfterJoin(old(rooms), c, roomId, name, now)
          && outbox == old(outbox) + JoinSends(rooms, open, c, roomId, name, now, stamp, stamp2)
        case Message(content) =>
          && sessions == old(sessions) && rooms == old(rooms)
          && outbox == old(outbox) + PostSends(rooms, open, sessions[c], content, stamp)
        case Unknown =>
          sessions == old(sessions) && rooms == old(rooms) && outbox == old(outbox)
        case Malformed =>
          && sessions == old(sessions) && rooms == old(rooms)
          && outbox == old(outbox) + [Send(c, Error(PROCESSING_FAILED))]
    {
      match frame
      case Join(roomId, name) =>
        JoinRoom(c, roomId, name, now, stamp, stamp2);
      case Message(content) =>
        Post(c, content, stamp);
      case Unknown =>
      case Malformed =>
        outbox := outbox + [Send(c, Error(PROCESSING_FAILED))];
    }

    /** The `close` event handler (lines 123-148). The socket has left the
        OPEN state when the event fires. */
    method Close(c: ConnId, stamp: string)
      requires Valid() && c in live
      modifies this
      ensures Valid()
      ensures live == old(live) - {c} && open == old(open) - {c} && sessions == old(sessions)
      ensures rooms == AfterClose(old(rooms), sessions[c])
      ensures outbox == old(outbox) + CloseSends(rooms, open, sessions[c], stamp)
    {
      live := live - {c};
      open := open - {c};
      var s := sessions[c];
      if Truthy(s.currentRoom) && s.currentRoom.value in rooms {
        var room := s.currentRoom.value;
        if Truthy(s.userId) {
          LeaveRoom(room, s.userId.value);
          LeaveKeepsMembersKnown(old(rooms), room, s.userId.value, sessions.Keys);
          if room in rooms {
            BroadcastToRoom(room, UserLeft(s.username, stamp, ActiveUsers(rooms, room)));
          }
        }
      }
    }

    /** Lines 129-137: delete the first member whose id is `id`, then the
        room itself when no member is left. */
    method LeaveRoom(room: string, id: string)
      requires room in rooms
      modifies this`rooms
      ensures rooms == Leave(old(rooms), room, id)
    {
      var roomClients := rooms[room];
      var k := FirstIndexById(roomClients, id);
      RemoveAtFirstMatch(roomClients, id, k);
      if k < |roomClients| {
        roomClients := roomClients[..k] + roomClients[k + 1..];
        rooms := rooms[room := roomClients];
      }
      if |roomClients| == 0 {
        rooms := rooms - {room};
      }
    }
  }
}
