/** The room registry as values: the `rooms` map, the read helpers
    `getActiveUsers` and `broadcastToRoom` (the sends it makes), and the two
    updates the connection handler applies to it (join and leave). */
module Registry {
  import opened Protocol

  /** Room key to members, in insertion order (a JavaScript `Set` iterates in
      insertion order, and every join adds a fresh object, so nothing is
      ever deduplicated). */
  type Rooms = map<string, seq<Client>>

  /** The members of a room; an absent room has none. */
  function Members(rooms: Rooms, key: string): seq<Client> {
    if key in rooms then rooms[key] else []
  }

  /** Number of member clients whose socket is `k`. */
  function ClientsOn(clients: seq<Client>, k: ConnId): nat {
    if clients == [] then 0
    else ClientsOn(clients[..|clients| - 1], k) + (if clients[|clients| - 1].conn == k then 1 else 0)
  }

  /** No room key maps to an empty member list. */
  ghost predicate NoEmptyRooms(rooms: Rooms) {
    forall key :: key in rooms ==> rooms[key] != []
  }

  // ---------------------------------------------------------------- getActiveUsers

  function Info(c: Client): UserInfo {
    UserInfo(c.username, c.id)
  }

  /** The `{username, id}` projection of a member list. */
  function Users(clients: seq<Client>): (r: seq<UserInfo>)
    ensures |r| == |clients|
    ensures forall i :: 0 <= i < |clients| ==> r[i] == UserInfo(clients[i].username, clients[i].id)
  {
    if clients == [] then []
    else Users(clients[..|clients| - 1]) + [Info(clients[|clients| - 1])]
  }

  /** `getActiveUsers(roomId)`: one entry per member, in member order; none
      for an absent room. */
  function ActiveUsers(rooms: Rooms, key: string): (r: seq<UserInfo>)
    ensures key !in rooms ==> r == []
    ensures key in rooms ==> |r| == |rooms[key]|
    ensures key in rooms ==> forall i :: 0 <= i < |r| ==> r[i] == UserInfo(rooms[key][i].username, rooms[key][i].id)
  {
    Users(Members(rooms, key))
  }

  // ---------------------------------------------------------------- broadcastToRoom

  /** The sends `broadcastToRoom` makes to a member list: one per member
      whose socket is open, in member order. */
  function Fanout(clients: seq<Client>, open: set<ConnId>, msg: OutMsg): (r: seq<Send>)
    ensures |r| <= |clients|
    ensures forall s :: s in r ==> s.msg == msg && s.to in open
  {
    if clients == [] then []
    else
      var last := clients[|clients| - 1];
      Fanout(clients[..|clients| - 1], open, msg) + (if last.conn in open then [Send(last.conn, msg)] else [])
  }

  /** One more member in the iteration adds at most its own send. */
  lemma FanoutStep(clients: seq<Client>, i: nat, open: set<ConnId>, msg: OutMsg)
    requires i < |clients|
    ensures Fanout(clients[..i + 1], open, msg)
         == Fanout(clients[..i], open, msg) + (if clients[i].conn in open then [Send(clients[i].conn, msg)] else [])
  {
    assert clients[..i + 1][..i] == clients[..i];
  }

  /** A broadcast reaches socket `k` once per member client on `k` when `k`
      is open, and never otherwise; in particular a socket with no client in
      the room receives nothing. */
  lemma {:induction false} FanoutDelivery(clients: seq<Client>, open: set<ConnId>, msg: OutMsg, k: ConnId)
    ensures multiset(Fanout(clients, open, msg))[Send(k, msg)] == if k in open then ClientsOn(clients, k) else 0
  {
    if clients != [] {
      FanoutDelivery(clients[..|clients| - 1], open, msg, k);
    }
  }

  /** Appending a client adds exactly one to the count of its socket and
      leaves the others alone. */
  lemma ClientsOnAppend(clients: seq<Client>, c: Client, k: ConnId)
    ensures ClientsOn(clients + [c], k) == ClientsOn(clients, k) + (if c.conn == k then 1 else 0)
  {
    assert (clients + [c])[..|clients|] == clients;
  }

  // ---------------------------------------------------------------- join

  /** Lines 64-72: create the room when absent, then add the newcomer when
      there is one. */
  function Enter(rooms: Rooms, key: string, newcomer: Option<Client>): (r: Rooms)
    ensures r.Keys == rooms.Keys + {key}
    ensures forall k :: k in rooms && k != key ==> r[k] == rooms[k]
    ensures r[key] == Members(rooms, key) + (if newcomer.Some? then [newcomer.value] else [])
  {
    var created := if key in rooms then rooms else rooms[key := []];
    match newcomer
    case None => created
    case Some(c) => created[key := created[key] + [c]]
  }

  // ---------------------------------------------------------------- close

  /** Lines 129-134: delete the first member (in iteration order) whose id
      is `id`, if any. */
  function RemoveFirstById(clients: seq<Client>, id: string): (r: seq<Client>)
    ensures |r| <= |clients| <= |r| + 1
  {
    if clients == [] then []
    else if clients[0].id == id then clients[1..]
    else [clients[0]] + RemoveFirstById(clients[1..], id)
  }

  predicate HasId(clients: seq<Client>, id: string) {
    exists i :: 0 <= i < |clients| && clients[i].id == id
  }

  /** A client is removed exactly when some member has the id; a list
      without the id is unchanged. */
  lemma {:induction false} RemoveFirstByIdRemovesOne(clients: seq<Client>, id: string)
    ensures HasId(clients, id) <==> |RemoveFirstById(clients, id)| == |clients| - 1
    ensures !HasId(clients, id) ==> RemoveFirstById(clients, id) == clients
  {
    if clients != [] && clients[0].id != id {
      var rest := clients[1..];
      RemoveFirstByIdRemovesOne(rest, id);
      assert HasId(clients, id) == HasId(rest, id) by {
        if HasId(clients, id) {
          var i :| 0 <= i < |clients| && clients[i].id == id;
          assert rest[i - 1].id == id;
        }
        if HasId(rest, id) {
          var i :| 0 <= i < |rest| && rest[i].id == id;
          assert clients[i + 1].id == id;
        }
      }
      assert !HasId(clients, id) ==> [clients[0]] + rest == clients;
    } else if clients != [] {
      assert clients[0].id == id;
    }
  }

  /** The only client removed carries the id: every client keeps its
      multiplicity except one copy of a client with the id. */
  lemma {:induction false} RemoveFirstByIdKeepsOthers(clients: seq<Client>, id: string)
    ensures multiset(RemoveFirstById(clients, id)) <= multiset(clients)
    ensures forall c: Client :: c.id != id ==> multiset(RemoveFirstById(clients, id))[c] == multiset(clients)[c]
  {
    if clients != [] {
      var rest := clients[1..];
      assert clients == [clients[0]] + rest;
      if clients[0].id != id {
        RemoveFirstByIdKeepsOthers(rest, id);
      }
    }
  }

  /** Cutting out the index of the first matching member is the same
      removal. */
  lemma {:induction false} RemoveAtFirstMatch(clients: seq<Client>, id: string, k: nat)
    requires k <= |clients|
    requires k < |clients| ==> clients[k].id == id
    requires forall j :: 0 <= j < k ==> clients[j].id != id
    ensures RemoveFirstById(clients, id) == if k < |clients| then clients[..k] + clients[k + 1..] else clients
  {
    if clients != [] && k > 0 {
      RemoveAtFirstMatch(clients[1..], id, k - 1);
      if k < |clients| {
        assert clients[1..][..k - 1] + clients[1..][k..] == clients[1..k] + clients[k + 1..];
        assert [clients[0]] + clients[1..k] == clients[..k];
      } else {
        assert [clients[0]] + clients[1..] == clients;
      }
    }
  }

  /** Lines 124-137: remove the first member with the id; a room left with
      no member is deleted. An absent room is left absent. */
  function Leave(rooms: Rooms, key: string, id: string): (r: Rooms)
    ensures key in r ==> key in rooms && r[key] == RemoveFirstById(rooms[key], id) && r[key] != []
    ensures key in rooms && RemoveFirstById(rooms[key], id) != [] ==> key in r
    ensures forall k :: k != key ==> (k in r <==> k in rooms) && (k in r ==> r[k] == rooms[k])
  {
    if key !in rooms then rooms
    else
      var rest := RemoveFirstById(rooms[key], id);
      if rest == [] then rooms - {key} else rooms[key := rest]
  }

  // ---------------------------------------------------------------- well-formed members

  /** Every member has a non-empty id and name and sits on a known socket. */
  ghost predicate MembersKnown(rooms: Rooms, known: set<ConnId>) {
    forall key, c :: key in rooms && c in rooms[key] ==> c.id != "" && c.username != "" && c.conn in known
  }

  lemma EnterKeepsMembersKnown(rooms: Rooms, key: string, newcomer: Option<Client>, known: set<ConnId>)
    requires MembersKnown(rooms, known)
    requires newcomer.Some? ==> newcomer.value.id != "" && newcomer.value.username != "" && newcomer.value.conn in known
    ensures MembersKnown(Enter(rooms, key, newcomer), known)
  {
    var r := Enter(rooms, key, newcomer);
    forall k, c: Client | k in r && c in r[k] ensures c.id != "" && c.username != "" && c.conn in known {
      if k == key && k !in rooms {
        assert r[k] == [newcomer.value];
      }
    }
  }

  lemma LeaveKeepsMembersKnown(rooms: Rooms, key: string, id: string, known: set<ConnId>)
    requires MembersKnown(rooms, known)
    ensures MembersKnown(Leave(rooms, key, id), known)
  {
    var r := Leave(rooms, key, id);
    forall k, c: Client | k in r && c in r[k] ensures c.id != "" && c.username != "" && c.conn in known {
      if k == key {
        RemoveFirstByIdKeepsOthers(rooms[key], id);
        assert multiset(r[k])[c] > 0;
      }
    }
  }

  // ---------------------------------------------------------------- the empty-room invariant

  /** Leaving never leaves an empty room behind. */
  lemma LeaveKeepsNoEmptyRooms(rooms: Rooms, key: string, id: string)
    requires NoEmptyRooms(rooms)
    ensures NoEmptyRooms(Leave(rooms, key, id))
  {
  }

  /** A join that adds a client keeps every room non-empty. */
  lemma EnterKeepsNoEmptyRooms(rooms: Rooms, key: string, c: Client)
    requires NoEmptyRooms(rooms)
    ensures NoEmptyRooms(Enter(rooms, key, Some(c)))
  {
  }

  /** A join without a newcomer into a new room leaves an empty room. */
  lemma EnterWithoutNewcomerLeavesEmptyRoom(rooms: Rooms, key: string)
    requires key !in rooms
    ensures key in Enter(rooms, key, None) && Enter(rooms, key, None)[key] == []
    ensures !NoEmptyRooms(Enter(rooms, key, None))
  {
  }
}
