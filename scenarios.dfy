/** End-to-end scenarios of the relay, worked on the event semantics that the
    methods of class Relay are proved to follow: two users meet in "lobby",
    chat and leave; a third connection sends a join with an empty room id.
    Sockets 1 (alice) and 2 (bob) are open until each one closes. */
module Scenarios {
  import opened Protocol
  import opened Registry
  import opened Handler

  const alice := Client("1000", "alice", 1)
  const bob := Client("1001", "bob", 2)

  /** alice joins "lobby": she is confirmed, hears her own arrival, and the
      room has one member. */
  lemma AliceJoins()
    ensures AfterJoin(map[], 1, Some("lobby"), Some("alice"), "1000") == map["lobby" := [alice]]
    ensures JoinSends(map["lobby" := [alice]], {1, 2}, 1, Some("lobby"), Some("alice"), "1000", "t1", "t2")
         == [Send(1, Joined("1000", "lobby", "t1")), Send(1, UserJoined(Some("alice"), "t2", [Info(alice)]))]
  {
    var after := map["lobby" := [alice]];
    assert Newcomer(1, "1000", Some("alice")) == Some(alice);
    assert Enter(map[], "lobby", Some(alice)) == after by {
      assert Enter(map[], "lobby", Some(alice))["lobby"] == [] + [alice] == [alice];
    }
    assert ActiveUsers(after, "lobby") == [Info(alice)];
    var hello := UserJoined(Some("alice"), "t2", [Info(alice)]);
    assert Fanout([alice], {1, 2}, hello) == Fanout([], {1, 2}, hello) + [Send(1, hello)] by {
      assert [alice][..0] == [];
    }
  }

  /** bob joins: alice and bob both hear user-joined with the users list
      [alice, bob]. */
  lemma BobJoins()
    ensures AfterJoin(map["lobby" := [alice]], 2, Some("lobby"), Some("bob"), "1001") == map["lobby" := [alice, bob]]
    ensures var users := [Info(alice), Info(bob)];
      JoinSends(map["lobby" := [alice, bob]], {1, 2}, 2, Some("lobby"), Some("bob"), "1001", "t3", "t4")
        == [Send(2, Joined("1001", "lobby", "t3")),
            Send(1, UserJoined(Some("bob"), "t4", users)), Send(2, UserJoined(Some("bob"), "t4", users))]
  {
    var after := map["lobby" := [alice, bob]];
    assert Newcomer(2, "1001", Some("bob")) == Some(bob);
    assert Enter(map["lobby" := [alice]], "lobby", Some(bob)) == after by {
      assert Enter(map["lobby" := [alice]], "lobby", Some(bob))["lobby"] == [alice] + [bob] == [alice, bob];
    }
    var users := [Info(alice), Info(bob)];
    assert ActiveUsers(after, "lobby") == users;
    var hello := UserJoined(Some("bob"), "t4", users);
    FanoutOfPair(hello);
  }

  /** Both members of the lobby are reached, alice first. */
  lemma FanoutOfPair(msg: OutMsg)
    ensures Fanout([alice, bob], {1, 2}, msg) == [Send(1, msg), Send(2, msg)]
  {
    assert [alice, bob][..1] == [alice];
    assert [alice][..0] == [];
    assert Fanout([alice], {1, 2}, msg) == [Send(1, msg)];
  }

  /** alice says "hi": each socket receives exactly one copy. */
  lemma AliceChats()
    ensures PostSends(map["lobby" := [alice, bob]], {1, 2}, Session(Some("1000"), Some("lobby"), Some("alice")), Some("hi"), "t5")
         == [Send(1, Chat(Some("hi"), "alice", "1000", "t5")), Send(2, Chat(Some("hi"), "alice", "1000", "t5"))]
  {
    FanoutOfPair(Chat(Some("hi"), "alice", "1000", "t5"));
  }

  /** alice's socket closes: the room keeps bob, who hears user-left with
      the users list [bob]. */
  lemma AliceLeaves()
    ensures AfterClose(map["lobby" := [alice, bob]], Session(Some("1000"), Some("lobby"), Some("alice"))) == map["lobby" := [bob]]
    ensures CloseSends(map["lobby" := [bob]], {2}, Session(Some("1000"), Some("lobby"), Some("alice")), "t6")
         == [Send(2, UserLeft(Some("alice"), "t6", [Info(bob)]))]
  {
    assert RemoveFirstById([alice, bob], "1000") == [bob];
    assert ActiveUsers(map["lobby" := [bob]], "lobby") == [Info(bob)];
    assert [bob][..0] == [];
  }

  /** bob's socket closes: the room entry is removed and nobody is told. */
  lemma BobLeaves()
    ensures AfterClose(map["lobby" := [bob]], Session(Some("1001"), Some("lobby"), Some("bob"))) == map[]
    ensures CloseSends(map[], {}, Session(Some("1001"), Some("lobby"), Some("bob")), "t7") == []
  {
    assert RemoveFirstById([bob], "1001") == [];
  }

  /** A join with an empty room id only earns the sender the error. */
  lemma CarolJoinsNowhere()
    ensures AfterJoin(map[], 3, Some(""), Some("carol"), "1002") == map[]
    ensures JoinSends(map[], {3}, 3, Some(""), Some("carol"), "1002", "t8", "t9") == [Send(3, Error(ROOM_ID_REQUIRED))]
  {
  }
}
