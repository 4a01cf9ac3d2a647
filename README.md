# Room relay of the chat backend, modelled in Dafny

The backend (`backend/src/index.ts`) is a WebSocket relay. A process-wide map
`rooms` holds, for each room key, the set of clients (`{id, username, ws}`)
that joined it. Every connection runs a handler that closes over three
variables: `userId`, `currentRoom` and `username`. The handler reacts to four
inputs:

- a `join` frame: stamp a user id, create the room when absent, add the
  client, confirm with `joined`, announce `user-joined` with the users list;
- a `message` frame: relay the content to the sender's room;
- a frame that fails to parse: answer `error`;
- the socket's `close`: remove the client, then delete the room if it is empty
  or announce `user-left` to the rest.

`broadcastToRoom` sends to every member whose socket is OPEN.
`getActiveUsers` projects a room's members to `{username, id}`.

The model has five modules:

- `Protocol` (protocol.dfy): the values. These are clients, sessions (the
  three closure variables), inbound frames (`Join | Message | Unknown |
  Malformed`), outbound notifications and sends.
- `Registry` (registry.dfy): the registry as values. It holds
  `getActiveUsers`, the sends of `broadcastToRoom` (`Fanout`), the join
  update (`Enter`), the close update (`RemoveFirstById`, `Leave`) and their
  lemmas.
- `Handler` (handler.dfy): what each event does to the registry and what it
  sends, as functions of the state before the event. It also proves the
  relay's promises about those functions.
- `Relay` (relay.dfy): class `Relay`. It holds the state the process mutates
  in place: `rooms`, the sessions, the live and open sockets, and an
  append-only `outbox` of every `send` call. The methods follow the source
  step by step, including the `forEach` of the broadcast and the `for ... break`
  search of the close handler. Each method's postcondition ties the new
  state to the `Handler` and `Registry` functions.
- `Scenarios` (scenarios.dfy): worked examples. Two users meet in "lobby",
  chat and leave; a third connection sends a join with an empty room id.

Node runs each handler to completion, so each method is one atomic
transition. Member order is insertion order, as a JavaScript `Set` iterates.

Behaviours modelled as the code has them, each stated by a lemma or a
contract:

- **Repeated joins.** Each `join` adds a fresh object literal, so joins are
  not idempotent: a repeated join adds a second client
  (`RepeatedJoinAddsTwice`). A socket that joins a second room stays a member
  of the first, so it holds clients in two rooms at once
  (`RejoinElsewhereKeepsOldClient`).
- **Empty username.** A `join` with a room id but an empty or missing
  username creates the room and still sends `joined`. Line 70 keeps it out
  of the member set, so a new room is left empty
  (`JoinWithoutNameLeavesEmptyRoom`). Every close keeps "no room is empty"
  (`CloseKeepsNoEmptyRooms`). A join breaks it exactly when it creates a new
  room and adds nobody to it, as a nameless join does
  (`JoinKeepsNoEmptyRooms`).
- **Closing removes by id.** `close` removes the first member whose **id**
  equals the session's `userId`. It does not look at the socket. The id is
  the last `join`'s `Date.now()` string, even when that join failed for lack
  of a room id.
- **Direct replies.** The `joined` and `error` replies are sent to the
  sender without a readyState check. Broadcasts skip sockets that are not
  OPEN. When `close` fires, the closing socket is no longer OPEN.
- **Unrecognised types.** A parsed frame whose `type` is neither `join` nor
  `message` gets no reply at all (`Relay.Relay.HandleMessage`, case
  `Unknown`).
- **Any content.** A `message` is relayed whatever its content, even absent
  or empty (`PostReachesRoomOnly`).

## Model

| member | source | states |
|---|---|---|
| `Registry.Users` | backend/src/index.ts:40-43 | the projection has one `{username, id}` entry per client, position by position |
| `Registry.ActiveUsers` | backend/src/index.ts:36-44 | `getActiveUsers` is `[]` for an absent room; otherwise it has one entry per member, in member order, with that member's username and id |
| `Registry.Fanout` | backend/src/index.ts:24-33 | a broadcast makes at most one send per member; every send carries the message unchanged and goes to an open socket |
| `Registry.FanoutDelivery` | backend/src/index.ts:24-33 | an open socket receives the message once per member client it has in the room; a closed socket or a non-member receives nothing |
| `Registry.Enter` | backend/src/index.ts:63-72 | after a join the room key is present; its members are the old ones plus the newcomer, if any, at the end; every other room is unchanged |
| `Registry.RemoveFirstById` | backend/src/index.ts:129-134 | the close loop removes at most one client |
| `Registry.RemoveFirstByIdRemovesOne` | backend/src/index.ts:129-134 | a client is removed exactly when some member has the id; otherwise the list is unchanged |
| `Registry.RemoveFirstByIdKeepsOthers` | backend/src/index.ts:129-134 | the removed client carries the id; every client with another id keeps its multiplicity |
| `Registry.RemoveAtFirstMatch` | backend/src/index.ts:129-134 | deleting at the first index whose id matches is the same removal |
| `Registry.Leave` | backend/src/index.ts:124-137 | a room left with no member is deleted; a remaining room holds the survivors of the removal and is non-empty; other rooms are unchanged |
| `Registry.EnterKeepsMembersKnown` | backend/src/index.ts:70-72 | a join keeps every member with a non-empty id and name and a known socket |
| `Registry.LeaveKeepsMembersKnown` | backend/src/index.ts:129-137 | a close keeps every member with a non-empty id and name and a known socket |
| `Registry.LeaveKeepsNoEmptyRooms` | backend/src/index.ts:136-137 | leaving preserves "no room key maps to an empty list" |
| `Registry.EnterKeepsNoEmptyRooms` | backend/src/index.ts:64-72 | a join that adds a client preserves "no room is empty" |
| `Registry.EnterWithoutNewcomerLeavesEmptyRoom` | backend/src/index.ts:64-72 | a join that adds nobody to an absent room leaves an empty room entry |
| `Handler.AfterJoinSession` | backend/src/index.ts:58-60 | the three closure variables after a `join`. No contract of its own: `JoinWithoutRoom` and `Relay.Relay.JoinRoom` state its properties |
| `Handler.Newcomer` | backend/src/index.ts:70-71 | the client a `join` adds when the id and the name are truthy. No contract of its own: `JoinAddsNewcomer`, `JoinWithoutNameLeavesEmptyRoom` and `RepeatedJoinAddsTwice` state its properties |
| `Handler.AfterJoin` | backend/src/index.ts:63-72 | the registry after a `join`. No contract of its own: `JoinWithoutRoom`, `JoinAddsNewcomer`, `JoinKeepsNoEmptyRooms` and `RejoinElsewhereKeepsOldClient` state its properties |
| `Handler.JoinSends` | backend/src/index.ts:74-96 | the sends of a `join`. No contract of its own: `JoinWithoutRoom`, `JoinConfirmsNewcomer` and `JoinAnnouncesNewcomer` state its properties |
| `Handler.PostSends` | backend/src/index.ts:100-109 | the sends of a `message`. No contract of its own: `PostFromOutsiderDropped` and `PostReachesRoomOnly` state its properties |
| `Handler.AfterClose` | backend/src/index.ts:124-137 | the registry after a close. No contract of its own: `CloseOutsiderNoEffect`, `CloseRemovesAtMostOne` and `CloseKeepsNoEmptyRooms` state its properties |
| `Handler.CloseSends` | backend/src/index.ts:138-145 | the sends of a close. No contract of its own: `CloseOutsiderNoEffect` and `CloseRemovesAtMostOne` state its properties |
| `Handler.JoinWithoutRoom` | backend/src/index.ts:57-98 | a join with a missing or empty room id leaves the registry unchanged and sends only `error{"Room ID is required"}` to the sender; the session is left without a truthy room |
| `Handler.JoinAddsNewcomer` | backend/src/index.ts:63-72 | a join with a room id and a name leaves the key present with the new client last; other rooms are unchanged |
| `Handler.JoinConfirmsNewcomer` | backend/src/index.ts:74-88 | after a join that adds a client, the sender's first send is `joined{userId, roomId}` and the `user-joined` users list ends with the newcomer |
| `Handler.JoinAnnouncesNewcomer` | backend/src/index.ts:83-88 | each open socket, the sender included, gets `user-joined` once per client it has in the room; other sockets get none |
| `Handler.JoinWithoutNameLeavesEmptyRoom` | backend/src/index.ts:63-88 | a join with a room id but no name creates an empty room, breaks "no room is empty", and still answers `joined` |
| `Handler.JoinKeepsNoEmptyRooms` | backend/src/index.ts:57-72 | from a registry with no empty room, a join leaves an empty room exactly when it creates a new room and adds nobody; every other join keeps "no room is empty" |
| `Handler.RepeatedJoinAddsTwice` | backend/src/index.ts:70-72 | joining one room twice from one socket leaves two clients for it |
| `Handler.RejoinElsewhereKeepsOldClient` | backend/src/index.ts:57-72 | after joining a second room, a socket has clients in both rooms |
| `Handler.PostFromOutsiderDropped` | backend/src/index.ts:101 | a message from a session missing a room, id or name sends nothing |
| `Handler.PostReachesRoomOnly` | backend/src/index.ts:100-110 | a message carries the content unchanged with the sender's name and id; it reaches each open socket once per client it has in the sender's room, and no other socket |
| `Handler.CloseOutsiderNoEffect` | backend/src/index.ts:123-127 | closing a session without a truthy room and id changes no room and sends nothing |
| `Handler.CloseRemovesAtMostOne` | backend/src/index.ts:124-146 | close removes at most one client of the room, one carrying the session's id, and no other room changes; an emptied room is deleted; otherwise the open sockets get `user-left` with the refreshed users list, once per client they have there |
| `Handler.CloseKeepsNoEmptyRooms` | backend/src/index.ts:136-137 | "no room is empty" survives every close |
| `Relay.FirstIndexById` | backend/src/index.ts:129-134 | the loop stops at the first member whose id matches, or after the last member |
| `Relay.Relay.constructor` | backend/src/index.ts:21 | the registry starts empty, with no connections and no sends |
| `Relay.Relay.Connect` | backend/src/index.ts:47-50 | a new connection starts with all three session variables null and an open socket; nothing else changes |
| `Relay.Relay.SocketClosing` | backend/src/index.ts:29 | a socket that leaves the OPEN state is skipped by later broadcasts |
| `Relay.Relay.BroadcastToRoom` | backend/src/index.ts:24-33 | the sends appended are exactly `Fanout` of the room's members; the registry is unchanged |
| `Relay.Relay.AddToRoom` | backend/src/index.ts:64-72 | the in-place update equals `Enter` on the old registry |
| `Relay.Relay.Welcome` | backend/src/index.ts:74-88 | `joined` to the sender, then `user-joined` with the refreshed users list to the room |
| `Relay.Relay.JoinRoom` | backend/src/index.ts:57-98 | the session, registry and sends after a `join` are `AfterJoinSession`, `AfterJoin` and `JoinSends`; the relay invariant is kept |
| `Relay.Relay.Post` | backend/src/index.ts:100-110 | the sends of a `message` are `PostSends`; nothing else changes |
| `Relay.Relay.HandleMessage` | backend/src/index.ts:52-121 | dispatch on the frame. A parse failure sends only `error{"Failed to process your message"}`. An unknown type changes nothing and sends nothing. `join` and `message` behave as above |
| `Relay.Relay.Close` | backend/src/index.ts:123-148 | the socket leaves the live and open sets; the registry becomes `AfterClose` of the old one; the sends are `CloseSends` |
| `Relay.Relay.LeaveRoom` | backend/src/index.ts:129-137 | the in-place removal and deletion equal `Leave` on the old registry |
| `Scenarios.AliceJoins` | backend/src/index.ts:57-88 | alice joining "lobby" gets `joined` and `user-joined` with users [alice]; the room has one member |
| `Scenarios.BobJoins` | backend/src/index.ts:57-88 | bob joining makes alice and bob each get one `user-joined` with users [alice, bob] |
| `Scenarios.AliceChats` | backend/src/index.ts:100-110 | alice's "hi" reaches each of the two sockets exactly once |
| `Scenarios.AliceLeaves` | backend/src/index.ts:123-146 | after alice's socket closes, the room keeps bob, who gets `user-left` with users [bob] |
| `Scenarios.BobLeaves` | backend/src/index.ts:123-137 | after bob's socket closes, the room entry is gone and nobody is told |
| `Scenarios.CarolJoinsNowhere` | backend/src/index.ts:89-97 | a join with an empty room id leaves the registry empty and answers only the error |

## Left out

- Express, CORS, the `/health` endpoint and `server.listen`
  (backend/src/index.ts:1-11, 151-159) are process and HTTP plumbing.
- The `ws` transport is reduced to two sets of socket ids: live and OPEN.
  Handshake, framing and the real `readyState` transitions are left out.
  `SocketClosing` stands for the OPEN-to-CLOSING step.
- `JSON.parse` and `JSON.stringify` are foreign calls. Inbound frames arrive
  already classified. A payload on which parsing, or reading `type`, throws
  is `Malformed`. `roomId`, `username` and `content` are absent or strings.
  Other JSON values (numbers, objects, booleans) in those fields are not
  modelled.
- `Date.now().toString()` and `new Date().toISOString()` are parameters of
  the methods. The model does not claim ids are unique; the code does not
  check it.
- `console.error` (line 113) is logging only.
- The outcome of a `send` on the wire is out of scope: the model records
  the call. A direct reply to a socket that is no longer OPEN is recorded,
  as the code issues it.
- Concurrency is not modelled. Node's event loop runs each handler to
  completion, so each method is one atomic step.
- The React client (frontend/src/App.tsx) is not part of this model.
- The compiled backend/dist/index.js is not part of this model; it repeats
  the TypeScript source.
