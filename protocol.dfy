/** Values exchanged by the room relay: clients, the per-connection session
    record, and the inbound and outbound wire messages. */
module Protocol {

  datatype Option<+T> = None | Some(value: T)

  /** JavaScript truthiness of a field that is either absent or a string:
      `undefined`, `null` and `""` are falsy. */
  predicate Truthy(s: Option<string>) {
    s.Some? && s.value != ""
  }

  /** Identity of one WebSocket object. */
  type ConnId = nat

  /** A member of a room: one object literal `{id, username, ws}`. */
  datatype Client = Client(id: string, username: string, conn: ConnId)

  /** One entry of the `users` list sent with membership notifications. */
  datatype UserInfo = UserInfo(username: string, id: string)

  /** Outbound notifications; `Chat` is the wire type "message", whose
      `senderName` and `senderId` travel as `username` and `userId`. */
  datatype OutMsg =
    | Joined(userId: string, roomId: string, timestamp: string)
    | Error(message: string)
    | UserJoined(username: Option<string>, timestamp: string, users: seq<UserInfo>)
    | UserLeft(username: Option<string>, timestamp: string, users: seq<UserInfo>)
    | Chat(content: Option<string>, senderName: string, senderId: string, timestamp: string)

  /** One call of `send` on the socket `to`. */
  datatype Send = Send(to: ConnId, msg: OutMsg)

  /** An inbound frame after parsing: a `join`, a `message`, an object whose
      `type` is neither, or a payload on which parsing (or reading `type`) throws. */
  datatype Inbound =
    | Join(roomId: Option<string>, username: Option<string>)
    | Message(content: Option<string>)
    | Unknown
    | Malformed

  /** The three variables the connection handler closes over. */
  datatype Session = Session(userId: Option<string>, currentRoom: Option<string>, username: Option<string>)

  const Unjoined := Session(None, None, None)

  const ROOM_ID_REQUIRED := "Room ID is required"
  const PROCESSING_FAILED := "Failed to process your message"

  /** The guard of the `message` branch: all three session variables truthy. */
  predicate InRoom(s: Session) {
    Truthy(s.currentRoom) && Truthy(s.userId) && Truthy(s.username)
  }

  /** The guard of the `close` handler: a truthy room and a truthy user id. */
  predicate Leaves(s: Session) {
    Truthy(s.currentRoom) && Truthy(s.userId)
  }
}
