/** The records of the chat server's store and the effects its handlers produce. */
module ChatModel {
  import opened Seqs

  type UserId = string
  type RoomId = string
  type MessageId = string
  type SessionId = string

  datatype RoomType = Private | Group

  /** The role a member holds inside one room (not the account-wide role tag). */
  datatype MemberRole = Admin | Moderator | Member

  datatype RoomMember = RoomMember(userId: UserId, role: MemberRole)

  /** One entry of a room's message log. `kind` is the client-supplied type tag
      ("text", "image", ..., or "system" for server messages); the formatted
      clock string `time` is not modelled. A field the source leaves out of a
      record (edited/deleted on system messages) reads as false. */
  datatype Message = Message(
    id: MessageId,
    userId: UserId,
    username: string,
    pic: string,
    kind: string,
    content: string,
    fileName: Option<string>,
    replyTo: Option<MessageId>,
    timestamp: int,
    readBy: seq<UserId>,
    reactions: map<string, seq<UserId>>,
    edited: bool,
    deleted: bool)

  /** The `settings` blob of a room row. An absent key reads as false, 0 or None. */
  datatype Settings = Settings(
    locked: bool,
    expiresIn: int,
    pinnedMessageId: Option<MessageId>,
    inviteCode: Option<string>,
    name: Option<string>,
    icon: Option<string>)

  /** A row of the `rooms` table, with its JSON columns already parsed
      (a missing column reads as the empty list or the empty settings). */
  datatype RoomRow = RoomRow(
    kind: RoomType,
    members: seq<RoomMember>,
    messages: seq<Message>,
    settings: Settings)

  /** The aggregate `getRoom` builds: the row plus the virtual fields it
      derives from settings. */
  datatype Room = Room(
    id: RoomId,
    kind: RoomType,
    members: seq<RoomMember>,
    messages: seq<Message>,
    settings: Settings,
    name: Option<string>,
    icon: Option<string>,
    inviteCode: Option<string>,
    pinnedMessageId: Option<MessageId>)

  /** The `data` JSON column of a user row (a missing list reads as empty). */
  datatype UserData = UserData(
    profilePic: string,
    friends: seq<UserId>,
    friendRequests: seq<UserId>,
    blocked: seq<UserId>,
    roleExpiresAt: Option<int>)

  /** A row of the `users` table (credentials are not modelled). */
  datatype UserRow = UserRow(username: string, role: string, banned: bool, data: UserData)

  /** The flattened user object `getUser` returns. */
  datatype User = User(
    id: UserId,
    username: string,
    role: string,
    banned: bool,
    profilePic: string,
    friends: seq<UserId>,
    friendRequests: seq<UserId>,
    blocked: seq<UserId>,
    roleExpiresAt: Option<int>)

  /** One entry of a music session's chat. */
  datatype ChatEntry = ChatEntry(id: string, username: string, pic: string, text: string)

  /** One listener shown in a music session. */
  datatype Listener = Listener(id: UserId, username: string, pic: string)

  /** What a storage write touches. */
  datatype Target =
    | RoomRecord(room: RoomId)         // saveRoom: members, messages and settings
    | RoomMembers(room: RoomId)        // UPDATE rooms SET members
    | RoomMessages(room: RoomId)       // UPDATE rooms SET messages
    | NewRoom(room: RoomId)            // createRoom
    | UserRecord(user: UserId)         // saveUser
    | MusicChatColumn(session: SessionId)

  /** Who a socket emit reaches. */
  datatype Channel =
    | RoomChannel(room: RoomId)        // io.to(roomId)
    | UserChannel(user: UserId)        // io.to(`user_${id}`)
    | MusicChannel(session: SessionId) // io.to(`music_${id}`)
    | Caller                           // socket.emit, the acting socket only
    | Others                           // socket.broadcast, every other socket

  datatype Payload =
    | ReceiveMessage(msg: Message)
    | LocalNotice(content: string, timestamp: int)
    | Notification(title: string, body: string)
    | FriendMsg(text: string)
    | RefreshDashboard
    | ReceiveMusicChat(entry: ChatEntry)
    | MusicMembers(listeners: seq<Listener>)
    | UserStatus(user: UserId, online: bool)

  /** The observable effects of the server, in the order they happen. */
  datatype Effect = Write(target: Target) | Emit(to: Channel, payload: Payload)
}
