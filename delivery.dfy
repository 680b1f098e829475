/** The decisions of the room handlers: the gates of `send_message`,
    `/join-group/:code` and `/chat/create-private`, and the message records
    they append. */
module Delivery {
  import opened Seqs
  import opened ChatModel
  import opened Rooms
  import opened Users

  // ------------------------------------------------------------ send_message

  /** How `send_message` ends. `Fault` is a TypeError thrown by the handler
      (no other member in a private room, or a user id with no row), which
      aborts it before anything is written. */
  datatype SendVerdict = NoRoom | NotPermitted | BlockedByPeer | Fault | Accepted(sender: User)

  function SenderLookup(users: map<UserId, UserRow>, userId: UserId): SendVerdict {
    if userId in users then Accepted(GetUser(userId, users[userId])) else Fault
  }

  /** The checks `send_message` makes, in the order it makes them: the room
      exists; a locked room admits only an admin or moderator member; in a
      private room the other member must exist and must not have blocked the
      sender; the sender's own row must exist. */
  function SendGate(rooms: map<RoomId, RoomRow>, users: map<UserId, UserRow>, roomId: RoomId, userId: UserId): SendVerdict {
    if roomId !in rooms then NoRoom
    else
      var row := rooms[roomId];
      if row.settings.locked && !MaySendWhenLocked(row.members, userId) then NotPermitted
      else if row.kind == Private then
        match OtherMember(row.members, userId)
        case None => Fault
        case Some(other) =>
          if other !in users then Fault
          else if userId in GetUser(other, users[other]).blocked then BlockedByPeer
          else SenderLookup(users, userId)
      else SenderLookup(users, userId)
  }

  /** The record a successful send appends: authored by the sender, read by
      the sender only, no reactions, neither edited nor deleted. */
  function NewMessage(id: MessageId, sender: User, kind: string, content: string,
                      fileName: Option<string>, replyTo: Option<MessageId>, now: int): Message {
    Message(id, sender.id, sender.username, sender.profilePic, kind, content, fileName, replyTo,
            now, [sender.id], map[], false, false)
  }

  /** The notice a blocked sender's own socket receives instead of delivery. */
  const BlockedNotice := "Anda diblokir"

  /** In a locked room only a user with an admin or moderator entry in the
      member list gets past the gate. */
  lemma LockedRoomAdmitsOnlyModerators(rooms: map<RoomId, RoomRow>, users: map<UserId, UserRow>, roomId: RoomId, userId: UserId)
    requires roomId in rooms && rooms[roomId].settings.locked
    ensures SendGate(rooms, users, roomId, userId).Accepted? || SendGate(rooms, users, roomId, userId) == BlockedByPeer
        ==> RoomMember(userId, Admin) in rooms[roomId].members || RoomMember(userId, Moderator) in rooms[roomId].members
  {
    var ms := rooms[roomId].members;
    if MaySendWhenLocked(ms, userId) {
      var i := FindMember(ms, userId).value;
      assert ms[i] == RoomMember(userId, ms[i].role);
    }
  }

  /** An unlocked group room makes no membership check at all: any user with
      a row may post to it. */
  lemma UnlockedGroupAdmitsAnyUser(rooms: map<RoomId, RoomRow>, users: map<UserId, UserRow>, roomId: RoomId, userId: UserId)
    requires roomId in rooms && rooms[roomId].kind == Group && !rooms[roomId].settings.locked
    ensures SendGate(rooms, users, roomId, userId) == (if userId in users then Accepted(GetUser(userId, users[userId])) else Fault)
  {
  }

  /** In a private room of two distinct users each one's "other member" is
      the peer, and a third party's is the first member. */
  lemma PrivatePeer(a: UserId, b: UserId, c: UserId)
    requires a != b
    ensures OtherMember(PrivateRoomRow(a, b).members, a) == Some(b)
    ensures OtherMember(PrivateRoomRow(a, b).members, b) == Some(a)
    ensures c != a ==> OtherMember(PrivateRoomRow(a, b).members, c) == Some(a)
  {
    var ms := PrivateRoomRow(a, b).members;
    assert ms[0].userId == a && ms[1].userId == b;
  }

  /** In a private room between `a` and `b`, whichever of the two created it
      and whether or not it is locked, a message from `a` is suppressed
      exactly when `b` has blocked `a`, and is otherwise accepted. */
  lemma PrivateBlockSuppresses(rooms: map<RoomId, RoomRow>, users: map<UserId, UserRow>, roomId: RoomId, a: UserId, b: UserId)
    requires a != b && a in users && b in users
    requires roomId in rooms && rooms[roomId].kind == Private
    requires rooms[roomId].members == PrivateRoomRow(a, b).members || rooms[roomId].members == PrivateRoomRow(b, a).members
    ensures SendGate(rooms, users, roomId, a) == BlockedByPeer <==> a in users[b].data.blocked
    ensures SendGate(rooms, users, roomId, a) != BlockedByPeer ==> SendGate(rooms, users, roomId, a).Accepted?
  {
    var ms := rooms[roomId].members;
    PrivatePeer(a, b, a);
    PrivatePeer(b, a, a);
    assert OtherMember(ms, a) == Some(b);
    assert MaySendWhenLocked(ms, a) by {
      assert ms[0].userId == a || ms[1].userId == a;
    }
  }

  // ------------------------------------------------------ /join-group/:code

  datatype JoinVerdict = InvalidLink | BlockedByAdmin(room: RoomId) | AlreadyMember(room: RoomId) | Joins(room: RoomId)

  /** The first admin member of the room has a row and has blocked `userId`. */
  predicate AdminBlocks(users: map<UserId, UserRow>, members: seq<RoomMember>, userId: UserId) {
    match FirstAdmin(members)
    case None => false
    case Some(a) => a in users && userId in GetUser(a, users[a]).blocked
  }

  /** The decisions of `/join-group/:code`, in order: find the room by code,
      refuse if its first admin blocked the joiner, do nothing if already a
      member, else join. */
  function JoinGate(order: seq<RoomId>, rooms: map<RoomId, RoomRow>, users: map<UserId, UserRow>, userId: UserId, code: string): JoinVerdict {
    match FindInvite(order, rooms, code)
    case None => InvalidLink
    case Some(id) =>
      if AdminBlocks(users, rooms[id].members, userId) then BlockedByAdmin(id)
      else if IsMember(rooms[id].members, userId) then AlreadyMember(id)
      else Joins(id)
  }

  /** `createSystemMessage`'s record: author "system", nobody has read it. */
  function SystemMessage(id: MessageId, text: string, now: int): Message {
    Message(id, "system", "System", "", "system", text, None, None, now, [], map[], false, false)
  }

  function JoinText(username: string): string {
    username + " bergabung melalui tautan"
  }

  /** A successful join: one member entry and one system message appended. */
  function JoinedRow(row: RoomRow, userId: UserId, announcement: Message): RoomRow {
    row.(members := row.members + [RoomMember(userId, Member)], messages := row.messages + [announcement])
  }

  /** Joining is idempotent: once joined, the same link finds the same room
      and reports the user as a member. */
  lemma JoinTwiceIsNoOp(order: seq<RoomId>, rooms: map<RoomId, RoomRow>, users: map<UserId, UserRow>,
                        userId: UserId, code: string, announcement: Message)
    requires JoinGate(order, rooms, users, userId, code).Joins?
    ensures var id := JoinGate(order, rooms, users, userId, code).room;
      JoinGate(order, rooms[id := JoinedRow(rooms[id], userId, announcement)], users, userId, code) == AlreadyMember(id)
  {
    var id := FindInvite(order, rooms, code).value;
    var joined := JoinedRow(rooms[id], userId, announcement);
    var rooms' := rooms[id := joined];
    FindInviteIgnoresMembers(order, rooms, id, joined, code);
    assert FindInvite(order, rooms', code) == Some(id);
    FirstAdminAppend(rooms[id].members, RoomMember(userId, Member));
    assert !AdminBlocks(users, rooms'[id].members, userId);
    assert joined.members[|rooms[id].members|].userId == userId;
    assert IsMember(rooms'[id].members, userId);
  }

  /** The invite lookup reads only the type and settings of each room. */
  lemma FindInviteIgnoresMembers(order: seq<RoomId>, rooms: map<RoomId, RoomRow>, id: RoomId, row: RoomRow, code: string)
    requires id in rooms && row.kind == rooms[id].kind && row.settings == rooms[id].settings
    ensures FindInvite(order, rooms[id := row], code) == FindInvite(order, rooms, code)
  {
    var rooms' := rooms[id := row];
    FirstIndexSame(order, (x: RoomId) => InviteMatches(rooms, x, code), (x: RoomId) => InviteMatches(rooms', x, code));
  }

  /** Appending a non-admin member does not change who the first admin is. */
  lemma FirstAdminAppend(ms: seq<RoomMember>, m: RoomMember)
    requires m.role != Admin
    ensures FirstAdmin(ms + [m]) == FirstAdmin(ms)
  {
    var ms' := ms + [m];
    assert forall i :: 0 <= i < |ms| ==> ms'[i] == ms[i];
  }

  /** `FirstIndex` depends only on the predicate's values on the sequence. */
  lemma FirstIndexSame<T>(s: seq<T>, p: T -> bool, q: T -> bool)
    requires forall i :: 0 <= i < |s| ==> p(s[i]) == q(s[i])
    ensures FirstIndex(s, p) == FirstIndex(s, q)
  {
  }

  // --------------------------------------------------- /chat/create-private

  datatype CreateVerdict = NotFriends | BlockedByTarget | TargetMissing | Existing(room: RoomId) | Creates

  /** The decisions of `/chat/create-private`, in order: the target must be my
      friend; a missing target row throws; the target must not have blocked
      me; an existing private room with both of us is reused. */
  function CreateGate(order: seq<RoomId>, rooms: map<RoomId, RoomRow>, users: map<UserId, UserRow>, me: UserId, target: UserId): CreateVerdict
    requires me in users
  {
    if target !in GetUser(me, users[me]).friends then NotFriends
    else if target !in users then TargetMissing
    else if me in GetUser(target, users[target]).blocked then BlockedByTarget
    else match FindPrivatePair(order, rooms, me, target)
      case Some(id) => Existing(id)
      case None => Creates
  }

  /** After a room has been created for a pair, the duplicate check finds it,
      whichever of the two asks. */
  lemma CreatedRoomIsFound(order: seq<RoomId>, rooms: map<RoomId, RoomRow>, me: UserId, target: UserId, id: RoomId)
    requires StoreInvariant(order, rooms) && id !in rooms
    requires FindPrivatePair(order, rooms, me, target).None?
    ensures FindPrivatePair(order + [id], rooms[id := PrivateRoomRow(me, target)], me, target) == Some(id)
    ensures FindPrivatePair(order + [id], rooms[id := PrivateRoomRow(me, target)], target, me) == Some(id)
  {
    var rooms' := rooms[id := PrivateRoomRow(me, target)];
    var order' := order + [id];
    var ms := PrivateRoomRow(me, target).members;
    assert ms[0].userId == me && ms[1].userId == target;
    assert IsMember(ms, me) && IsMember(ms, target);
    forall i | 0 <= i < |order| ensures !PairMatches(rooms', order'[i], me, target) && !PairMatches(rooms', order'[i], target, me) {
      assert Listed(order, rooms, order[i]);
      assert order'[i] == order[i] && order[i] in rooms;
      assert !PairMatches(rooms, order[i], me, target);
    }
    assert order'[|order|] == id;
    assert PairMatches(rooms', id, me, target) && PairMatches(rooms', id, target, me);
  }
}
