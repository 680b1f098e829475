/** The server's process state and its handlers. The store is the `users`,
    `rooms` and `music_sessions` tables; `order` is the order in which a full
    scan of `rooms` returns its rows; `log` records every storage write and
    every socket emit in the order they happen. Clock readings and fresh ids
    are parameters. */
module Server {
  import opened Seqs
  import opened ChatModel
  import opened Rooms
  import opened Users
  import opened Expiry
  import opened Delivery
  import opened MusicChat

  datatype FriendVerb = Add | Accept | Reject | UnknownVerb

  datatype ProtectOutcome = ToLogin | BannedPage | Admitted(user: User)

  datatype MusicOutcome = NoSession | MusicFault | Posted(entry: ChatEntry)

  /** The message-column writes a sweep makes, in table order. */
  function SweepWrites(ids: seq<RoomId>, rows: map<RoomId, RoomRow>, now: int): seq<Effect>
  {
    if ids == [] then []
    else
      var last := ids[|ids| - 1];
      SweepWrites(ids[..|ids| - 1], rows, now)
        + (if last in rows && Rewrites(rows[last], now) then [Write(RoomMessages(last))] else [])
  }

  /** A sweep writes a room exactly when its filtered log is shorter. */
  lemma {:induction false} SweepWritesExactly(ids: seq<RoomId>, rows: map<RoomId, RoomRow>, now: int, id: RoomId)
    ensures Write(RoomMessages(id)) in SweepWrites(ids, rows, now) <==> id in ids && id in rows && Rewrites(rows[id], now)
  {
    if ids != [] {
      var init := ids[..|ids| - 1];
      SweepWritesExactly(init, rows, now, id);
      assert ids == init + [ids[|ids| - 1]];
    }
  }

  /** Every room after one pass of the sweeper. */
  ghost function SweptRooms(rows: map<RoomId, RoomRow>, now: int): (r: map<RoomId, RoomRow>)
    ensures r.Keys == rows.Keys
    ensures forall id :: id in rows ==> r[id] == SweepRow(rows[id], now)
  {
    map id | id in rows :: SweepRow(rows[id], now)
  }

  /** The rooms part-way through a pass: those in `ids` have been swept. */
  ghost function SweptPrefix(ids: seq<RoomId>, rows: map<RoomId, RoomRow>, now: int): (r: map<RoomId, RoomRow>)
    ensures r.Keys == rows.Keys
  {
    if ids == [] then rows
    else
      var last := ids[|ids| - 1];
      var m := SweptPrefix(ids[..|ids| - 1], rows, now);
      if last in rows then m[last := SweepRow(rows[last], now)] else m
  }

  /** Part-way through a pass, a room is swept exactly when it has been visited. */
  lemma {:induction false} SweptPrefixAt(ids: seq<RoomId>, rows: map<RoomId, RoomRow>, now: int)
    ensures forall id :: id in rows ==>
      SweptPrefix(ids, rows, now)[id] == if id in ids then SweepRow(rows[id], now) else rows[id]
  {
    if ids != [] {
      var init := ids[..|ids| - 1];
      SweptPrefixAt(init, rows, now);
      assert ids == init + [ids[|ids| - 1]];
    }
  }

  /** One more room visited: the room had not been touched before, and the
      prefix map and the write log each grow by that room's step. */
  lemma SweepStep(order: seq<RoomId>, rows: map<RoomId, RoomRow>, now: int, i: nat,
                  swept: map<RoomId, RoomRow>, written: seq<Effect>)
    requires OrderCovers(order, rows) && i < |order|
    requires swept == SweptPrefix(order[..i], rows, now)
    requires written == SweepWrites(order[..i], rows, now)
    ensures order[i] in swept && swept[order[i]] == rows[order[i]]
    ensures Rewrites(rows[order[i]], now) ==>
      && swept[order[i] := SweepRow(rows[order[i]], now)] == SweptPrefix(order[..i + 1], rows, now)
      && written + [Write(RoomMessages(order[i]))] == SweepWrites(order[..i + 1], rows, now)
    ensures !Rewrites(rows[order[i]], now) ==>
      && swept == SweptPrefix(order[..i + 1], rows, now)
      && written == SweepWrites(order[..i + 1], rows, now)
  {
    var id := order[i];
    assert Listed(order, rows, id);
    assert order[..i + 1][..i] == order[..i];
    assert id !in order[..i];
    SweptPrefixAt(order[..i], rows, now);
    if !Rewrites(rows[id], now) {
      assert swept[id := SweepRow(rows[id], now)] == swept;
    }
  }

  /** A pass over every room in `order` sweeps the whole table. */
  lemma SweepCovers(order: seq<RoomId>, rows: map<RoomId, RoomRow>, now: int)
    requires OrderCovers(order, rows)
    ensures SweptPrefix(order, rows, now) == SweptRooms(rows, now)
  {
    SweptPrefixAt(order, rows, now);
    forall id | id in rows ensures id in order {
      assert Listed(order, rows, id);
    }
  }

  /** The sweeper never touches members or room types, so the store
      invariant survives it. */
  lemma SweepKeepsInvariant(order: seq<RoomId>, rows: map<RoomId, RoomRow>, now: int)
    requires StoreInvariant(order, rows)
    ensures StoreInvariant(order, SweptRooms(rows, now))
  {
    var r := SweptRooms(rows, now);
    forall a, b ensures DistinctPairs(r, a, b) {
      assert DistinctPairs(rows, a, b);
    }
    forall x ensures Listed(order, r, x) && Shaped(r, x) {
      assert Listed(order, rows, x) && Shaped(rows, x);
    }
  }

  /** The sweeper's work on one stored room: filter its log, and report
      whether the message column must be written back (the filter dropped
      something). */
  method SweepRoom(row: RoomRow, now: int) returns (swept: RoomRow, changed: bool)
    ensures swept == SweepRow(row, now)
    ensures changed <==> Rewrites(row, now)
    ensures !changed ==> swept == row
  {
    swept, changed := row, false;
    if row.settings.expiresIn > 0 {
      var kept := Survivors(row.messages, now, row.settings);
      if |kept| != |row.messages| {
        swept, changed := row.(messages := kept), true;
      }
    }
  }

  /** The sweeper's pass over the rows in table order: every room swept, and
      the message-column writes it makes, in that order. */
  method SweepAll(order: seq<RoomId>, rows: map<RoomId, RoomRow>, now: int)
    returns (swept: map<RoomId, RoomRow>, written: seq<Effect>)
    requires OrderCovers(order, rows)
    ensures swept == SweptRooms(rows, now)
    ensures written == SweepWrites(order, rows, now)
  {
    swept, written := rows, [];
    var i := 0;
    while i < |order|
      invariant 0 <= i <= |order|
      invariant swept == SweptPrefix(order[..i], rows, now)
      invariant written == SweepWrites(order[..i], rows, now)
    {
      SweepStep(order, rows, now, i, swept, written);
      var id := order[i];
      var row, changed := SweepRoom(swept[id], now);
      if changed {
        swept, written := swept[id := row], written + [Write(RoomMessages(id))];
      }
      i := i + 1;
    }
    assert order[..i] == order;
    SweepCovers(order, rows, now);
  }

  /** The writes of a successful `/join-group/:code`: the member list is saved
      with the joiner appended, then `createSystemMessage` reads the message
      column back, appends the announcement, saves it and broadcasts it. */
  method JoinRoom(rows: map<RoomId, RoomRow>, id: RoomId, userId: UserId, announcement: Message)
    returns (rows': map<RoomId, RoomRow>, writes: seq<Effect>)
    requires id in rows && rows[id].kind == Group
    ensures rows' == rows[id := JoinedRow(rows[id], userId, announcement)]
    ensures writes == [Write(RoomMembers(id)), Write(RoomMessages(id)), Emit(RoomChannel(id), ReceiveMessage(announcement))]
  {
    var row := rows[id];
    rows' := rows[id := row.(members := row.members + [RoomMember(userId, Member)])];
    writes := [Write(RoomMembers(id))];
    var row2 := rows'[id];
    rows' := rows'[id := row2.(messages := row2.messages + [announcement])];
    writes := writes + [Write(RoomMessages(id)), Emit(RoomChannel(id), ReceiveMessage(announcement))];
    assert rows' == rows[id := JoinedRow(row, userId, announcement)];
  }

  class ChatServer {
    var users: map<UserId, UserRow>
    var rooms: map<RoomId, RoomRow>
    var order: seq<RoomId>
    var musicChats: map<SessionId, seq<ChatEntry>>
    var listeners: map<SessionId, seq<Listener>>
    var online: set<UserId>
    var log: seq<Effect>

    ghost predicate Valid()
      reads this
    {
      && StoreInvariant(order, rooms)
      && (forall s :: s in musicChats ==> |musicChats[s]| <= ChatLimit)
    }

    /** Server start: the tables come as they were persisted in the database;
        the in-memory presence and listener maps and the effect log start empty. */
    constructor (users0: map<UserId, UserRow>, rooms0: map<RoomId, RoomRow>, order0: seq<RoomId>,
                 musicChats0: map<SessionId, seq<ChatEntry>>)
      requires StoreInvariant(order0, rooms0)
      requires forall s :: s in musicChats0 ==> |musicChats0[s]| <= ChatLimit
      ensures Valid()
      ensures users == users0 && rooms == rooms0 && order == order0 && musicChats == musicChats0
      ensures listeners == map[] && online == {} && log == []
    {
      users, rooms, order := users0, rooms0, order0;
      musicChats, listeners, online, log := musicChats0, map[], {}, [];
    }

    // ------------------------------------------------------ expiry sweeper

    /** One pass of the periodic sweeper over every room, in table order. */
    method SweepExpired(now: int)
      requires Valid()
      modifies this`rooms, this`log
      ensures Valid()
      ensures rooms == SweptRooms(old(rooms), now)
      ensures log == old(log) + SweepWrites(order, old(rooms), now)
    {
      var swept, written := SweepAll(order, rooms, now);
      SweepKeepsInvariant(order, rooms, now);
      rooms, log := swept, log + written;
    }

    // --------------------------------------------------------- send_message

    method SendMessage(roomId: RoomId, userId: UserId, kind: string, content: string,
                       fileName: Option<string>, replyTo: Option<MessageId>, msgId: MessageId, now: int)
      returns (verdict: SendVerdict)
      requires Valid()
      modifies this`rooms, this`log
      ensures Valid()
      ensures verdict == SendGate(old(rooms), users, roomId, userId)
      ensures !verdict.Accepted? ==> rooms == old(rooms)
      ensures verdict == BlockedByPeer ==> log == old(log) + [Emit(Caller, LocalNotice(BlockedNotice, now))]
      ensures !verdict.Accepted? && verdict != BlockedByPeer ==> log == old(log)
      ensures verdict.Accepted? ==>
        var row := old(rooms)[roomId];
        var msg := NewMessage(msgId, verdict.sender, kind, content, fileName, replyTo, now);
        && msg.userId == userId && msg.readBy == [userId] && msg.reactions == map[]
        && !msg.edited && !msg.deleted && msg.timestamp == now
        && rooms == old(rooms)[roomId := row.(messages := row.messages + [msg], settings := SettingsAfterRoundTrip(row))]
        && log == old(log) + [Write(RoomRecord(roomId)), Emit(RoomChannel(roomId), ReceiveMessage(msg))]
    {
      verdict := SendGate(rooms, users, roomId, userId);
      if verdict == BlockedByPeer {
        log := log + [Emit(Caller, LocalNotice(BlockedNotice, now))];
      } else if verdict.Accepted? {
        var stored := rooms[roomId];
        var r := GetRoom(roomId, stored);
        var msg := NewMessage(msgId, verdict.sender, kind, content, fileName, replyTo, now);
        r := r.(messages := r.messages + [msg]);
        SaveAfterGetRoom(roomId, stored, stored.messages + [msg]);
        GroupUpdateKeepsInvariant(order, rooms, roomId, SaveRoom(stored, r));
        rooms := rooms[roomId := SaveRoom(stored, r)];
        log := log + [Write(RoomRecord(roomId)), Emit(RoomChannel(roomId), ReceiveMessage(msg))];
      }
    }

    // ---------------------------------------------------- /join-group/:code

    /** `myId` is the session user, whose row `protect` has just loaded. */
    method JoinGroup(myId: UserId, code: string, msgId: MessageId, now: int) returns (verdict: JoinVerdict)
      requires Valid() && myId in users
      modifies this`rooms, this`log
      ensures Valid()
      ensures verdict == JoinGate(order, old(rooms), users, myId, code)
      ensures !verdict.Joins? ==> rooms == old(rooms) && log == old(log)
      ensures verdict.Joins? ==>
        var id := verdict.room;
        var announcement := SystemMessage(msgId, JoinText(users[myId].username), now);
        && rooms == old(rooms)[id := JoinedRow(old(rooms)[id], myId, announcement)]
        && log == old(log) + [Write(RoomMembers(id)), Write(RoomMessages(id)), Emit(RoomChannel(id), ReceiveMessage(announcement))]
    {
      verdict := JoinGate(order, rooms, users, myId, code);
      if verdict.Joins? {
        var id := verdict.room;
        var announcement := SystemMessage(msgId, JoinText(users[myId].username), now);
        var joined, writes := JoinRoom(rooms, id, myId, announcement);
        GroupUpdateKeepsInvariant(order, rooms, id, JoinedRow(rooms[id], myId, announcement));
        rooms, log := joined, log + writes;
      }
    }

    // ------------------------------------------------- /chat/create-private

    /** `myId` is the session user; `newId` is the fresh id of a room that
        would be created. */
    method CreatePrivate(myId: UserId, targetId: UserId, newId: RoomId) returns (verdict: CreateVerdict)
      requires Valid() && myId in users && newId !in rooms
      modifies this`rooms, this`order, this`log
      ensures Valid()
      ensures verdict == CreateGate(old(order), old(rooms), users, myId, targetId)
      ensures !verdict.Creates? ==> rooms == old(rooms) && order == old(order) && log == old(log)
      ensures verdict.Creates? ==>
        && rooms == old(rooms)[newId := PrivateRoomRow(myId, targetId)]
        && order == old(order) + [newId]
        && log == old(log) + [Write(NewRoom(newId))]
    {
      verdict := CreateGate(order, rooms, users, myId, targetId);
      if verdict.Creates? {
        PrivateRoomInsertKeepsInvariant(order, rooms, myId, targetId, newId);
        rooms, order, log := rooms[newId := PrivateRoomRow(myId, targetId)], order + [newId], log + [Write(NewRoom(newId))];
      }
    }

    // -------------------------------------------------------- friend_action

    method FriendAction(verb: FriendVerb, targetId: UserId, userId: UserId)
      modifies this`users, this`log
      ensures userId !in old(users) || targetId !in old(users) ==> users == old(users) && log == old(log)
      ensures userId in old(users) && targetId in old(users) ==>
        var me := GetUser(userId, old(users)[userId]);
        var target := GetUser(targetId, old(users)[targetId]);
        && (verb == Add && RequestFriend(target, userId) != target ==>
              && users == old(users)[targetId := SaveUser(RequestFriend(target, userId))]
              && log == old(log) + [Write(UserRecord(targetId)),
                                    Emit(UserChannel(targetId), Notification("Friend Request", me.username + " ingin berteman")),
                                    Emit(Caller, FriendMsg("Request sent!"))])
        && (verb == Accept && targetId in me.friendRequests ==>
              && users == old(users)[userId := SaveUser(AcceptFriend(me, target).0)][targetId := SaveUser(AcceptFriend(me, target).1)]
              && log == old(log) + [Write(UserRecord(userId)), Write(UserRecord(targetId)),
                                    Emit(Caller, RefreshDashboard), Emit(UserChannel(targetId), RefreshDashboard)])
        && (verb == Reject ==>
              && users == old(users)[userId := SaveUser(RejectFriend(me, targetId))]
              && log == old(log) + [Write(UserRecord(userId)), Emit(Caller, RefreshDashboard)])
        && (|| (verb == Add && RequestFriend(target, userId) == target)
            || (verb == Accept && targetId !in me.friendRequests)
            || verb == UnknownVerb
            ==> users == old(users) && log == old(log))
    {
      if userId !in users || targetId !in users {
        return;
      }
      var me := GetUser(userId, users[userId]);
      var target := GetUser(targetId, users[targetId]);
      match verb {
        case Add =>
          if userId !in target.friendRequests && userId !in target.friends {
            users := users[targetId := SaveUser(RequestFriend(target, userId))];
            log := log + [Write(UserRecord(targetId)),
                          Emit(UserChannel(targetId), Notification("Friend Request", me.username + " ingin berteman")),
                          Emit(Caller, FriendMsg("Request sent!"))];
          }
        case Accept =>
          if targetId in me.friendRequests {
            var (me', target') := AcceptFriend(me, target);
            users := users[userId := SaveUser(me')];
            users := users[targetId := SaveUser(target')];
            log := log + [Write(UserRecord(userId)), Write(UserRecord(targetId)),
                          Emit(Caller, RefreshDashboard), Emit(UserChannel(targetId), RefreshDashboard)];
          }
        case Reject =>
          users := users[userId := SaveUser(RejectFriend(me, targetId))];
          log := log + [Write(UserRecord(userId)), Emit(Caller, RefreshDashboard)];
        case UnknownVerb =>
      }
    }

    // ----------------------------------------------------- send_music_chat

    method SendMusicChat(sessionId: SessionId, text: string, userId: UserId, entryId: string)
      returns (outcome: MusicOutcome)
      requires Valid()
      modifies this`musicChats, this`log
      ensures Valid()
      ensures sessionId !in old(musicChats) ==> outcome == NoSession && musicChats == old(musicChats) && log == old(log)
      ensures sessionId in old(musicChats) && userId !in users ==>
        outcome == MusicFault && musicChats == old(musicChats) && log == old(log)
      ensures sessionId in old(musicChats) && userId in users ==>
        var e := ChatEntry(entryId, users[userId].username, users[userId].data.profilePic, text);
        && outcome == Posted(e)
        && musicChats == old(musicChats)[sessionId := AppendBounded(old(musicChats)[sessionId], e)]
        && log == old(log) + [Write(MusicChatColumn(sessionId)), Emit(MusicChannel(sessionId), ReceiveMusicChat(e))]
    {
      if sessionId !in musicChats {
        return NoSession;
      }
      var chat := musicChats[sessionId];
      if userId !in users {
        return MusicFault;
      }
      var u := GetUser(userId, users[userId]);
      var e := ChatEntry(entryId, u.username, u.profilePic, text);
      chat := chat + [e];
      if |chat| > ChatLimit {
        chat := chat[1..];
      }
      musicChats := musicChats[sessionId := chat];
      log := log + [Write(MusicChatColumn(sessionId)), Emit(MusicChannel(sessionId), ReceiveMusicChat(e))];
      outcome := Posted(e);
    }

    // ------------------------------------------------- time-limited roles

    /** `/admin/update-user` (behind the admin-only guard). */
    method UpdateUserRole(userId: UserId, role: string, value: Option<int>, unit: string, now: int)
      modifies this`users, this`log
      ensures userId !in old(users) ==> users == old(users) && log == old(log)
      ensures userId in old(users) ==>
        && users == old(users)[userId := SaveUser(UpdateRole(GetUser(userId, old(users)[userId]), role, value, unit, now))]
        && log == old(log) + [Write(UserRecord(userId))]
    {
      if userId in users {
        var u := GetUser(userId, users[userId]);
        u := u.(role := role);
        if value.Some? && value.value > 0 && unit != "permanent" {
          u := u.(roleExpiresAt := Some(now + value.value * UnitMillis(unit)));
        } else {
          u := u.(roleExpiresAt := None);
        }
        users := users[userId := SaveUser(u)];
        log := log + [Write(UserRecord(userId))];
      }
    }

    /** The `protect` guard in front of every authenticated route. */
    method Protect(session: Option<UserId>, now: int) returns (outcome: ProtectOutcome)
      modifies this`users, this`log
      ensures session.None? || session.value !in old(users) ==>
        outcome == ToLogin && users == old(users) && log == old(log)
      ensures session.Some? && session.value in old(users) && old(users)[session.value].banned ==>
        outcome == BannedPage && users == old(users) && log == old(log)
      ensures session.Some? && session.value in old(users) && !old(users)[session.value].banned ==>
        var u := GetUser(session.value, old(users)[session.value]);
        && outcome == Admitted(RefreshRole(u, now))
        && (RefreshRole(u, now) == u ==> users == old(users) && log == old(log))
        && (RefreshRole(u, now) != u ==>
              && users == old(users)[session.value := SaveUser(RefreshRole(u, now))]
              && log == old(log) + [Write(UserRecord(session.value))])
    {
      if session.None? || session.value !in users {
        return ToLogin;
      }
      var id := session.value;
      var u := GetUser(id, users[id]);
      if u.banned {
        return BannedPage;
      }
      if u.roleExpiresAt.Some? && u.roleExpiresAt.value != 0 && now > u.roleExpiresAt.value {
        if u.role != "user" {
          u := u.(role := "user", roleExpiresAt := None);
          users := users[id := SaveUser(u)];
          log := log + [Write(UserRecord(id))];
        }
      }
      outcome := Admitted(u);
    }

    // ------------------------------------------------------------ presence

    /** A socket connects; `uid` is the handshake's user id, if any. */
    method Connect(uid: Option<UserId>)
      modifies this`online, this`log
      ensures Present(uid) ==> online == old(online) + {uid.value} && log == old(log) + [Emit(Others, UserStatus(uid.value, true))]
      ensures !Present(uid) ==> online == old(online) && log == old(log)
    {
      if Present(uid) {
        online := online + {uid.value};
        log := log + [Emit(Others, UserStatus(uid.value, true))];
      }
    }

    /** `join_music_room`; `uid` is the socket's handshake user id, if any.
        The user lookup is made whatever `uid` is and finds nothing for a
        missing one. */
    method JoinMusicRoom(sessionId: SessionId, uid: Option<UserId>)
      modifies this`listeners, this`log
      ensures var before := if sessionId in old(listeners) then old(listeners)[sessionId] else [];
        var after := if uid.Some? && uid.value in users
                     then JoinListener(before, Listener(uid.value, users[uid.value].username, users[uid.value].data.profilePic))
                     else before;
        && listeners == old(listeners)[sessionId := after]
        && log == old(log) + [Emit(MusicChannel(sessionId), MusicMembers(after))]
    {
      if sessionId !in listeners {
        listeners := listeners[sessionId := []];
      }
      if uid.Some? && uid.value in users {
        var u := GetUser(uid.value, users[uid.value]);
        var list := listeners[sessionId];
        if !(exists i :: 0 <= i < |list| && list[i].id == u.id) {
          listeners := listeners[sessionId := list + [Listener(u.id, u.username, u.profilePic)]];
        }
      }
      log := log + [Emit(MusicChannel(sessionId), MusicMembers(listeners[sessionId]))];
    }

    /** A socket closes. The user is marked offline whatever other sockets
        they still have open. `musicRoom` is the music session the socket
        joined last, if any. */
    method Disconnect(uid: Option<UserId>, musicRoom: Option<SessionId>)
      modifies this`online, this`listeners, this`log
      ensures !Present(uid) ==> online == old(online) && listeners == old(listeners) && log == old(log)
      ensures Present(uid) ==> online == old(online) - {uid.value}
      ensures Present(uid) && !(Present(musicRoom) && musicRoom.value in old(listeners)) ==>
        listeners == old(listeners) && log == old(log) + [Emit(Others, UserStatus(uid.value, false))]
      ensures Present(uid) && Present(musicRoom) && musicRoom.value in old(listeners) ==>
        var m := musicRoom.value;
        var after := DropListener(old(listeners)[m], uid.value);
        && listeners == old(listeners)[m := after]
        && log == old(log) + [Emit(Others, UserStatus(uid.value, false)), Emit(MusicChannel(m), MusicMembers(after))]
    {
      if Present(uid) {
        online := online - {uid.value};
        log := log + [Emit(Others, UserStatus(uid.value, false))];
        if Present(musicRoom) && musicRoom.value in listeners {
          var m := musicRoom.value;
          listeners := listeners[m := DropListener(listeners[m], uid.value)];
          log := log + [Emit(MusicChannel(m), MusicMembers(listeners[m]))];
        }
      }
    }
  }

  /** Two open sessions of the same user and one of them closes: the user is
      reported offline although a session is still open. */
  method TwoSessionsOneClosed(s: ChatServer, uid: UserId)
    requires uid != ""
    modifies s
    ensures uid !in s.online
  {
    s.Connect(Some(uid));
    s.Connect(Some(uid));
    s.Disconnect(Some(uid), None);
  }
}
