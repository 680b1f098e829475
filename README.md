# genZChat server core in Dafny

This project models the room and message rules in genZChat's `server.js`, along with the small state updates around them:

- the periodic expiry sweeper;
- the `send_message` socket handler;
- invite links (`/join-group/:code`);
- private-chat creation (`/chat/create-private`);
- the friend-request state machine (`friend_action`);
- the bounded chat log of a music session (`send_music_chat`);
- the listener list of a music session;
- time-limited roles (`/admin/update-user` together with the expiry check in `protect`);
- the online-user set.

The process state lives in `Server.ChatServer`. Its fields are:

- `users`, `rooms` and `musicChats`: the three stored tables, one entry per row.
- `order`: the order in which a full scan of `rooms` returns its rows. SQLite promises no such order; the model fixes one, in which a new row comes last. Every `find` over a table scan is therefore "the first match in `order`".
- `listeners`: the in-memory `musicRoomUsers` dictionary.
- `online`: the `onlineUsers` set.
- `log`: every storage write and every socket emit, in the order the handler makes them. Two promises can therefore be stated and checked: "saved before broadcast" and "written only when something changed".

The current time and fresh ids (`uuidv4`) are parameters. A handler that throws a `TypeError` does so before it writes anything. Two such cases are a private room with no other member and a user id with no row. The model ends such a handler in a `Fault`, `MusicFault` or `TargetMissing` outcome and changes no state. That matches the source only for the Express route `/create-private`, where Express turns the exception into an error response. In the Socket.IO handlers `send_message` and `send_music_chat` nothing catches the exception, so it ends the whole process (see "## Left out").

Modules:

- `Seqs`: Option, filter, first-match search and subsequence.
- `ChatModel`: the rows and effects.
- `Rooms`: `getRoom`/`saveRoom`/`createRoom`, member lookups, table scans and the invariant of the rooms table.
- `Users`: `getUser`/`saveUser`, role durations, `protect`'s downgrade and friend requests.
- `Expiry`: the sweeper's rule for one room.
- `MusicChat`: the bounded chat and the listener list.
- `Delivery`: the handlers' gates and the records they append.
- `Server`: the class and its handlers.

The invariant kept by every handler (`ChatServer.Valid`) has three parts, plus one about music chats:

- `order` lists each stored room exactly once.
- Every private room has exactly two members, both admins.
- No two private rooms belong to the same pair of users.
- Every music chat holds at most 50 entries.

## Model

| member | source | states |
|---|---|---|
| Rooms.SettingsAfterRoundTrip | server.js:129-174 | Loading a row and saving it back keeps `locked`, `expiresIn`, the pinned id, the invite code and the icon. For a private room, or a group that already has a name, the settings come back equal. |
| Rooms.SaveAfterGetRoom | server.js:129-174 | `saveRoom(getRoom(row))` with a new message log writes back that row with the new log. The only other change is the default group name "Group". No settings key is lost and the type column is untouched. |
| Rooms.RoundTripStable | server.js:129-151 | The settings rewrite of a round trip cannot be seen through `getRoom`, and it happens at most once. |
| Rooms.OtherMember | server.js:1075 | The "other member" of a private room is the first member, in list order, whose id differs from the sender's: every entry before it is the sender's own. It is absent exactly when every member is the sender. |
| Rooms.FirstAdmin | server.js:949 | The admin consulted by an invite join is the first member, in list order, with role admin: no entry before it has that role. There is none exactly when no member is an admin. |
| Rooms.LockGateAdmitsModerators | server.js:1069-1072 | When each user appears once in the member list, the lock gate admits a user if and only if their entry has role admin or moderator. |
| Rooms.FindInvite | server.js:936-943 | The invite lookup returns a group room with this code, and no earlier room in scan order has it. It returns nothing exactly when no group room has the code. |
| Rooms.FindPrivatePair | server.js:857-864 | The duplicate check returns a private room with both users as members, and no earlier private room in scan order has them. It returns nothing exactly when there is no such room. |
| Rooms.PrivateRoomInsertKeepsInvariant | server.js:857-872 | Inserting a new private room for a pair that has none keeps the table invariant. |
| Rooms.GroupUpdateKeepsInvariant | server.js:153-174 | Rewriting members or messages of a group room, or only messages and settings of any room, keeps the table invariant. |
| Users.GetUserAfterSaveUser | server.js:79-117 | The corrected `saveUser` followed by `getUser` gives the same user back. |
| Users.SaveUserAsWrittenLosesExpiry | server.js:100-117 | The `saveUser` as written, followed by `getUser`, gives the user back with `roleExpiresAt` dropped and nothing else changed. |
| Users.RoleExpiry | server.js:755-769 | The expiry is null exactly when the value is not a number, is not positive, or the unit is `permanent`. Otherwise it is `now + value * multiplier`. |
| Users.UnitMillisValues | server.js:759-766 | The multiplier is positive exactly for seconds, minutes, hours and days. The values are 1000, 60·1000, 60·60000 and 24·3600000. |
| Users.RefreshRole | server.js:337-344 | `protect` changes the user exactly when the expiry is truthy and in the past and the role is not "user". It then changes the role to "user", clears the expiry, and changes nothing else. |
| Users.RefreshRoleIdempotent | server.js:337-344 | A second check at the same time changes nothing. |
| Users.TimedRoleLifetime | server.js:749-774 | A role granted for a positive duration in a known unit, and saved by the corrected `Users.SaveUser`, is kept by every check up to its expiry and replaced by "user" at every check after it. The source's own save loses the expiry, so there the role is never revoked (see "## Findings"). |
| Users.UnknownUnitExpiresImmediately | server.js:758-767 | A positive duration in an unknown unit gives a zero multiplier: the expiry is the grant time and any later check revokes the role. |
| Users.PermanentRoleKept | server.js:758-770 | A permanent grant, or one with no positive duration, is never revoked. |
| Users.TimedRoleNeverExpiresAsWritten | server.js:100-117 | Five seconds of "vip" granted at t = 1000 and saved by the `saveUser` as written are still in place a day later. With the corrected save the role is gone. |
| Users.RequestFriend | server.js:1122-1128 | "add" appends the sender to the target's requests exactly when the sender is in neither the target's requests nor their friends. Afterwards the sender is in one of the two. |
| Users.RequestFriendIdempotent | server.js:1122-1128 | A repeated "add" is a no-op. |
| Users.AcceptFriend | server.js:1129-1137 | "accept" does nothing unless the target is pending in my requests. Otherwise each user is appended to the other's friends, and every other field is unchanged. |
| Users.AcceptFriendOutcome | server.js:1129-1137 | After an accept both are friends of each other and the request is gone. Every other pending request stays, in order. |
| Users.RejectFriend | server.js:1138-1142 | "reject" removes every occurrence of the target from my requests, keeps every other request and leaves all other fields alone. |
| Users.RejectFriendOutcome | server.js:1138-1142 | The surviving requests keep their order. A second reject changes nothing, and a reject of someone not pending is a no-op. |
| Expiry.SweepRow | server.js:296-310 | A pass never changes a room's type, members or settings, and leaves a room it does not rewrite exactly as it was. |
| Expiry.RetentionRule | server.js:296-305 | With a positive window a message survives exactly when it is a system message, the pinned message, or younger than the window. Survivors keep their relative order. With no window the room is untouched. |
| Expiry.SweepComposes | server.js:289-313 | A pass at t1 followed by a pass at a later t2 leaves what a single pass at t2 leaves. |
| Expiry.SweepIdempotent | server.js:289-313 | A second pass at the same time changes nothing and writes nothing. |
| Expiry.SurvivorsOfAppend | server.js:301-305 | The filter decides each message on its own, so filtering an extended log is the filtered prefix plus the verdict on the new message. |
| Expiry.PinnedAndSystemExempt | server.js:301-305 | In a room with a one-second window, at t = 5000 an old pinned message and an old system message stay, a stale ordinary message goes and a recent one stays. |
| MusicChat.AppendBounded | server.js:1172-1173 | From at most 50 entries a send leaves at most 50. The new entry is last. The oldest entry is dropped only when the log was full. |
| MusicChat.ReplayKeepsNewest | server.js:1163-1178 | From at most 50 entries, any run of sends leaves exactly the newest 50 of everything posted: the chat is a bounded FIFO. |
| MusicChat.JoinListener | server.js:1150-1153 | After a join the user is listed. The list grows by the new entry only on the first join, and stays free of duplicates. |
| MusicChat.DropListener | server.js:1208-1210 | On disconnect every entry for the user leaves the list. Every other entry stays, in order. |
| Delivery.LockedRoomAdmitsOnlyModerators | server.js:1069-1072 | In any locked room, whatever its member list, a message gets past the lock gate only from a user with an admin or moderator entry. |
| Delivery.UnlockedGroupAdmitsAnyUser | server.js:1069-1093 | An unlocked group makes no membership check: any user with a row may post to it. |
| Delivery.PrivatePeer | server.js:1075-1076 | In a new private room each member's "other member" is the peer, and any third user's is the first member. |
| Delivery.PrivateBlockSuppresses | server.js:1074-1082 | In a private room between two users, whichever of them created it and whether it is locked or not, a message from either one is suppressed exactly when the other has blocked the sender, and is accepted otherwise. |
| Delivery.JoinTwiceIsNoOp | server.js:956-967 | Once a user has joined through a link, the same link reports them as a member of the same room. |
| Delivery.FindInviteIgnoresMembers | server.js:936-941 | The invite lookup reads only each row's type and settings. |
| Delivery.FirstAdminAppend | server.js:949-960 | Appending a plain member does not change which admin the block check consults. |
| Delivery.CreatedRoomIsFound | server.js:857-873 | After a private room is created for a pair, the duplicate check finds it, whichever of the two users asks. |
| Server.SweepWritesExactly | server.js:307-310 | A pass writes a room's message column exactly when that room is stored, its window is positive and the filter removed something. |
| Server.SweptRooms | server.js:289-313 | After a pass the table has the same rooms, and each is that room under the one-room rule. |
| Server.SweepKeepsInvariant | server.js:289-313 | A pass keeps the table invariant. |
| Server.SweepRoom | server.js:295-311 | For one row: the swept row, and whether the message column is rewritten. This is exactly when the window is positive and the filter dropped a message. |
| Server.SweepAll | server.js:289-313 | The loop over the scanned rows yields every room swept and the message-column writes in scan order. |
| Server.JoinRoom | server.js:959-966 | A join saves the member list with `{userId, member}` appended. Then the system message is appended to the messages and saved, and then broadcast. |
| Server.ChatServer.constructor | server.js:283-284 | The process starts on the tables as persisted in the database, which satisfy the store invariant. The in-memory `musicRoomUsers` and `onlineUsers` start empty, as does the effect log. |
| Server.ChatServer.SweepExpired | server.js:289-313 | A pass replaces the rooms table by its swept version, appends exactly the writes described above and keeps the invariant. |
| Server.ChatServer.SendMessage | server.js:1064-1096 | The outcome follows the source's order of checks. Any rejection leaves the rooms unchanged. A block sends only a local notice to the sender, and other rejections emit nothing. A send appends exactly one message: it is read by the sender only, has no reactions and is neither edited nor deleted. The room is saved and then broadcast, with the default group name persisted. |
| Server.ChatServer.JoinGroup | server.js:933-970 | An unknown code, a first admin who blocked the joiner, or an existing membership changes nothing. Otherwise exactly one member entry and one system message are appended, written in that order and broadcast. |
| Server.ChatServer.CreatePrivate | server.js:847-873 | A non-friend, a missing target, a target who blocked me, or an existing room for the pair changes nothing. Otherwise exactly one private room with two admin members and `expiresIn` 0 is inserted at the end of the scan order. |
| Server.ChatServer.FriendAction | server.js:1116-1143 | Each verb's writes and emits, in source order. A missing user, a repeated add, an accept with nothing pending and an unknown verb change nothing. |
| Server.ChatServer.SendMusicChat | server.js:1163-1178 | An unknown session or an unknown user changes nothing. A send stores the bounded log and then broadcasts the entry, and chats stay within 50 entries. |
| Server.ChatServer.UpdateUserRole | server.js:749-774 | The user's role becomes the submitted one with the computed expiry, saved once. An unknown user changes nothing. The save is the corrected `Users.SaveUser`, which keeps the expiry; the source's save drops it (see "## Findings"). |
| Server.ChatServer.Protect | server.js:319-348 | No session or no row goes to login, and a banned user gets the banned page; neither changes anything. Otherwise the user is admitted refreshed, and the row is saved exactly when the refresh changed it. |
| Server.ChatServer.Connect | server.js:1053-1059 | A truthy handshake id is added to the online set and announced to the other sockets. |
| Server.ChatServer.JoinMusicRoom | server.js:1146-1157 | The session's listener list is created if missing. The user is added once if their row exists, and the new list is broadcast. |
| Server.ChatServer.Disconnect | server.js:1204-1213 | A truthy id leaves the online set and is announced offline. If the socket joined a known music session, the user leaves its listener list and the new list is broadcast. |
| Server.TwoSessionsOneClosed | server.js:1053-1059 | With two sockets open for a user and one closed, the user is no longer in the online set. |

## Left out

- JSON parsing and serialisation and SQLite: the tables are maps with get and replace. A missing JSON column reads as empty. The `settings` column is assumed present: `getRoom` re-parses `row.settings` for its virtual fields without the `|| '{}'` default (server.js:140-143) and would throw on a null column.
- Socket.IO: rooms, `socket.join` and fan-out are not modelled. An emit is one entry in the effect log naming its channel.
- HTTP and rendering, sessions, redirects and the HTML responses. The "session user" is a parameter.
- Authentication, OTP mail, web push, uploads, `setup.js` and `reset.js`: these are I/O.
- `uuidv4`, `Date.now` and `toLocaleTimeString`: ids and the time are parameters, and the formatted `time` string is dropped.
- The `moots` default that `getUser` fills in, and every user column not used by the core (email, password).
- Doodles, `music_control`, `search_user`, `join_room`, maintenance gating and the `adminOnly` guard. These are relays, reads or routing outside the core. `UpdateUserRole` assumes the guard has passed.
- Server.ChatServer.CreatePrivate: requires that the fresh id is not already a room id. This stands for the uniqueness of `uuidv4`.
- Server.ChatServer.JoinGroup: requires the session user's row to exist, as `protect` has just loaded it.
- Delivery.CreateGate: requires my own row to exist, for the same reason.
- The music session's playlist and the other columns of `music_sessions`: only the chat column is modelled.
- Server.ChatServer.UpdateUserRole: saves through the corrected `Users.SaveUser`, not the source's `saveUser` (server.js:771), which drops `roleExpiresAt`. Server.ChatServer.FriendAction and Server.ChatServer.Protect save the same way. The as-written save is `Users.SaveUserAsWritten`, and the finding below is proved about it.
- Server.ChatServer.SendMessage: its `Fault` outcome leaves `online`, `listeners` and the tables unchanged. In the source the TypeErrors at server.js:1075, 1079 and 1087 are thrown inside a Socket.IO handler, nothing catches them, and the Node process ends; `onlineUsers`, `musicRoomUsers` and every socket are lost. Server.ChatServer.SendMusicChat's `MusicFault` (server.js:1169) is the same case. Process termination and restart are not modelled.
- Row order of table scans: `SELECT *` has no `ORDER BY`, so SQLite does not promise any order. The model fixes one order, `order`, which keeps existing rows in place and puts a new row last. Every "first match" and "at the end of the scan order" is relative to that assumption.
- Number representation: timestamps, `Date.now` and the expiry product `val * mult` are JavaScript doubles. The model uses unbounded integers, so rounding beyond 2^53 is not modelled. `parseInt` of the form field is a parameter: an integer, or None when it is not a number.
- A client may send a message with type "system". The model keeps such a message exempt from expiry, as the source does, and does not stop it.

## Findings

| source | as written | input that shows it | evidently intended | confidence | as-written member | corrected member |
|---|---|---|---|---|---|---|
| server.js:102 | `saveUser` destructures `roleExpiresAt` out of the object along with the real columns, so the field is written to neither a column nor the data blob | grant "vip" for 5 seconds at t = 1000, then run `protect` at t = 86401000: the role is still "vip" | `roleExpiresAt` goes into the data blob, as the comment beside it says, so `protect` revokes the role once it has expired | high; not executed | Users.SaveUserAsWritten (shown by Users.TimedRoleNeverExpiresAsWritten and Users.SaveUserAsWrittenLosesExpiry) | Users.SaveUser (Users.GetUserAfterSaveUser, Users.TimedRoleLifetime) |
