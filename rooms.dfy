/** The room aggregate: `getRoom`/`saveRoom`/`createRoom`, the membership
    lookups the handlers use, and the invariants of the `rooms` table. */
module Rooms {
  import opened Seqs
  import opened ChatModel

  const DefaultGroupName := "Group"

  /** `getRoom`: the row plus the virtual fields read out of settings. A group
      without a (truthy) name is called "Group" and without an icon gets "";
      a private room has neither. */
  function GetRoom(id: RoomId, row: RoomRow): Room {
    var s := row.settings;
    Room(id, row.kind, row.members, row.messages, s,
         if row.kind == Group then Some(if Present(s.name) then s.name.value else DefaultGroupName) else None,
         if row.kind == Group then Some(if Present(s.icon) then s.icon.value else "") else None,
         if Present(s.inviteCode) then s.inviteCode else None,
         if Present(s.pinnedMessageId) then s.pinnedMessageId else None)
  }

  /** `saveRoom`'s settings merge: each truthy virtual field is copied back into
      the settings object; every other key is carried forward as it was. */
  function MergeSettings(r: Room): Settings {
    var s0 := r.settings;
    var s1 := if Present(r.name) then s0.(name := r.name) else s0;
    var s2 := if Present(r.icon) then s1.(icon := r.icon) else s1;
    var s3 := if Present(r.inviteCode) then s2.(inviteCode := r.inviteCode) else s2;
    if Present(r.pinnedMessageId) then s3.(pinnedMessageId := r.pinnedMessageId) else s3
  }

  /** `saveRoom`: rewrites the members, messages and settings columns of the
      stored row; the type column is not touched. */
  function SaveRoom(stored: RoomRow, r: Room): RoomRow {
    stored.(members := r.members, messages := r.messages, settings := MergeSettings(r))
  }

  /** The settings a load followed by a save leaves behind: a group whose name
      is missing or empty is given the default name, nothing else changes. */
  function SettingsAfterRoundTrip(row: RoomRow): (s: Settings)
    ensures s.locked == row.settings.locked && s.expiresIn == row.settings.expiresIn
    ensures s.pinnedMessageId == row.settings.pinnedMessageId && s.inviteCode == row.settings.inviteCode
    ensures s.icon == row.settings.icon
    ensures Present(row.settings.name) || row.kind == Private ==> s == row.settings
  {
    if row.kind == Group && !Present(row.settings.name)
    then row.settings.(name := Some(DefaultGroupName))
    else row.settings
  }

  /** Loading a row, replacing its message log and saving it writes back the
      row with the new log and the settings unchanged except for the default
      group name: the read-merge-write never loses a settings key. */
  lemma SaveAfterGetRoom(id: RoomId, row: RoomRow, messages: seq<Message>)
    ensures SaveRoom(row, GetRoom(id, row).(messages := messages))
         == row.(messages := messages, settings := SettingsAfterRoundTrip(row))
  {
  }

  /** The rewrite is invisible to readers and happens at most once. */
  lemma RoundTripStable(id: RoomId, row: RoomRow)
    ensures GetRoom(id, row.(settings := SettingsAfterRoundTrip(row))) == GetRoom(id, row).(settings := SettingsAfterRoundTrip(row))
    ensures SettingsAfterRoundTrip(row.(settings := SettingsAfterRoundTrip(row))) == SettingsAfterRoundTrip(row)
  {
  }

  // ---------------------------------------------------------------- lookups

  /** `members.find(x => x.userId === userId)`, as a position. */
  function FindMember(members: seq<RoomMember>, userId: UserId): Option<nat> {
    FirstIndex(members, (m: RoomMember) => m.userId == userId)
  }

  predicate IsMember(members: seq<RoomMember>, userId: UserId) {
    exists i :: 0 <= i < |members| && members[i].userId == userId
  }

  /** The lock gate: the first entry for the sender exists and holds the admin
      or moderator role. */
  predicate MaySendWhenLocked(members: seq<RoomMember>, userId: UserId) {
    match FindMember(members, userId)
    case None => false
    case Some(i) => members[i].role == Admin || members[i].role == Moderator
  }

  /** `members.find(m => m.userId !== userId).userId`: the first member who is
      not the sender, if any. */
  function OtherMember(members: seq<RoomMember>, userId: UserId): (r: Option<UserId>)
    ensures r.Some? ==> r.value != userId
    ensures r.Some? ==> exists i :: 0 <= i < |members| && members[i].userId == r.value
                          && forall j :: 0 <= j < i ==> members[j].userId == userId
    ensures r.None? <==> forall i :: 0 <= i < |members| ==> members[i].userId == userId
  {
    match FirstIndex(members, (m: RoomMember) => m.userId != userId)
    case None => None
    case Some(i) => Some(members[i].userId)
  }

  /** `members.find(m => m.role === 'admin')`: the first admin member. */
  function FirstAdmin(members: seq<RoomMember>): (r: Option<UserId>)
    ensures r.Some? ==> exists i :: 0 <= i < |members| && members[i] == RoomMember(r.value, Admin)
                          && forall j :: 0 <= j < i ==> members[j].role != Admin
    ensures r.None? <==> forall i :: 0 <= i < |members| ==> members[i].role != Admin
  {
    match FirstIndex(members, (m: RoomMember) => m.role == Admin)
    case None => None
    case Some(i) => Some(members[i].userId)
  }

  /** Every user appears at most once in the member list. */
  ghost predicate DistinctMembers(members: seq<RoomMember>) {
    forall i, j :: 0 <= i < j < |members| ==> members[i].userId != members[j].userId
  }

  /** With one entry per user, the lock gate admits exactly the members whose
      role is admin or moderator. */
  lemma {:induction false} LockGateAdmitsModerators(members: seq<RoomMember>, userId: UserId)
    requires DistinctMembers(members)
    ensures MaySendWhenLocked(members, userId)
        <==> (RoomMember(userId, Admin) in members || RoomMember(userId, Moderator) in members)
  {
    if MaySendWhenLocked(members, userId) {
      var i := FindMember(members, userId).value;
      assert members[i] == RoomMember(userId, members[i].role);
    }
    if RoomMember(userId, Admin) in members || RoomMember(userId, Moderator) in members {
      var k :| 0 <= k < |members| && members[k].userId == userId && (members[k].role == Admin || members[k].role == Moderator);
      var i := FindMember(members, userId).value;
      assert i == k;
    }
  }

  // ---------------------------------------------------------- table scans

  /** A room whose settings carry this invite code; only group rooms are scanned. */
  predicate InviteMatches(rows: map<RoomId, RoomRow>, id: RoomId, code: string) {
    id in rows && rows[id].kind == Group && rows[id].settings.inviteCode == Some(code)
  }

  /** `/join-group/:code`'s lookup: the first group room, in table order, whose
      invite code is `code`. */
  function FindInvite(order: seq<RoomId>, rows: map<RoomId, RoomRow>, code: string): (r: Option<RoomId>)
    ensures r.Some? ==> InviteMatches(rows, r.value, code)
    ensures r.Some? ==> exists k :: 0 <= k < |order| && order[k] == r.value
                          && forall j :: 0 <= j < k ==> !InviteMatches(rows, order[j], code)
    ensures r.None? <==> forall i :: 0 <= i < |order| ==> !InviteMatches(rows, order[i], code)
  {
    match FirstIndex(order, (id: RoomId) => InviteMatches(rows, id, code))
    case None => None
    case Some(i) => Some(order[i])
  }

  /** A private room whose member list names both users. */
  predicate PairMatches(rows: map<RoomId, RoomRow>, id: RoomId, a: UserId, b: UserId) {
    id in rows && rows[id].kind == Private && IsMember(rows[id].members, a) && IsMember(rows[id].members, b)
  }

  /** `/chat/create-private`'s duplicate check: the first private room, in table
      order, that has both users as members. */
  function FindPrivatePair(order: seq<RoomId>, rows: map<RoomId, RoomRow>, a: UserId, b: UserId): (r: Option<RoomId>)
    ensures r.Some? ==> PairMatches(rows, r.value, a, b)
    ensures r.Some? ==> exists k :: 0 <= k < |order| && order[k] == r.value
                          && forall j :: 0 <= j < k ==> !PairMatches(rows, order[j], a, b)
    ensures r.None? <==> forall i :: 0 <= i < |order| ==> !PairMatches(rows, order[i], a, b)
  {
    match FirstIndex(order, (id: RoomId) => PairMatches(rows, id, a, b))
    case None => None
    case Some(i) => Some(order[i])
  }

  /** The row `createRoom` inserts for a new private chat: two admins, an empty
      log and settings `{expiresIn: 0}`. */
  function PrivateRoomRow(me: UserId, target: UserId): RoomRow {
    RoomRow(Private, [RoomMember(me, Admin), RoomMember(target, Admin)], [],
            Settings(false, 0, None, None, None, None))
  }

  // ------------------------------------------------------------- invariants

  /** `order` lists every stored room exactly once: it is the row order a
      full-table scan returns. */
  ghost predicate OrderCovers(order: seq<RoomId>, rows: map<RoomId, RoomRow>) {
    && (forall i, j :: 0 <= i < j < |order| ==> order[i] != order[j])
    && (forall id :: Listed(order, rows, id))
  }

  /** A room is stored exactly when the scan returns it. */
  ghost predicate Listed(order: seq<RoomId>, rows: map<RoomId, RoomRow>, id: RoomId) {
    id in rows <==> id in order
  }

  /** A private room has exactly two members, both admins. */
  ghost predicate PrivateShape(row: RoomRow) {
    row.kind == Private ==> |row.members| == 2 && row.members[0].role == Admin && row.members[1].role == Admin
  }

  ghost predicate Shaped(rows: map<RoomId, RoomRow>, id: RoomId) {
    id in rows ==> PrivateShape(rows[id])
  }

  ghost function MemberIds(members: seq<RoomMember>): set<UserId> {
    set i | 0 <= i < |members| :: members[i].userId
  }

  /** Two distinct stored rooms are not private rooms of the same pair. */
  ghost predicate DistinctPairs(rows: map<RoomId, RoomRow>, a: RoomId, b: RoomId) {
    (a in rows && b in rows && a != b && rows[a].kind == Private && rows[b].kind == Private)
      ==> MemberIds(rows[a].members) != MemberIds(rows[b].members)
  }

  /** At most one private room per unordered pair of users. */
  ghost predicate PrivatePairsUnique(rows: map<RoomId, RoomRow>) {
    forall a, b :: DistinctPairs(rows, a, b)
  }

  ghost predicate StoreInvariant(order: seq<RoomId>, rows: map<RoomId, RoomRow>) {
    && OrderCovers(order, rows)
    && (forall id :: Shaped(rows, id))
    && PrivatePairsUnique(rows)
  }

  /** Inserting a private room for a pair that has none keeps the invariant:
      the new room is the only one for that pair. */
  lemma PrivateRoomInsertKeepsInvariant(order: seq<RoomId>, rows: map<RoomId, RoomRow>, me: UserId, target: UserId, id: RoomId)
    requires StoreInvariant(order, rows)
    requires id !in rows
    requires FindPrivatePair(order, rows, me, target).None?
    ensures StoreInvariant(order + [id], rows[id := PrivateRoomRow(me, target)])
  {
    var rows' := rows[id := PrivateRoomRow(me, target)];
    assert MemberIds(PrivateRoomRow(me, target).members) == {me, target} by {
      var row := PrivateRoomRow(me, target);
      assert row.members[0].userId == me && row.members[1].userId == target;
    }
    forall a | a in rows && a != id && rows[a].kind == Private
      ensures MemberIds(rows[a].members) != {me, target}
    {
      assert Listed(order, rows, a);
      var k :| 0 <= k < |order| && order[k] == a;
      assert !PairMatches(rows, order[k], me, target);
      if MemberIds(rows[a].members) == {me, target} {
        assert me in MemberIds(rows[a].members);
        assert target in MemberIds(rows[a].members);
        assert IsMember(rows[a].members, me);
        assert IsMember(rows[a].members, target);
        assert false;
      }
    }
    forall a, b ensures DistinctPairs(rows', a, b) {
      assert DistinctPairs(rows, a, b);
    }
    forall x ensures Listed(order + [id], rows', x) && Shaped(rows', x) {
      assert Listed(order, rows, x) && Shaped(rows, x);
    }
    assert forall i :: 0 <= i < |order| ==> (order + [id])[i] == order[i];
    assert forall i :: 0 <= i < |order| ==> order[i] in rows by {
      forall i | 0 <= i < |order| ensures order[i] in rows {
        assert Listed(order, rows, order[i]);
      }
    }
  }

  /** Changing only the members and messages of a group room (or only the
      messages and settings of any room) keeps the invariant. */
  lemma GroupUpdateKeepsInvariant(order: seq<RoomId>, rows: map<RoomId, RoomRow>, id: RoomId, row: RoomRow)
    requires StoreInvariant(order, rows)
    requires id in rows && row.kind == rows[id].kind
    requires row.kind == Private ==> row.members == rows[id].members
    ensures StoreInvariant(order, rows[id := row])
  {
    var rows' := rows[id := row];
    forall a, b ensures DistinctPairs(rows', a, b) {
      assert DistinctPairs(rows, a, b);
    }
    forall x ensures Listed(order, rows', x) && Shaped(rows', x) {
      assert Listed(order, rows, x) && Shaped(rows, x);
    }
  }
}
