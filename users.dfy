/** Users: `getUser`/`saveUser`, time-limited roles (`/admin/update-user` and
    the role check in `protect`) and the friend-request state machine. */
module Users {
  import opened Seqs
  import opened ChatModel

  /** `getUser`: the row's columns flattened together with its data blob. */
  function GetUser(id: UserId, row: UserRow): User {
    User(id, row.username, row.role, row.banned, row.data.profilePic,
         row.data.friends, row.data.friendRequests, row.data.blocked, row.data.roleExpiresAt)
  }

  /** `saveUser` as intended: every field that has no column of its own,
      `roleExpiresAt` included, goes into the data blob. */
  function SaveUser(u: User): UserRow {
    UserRow(u.username, u.role, u.banned,
            UserData(u.profilePic, u.friends, u.friendRequests, u.blocked, u.roleExpiresAt))
  }

  /** `saveUser` as written: `roleExpiresAt` is destructured out of the object
      together with the real columns, so it reaches neither a column nor the
      data blob. */
  function SaveUserAsWritten(u: User): UserRow {
    UserRow(u.username, u.role, u.banned,
            UserData(u.profilePic, u.friends, u.friendRequests, u.blocked, None))
  }

  /** Saving and reloading a user gives the same user back. */
  lemma GetUserAfterSaveUser(u: User)
    ensures GetUser(u.id, SaveUser(u)) == u
  {
  }

  /** The as-written save loses the role expiry and nothing else. */
  lemma SaveUserAsWrittenLosesExpiry(u: User)
    ensures GetUser(u.id, SaveUserAsWritten(u)) == u.(roleExpiresAt := None)
  {
  }

  // ------------------------------------------------------- time-limited roles

  /** Milliseconds per unit of a role duration; any other unit gives 0. */
  function UnitMillis(unit: string): nat {
    if unit == "seconds" then 1000
    else if unit == "minutes" then 60000
    else if unit == "hours" then 3600000
    else if unit == "days" then 86400000
    else 0
  }

  predicate KnownUnit(unit: string) {
    unit == "seconds" || unit == "minutes" || unit == "hours" || unit == "days"
  }

  /** The expiry `/admin/update-user` computes. `value` is `parseInt` of the
      form field, None when it is not a number. */
  function RoleExpiry(value: Option<int>, unit: string, now: int): (r: Option<int>)
    ensures r.None? <==> value.None? || value.value <= 0 || unit == "permanent"
    ensures r.Some? ==> r.value == now + value.value * UnitMillis(unit)
  {
    if value.Some? && value.value > 0 && unit != "permanent"
    then Some(now + value.value * UnitMillis(unit))
    else None
  }

  /** The multiplier is that of the named unit, and 0 for an unknown one. */
  lemma UnitMillisValues(unit: string)
    ensures KnownUnit(unit) <==> UnitMillis(unit) > 0
    ensures unit == "seconds" ==> UnitMillis(unit) == 1000
    ensures unit == "minutes" ==> UnitMillis(unit) == 60 * UnitMillis("seconds")
    ensures unit == "hours" ==> UnitMillis(unit) == 60 * UnitMillis("minutes")
    ensures unit == "days" ==> UnitMillis(unit) == 24 * UnitMillis("hours")
  {
  }

  /** `/admin/update-user` on a loaded user: the new role and its expiry. */
  function UpdateRole(u: User, role: string, value: Option<int>, unit: string, now: int): User {
    u.(role := role, roleExpiresAt := RoleExpiry(value, unit, now))
  }

  /** `protect`'s test: a truthy expiry (0 is falsy) that lies in the past. */
  predicate RoleExpired(u: User, now: int) {
    u.roleExpiresAt.Some? && u.roleExpiresAt.value != 0 && now > u.roleExpiresAt.value
  }

  /** `protect`'s lazy downgrade: an expired role other than "user" becomes
      "user" and loses its expiry. */
  function RefreshRole(u: User, now: int): (r: User)
    ensures r == u || r == u.(role := "user", roleExpiresAt := None)
    ensures r != u <==> RoleExpired(u, now) && u.role != "user"
  {
    if RoleExpired(u, now) && u.role != "user" then u.(role := "user", roleExpiresAt := None) else u
  }

  /** A second check at the same time changes nothing. */
  lemma RefreshRoleIdempotent(u: User, now: int)
    ensures RefreshRole(RefreshRole(u, now), now) == RefreshRole(u, now)
  {
  }

  /** A role granted for a positive duration of a known unit at a
      non-negative time is kept by every check up to its expiry and replaced
      by "user" at every check after it. */
  lemma TimedRoleLifetime(u: User, role: string, value: int, unit: string, now: int, t: int)
    requires role != "user" && value > 0 && KnownUnit(unit) && now >= 0
    ensures var granted := UpdateRole(u, role, Some(value), unit, now);
      RefreshRole(granted, t).role == (if t > now + value * UnitMillis(unit) then "user" else role)
  {
    assert value * UnitMillis(unit) >= UnitMillis(unit) > 0 by {
      UnitMillisValues(unit);
      MulAtLeast(value, UnitMillis(unit));
    }
  }

  lemma MulAtLeast(a: int, b: nat)
    requires a >= 1
    ensures a * b >= b
  {
  }

  /** A positive duration in an unknown unit expires at once: any later check
      downgrades the role. */
  lemma UnknownUnitExpiresImmediately(u: User, role: string, value: int, unit: string, now: int, t: int)
    requires role != "user" && value > 0 && !KnownUnit(unit) && unit != "permanent" && now > 0 && t > now
    ensures UpdateRole(u, role, Some(value), unit, now).roleExpiresAt == Some(now)
    ensures RefreshRole(UpdateRole(u, role, Some(value), unit, now), t).role == "user"
  {
    UnitMillisValues(unit);
  }

  /** A permanent grant, or one with no positive duration, is never revoked. */
  lemma PermanentRoleKept(u: User, role: string, value: Option<int>, unit: string, now: int, t: int)
    requires unit == "permanent" || value.None? || value.value <= 0
    ensures RefreshRole(UpdateRole(u, role, value, unit, now), t).role == role
  {
  }

  /** What a grant looks like once it has been written and read back by the
      as-written `saveUser`: the expiry is gone, so no later check revokes the
      role. Concretely: five seconds of "vip" granted at t = 1000 are still
      there a day later. */
  lemma TimedRoleNeverExpiresAsWritten(u: User)
    ensures var granted := UpdateRole(u, "vip", Some(5), "seconds", 1000);
      && granted.roleExpiresAt == Some(6000)
      && RefreshRole(GetUser(u.id, SaveUserAsWritten(granted)), 86401000).role == "vip"
      && RefreshRole(GetUser(u.id, SaveUser(granted)), 86401000).role == "user"
  {
  }

  // ------------------------------------------------------------- friendship

  /** `friend_action` "add" on the target: the sender joins the target's
      incoming requests unless already pending there or already a friend. */
  function RequestFriend(target: User, from: UserId): (r: User)
    ensures r == target || r == target.(friendRequests := target.friendRequests + [from])
    ensures r != target <==> from !in target.friendRequests && from !in target.friends
    ensures from in r.friendRequests || from in r.friends
  {
    if from !in target.friendRequests && from !in target.friends
    then target.(friendRequests := target.friendRequests + [from])
    else target
  }

  /** A repeated request is a no-op. */
  lemma RequestFriendIdempotent(target: User, from: UserId)
    ensures RequestFriend(RequestFriend(target, from), from) == RequestFriend(target, from)
  {
  }

  /** `friend_action` "accept": when `target` is pending in my requests it is
      removed from them (every occurrence) and each user is appended to the
      other's friends. The two results are saved in this order. */
  function AcceptFriend(me: User, target: User): (r: (User, User))
    ensures target.id !in me.friendRequests ==> r == (me, target)
    ensures target.id in me.friendRequests ==>
      && r.0 == me.(friendRequests := r.0.friendRequests, friends := me.friends + [target.id])
      && r.1 == target.(friends := target.friends + [me.id])
  {
    if target.id in me.friendRequests
    then (me.(friendRequests := Filter(me.friendRequests, (x: UserId) => x != target.id),
              friends := me.friends + [target.id]),
          target.(friends := target.friends + [me.id]))
    else (me, target)
  }

  /** After an accepted request both users are each other's friends, the
      request is gone and every other pending request stays, in order. */
  lemma AcceptFriendOutcome(me: User, target: User)
    requires target.id in me.friendRequests
    ensures var (me', target') := AcceptFriend(me, target);
      && target.id in me'.friends && me.id in target'.friends
      && target.id !in me'.friendRequests
      && (forall x :: x != target.id ==> (x in me'.friendRequests <==> x in me.friendRequests))
      && IsSubsequence(me'.friendRequests, me.friendRequests)
  {
    var p := (x: UserId) => x != target.id;
    FilterIsSubsequence(me.friendRequests, p);
    var fr' := Filter(me.friendRequests, p);
    forall x | x != target.id && x in me.friendRequests ensures x in fr' {
      var i :| 0 <= i < |me.friendRequests| && me.friendRequests[i] == x;
      assert p(me.friendRequests[i]);
    }
  }

  /** `friend_action` "reject": every occurrence of `targetId` leaves my
      requests; friends are untouched. */
  function RejectFriend(me: User, targetId: UserId): (r: User)
    ensures r == me.(friendRequests := r.friendRequests)
    ensures targetId !in r.friendRequests
    ensures forall x :: x != targetId ==> (x in r.friendRequests <==> x in me.friendRequests)
  {
    var fr := Filter(me.friendRequests, (x: UserId) => x != targetId);
    assert forall x :: x != targetId && x in me.friendRequests ==> x in fr by {
      forall x | x != targetId && x in me.friendRequests ensures x in fr {
        var i :| 0 <= i < |me.friendRequests| && me.friendRequests[i] == x;
      }
    }
    me.(friendRequests := fr)
  }

  /** Rejecting keeps the surviving requests in order, and a repeated
      rejection changes nothing more. */
  lemma RejectFriendOutcome(me: User, targetId: UserId)
    ensures IsSubsequence(RejectFriend(me, targetId).friendRequests, me.friendRequests)
    ensures RejectFriend(RejectFriend(me, targetId), targetId) == RejectFriend(me, targetId)
    ensures targetId !in me.friendRequests ==> RejectFriend(me, targetId) == me
  {
    var p := (x: UserId) => x != targetId;
    FilterIsSubsequence(me.friendRequests, p);
    FilterNarrowing(me.friendRequests, p, p);
    FilterKeepsLength(me.friendRequests, p);
  }
}
