/** The expiry sweeper's rule for one room (the pass over all rooms is
    `Server.ChatServer.SweepExpired`). */
module Expiry {
  import opened Seqs
  import opened ChatModel

  /** A message survives a pass at time `now` when it is a system message, is
      the pinned message, or is younger than the room's expiry window. */
  predicate Keep(m: Message, now: int, s: Settings) {
    m.kind == "system" || s.pinnedMessageId == Some(m.id) || now - m.timestamp < s.expiresIn
  }

  function Survivors(messages: seq<Message>, now: int, s: Settings): seq<Message> {
    Filter(messages, (m: Message) => Keep(m, now, s))
  }

  /** The pass touches this room: its window is positive and some message is
      due for removal. */
  predicate Rewrites(row: RoomRow, now: int) {
    row.settings.expiresIn > 0 && |Survivors(row.messages, now, row.settings)| != |row.messages|
  }

  /** One room after a pass: the message column is rewritten only when the
      filtered log is shorter. */
  function SweepRow(row: RoomRow, now: int): (r: RoomRow)
    ensures r.kind == row.kind && r.members == row.members && r.settings == row.settings
    ensures !Rewrites(row, now) ==> r == row
  {
    if Rewrites(row, now) then row.(messages := Survivors(row.messages, now, row.settings)) else row
  }

  /** The retention rule: with a positive window a message stays exactly when
      `Keep` holds of it, and what stays keeps its relative order; with no
      window the room is left as it is. */
  lemma RetentionRule(row: RoomRow, now: int)
    ensures row.settings.expiresIn <= 0 ==> SweepRow(row, now) == row
    ensures row.settings.expiresIn > 0 ==>
      forall i :: 0 <= i < |row.messages| ==>
        (row.messages[i] in SweepRow(row, now).messages <==> Keep(row.messages[i], now, row.settings) || !Rewrites(row, now))
    ensures row.settings.expiresIn > 0 ==>
      SweepRow(row, now).messages == Survivors(row.messages, now, row.settings)
    ensures IsSubsequence(SweepRow(row, now).messages, row.messages)
  {
    var keep := (m: Message) => Keep(m, now, row.settings);
    FilterKeepsLength(row.messages, keep);
    FilterIsSubsequence(row.messages, keep);
    if !Rewrites(row, now) {
      IsSubsequenceRefl(row.messages);
    }
  }

  /** Passes compose: a pass at `t1` followed by a pass at a later `t2` leaves
      what a single pass at `t2` leaves. */
  lemma SweepComposes(row: RoomRow, t1: int, t2: int)
    requires t1 <= t2
    ensures SweepRow(SweepRow(row, t1), t2) == SweepRow(row, t2)
  {
    var s := row.settings;
    var k1 := (m: Message) => Keep(m, t1, s);
    var k2 := (m: Message) => Keep(m, t2, s);
    FilterNarrowing(row.messages, k1, k2);
    FilterKeepsLength(row.messages, k1);
    FilterKeepsLength(row.messages, k2);
    FilterKeepsLength(Survivors(row.messages, t1, s), k2);
  }

  /** Idempotence: a second pass at the same time changes nothing and writes
      nothing. */
  lemma SweepIdempotent(row: RoomRow, now: int)
    ensures SweepRow(SweepRow(row, now), now) == SweepRow(row, now)
    ensures !Rewrites(SweepRow(row, now), now)
  {
    SweepComposes(row, now, now);
    var k := (m: Message) => Keep(m, now, row.settings);
    FilterNarrowing(row.messages, k, k);
  }

  /** A message appended after a pass is judged on its own; the earlier
      survivors are filtered as before and stay in front of it. */
  lemma SurvivorsOfAppend(messages: seq<Message>, m: Message, now: int, s: Settings)
    ensures Survivors(messages + [m], now, s)
         == Survivors(messages, now, s) + (if Keep(m, now, s) then [m] else [])
  {
    FilterConcat(messages, [m], (x: Message) => Keep(x, now, s));
  }

  /** The scenario of a room with a one-second window: an old pinned message
      and an old system message stay, a stale ordinary message goes, a recent
      one stays. */
  lemma PinnedAndSystemExempt(members: seq<RoomMember>, pinned: Message, sys: Message, stale: Message, recent: Message)
    requires pinned.kind == "text" && pinned.timestamp == 0
    requires sys.kind == "system" && sys.timestamp == 0
    requires stale.kind == "text" && stale.timestamp == 0 && stale.id != pinned.id
    requires recent.kind == "text" && recent.timestamp == 4500
    ensures var row := RoomRow(Group, members, [pinned, sys, stale, recent],
                               Settings(false, 1000, Some(pinned.id), None, None, None));
      SweepRow(row, 5000).messages == [pinned, sys, recent]
  {
    var s := Settings(false, 1000, Some(pinned.id), None, None, None);
    assert Keep(pinned, 5000, s) && Keep(sys, 5000, s) && !Keep(stale, 5000, s) && Keep(recent, 5000, s);
    assert Survivors([pinned], 5000, s) == [pinned];
    SurvivorsOfAppend([pinned], sys, 5000, s);
    assert [pinned] + [sys] == [pinned, sys];
    SurvivorsOfAppend([pinned, sys], stale, 5000, s);
    assert [pinned, sys] + [stale] == [pinned, sys, stale];
    SurvivorsOfAppend([pinned, sys, stale], recent, 5000, s);
    assert [pinned, sys, stale] + [recent] == [pinned, sys, stale, recent];
  }
}
