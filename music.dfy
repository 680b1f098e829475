/** Music sessions: the bounded chat log of `send_music_chat` and the
    listener list kept in `musicRoomUsers`. */
module MusicChat {
  import opened Seqs
  import opened ChatModel

  /** The chat keeps at most this many entries. */
  const ChatLimit := 50

  /** Append the new entry, then drop the oldest one if the log has grown past
      the limit (a single `shift`). */
  function AppendBounded(chat: seq<ChatEntry>, e: ChatEntry): (r: seq<ChatEntry>)
    ensures |chat| <= ChatLimit ==> |r| <= ChatLimit
    ensures |r| > 0 && r[|r| - 1] == e
    ensures |chat| < ChatLimit ==> r == chat + [e]
    ensures |chat| >= ChatLimit ==> r == chat[1..] + [e]
  {
    var c := chat + [e];
    if |c| > ChatLimit then c[1..] else c
  }

  /** The newest `n` entries of `s`. */
  function Newest(s: seq<ChatEntry>, n: nat): (r: seq<ChatEntry>)
    ensures |r| == if |s| <= n then |s| else n
  {
    if |s| <= n then s else s[|s| - n..]
  }

  /** The log after a run of sends, in order. */
  function Replay(chat: seq<ChatEntry>, sends: seq<ChatEntry>): seq<ChatEntry>
    decreases |sends|
  {
    if sends == [] then chat else Replay(AppendBounded(chat, sends[0]), sends[1..])
  }

  /** Starting from at most `ChatLimit` entries, the log after any run of sends
      holds exactly the newest `ChatLimit` entries of everything ever posted. */
  lemma {:induction false} ReplayKeepsNewest(chat: seq<ChatEntry>, sends: seq<ChatEntry>)
    requires |chat| <= ChatLimit
    ensures Replay(chat, sends) == Newest(chat + sends, ChatLimit)
    decreases |sends|
  {
    if sends == [] {
      assert chat + sends == chat;
    } else {
      var e := sends[0];
      var next := AppendBounded(chat, e);
      ReplayKeepsNewest(next, sends[1..]);
      assert chat + sends == (chat + [e]) + sends[1..];
      NewestOfSuffix(chat + [e], next, sends[1..]);
    }
  }

  /** Replacing a prefix by a suffix long enough to cover the window does not
      change the newest entries. */
  lemma NewestOfSuffix(y: seq<ChatEntry>, x: seq<ChatEntry>, z: seq<ChatEntry>)
    requires |x| <= |y| && x == y[|y| - |x|..]
    requires |x| >= ChatLimit || |x| == |y|
    ensures Newest(x + z, ChatLimit) == Newest(y + z, ChatLimit)
  {
    if |x| == |y| {
      assert x == y;
    } else {
      var n, d := ChatLimit, |y| - |x|;
      var w, v := y + z, x + z;
      forall j | 0 <= j < |v| ensures v[j] == w[j + d] {
        if j < |x| {
          assert v[j] == x[j] == y[j + d];
        } else {
          assert v[j] == z[j - |x|] == w[j + d];
        }
      }
      var a, b := Newest(w, n), Newest(v, n);
      forall k | 0 <= k < n ensures a[k] == b[k] {
        assert a[k] == w[|w| - n + k];
        assert b[k] == v[|v| - n + k];
      }
    }
  }

  /** Every listener appears at most once. */
  ghost predicate DistinctListeners(list: seq<Listener>) {
    forall i, j :: 0 <= i < j < |list| ==> list[i].id != list[j].id
  }

  /** `join_music_room`: the user is listed once, appended on first join. */
  function JoinListener(list: seq<Listener>, l: Listener): (r: seq<Listener>)
    ensures DistinctListeners(list) ==> DistinctListeners(r)
    ensures exists i :: 0 <= i < |r| && r[i].id == l.id
    ensures r == list || r == list + [l]
  {
    if exists i :: 0 <= i < |list| && list[i].id == l.id then list
    else
      var r := list + [l];
      assert r[|list|].id == l.id;
      r
  }

  /** Disconnect: every entry for the user leaves the list, the rest stay in order. */
  function DropListener(list: seq<Listener>, id: UserId): (r: seq<Listener>)
    ensures forall i :: 0 <= i < |r| ==> r[i].id != id
    ensures forall i :: 0 <= i < |list| && list[i].id != id ==> list[i] in r
    ensures IsSubsequence(r, list)
  {
    FilterIsSubsequence(list, (x: Listener) => x.id != id);
    Filter(list, (x: Listener) => x.id != id)
  }
}
