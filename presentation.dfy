/**
 * The presentation helpers over a room's messages: mention and link
 * detection, the search result ids of the room search with its four filters,
 * and the per-thread reply summaries shown under thread roots.
 */
module MessagePresentation {
  import opened Wrappers
  import opened Text
  import opened Entities

  // ---------------------------------------------------------------------------
  // Mentions and links
  // ---------------------------------------------------------------------------

  /** A case-insensitive substring test, as `a.toLowerCase().includes(b.toLowerCase())`. */
  predicate ContainsIgnoringCase(s: string, needle: string)
  {
    Contains(Lower(s), Lower(needle))
  }

  /** `messageMentionsUser`: the body names `@name` or `@id`, ignoring case; an empty name or id matches nothing. */
  predicate MessageMentionsUser(m: Message, meId: string, meName: string)
  {
    (meName != [] && Contains(Lower(m.body), "@" + Lower(meName)))
    || (meId != [] && Contains(Lower(m.body), "@" + Lower(meId)))
  }

  /** `messageContainsLink`: the body contains `http://`, `https://` or `www.`, ignoring case. */
  predicate MessageContainsLink(m: Message)
  {
    Contains(Lower(m.body), "http://") || Contains(Lower(m.body), "https://") || Contains(Lower(m.body), "www.")
  }

  /** Lower-casing commutes with taking a slice. */
  lemma {:induction false} LowerSlice(s: string, i: nat, j: nat)
    requires i <= j <= |s|
    ensures |Lower(s)| == |s|
    ensures Lower(s)[i..j] == Lower(s[i..j])
  {
    LowerSpec(s);
    LowerSpec(s[i..j]);
  }

  /** A substring stays a substring once both are lower-cased. */
  lemma {:induction false} ContainsLower(s: string, needle: string)
    requires Contains(s, needle)
    ensures Contains(Lower(s), Lower(needle))
  {
    var i :| 0 <= i <= |s| && ContainsAt(s, needle, i);
    LowerSpec(s);
    LowerSpec(needle);
    LowerSlice(s, i, i + |needle|);
    assert ContainsAt(Lower(s), Lower(needle), i);
  }

  /** A body that names `@name` mentions the user, whatever the case of either. */
  lemma {:induction false} LiteralMentionCounts(m: Message, meId: string, meName: string)
    requires meName != [] && Contains(m.body, "@" + meName)
    ensures MessageMentionsUser(m, meId, meName)
  {
    ContainsLower(m.body, "@" + meName);
    LowerAppend("@", meName);
    assert Lower("@") == "@";
  }

  /** A user without a name and an id is never mentioned. */
  lemma {:induction false} NoMentionOfNobody(m: Message)
    ensures !MessageMentionsUser(m, "", "")
  {
  }

  /** Mention and link detection ignore the case of the body. */
  lemma {:induction false} DetectionIgnoresCase(m: Message, meId: string, meName: string)
    ensures MessageMentionsUser(m.(body := Lower(m.body)), meId, meName) == MessageMentionsUser(m, meId, meName)
    ensures MessageContainsLink(m.(body := Lower(m.body))) == MessageContainsLink(m)
  {
    LowerIdempotent(m.body);
  }

  // ---------------------------------------------------------------------------
  // buildSearchResultIds
  // ---------------------------------------------------------------------------

  /** `RoomSearchFilter`. */
  datatype SearchFilter = AllMessages | Mentions | HasLinks | FromMe

  /** `containsSearchText`: the trimmed query is empty or occurs in the body, ignoring case. */
  predicate ContainsSearchText(m: Message, query: string)
  {
    var needle := Lower(TrimJs(query));
    needle == [] || Contains(Lower(m.body), needle)
  }

  /** `matchesFilter`. */
  predicate MatchesFilter(m: Message, filter: SearchFilter, meId: string, meName: string)
  {
    match filter
    case Mentions => MessageMentionsUser(m, meId, meName)
    case HasLinks => MessageContainsLink(m)
    case FromMe => m.authorId == meId
    case AllMessages => true
  }

  predicate IsSearchHit(m: Message, query: string, filter: SearchFilter, meId: string, meName: string)
  {
    ContainsSearchText(m, query) && MatchesFilter(m, filter, meId, meName)
  }

  /** The ids of the messages that are search hits, in message order. */
  function HitIds(ms: seq<Message>, query: string, filter: SearchFilter, meId: string, meName: string): (r: seq<string>)
    ensures |r| <= |ms|
    ensures forall id :: id in r <==> exists m :: m in ms && m.id == id && IsSearchHit(m, query, filter, meId, meName)
  {
    if ms == [] then []
    else
      var rest := HitIds(ms[1..], query, filter, meId, meName);
      assert forall m :: m in ms <==> m == ms[0] || m in ms[1..];
      if IsSearchHit(ms[0], query, filter, meId, meName) then [ms[0].id] + rest else rest
  }

  /** Hits are collected in message order: the result distributes over concatenation. */
  lemma {:induction false} HitIdsAppend(a: seq<Message>, b: seq<Message>, query: string, filter: SearchFilter, meId: string, meName: string)
    ensures HitIds(a + b, query, filter, meId, meName) == HitIds(a, query, filter, meId, meName) + HitIds(b, query, filter, meId, meName)
  {
    if a == [] {
      assert a + b == b;
    } else {
      assert (a + b)[1..] == a[1..] + b;
      HitIdsAppend(a[1..], b, query, filter, meId, meName);
    }
  }

  /** `buildSearchResultIds`: nothing for a blank query without a filter, otherwise the hits. */
  function BuildSearchResultIds(ms: seq<Message>, query: string, filter: SearchFilter, meId: string, meName: string): (r: seq<string>)
  {
    if IsBlankJs(query) && filter == AllMessages then [] else HitIds(ms, query, filter, meId, meName)
  }

  /**
   * The search returns nothing for a blank query without a filter; otherwise
   * exactly the ids of messages whose body holds the trimmed query (ignoring
   * case) and which pass the filter, never more ids than messages.
   */
  lemma {:induction false} BuildSearchResultIdsSpec(ms: seq<Message>, query: string, filter: SearchFilter, meId: string, meName: string)
    ensures var r := BuildSearchResultIds(ms, query, filter, meId, meName);
      && |r| <= |ms|
      && (IsBlankJs(query) && filter == AllMessages ==> r == [])
      && (!(IsBlankJs(query) && filter == AllMessages) ==>
            forall id :: id in r <==> exists m :: m in ms && m.id == id && IsSearchHit(m, query, filter, meId, meName))
  {
  }

  /** With a blank query, the "from me" filter lists exactly the user's own messages. */
  lemma {:induction false} BlankQueryFromMe(ms: seq<Message>, query: string, meId: string, meName: string)
    requires IsBlankJs(query)
    ensures forall id :: id in BuildSearchResultIds(ms, query, FromMe, meId, meName) <==> exists m :: m in ms && m.id == id && m.authorId == meId
  {
    TrimSpec(query, IsJsSpace);
    assert Lower(TrimJs(query)) == [];
  }

  // ---------------------------------------------------------------------------
  // buildThreadSummaries
  // ---------------------------------------------------------------------------

  datatype ThreadSummary = ThreadSummary(totalReplies: nat, unreadReplies: nat)

  /** A reply: its `threadRootId` is set and not empty. */
  predicate IsThreadReply(m: Message)
  {
    m.threadRootId.Some? && m.threadRootId.value != []
  }

  predicate RepliesTo(m: Message, rootId: string)
  {
    IsThreadReply(m) && m.threadRootId.value == rootId
  }

  /** The time before which replies of a thread count as read: its viewed marker, else the room's. */
  function Baseline(roomLastReadTs: int, viewed: Option<map<string, int>>, rootId: string): int
  {
    if viewed.Some? && rootId in viewed.value then viewed.value[rootId] else roomLastReadTs
  }

  /** How many messages reply to `rootId`. */
  function ReplyCount(ms: seq<Message>, rootId: string): nat
  {
    if ms == [] then 0 else ReplyCount(ms[..|ms| - 1], rootId) + (if RepliesTo(ms[|ms| - 1], rootId) then 1 else 0)
  }

  /** How many messages reply to `rootId` after `baseline`. */
  function UnreadReplyCount(ms: seq<Message>, rootId: string, baseline: int): nat
  {
    if ms == [] then 0
    else
      var last := ms[|ms| - 1];
      UnreadReplyCount(ms[..|ms| - 1], rootId, baseline) + (if RepliesTo(last, rootId) && last.timestamp > baseline then 1 else 0)
  }

  /** A thread never has more unread replies than replies. */
  lemma {:induction false} UnreadAtMostTotal(ms: seq<Message>, rootId: string, baseline: int)
    ensures UnreadReplyCount(ms, rootId, baseline) <= ReplyCount(ms, rootId)
  {
    if ms != [] {
      UnreadAtMostTotal(ms[..|ms| - 1], rootId, baseline);
    }
  }

  /** A thread is fully read once its baseline is at least every reply's time. */
  lemma {:induction false} ReadThreadHasNoUnread(ms: seq<Message>, rootId: string, baseline: int)
    requires forall m :: m in ms && RepliesTo(m, rootId) ==> m.timestamp <= baseline
    ensures UnreadReplyCount(ms, rootId, baseline) == 0
  {
    if ms != [] {
      assert ms[|ms| - 1] in ms;
      assert forall m :: m in ms[..|ms| - 1] ==> m in ms;
      ReadThreadHasNoUnread(ms[..|ms| - 1], rootId, baseline);
    }
  }

  /** The ids of the messages that are not replies. */
  function RootIds(ms: seq<Message>): set<string>
  {
    set m | m in ms && !IsThreadReply(m) :: m.id
  }

  /** The roots the replies point at. */
  function RepliedRoots(ms: seq<Message>): set<string>
  {
    set m | m in ms && IsThreadReply(m) :: m.threadRootId.value
  }

  /** The summary of one thread, counted over `ms`. */
  function SummaryOf(ms: seq<Message>, rootId: string, roomLastReadTs: int, viewed: Option<map<string, int>>): ThreadSummary
  {
    ThreadSummary(ReplyCount(ms, rootId), UnreadReplyCount(ms, rootId, Baseline(roomLastReadTs, viewed, rootId)))
  }

  /**
   * What `buildThreadSummaries` computes: an entry for every message that is
   * not a reply and for every root a reply points at, counting its replies
   * and those later than the thread's baseline.
   */
  function ThreadSummaries(ms: seq<Message>, roomLastReadTs: int, viewed: Option<map<string, int>>): map<string, ThreadSummary>
  {
    map k | k in RootIds(ms) + RepliedRoots(ms) :: SummaryOf(ms, k, roomLastReadTs, viewed)
  }

  /** Every summary has at most as many unread replies as replies, and a root without replies shows `{0, 0}`. */
  lemma {:induction false} ThreadSummariesSpec(ms: seq<Message>, roomLastReadTs: int, viewed: Option<map<string, int>>)
    ensures var r := ThreadSummaries(ms, roomLastReadTs, viewed);
      && (forall k :: k in r ==> r[k].unreadReplies <= r[k].totalReplies)
      && (forall m :: m in ms && !IsThreadReply(m) ==> m.id in r)
      && (forall m :: m in ms && IsThreadReply(m) ==> m.threadRootId.value in r && r[m.threadRootId.value].totalReplies >= 1)
  {
    var r := ThreadSummaries(ms, roomLastReadTs, viewed);
    forall k | k in r
      ensures r[k].unreadReplies <= r[k].totalReplies
    {
      UnreadAtMostTotal(ms, k, Baseline(roomLastReadTs, viewed, k));
    }
    forall m | m in ms && IsThreadReply(m)
      ensures m.threadRootId.value in r && r[m.threadRootId.value].totalReplies >= 1
    {
      ReplyCountPositive(ms, m);
    }
  }

  /** A root with a reply in the messages has a positive reply count. */
  lemma {:induction false} ReplyCountPositive(ms: seq<Message>, m: Message)
    requires m in ms && IsThreadReply(m)
    ensures ReplyCount(ms, m.threadRootId.value) >= 1
  {
    if ms[|ms| - 1] != m {
      var i :| 0 <= i < |ms| && ms[i] == m;
      assert ms[..|ms| - 1][i] == m;
      ReplyCountPositive(ms[..|ms| - 1], m);
    }
  }

  lemma {:induction false} RootIdsSnoc(ms: seq<Message>, m: Message)
    ensures RootIds(ms + [m]) == RootIds(ms) + (if IsThreadReply(m) then {} else {m.id})
  {
    assert forall x :: x in ms + [m] <==> x in ms || x == m;
  }

  lemma {:induction false} RepliedRootsSnoc(ms: seq<Message>, m: Message)
    ensures RepliedRoots(ms + [m]) == RepliedRoots(ms) + (if IsThreadReply(m) then {m.threadRootId.value} else {})
  {
    assert forall x :: x in ms + [m] <==> x in ms || x == m;
  }

  /** One more message adds one reply, and perhaps one unread reply, to its root and to no other thread. */
  lemma {:induction false} SummaryOfSnoc(ms: seq<Message>, m: Message, k: string, roomLastReadTs: int, viewed: Option<map<string, int>>)
    ensures var before := SummaryOf(ms, k, roomLastReadTs, viewed);
      SummaryOf(ms + [m], k, roomLastReadTs, viewed) ==
        if RepliesTo(m, k) then
          ThreadSummary(before.totalReplies + 1, before.unreadReplies + if m.timestamp > Baseline(roomLastReadTs, viewed, k) then 1 else 0)
        else before
  {
    assert (ms + [m])[..|ms + [m]| - 1] == ms;
  }

  /** A root no message replies to has no replies and no unread replies. */
  lemma {:induction false} NoRepliesCountZero(ms: seq<Message>, k: string, baseline: int)
    requires k !in RepliedRoots(ms)
    ensures ReplyCount(ms, k) == 0 && UnreadReplyCount(ms, k, baseline) == 0
  {
    if ms != [] {
      var init := ms[..|ms| - 1];
      assert ms == init + [ms[|ms| - 1]];
      RepliedRootsSnoc(init, ms[|ms| - 1]);
      NoRepliesCountZero(init, k, baseline);
    }
  }

  /** The first pass: every message that is not a reply gets `{0, 0}`. */
  method EmptySummaries(ms: seq<Message>) returns (summaries: map<string, ThreadSummary>)
    ensures summaries.Keys == RootIds(ms)
    ensures forall k :: k in summaries ==> summaries[k] == ThreadSummary(0, 0)
  {
    summaries := map[];
    var i := 0;
    while i < |ms|
      invariant 0 <= i <= |ms|
      invariant summaries.Keys == RootIds(ms[..i])
      invariant forall k :: k in summaries ==> summaries[k] == ThreadSummary(0, 0)
    {
      assert ms[..i + 1] == ms[..i] + [ms[i]];
      RootIdsSnoc(ms[..i], ms[i]);
      if !IsThreadReply(ms[i]) {
        summaries := summaries[ms[i].id := ThreadSummary(0, 0)];
      }
      i := i + 1;
    }
    assert ms[..|ms|] == ms;
  }

  /** The summaries so far hold exactly the counts over `done`, for every root and every replied root. */
  predicate SummariesOver(ms: seq<Message>, done: seq<Message>, summaries: map<string, ThreadSummary>, roomLastReadTs: int, viewed: Option<map<string, int>>)
  {
    && summaries.Keys == RootIds(ms) + RepliedRoots(done)
    && forall k :: k in summaries ==> summaries[k] == SummaryOf(done, k, roomLastReadTs, viewed)
  }

  /** One iteration of the second pass: a reply adds one to its root's total, and to its unread count when it is later than the baseline. */
  function Counted(summaries: map<string, ThreadSummary>, m: Message, roomLastReadTs: int, viewed: Option<map<string, int>>): map<string, ThreadSummary>
  {
    if !IsThreadReply(m) then summaries
    else
      var rootId := m.threadRootId.value;
      var summary := if rootId in summaries then summaries[rootId] else ThreadSummary(0, 0);
      var unread := if m.timestamp > Baseline(roomLastReadTs, viewed, rootId) then 1 else 0;
      summaries[rootId := ThreadSummary(summary.totalReplies + 1, summary.unreadReplies + unread)]
  }

  /** Counting one more message keeps the summaries exact. */
  lemma {:induction false} CountedKeepsSummaries(ms: seq<Message>, done: seq<Message>, m: Message, summaries: map<string, ThreadSummary>, roomLastReadTs: int, viewed: Option<map<string, int>>)
    requires SummariesOver(ms, done, summaries, roomLastReadTs, viewed)
    ensures SummariesOver(ms, done + [m], Counted(summaries, m, roomLastReadTs, viewed), roomLastReadTs, viewed)
  {
    RepliedRootsSnoc(done, m);
    var next := Counted(summaries, m, roomLastReadTs, viewed);
    forall k | k in next
      ensures next[k] == SummaryOf(done + [m], k, roomLastReadTs, viewed)
    {
      SummaryOfSnoc(done, m, k, roomLastReadTs, viewed);
      if IsThreadReply(m) && k == m.threadRootId.value && k !in summaries {
        NoRepliesCountZero(done, k, Baseline(roomLastReadTs, viewed, k));
      }
    }
  }

  /** After the first pass nothing has been counted yet. */
  lemma {:induction false} SummariesStart(ms: seq<Message>, summaries: map<string, ThreadSummary>, roomLastReadTs: int, viewed: Option<map<string, int>>)
    requires summaries.Keys == RootIds(ms)
    requires forall k :: k in summaries ==> summaries[k] == ThreadSummary(0, 0)
    ensures SummariesOver(ms, [], summaries, roomLastReadTs, viewed)
  {
    assert RepliedRoots([]) == {};
  }

  /** Once every message is counted, the summaries are `ThreadSummaries`. */
  lemma {:induction false} SummariesEnd(ms: seq<Message>, summaries: map<string, ThreadSummary>, roomLastReadTs: int, viewed: Option<map<string, int>>)
    requires SummariesOver(ms, ms, summaries, roomLastReadTs, viewed)
    ensures summaries == ThreadSummaries(ms, roomLastReadTs, viewed)
  {
  }

  /** The body of the second pass for one message. */
  method CountReply(summaries: map<string, ThreadSummary>, m: Message, roomLastReadTs: int, viewed: Option<map<string, int>>)
    returns (next: map<string, ThreadSummary>)
    ensures next == Counted(summaries, m, roomLastReadTs, viewed)
  {
    next := summaries;
    if IsThreadReply(m) {
      var rootId := m.threadRootId.value;
      var summary := if rootId in next then next[rootId] else ThreadSummary(0, 0);
      var baseline := Baseline(roomLastReadTs, viewed, rootId);
      summary := summary.(totalReplies := summary.totalReplies + 1);
      if m.timestamp > baseline {
        summary := summary.(unreadReplies := summary.unreadReplies + 1);
      }
      next := next[rootId := summary];
    }
  }

  /** `buildThreadSummaries(messages, roomLastReadTs, threadLastViewedByRootId)`, with its two passes. */
  method BuildThreadSummaries(ms: seq<Message>, roomLastReadTs: int, viewed: Option<map<string, int>>) returns (summaries: map<string, ThreadSummary>)
    ensures summaries == ThreadSummaries(ms, roomLastReadTs, viewed)
  {
    summaries := EmptySummaries(ms);
    SummariesStart(ms, summaries, roomLastReadTs, viewed);
    assert ms[..0] == [];
    var i := 0;
    while i < |ms|
      invariant 0 <= i <= |ms|
      invariant SummariesOver(ms, ms[..i], summaries, roomLastReadTs, viewed)
    {
      var m := ms[i];
      ghost var before := summaries;
      summaries := CountReply(summaries, m, roomLastReadTs, viewed);
      CountedKeepsSummaries(ms, ms[..i], m, before, roomLastReadTs, viewed);
      assert ms[..i + 1] == ms[..i] + [m];
      i := i + 1;
    }
    assert ms[..|ms|] == ms;
    SummariesEnd(ms, summaries, roomLastReadTs, viewed);
  }

  /** The example of the search and summary tests: the thread root `m1` has one reply, unread against its viewed marker. */
  lemma {:induction false} ThreadSummaryExample(root: Message, mention: Message, reply: Message)
    requires root.id == "m1" && root.threadRootId.None? && root.timestamp == 1700000000000
    requires mention.id == "m2" && mention.threadRootId.None? && mention.timestamp == 1700000050000
    requires reply.id == "m3" && reply.threadRootId == Some("m1") && reply.timestamp == 1700000080000
    ensures var r := ThreadSummaries([root, mention, reply], 1700000020000, Some(map["m1" := 1700000060000]));
      "m1" in r && r["m1"] == ThreadSummary(1, 1)
  {
    var ms := [root, mention, reply];
    var baseline := Baseline(1700000020000, Some(map["m1" := 1700000060000]), "m1");
    assert baseline == 1700000060000;
    assert [root][..0] == [] && [root, mention][..1] == [root] && ms[..2] == [root, mention];
    assert UnreadReplyCount([root], "m1", baseline) == UnreadReplyCount([root][..0], "m1", baseline);
    assert ReplyCount([root], "m1") == 0 && UnreadReplyCount([root], "m1", baseline) == 0;
    assert ReplyCount([root, mention], "m1") == 0 && UnreadReplyCount([root, mention], "m1", baseline) == 0;
    assert ReplyCount(ms, "m1") == 1 && UnreadReplyCount(ms, "m1", baseline) == 1;
    assert root in ms && !IsThreadReply(root);
    assert "m1" in RootIds(ms);
  }
}
