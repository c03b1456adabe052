/**
 * Turning a Matrix room timeline into chat messages (src/matrix/timeline.ts).
 * Events are reduced to the fields the mapping reads; a field that is missing
 * or not a string in the event content is `None` (or `""` where the source
 * only tests its truthiness). Generated ids (`uid`) come from `freshId`,
 * indexed by the event's position in the timeline.
 */
module Timeline {
  import opened Wrappers
  import opened Text
  import opened Entities

  datatype TimelineEvent =
    /** `m.reaction`: `target` and `key` are `m.relates_to.event_id` and `.key`, `""` when absent. */
    | ReactionEvent(sender: Option<string>, target: string, key: string)
    /** `m.room.message`. */
    | RoomMessage(
        id: Option<string>,
        sender: Option<string>,
        ts: int,
        redacted: bool,
        body: Option<string>,
        msgtype: string,
        inReplyTo: Option<string>,
        relType: string,
        relEventId: Option<string>)
    /** `m.room.member`: `membership` and `prevMembership` are `""` when not strings. */
    | MemberEvent(
        id: Option<string>,
        sender: Option<string>,
        stateKey: Option<string>,
        ts: int,
        membership: string,
        prevMembership: string,
        displayName: Option<string>)
    /** Any other event type. */
    | OtherEvent

  /** A reaction the grouping pass keeps: both the target event id and the key are truthy. */
  predicate IsGroupedReaction(e: TimelineEvent)
  {
    e.ReactionEvent? && e.target != "" && e.key != ""
  }

  /** Reactions per target event id, each list in first-seen emoji order. */
  type ReactionIndex = map<string, seq<Reaction>>

  function BucketOf(index: ReactionIndex, target: string): seq<Reaction>
  {
    if target in index then index[target] else []
  }

  /** The sender list recorded for `key` in a bucket, `[]` when the key has none. */
  function UsersOf(bucket: seq<Reaction>, key: string): seq<string>
  {
    if bucket == [] then []
    else if bucket[0].emoji == key then bucket[0].userIds
    else UsersOf(bucket[1..], key)
  }

  function Emojis(bucket: seq<Reaction>): (r: seq<string>)
    ensures |r| == |bucket|
    ensures forall i :: 0 <= i < |bucket| ==> r[i] == bucket[i].emoji
  {
    if bucket == [] then [] else [bucket[0].emoji] + Emojis(bucket[1..])
  }

  /** No emoji appears twice and no entry has an empty sender list. */
  predicate WellGrouped(bucket: seq<Reaction>)
  {
    (forall i, j :: 0 <= i < j < |bucket| ==> bucket[i].emoji != bucket[j].emoji) &&
    (forall i :: 0 <= i < |bucket| ==> bucket[i].userIds != [])
  }

  /** `users = bucket.get(key) ?? []; users.push(sender); bucket.set(key, users)`. */
  function AddSender(bucket: seq<Reaction>, key: string, sender: string): seq<Reaction>
  {
    if bucket == [] then [Reaction(key, [sender])]
    else if bucket[0].emoji == key then [bucket[0].(userIds := bucket[0].userIds + [sender])] + bucket[1..]
    else [bucket[0]] + AddSender(bucket[1..], key, sender)
  }

  /** Adding a sender appends it to that key's list and leaves every other key's list alone. */
  lemma {:induction false} AddSenderUsers(bucket: seq<Reaction>, key: string, sender: string, k: string)
    ensures UsersOf(AddSender(bucket, key, sender), k) ==
      (if k == key then UsersOf(bucket, k) + [sender] else UsersOf(bucket, k))
    decreases |bucket|
  {
    if bucket != [] && bucket[0].emoji != key {
      AddSenderUsers(bucket[1..], key, sender, k);
      var rest := AddSender(bucket[1..], key, sender);
      assert ([bucket[0]] + rest)[1..] == rest;
    } else if bucket != [] {
      assert AddSender(bucket, key, sender)[1..] == bucket[1..];
    }
  }

  /** A known key keeps the emoji list; a new key goes last. */
  lemma {:induction false} AddSenderEmojis(bucket: seq<Reaction>, key: string, sender: string)
    ensures key in Emojis(bucket) ==> Emojis(AddSender(bucket, key, sender)) == Emojis(bucket)
    ensures key !in Emojis(bucket) ==> Emojis(AddSender(bucket, key, sender)) == Emojis(bucket) + [key]
    decreases |bucket|
  {
    if bucket != [] && bucket[0].emoji != key {
      AddSenderEmojis(bucket[1..], key, sender);
      var rest := AddSender(bucket[1..], key, sender);
      assert ([bucket[0]] + rest)[1..] == rest;
      assert Emojis(bucket) == [bucket[0].emoji] + Emojis(bucket[1..]);
      assert Emojis([bucket[0]] + rest) == [bucket[0].emoji] + Emojis(rest);
    } else if bucket != [] {
      var r := AddSender(bucket, key, sender);
      assert r[1..] == bucket[1..];
      assert Emojis(r) == [key] + Emojis(bucket[1..]);
      assert Emojis(bucket) == [key] + Emojis(bucket[1..]);
    }
  }

  /** Adding a sender keeps every emoji listed once with a non-empty sender list. */
  lemma {:induction false} AddSenderKeepsGrouping(bucket: seq<Reaction>, key: string, sender: string)
    requires WellGrouped(bucket)
    ensures WellGrouped(AddSender(bucket, key, sender))
  {
    AddSenderEmojis(bucket, key, sender);
    var r := AddSender(bucket, key, sender);
    var es := Emojis(r);
    assert forall i, j :: 0 <= i < j < |r| ==> es[i] != es[j];
    forall i | 0 <= i < |r|
      ensures r[i].userIds != []
    {
      AddSenderUsers(bucket, key, sender, r[i].emoji);
      UsersOfAt(r, i);
      if i < |bucket| {
        UsersOfAt(bucket, i);
      }
    }
  }

  /** In a bucket without repeated emojis, an entry's senders are what `UsersOf` finds for its emoji. */
  lemma {:induction false} UsersOfAt(bucket: seq<Reaction>, i: nat)
    requires i < |bucket|
    requires forall a, b :: 0 <= a < b < |bucket| ==> bucket[a].emoji != bucket[b].emoji
    ensures UsersOf(bucket, bucket[i].emoji) == bucket[i].userIds
    decreases i
  {
    if i > 0 {
      UsersOfAt(bucket[1..], i - 1);
    }
  }

  /** A key is listed in a well-grouped bucket exactly when it has senders. */
  lemma {:induction false} EmojisListUsers(bucket: seq<Reaction>, key: string)
    requires WellGrouped(bucket)
    ensures key in Emojis(bucket) <==> UsersOf(bucket, key) != []
    decreases |bucket|
  {
    if bucket != [] {
      assert WellGrouped(bucket[1..]);
      EmojisListUsers(bucket[1..], key);
      assert Emojis(bucket) == [bucket[0].emoji] + Emojis(bucket[1..]);
    }
  }

  /** The reaction map after the first pass over the timeline. */
  function Grouped(events: seq<TimelineEvent>): ReactionIndex
    decreases |events|
  {
    if events == [] then map[]
    else
      var index := Grouped(events[..|events| - 1]);
      var e := events[|events| - 1];
      if IsGroupedReaction(e)
      then index[e.target := AddSender(BucketOf(index, e.target), e.key, e.sender.GetOr(""))]
      else index
  }

  /** The senders of kept reactions to `target` with `key`, in timeline order: the reference for the grouping. */
  function SendersFor(events: seq<TimelineEvent>, target: string, key: string): seq<string>
    decreases |events|
  {
    if events == [] then []
    else
      var e := events[|events| - 1];
      SendersFor(events[..|events| - 1], target, key) +
        (if IsGroupedReaction(e) && e.target == target && e.key == key then [e.sender.GetOr("")] else [])
  }

  /**
   * Reactions are grouped per (target, key): every target's bucket lists each key
   * once, exactly the keys that have kept reactions, with their senders in
   * timeline order.
   */
  lemma {:induction false} GroupedSpec(events: seq<TimelineEvent>)
    ensures forall t, k :: UsersOf(BucketOf(Grouped(events), t), k) == SendersFor(events, t, k)
    ensures forall t :: WellGrouped(BucketOf(Grouped(events), t))
  {
    forall t, k
      ensures UsersOf(BucketOf(Grouped(events), t), k) == SendersFor(events, t, k)
    {
      GroupedUsers(events, t, k);
    }
    forall t
      ensures WellGrouped(BucketOf(Grouped(events), t))
    {
      GroupedWell(events, t);
    }
  }

  lemma {:induction false} GroupedUsers(events: seq<TimelineEvent>, t: string, k: string)
    ensures UsersOf(BucketOf(Grouped(events), t), k) == SendersFor(events, t, k)
    decreases |events|
  {
    if events != [] {
      var init := events[..|events| - 1];
      var e := events[|events| - 1];
      GroupedUsers(init, t, k);
      if IsGroupedReaction(e) && e.target == t {
        AddSenderUsers(BucketOf(Grouped(init), t), e.key, e.sender.GetOr(""), k);
      }
    }
  }

  lemma {:induction false} GroupedWell(events: seq<TimelineEvent>, t: string)
    ensures WellGrouped(BucketOf(Grouped(events), t))
    decreases |events|
  {
    if events != [] {
      var init := events[..|events| - 1];
      var e := events[|events| - 1];
      GroupedWell(init, t);
      if IsGroupedReaction(e) && e.target == t {
        AddSenderKeepsGrouping(BucketOf(Grouped(init), t), e.key, e.sender.GetOr(""));
      }
    }
  }

  /** The kept keys for a target are exactly those with at least one sender. */
  lemma {:induction false} GroupedKeys(events: seq<TimelineEvent>, target: string, key: string)
    ensures key in Emojis(BucketOf(Grouped(events), target)) <==> SendersFor(events, target, key) != []
  {
    GroupedSpec(events);
    EmojisListUsers(BucketOf(Grouped(events), target), key);
  }

  /** Ignored reactions (no target or no key) never show up. */
  lemma {:induction false} UnkeyedReactionsIgnored(events: seq<TimelineEvent>, target: string, key: string)
    requires target == "" || key == ""
    ensures SendersFor(events, target, key) == []
    decreases |events|
  {
    if events != [] {
      UnkeyedReactionsIgnored(events[..|events| - 1], target, key);
    }
  }

  /** The first pass of `mapEventsToMessages`: the `forEach` filling `reactionsByEvent`. */
  method GroupReactions(events: seq<TimelineEvent>) returns (index: ReactionIndex)
    ensures index == Grouped(events)
  {
    index := map[];
    var i := 0;
    while i < |events|
      invariant 0 <= i <= |events|
      invariant index == Grouped(events[..i])
    {
      var e := events[i];
      assert events[..i + 1][..i] == events[..i];
      if IsGroupedReaction(e) {
        var users := AddSender(BucketOf(index, e.target), e.key, e.sender.GetOr(""));
        index := index[e.target := users];
      }
      i := i + 1;
    }
    assert events[..i] == events;
  }

  const Join := "join"
  const Leave := "leave"
  const Invite := "invite"
  const Ban := "ban"
  const Knock := "knock"

  /** The membership values that have a system message template. */
  predicate HasTemplate(membership: string)
  {
    membership == Join || membership == Leave || membership == Invite || membership == Ban || membership == Knock
  }

  /** The system message text for a membership change, `""` for an unknown membership. */
  function MembershipBody(membership: string, previous: string, target: string, sender: string): string
  {
    if membership == Join then
      (if previous == Invite then target + " joined from invite" else target + " joined the room")
    else if membership == Leave then
      (if previous == Join then target + " left the room" else target + " left")
    else if membership == Invite then sender + " invited " + target
    else if membership == Ban then target + " was banned"
    else if membership == Knock then target + " requested to join"
    else ""
  }

  lemma {:induction false} MembershipBodySpec(membership: string, previous: string, target: string, sender: string)
    ensures MembershipBody(membership, previous, target, sender) != "" <==> HasTemplate(membership)
  {
    var b := MembershipBody(membership, previous, target, sender);
    if HasTemplate(membership) {
      assert |b| > 0;
    }
  }

  /** `event.getStateKey() ?? event.getSender() ?? ""`. */
  function TargetUserId(e: TimelineEvent): string
    requires e.MemberEvent?
  {
    if e.stateKey.Some? then e.stateKey.value else e.sender.GetOr("")
  }

  /** A non-blank `displayname`, else the target user id. */
  function TargetDisplayName(e: TimelineEvent): string
    requires e.MemberEvent?
  {
    if e.displayName.Some? && !IsBlankJs(e.displayName.value) then e.displayName.value else TargetUserId(e)
  }

  function SenderUserId(e: TimelineEvent): string
    requires e.MemberEvent?
  {
    e.sender.GetOr(TargetUserId(e))
  }

  /** Whether a message or membership event yields a message. */
  predicate Yields(e: TimelineEvent)
  {
    (e.RoomMessage? && !e.redacted) ||
    (e.MemberEvent? && e.membership != "" && e.membership != e.prevMembership && HasTemplate(e.membership))
  }

  /** The callback given to `flatMap`: the messages one event contributes. */
  function MapEvent(e: TimelineEvent, pos: nat, index: ReactionIndex, pinned: set<string>, roomId: string,
                    freshId: nat -> string): seq<Message>
  {
    match e
    case RoomMessage(id, sender, ts, redacted, body, msgtype, inReplyTo, relType, relEventId) =>
      if redacted then []
      else
        [Message(
          id := id.GetOr(freshId(pos)),
          roomId := roomId,
          authorId := sender.GetOr(""),
          body := body.GetOr(""),
          timestamp := ts,
          reactions := BucketOf(index, id.GetOr("")),
          attachmentCount := if msgtype == "m.image" || msgtype == "m.file" then 1 else 0,
          replyToId := inReplyTo,
          threadRootId := if relType == "m.thread" then relEventId else None,
          pinned := id.GetOr("") in pinned,
          system := false,
          status := None)]
    case MemberEvent(id, sender, _, ts, membership, previous, _) =>
      if membership == "" || membership == previous then []
      else
        var target := TargetUserId(e);
        var body := MembershipBody(membership, previous, TargetDisplayName(e), SenderUserId(e));
        if body == "" then []
        else
          [Message(
            id := id.GetOr(freshId(pos)),
            roomId := roomId,
            authorId := if target != "" then target else SenderUserId(e),
            body := body,
            timestamp := ts,
            reactions := [],
            attachmentCount := 0,
            replyToId := None,
            threadRootId := None,
            pinned := false,
            system := true,
            status := None)]
    case _ => []
  }

  /**
   * An event yields at most one message, and one exactly when it is an unredacted
   * room message or a membership change that is non-empty, differs from the
   * previous membership and has a template.
   */
  lemma {:induction false} MapEventSpec(e: TimelineEvent, pos: nat, index: ReactionIndex, pinned: set<string>, roomId: string,
                     freshId: nat -> string)
    ensures |MapEvent(e, pos, index, pinned, roomId, freshId)| <= 1
    ensures |MapEvent(e, pos, index, pinned, roomId, freshId)| == 1 <==> Yields(e)
    ensures e.RoomMessage? && e.redacted ==> MapEvent(e, pos, index, pinned, roomId, freshId) == []
    ensures e.ReactionEvent? || e.OtherEvent? ==> MapEvent(e, pos, index, pinned, roomId, freshId) == []
  {
    if e.MemberEvent? {
      MembershipBodySpec(e.membership, e.prevMembership, TargetDisplayName(e), SenderUserId(e));
    }
  }

  /** A mapped message carries the grouped reactions of its event id. */
  lemma {:induction false} MappedReactions(events: seq<TimelineEvent>, e: TimelineEvent, pos: nat, pinned: set<string>, roomId: string,
                        freshId: nat -> string)
    requires e.RoomMessage? && !e.redacted && e.id.Some?
    ensures var ms := MapEvent(e, pos, Grouped(events), pinned, roomId, freshId);
      |ms| == 1 && ms[0].id == e.id.value && ms[0].pinned == (e.id.value in pinned) &&
      WellGrouped(ms[0].reactions) &&
      (forall k :: UsersOf(ms[0].reactions, k) == SendersFor(events, e.id.value, k))
  {
    GroupedSpec(events);
  }

  /** The texts of membership messages. */
  lemma {:induction false} MembershipMessages(e: TimelineEvent, pos: nat, index: ReactionIndex, pinned: set<string>, roomId: string,
                           freshId: nat -> string)
    requires e.MemberEvent? && e.membership != e.prevMembership
    ensures var ms := MapEvent(e, pos, index, pinned, roomId, freshId);
      var name := TargetDisplayName(e);
      (e.membership == Join && e.prevMembership == Invite ==> ms[0].body == name + " joined from invite") &&
      (e.membership == Join && e.prevMembership != Invite ==> ms[0].body == name + " joined the room") &&
      (e.membership == Leave && e.prevMembership == Join ==> ms[0].body == name + " left the room") &&
      (e.membership == Leave && e.prevMembership != Join ==> ms[0].body == name + " left") &&
      (e.membership == Invite ==> ms[0].body == SenderUserId(e) + " invited " + name) &&
      (e.membership == Ban ==> ms[0].body == name + " was banned") &&
      (e.membership == Knock ==> ms[0].body == name + " requested to join") &&
      (HasTemplate(e.membership) ==> ms[0].system && ms[0].reactions == [] && ms[0].timestamp == e.ts)
  {
  }

  /** `timelineEvents.flatMap(...)`. */
  function MapEvents(events: seq<TimelineEvent>, index: ReactionIndex, pinned: set<string>, roomId: string,
                     freshId: nat -> string): seq<Message>
    decreases |events|
  {
    if events == [] then []
    else
      MapEvents(events[..|events| - 1], index, pinned, roomId, freshId) +
        MapEvent(events[|events| - 1], |events| - 1, index, pinned, roomId, freshId)
  }

  /** The number of events that yield a message. */
  function YieldCount(events: seq<TimelineEvent>): nat
    decreases |events|
  {
    if events == [] then 0
    else YieldCount(events[..|events| - 1]) + (if Yields(events[|events| - 1]) then 1 else 0)
  }

  /** One message per yielding event, so never more messages than events. */
  lemma {:induction false} MapEventsCount(events: seq<TimelineEvent>, index: ReactionIndex, pinned: set<string>,
                                          roomId: string, freshId: nat -> string)
    ensures |MapEvents(events, index, pinned, roomId, freshId)| == YieldCount(events) <= |events|
    decreases |events|
  {
    if events != [] {
      MapEventsCount(events[..|events| - 1], index, pinned, roomId, freshId);
      MapEventSpec(events[|events| - 1], |events| - 1, index, pinned, roomId, freshId);
    }
  }

  /** A room as the mapping sees it: its id, its live timeline and its pinned event ids. */
  datatype RoomSnapshot = RoomSnapshot(roomId: string, events: seq<TimelineEvent>, pinned: set<string>)

  /** What `mapEventsToMessages` returns for a room. */
  function Mapped(room: RoomSnapshot, freshId: nat -> string): seq<Message>
  {
    MapEvents(room.events, Grouped(room.events), room.pinned, room.roomId, freshId)
  }

  /** `mapEventsToMessages`: the grouping loop, then the pure mapping. */
  method MapEventsToMessages(room: RoomSnapshot, freshId: nat -> string) returns (messages: seq<Message>)
    ensures messages == Mapped(room, freshId)
    ensures |messages| == YieldCount(room.events)
  {
    var index := GroupReactions(room.events);
    messages := MapEvents(room.events, index, room.pinned, room.roomId, freshId);
    MapEventsCount(room.events, index, room.pinned, room.roomId, freshId);
  }

  /** A string that is present and holds a non-whitespace character. */
  predicate Usable(v: Option<string>)
  {
    v.Some? && !IsBlankJs(v.value)
  }

  /** `getRedactionTargetEventId`: the top-level `redacts`, else `content.redacts`, else `""`. */
  function RedactionTarget(topLevel: Option<string>, inContent: Option<string>): string
  {
    if Usable(topLevel) then topLevel.value
    else if Usable(inContent) then inContent.value
    else ""
  }

  /** A usable top-level value wins, the content value is the fallback, and a blank id is never returned. */
  lemma {:induction false} RedactionTargetSpec(topLevel: Option<string>, inContent: Option<string>)
    ensures var r := RedactionTarget(topLevel, inContent);
      (r == "" <==> !Usable(topLevel) && !Usable(inContent)) &&
      (r != "" ==> !IsBlankJs(r)) &&
      (Usable(topLevel) ==> r == topLevel.value) &&
      (!Usable(topLevel) && Usable(inContent) ==> r == inContent.value)
  {
    var r := RedactionTarget(topLevel, inContent);
    if r == "" {
      assert TrimJs("") == [] by { TrimSpec("", IsJsSpace); }
    }
  }

  const DefaultMaxPages := 4

  /**
   * The loop stops after `pages` paginations when messages were found, the last
   * pagination said there is no more history, or the page budget is spent.
   */
  predicate StopsAt(rooms: nat -> RoomSnapshot, more: nat -> bool, maxPages: int, freshId: nat -> string, pages: nat)
  {
    Mapped(rooms(pages), freshId) != [] || (pages > 0 && !more(pages)) || pages >= maxPages
  }

  /** The number of paginations the loop performs, counting from `from`. */
  function PagesLoaded(rooms: nat -> RoomSnapshot, more: nat -> bool, maxPages: int, freshId: nat -> string,
                       from: nat): nat
    decreases if from < maxPages then maxPages - from else 0
  {
    if StopsAt(rooms, more, maxPages, freshId, from) then from
    else PagesLoaded(rooms, more, maxPages, freshId, from + 1)
  }

  /** The loop stops at the first stopping point, which is never beyond the budget. */
  lemma {:induction false} PagesLoadedSpec(rooms: nat -> RoomSnapshot, more: nat -> bool, maxPages: int,
                                           freshId: nat -> string, from: nat)
    ensures var p := PagesLoaded(rooms, more, maxPages, freshId, from);
      from <= p &&
      (p <= from || p <= maxPages) &&
      StopsAt(rooms, more, maxPages, freshId, p) &&
      (forall j :: from <= j < p ==> !StopsAt(rooms, more, maxPages, freshId, j))
    decreases if from < maxPages then maxPages - from else 0
  {
    if !StopsAt(rooms, more, maxPages, freshId, from) {
      PagesLoadedSpec(rooms, more, maxPages, freshId, from + 1);
    }
  }

  /**
   * `loadRoomMessagesWithBackfill`. `rooms(k)` is the room after `k` paginations,
   * `more(k)` what the `k`-th pagination returned, and `canPaginate` whether the
   * client has `paginateEventTimeline`.
   */
  method LoadRoomMessagesWithBackfill(rooms: nat -> RoomSnapshot, more: nat -> bool, canPaginate: bool,
                                      maxPages: int, freshId: nat -> string)
    returns (messages: seq<Message>, hasMore: bool)
    ensures !canPaginate ==> messages == Mapped(rooms(0), freshId) && !hasMore
    ensures canPaginate ==>
      var p := PagesLoaded(rooms, more, maxPages, freshId, 0);
      messages == Mapped(rooms(p), freshId) && hasMore == (p == 0 || more(p))
  {
    messages := MapEventsToMessages(rooms(0), freshId);
    if !canPaginate {
      hasMore := false;
      return;
    }
    hasMore := true;
    var pagesLoaded: nat := 0;
    while messages == [] && hasMore && pagesLoaded < maxPages
      invariant messages == Mapped(rooms(pagesLoaded), freshId)
      invariant hasMore == (pagesLoaded == 0 || more(pagesLoaded))
      invariant PagesLoaded(rooms, more, maxPages, freshId, 0) == PagesLoaded(rooms, more, maxPages, freshId, pagesLoaded)
      decreases maxPages - pagesLoaded
    {
      pagesLoaded := pagesLoaded + 1;
      hasMore := more(pagesLoaded);
      messages := MapEventsToMessages(rooms(pagesLoaded), freshId);
    }
  }

  /** The backfill paginates at most `maxPages` times, and not at all once the room already has messages. */
  lemma {:induction false} BackfillBudget(rooms: nat -> RoomSnapshot, more: nat -> bool, maxPages: int, freshId: nat -> string)
    ensures PagesLoaded(rooms, more, maxPages, freshId, 0) <= (if maxPages < 0 then 0 else maxPages)
    ensures Mapped(rooms(0), freshId) != [] ==> PagesLoaded(rooms, more, maxPages, freshId, 0) == 0
  {
    PagesLoadedSpec(rooms, more, maxPages, freshId, 0);
  }
}
