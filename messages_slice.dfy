/**
 * The messages slice: the messages of every room, the open thread, the reply
 * target and the pinned-messages panel, with the actions that touch nothing
 * else (`togglePins`, `startReply`, `clearReply`, and the local-mode branches of
 * `toggleReaction` and `togglePin`). The actions that also update the rooms, UI,
 * admin or settings slices are in `MessageActions`.
 */
module MessagesSlices {
  import opened Wrappers
  import opened Sorting
  import opened Entities

  /** `messagesByRoomId[roomId] ?? []`. */
  function RoomMessages(byRoom: map<string, seq<Message>>, roomId: string): seq<Message>
  {
    if roomId in byRoom then byRoom[roomId] else []
  }

  // ---------------------------------------------------------------------------
  // toggleReaction (local mode)
  // ---------------------------------------------------------------------------

  /** `message.reactions.find((reaction) => reaction.emoji === emoji)`. */
  function FindReaction(rs: seq<Reaction>, emoji: string): (r: Option<Reaction>)
    ensures r.Some? ==> r.value in rs && r.value.emoji == emoji
    ensures r.None? ==> forall i :: 0 <= i < |rs| ==> rs[i].emoji != emoji
  {
    if rs == [] then None
    else if rs[0].emoji == emoji then Some(rs[0])
    else FindReaction(rs[1..], emoji)
  }

  /** Whether the user is among the reactors of the (first) reaction with this emoji. */
  predicate HasReacted(rs: seq<Reaction>, emoji: string, userId: string)
  {
    FindReaction(rs, emoji).Some? && userId in FindReaction(rs, emoji).value.userIds
  }

  /** The user leaves the list if present (every copy), or joins it at the end. */
  function ToggledUsers(userIds: seq<string>, userId: string): seq<string>
  {
    if userId in userIds then Remove(userIds, userId) else userIds + [userId]
  }

  /** Every reaction with the emoji gets the given reactors. */
  function WithEmojiUsers(rs: seq<Reaction>, emoji: string, userIds: seq<string>): (r: seq<Reaction>)
    ensures |r| == |rs|
    ensures forall i :: 0 <= i < |rs| ==> r[i] == if rs[i].emoji == emoji then rs[i].(userIds := userIds) else rs[i]
  {
    seq(|rs|, i requires 0 <= i < |rs| => if rs[i].emoji == emoji then rs[i].(userIds := userIds) else rs[i])
  }

  /** `reactions.filter((reaction) => reaction.emoji !== emoji)`. */
  function WithoutEmoji(rs: seq<Reaction>, emoji: string): (r: seq<Reaction>)
    ensures forall x :: x in r <==> x in rs && x.emoji != emoji
  {
    if rs == [] then []
    else if rs[0].emoji == emoji then WithoutEmoji(rs[1..], emoji)
    else [rs[0]] + WithoutEmoji(rs[1..], emoji)
  }

  /**
   * The reactions after the user toggles an emoji: a new reaction with the user
   * alone; or the user removed from / added to the existing reactors, the
   * reaction disappearing when nobody is left.
   */
  function ToggledReactions(rs: seq<Reaction>, emoji: string, userId: string): seq<Reaction>
  {
    match FindReaction(rs, emoji)
    case None => rs + [Reaction(emoji, [userId])]
    case Some(existing) =>
      var updated := ToggledUsers(existing.userIds, userId);
      if |updated| > 0 then WithEmojiUsers(rs, emoji, updated) else WithoutEmoji(rs, emoji)
  }

  lemma {:induction false} FindAfterAppend(rs: seq<Reaction>, x: Reaction)
    requires FindReaction(rs, x.emoji).None?
    ensures FindReaction(rs + [x], x.emoji) == Some(x)
  {
    if rs != [] {
      assert (rs + [x])[1..] == rs[1..] + [x];
      FindAfterAppend(rs[1..], x);
    }
  }

  lemma {:induction false} FindAfterWithEmojiUsers(rs: seq<Reaction>, emoji: string, userIds: seq<string>)
    requires FindReaction(rs, emoji).Some?
    ensures FindReaction(WithEmojiUsers(rs, emoji, userIds), emoji) == Some(FindReaction(rs, emoji).value.(userIds := userIds))
  {
    if rs[0].emoji != emoji {
      assert WithEmojiUsers(rs, emoji, userIds)[1..] == WithEmojiUsers(rs[1..], emoji, userIds);
      FindAfterWithEmojiUsers(rs[1..], emoji, userIds);
    }
  }

  /**
   * Toggling flips whether the user has reacted with the emoji, and afterwards
   * no reaction with that emoji is left without reactors.
   */
  lemma {:induction false} ToggledReactionsFlips(rs: seq<Reaction>, emoji: string, userId: string)
    ensures HasReacted(ToggledReactions(rs, emoji, userId), emoji, userId) <==> !HasReacted(rs, emoji, userId)
    ensures forall x :: x in ToggledReactions(rs, emoji, userId) && x.emoji == emoji ==> |x.userIds| > 0
  {
    var r := ToggledReactions(rs, emoji, userId);
    match FindReaction(rs, emoji)
    case None =>
      FindAfterAppend(rs, Reaction(emoji, [userId]));
      forall x | x in r && x.emoji == emoji
        ensures |x.userIds| > 0
      {
        var i :| 0 <= i < |r| && r[i] == x;
        if i < |rs| {
          assert rs[i] == x;
        }
      }
    case Some(existing) =>
      var updated := ToggledUsers(existing.userIds, userId);
      if |updated| > 0 {
        FindAfterWithEmojiUsers(rs, emoji, updated);
        forall x | x in r && x.emoji == emoji
          ensures |x.userIds| > 0
        {
          var i :| 0 <= i < |r| && r[i] == x;
        }
      } else {
        forall x | x in r
          ensures x.emoji != emoji
        {
        }
        assert FindReaction(r, emoji).None?;
      }
  }

  lemma {:induction false} WithoutEmojiAppend(rs: seq<Reaction>, x: Reaction)
    ensures WithoutEmoji(rs + [x], x.emoji) == WithoutEmoji(rs, x.emoji)
  {
    if rs == [] {
      assert [x][1..] == [];
    } else {
      assert (rs + [x])[0] == rs[0] && (rs + [x])[1..] == rs[1..] + [x];
      WithoutEmojiAppend(rs[1..], x);
    }
  }

  lemma {:induction false} WithoutEmojiOfWithEmojiUsers(rs: seq<Reaction>, emoji: string, userIds: seq<string>)
    ensures WithoutEmoji(WithEmojiUsers(rs, emoji, userIds), emoji) == WithoutEmoji(rs, emoji)
  {
    if rs != [] {
      assert WithEmojiUsers(rs, emoji, userIds)[1..] == WithEmojiUsers(rs[1..], emoji, userIds);
      WithoutEmojiOfWithEmojiUsers(rs[1..], emoji, userIds);
    }
  }

  lemma {:induction false} WithoutEmojiIdempotent(rs: seq<Reaction>, emoji: string)
    ensures WithoutEmoji(WithoutEmoji(rs, emoji), emoji) == WithoutEmoji(rs, emoji)
  {
    if rs != [] {
      WithoutEmojiIdempotent(rs[1..], emoji);
    }
  }

  /** Reactions with other emojis are kept, in their order and with their reactors. */
  lemma {:induction false} ToggledReactionsKeepsOthers(rs: seq<Reaction>, emoji: string, userId: string)
    ensures WithoutEmoji(ToggledReactions(rs, emoji, userId), emoji) == WithoutEmoji(rs, emoji)
  {
    match FindReaction(rs, emoji)
    case None =>
      WithoutEmojiAppend(rs, Reaction(emoji, [userId]));
    case Some(existing) =>
      var updated := ToggledUsers(existing.userIds, userId);
      if |updated| > 0 {
        WithoutEmojiOfWithEmojiUsers(rs, emoji, updated);
      } else {
        WithoutEmojiIdempotent(rs, emoji);
      }
  }

  /** The room's messages with the reaction toggled on the target message only. */
  function WithToggledReaction(ms: seq<Message>, messageId: string, emoji: string, userId: string): (r: seq<Message>)
    ensures |r| == |ms|
    ensures forall i :: 0 <= i < |ms| ==>
      r[i] == if ms[i].id == messageId then ms[i].(reactions := ToggledReactions(ms[i].reactions, emoji, userId)) else ms[i]
  {
    seq(|ms|, i requires 0 <= i < |ms| =>
      if ms[i].id == messageId then ms[i].(reactions := ToggledReactions(ms[i].reactions, emoji, userId)) else ms[i])
  }

  // ---------------------------------------------------------------------------
  // togglePin (local mode)
  // ---------------------------------------------------------------------------

  /** The room's messages with `pinned` negated on the target message only. */
  function WithToggledPin(ms: seq<Message>, messageId: string): (r: seq<Message>)
    ensures |r| == |ms|
    ensures forall i :: 0 <= i < |ms| ==> r[i] == if ms[i].id == messageId then ms[i].(pinned := !ms[i].pinned) else ms[i]
  {
    seq(|ms|, i requires 0 <= i < |ms| => if ms[i].id == messageId then ms[i].(pinned := !ms[i].pinned) else ms[i])
  }

  /** Pinning twice restores the messages. */
  lemma {:induction false} WithToggledPinTwice(ms: seq<Message>, messageId: string)
    ensures WithToggledPin(WithToggledPin(ms, messageId), messageId) == ms
  {
    var r := WithToggledPin(WithToggledPin(ms, messageId), messageId);
    assert forall i :: 0 <= i < |ms| ==> r[i] == ms[i];
  }

  /** The fields of the messages slice, as one value. */
  datatype MessagesState = MessagesState(
    messagesByRoomId: map<string, seq<Message>>,
    threadRootId: Option<string>,
    replyToId: Option<string>,
    showThread: bool,
    showPins: bool)

  class MessagesSlice {
    var messagesByRoomId: map<string, seq<Message>>
    var threadRootId: Option<string>
    var replyToId: Option<string>
    var showThread: bool
    var showPins: bool

    function State(): MessagesState
      reads this
    {
      MessagesState(messagesByRoomId, threadRootId, replyToId, showThread, showPins)
    }

    /** Starts with the given messages, no thread, no reply target and both panels closed. */
    constructor (messages: map<string, seq<Message>>)
      ensures State() == MessagesState(messages, None, None, false, false)
    {
      messagesByRoomId := messages;
      threadRootId := None;
      replyToId := None;
      showThread := false;
      showPins := false;
    }

    /** Replaces the whole slice, as the store's `set` does with the fields an updater returns. */
    method SetState(t: MessagesState)
      modifies this
      ensures State() == t
    {
      messagesByRoomId := t.messagesByRoomId;
      threadRootId := t.threadRootId;
      replyToId := t.replyToId;
      showThread := t.showThread;
      showPins := t.showPins;
    }

    method TogglePins()
      modifies this
      ensures State() == old(State()).(showPins := !old(showPins))
    {
      showPins := !showPins;
    }

    method StartReply(messageId: string)
      modifies this
      ensures State() == old(State()).(replyToId := Some(messageId))
    {
      replyToId := Some(messageId);
    }

    method ClearReply()
      modifies this
      ensures State() == old(State()).(replyToId := None)
    {
      replyToId := None;
    }

    /**
     * `toggleReaction` without a Matrix client: the current room's messages get
     * the reaction toggled for the user on the target message (the room's entry
     * is written even when it was missing).
     */
    method ToggleReaction(messageId: string, emoji: string, currentRoomId: string, meId: string)
      modifies this
      ensures State() == old(State()).(messagesByRoomId := old(messagesByRoomId)[currentRoomId :=
        WithToggledReaction(RoomMessages(old(messagesByRoomId), currentRoomId), messageId, emoji, meId)])
    {
      var ms := RoomMessages(messagesByRoomId, currentRoomId);
      messagesByRoomId := messagesByRoomId[currentRoomId := WithToggledReaction(ms, messageId, emoji, meId)];
    }

    /** `togglePin` without a Matrix client: `pinned` is negated on the target message of the current room. */
    method TogglePin(messageId: string, currentRoomId: string)
      modifies this
      ensures State() == old(State()).(messagesByRoomId := old(messagesByRoomId)[currentRoomId :=
        WithToggledPin(RoomMessages(old(messagesByRoomId), currentRoomId), messageId)])
    {
      var ms := RoomMessages(messagesByRoomId, currentRoomId);
      messagesByRoomId := messagesByRoomId[currentRoomId := WithToggledPin(ms, messageId)];
    }
  }
}
