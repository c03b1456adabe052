/**
 * The message actions of the store in local mode (no Matrix client):
 * `toggleThread`, `sendMessage`, `redactMessage` and `simulateIncoming`.
 * Each reads and writes fields of several slices, so each is a method over
 * those slice objects. Message ids, audit ids, notification ids and the clock
 * are parameters.
 */
module MessageActions {
  import opened Wrappers
  import opened Text
  import opened Entities
  import opened MessagesSlices
  import opened RoomsSlices
  import opened UiSlices
  import opened SessionSlices
  import opened SettingsSlices
  import opened AdminSlices

  const RedactAuditAction: string := "message.redact"
  const MentionTitlePrefix: string := "Mention in #"
  const IncomingSuffix: string := " check the latest onboarding tweaks in #welcome."

  // ---------------------------------------------------------------------------
  // toggleThread
  // ---------------------------------------------------------------------------

  /** What `toggleThread` is called with: `null`, a root id, or nothing. */
  datatype ThreadTarget = CloseThread | OpenThread(rootId: string) | FlipThread

  predicate IsReplyTo(m: Message, rootId: string)
  {
    m.threadRootId == Some(rootId)
  }

  /**
   * The timestamp of the last reply in a thread once the replies are sorted by
   * time, which is the latest reply time; `None` for a thread without replies.
   */
  function ThreadLatest(ms: seq<Message>, rootId: string): (r: Option<int>)
    ensures r.None? <==> forall m :: m in ms ==> !IsReplyTo(m, rootId)
    ensures r.Some? ==> exists m :: m in ms && IsReplyTo(m, rootId) && m.timestamp == r.value
    ensures r.Some? ==> forall m :: m in ms && IsReplyTo(m, rootId) ==> m.timestamp <= r.value
  {
    if ms == [] then None
    else
      var rest := ThreadLatest(ms[1..], rootId);
      assert forall m :: m in ms <==> m == ms[0] || m in ms[1..];
      if !IsReplyTo(ms[0], rootId) then rest
      else if rest.Some? && ms[0].timestamp <= rest.value then rest
      else Some(ms[0].timestamp)
  }

  /** The thread-viewed marker `toggleThread` and `sendMessage` record: the latest reply, else now. */
  function LatestThreadTimestamp(ms: seq<Message>, rootId: string, now: int): int
  {
    ThreadLatest(ms, rootId).GetOr(now)
  }

  /** The thread-viewed markers with one thread of one room set to `ts`. */
  function WithThreadViewed(viewed: map<string, map<string, int>>, roomId: string, rootId: string, ts: int): (r: map<string, map<string, int>>)
    ensures roomId in r && rootId in r[roomId] && r[roomId][rootId] == ts
    ensures forall k :: k in r <==> k in viewed || k == roomId
    ensures forall k :: k in viewed && k != roomId ==> r[k] == viewed[k]
    ensures roomId in viewed ==> forall t :: t != rootId ==> (t in r[roomId] <==> t in viewed[roomId]) && (t in viewed[roomId] ==> r[roomId][t] == viewed[roomId][t])
  {
    var room := if roomId in viewed then viewed[roomId] else map[];
    viewed[roomId := room[rootId := ts]]
  }

  /**
   * `toggleThread(rootId)`: `null` closes the thread panel; a root id opens
   * it on that thread and marks the thread viewed up to its latest reply in
   * the current room (now, when it has none); no argument flips the panel.
   */
  method ToggleThread(target: ThreadTarget, now: int, msgs: MessagesSlice, rooms: RoomsSlice)
    modifies msgs, rooms
    ensures match target
      case CloseThread =>
        msgs.State() == old(msgs.State()).(showThread := false, threadRootId := None) && rooms.State() == old(rooms.State())
      case OpenThread(rootId) =>
        var roomId := old(rooms.currentRoomId);
        var latest := LatestThreadTimestamp(RoomMessages(old(msgs.messagesByRoomId), roomId), rootId, now);
        && msgs.State() == old(msgs.State()).(showThread := true, threadRootId := Some(rootId))
        && rooms.State() == old(rooms.State()).(threadLastViewedTsByRoomId := WithThreadViewed(old(rooms.threadLastViewedTsByRoomId), roomId, rootId, latest))
      case FlipThread =>
        msgs.State() == old(msgs.State()).(showThread := !old(msgs.showThread)) && rooms.State() == old(rooms.State())
  {
    match target
    case CloseThread =>
      msgs.showThread := false;
      msgs.threadRootId := None;
    case OpenThread(rootId) =>
      var latest := LatestThreadTimestamp(RoomMessages(msgs.messagesByRoomId, rooms.currentRoomId), rootId, now);
      rooms.threadLastViewedTsByRoomId := WithThreadViewed(rooms.threadLastViewedTsByRoomId, rooms.currentRoomId, rootId, latest);
      msgs.showThread := true;
      msgs.threadRootId := Some(rootId);
    case FlipThread =>
      msgs.showThread := !msgs.showThread;
  }

  /**
   * Opening a thread marks every reply in it as seen: no reply of the current
   * room's thread is later than the recorded marker.
   */
  lemma {:induction false} OpenThreadSeesAllReplies(ms: seq<Message>, rootId: string, now: int)
    ensures forall m :: m in ms && IsReplyTo(m, rootId) ==> m.timestamp <= LatestThreadTimestamp(ms, rootId, now)
  {
  }

  // ---------------------------------------------------------------------------
  // sendMessage (local mode)
  // ---------------------------------------------------------------------------

  /** The message `sendMessage` appends: `"sent"` when online, `"queued"` otherwise. */
  function LocalMessage(id: string, roomId: string, authorId: string, body: string, timestamp: int, attachmentCount: nat,
                        replyToId: Option<string>, threadRootId: Option<string>, isOnline: bool): Message
  {
    Message(id, roomId, authorId, body, timestamp, [], attachmentCount, replyToId, threadRootId, false, false,
            Some(if isOnline then DeliveryStatus.Sent else Queued))
  }

  /** The thread-viewed markers after sending: the thread of a reply is seen up to the reply. */
  function SentThreadViewed(viewed: map<string, map<string, int>>, roomId: string, threadRootId: Option<string>, timestamp: int): map<string, map<string, int>>
  {
    if threadRootId.Some? then WithThreadViewed(viewed, roomId, threadRootId.value, timestamp) else viewed
  }

  /** Whether sending completes onboarding: onboarding still open and something was sent. */
  predicate CompletesOnboarding(onboardingStep: Option<nat>, body: string, attachmentCount: nat)
  {
    onboardingStep.Some? && (!IsBlankJs(body) || attachmentCount > 0)
  }

  /** The messages slice after sending `m` to `roomId`: appended, and no reply target left. */
  function MessageSentMessages(s: MessagesState, roomId: string, m: Message): (r: MessagesState)
    ensures roomId in r.messagesByRoomId && RoomMessages(r.messagesByRoomId, roomId) == RoomMessages(s.messagesByRoomId, roomId) + [m]
    ensures forall k :: k != roomId ==> RoomMessages(r.messagesByRoomId, k) == RoomMessages(s.messagesByRoomId, k)
    ensures r.replyToId.None?
  {
    s.(messagesByRoomId := s.messagesByRoomId[roomId := RoomMessages(s.messagesByRoomId, roomId) + [m]], replyToId := None)
  }

  /**
   * The rooms slice after sending at `now` in the current room: the room is
   * read up to `now` and has no unread messages, a reply's thread is seen up
   * to `now`, and nothing else changes.
   */
  function MessageSentRooms(s: RoomsState, threadRootId: Option<string>, now: int): (r: RoomsState)
    ensures var roomId := s.currentRoomId;
      && roomId in r.roomLastReadTsByRoomId && r.roomLastReadTsByRoomId[roomId] == now
      && (forall x :: x in r.rooms && x.id == roomId ==> x.unreadCount == 0)
      && |r.rooms| == |s.rooms|
      && (forall i :: 0 <= i < |s.rooms| && s.rooms[i].id != roomId ==> r.rooms[i] == s.rooms[i])
      && (threadRootId.Some? ==>
            roomId in r.threadLastViewedTsByRoomId && threadRootId.value in r.threadLastViewedTsByRoomId[roomId] &&
            r.threadLastViewedTsByRoomId[roomId][threadRootId.value] == now)
      && (threadRootId.None? ==> r.threadLastViewedTsByRoomId == s.threadLastViewedTsByRoomId)
      && r.currentRoomId == s.currentRoomId && r.currentSpaceId == s.currentSpaceId
  {
    var roomId := s.currentRoomId;
    WithRoomReadIdempotent(s.rooms, roomId);
    s.(roomLastReadTsByRoomId := s.roomLastReadTsByRoomId[roomId := now],
       threadLastViewedTsByRoomId := SentThreadViewed(s.threadLastViewedTsByRoomId, roomId, threadRootId, now),
       rooms := WithRoomRead(s.rooms, roomId))
  }

  /**
   * `sendMessage({ body, attachments, threadRootId })` without a Matrix client:
   * one message by the signed-in user is appended to the current room, the
   * reply target is cleared, the room is read up to the new message and its
   * unread count reset, a reply marks its thread seen, and a non-blank body or
   * an attachment completes onboarding. `messageId` and `now` are `uid("m")`
   * and `Date.now()`.
   */
  method SendMessage(body: string, attachmentCount: nat, threadRootId: Option<string>, messageId: string, now: int,
                     msgs: MessagesSlice, rooms: RoomsSlice, session: SessionSlice, ui: UiSlice, settings: SettingsSlice)
    modifies msgs, rooms, settings
    ensures var roomId := old(rooms.currentRoomId);
      var m := LocalMessage(messageId, roomId, session.me.id, body, now, attachmentCount, old(msgs.replyToId), threadRootId, ui.isOnline);
      && msgs.State() == MessageSentMessages(old(msgs.State()), roomId, m)
      && rooms.State() == MessageSentRooms(old(rooms.State()), threadRootId, now)
    ensures CompletesOnboarding(old(settings.onboardingStep), body, attachmentCount) ==>
      settings.onboardingStep.None? && settings.saved == old(settings.Current()).(onboardingCompleted := true)
    ensures !CompletesOnboarding(old(settings.onboardingStep), body, attachmentCount) ==>
      settings.onboardingStep == old(settings.onboardingStep) && settings.saved == old(settings.saved)
    ensures settings.profileDisplayName == old(settings.profileDisplayName) && settings.profileAbout == old(settings.profileAbout)
    ensures settings.profileAvatarDataUrl == old(settings.profileAvatarDataUrl)
  {
    var roomId := rooms.currentRoomId;
    var m := LocalMessage(messageId, roomId, session.me.id, body, now, attachmentCount, msgs.replyToId, threadRootId, ui.isOnline);
    msgs.SetState(MessageSentMessages(msgs.State(), roomId, m));
    rooms.SetState(MessageSentRooms(rooms.State(), threadRootId, now));
    if CompletesOnboarding(settings.onboardingStep, body, attachmentCount) {
      settings.CompleteOnboarding();
    }
  }

  // ---------------------------------------------------------------------------
  // redactMessage (local mode)
  // ---------------------------------------------------------------------------

  /** `messages.filter((message) => message.id !== messageId)`. */
  function WithoutMessage(ms: seq<Message>, messageId: string): (r: seq<Message>)
    ensures |r| <= |ms|
    ensures forall m :: m in r <==> m in ms && m.id != messageId
    ensures (forall m :: m in ms ==> m.id != messageId) ==> r == ms
  {
    if ms == [] then []
    else
      var rest := WithoutMessage(ms[1..], messageId);
      assert forall m :: m in ms <==> m == ms[0] || m in ms[1..];
      if ms[0].id == messageId then rest else [ms[0]] + rest
  }

  /** Removing messages keeps the survivors in their order: it distributes over concatenation. */
  lemma {:induction false} WithoutMessageAppend(a: seq<Message>, b: seq<Message>, messageId: string)
    ensures WithoutMessage(a + b, messageId) == WithoutMessage(a, messageId) + WithoutMessage(b, messageId)
  {
    if a == [] {
      assert a + b == b;
    } else {
      assert (a + b)[1..] == a[1..] + b;
      WithoutMessageAppend(a[1..], b, messageId);
    }
  }

  /** `messages.find((message) => message.id === messageId)`. */
  function FindMessage(ms: seq<Message>, messageId: string): (r: Option<Message>)
    ensures r.Some? ==> r.value in ms && r.value.id == messageId
    ensures r.None? ==> forall m :: m in ms ==> m.id != messageId
  {
    if ms == [] then None
    else if ms[0].id == messageId then Some(ms[0])
    else FindMessage(ms[1..], messageId)
  }

  /** The audit target of a redaction: `author:id` when the message is known, else the id. */
  function RedactTarget(ms: seq<Message>, messageId: string): string
  {
    match FindMessage(ms, messageId)
    case Some(m) => m.authorId + ":" + messageId
    case None => messageId
  }

  /**
   * `redactMessage(messageId)` without a Matrix client: the message leaves
   * the current room and a `message.redact` entry by the signed-in user, whose
   * source event is the message, is prepended to the current space's audit
   * log, which keeps at most 250 entries. `auditId` and `now` are
   * `uid("audit")` and `Date.now()`.
   */
  method RedactMessage(messageId: string, auditId: string, now: int,
                       msgs: MessagesSlice, rooms: RoomsSlice, session: SessionSlice, admin: AdminSlice)
    modifies msgs, admin
    ensures var roomId := rooms.currentRoomId;
      var spaceId := rooms.currentSpaceId;
      var ms := RoomMessages(old(msgs.messagesByRoomId), roomId);
      var entry := AuditEvent(auditId, RedactAuditAction, session.me.id, RedactTarget(ms, messageId), now, Some(messageId));
      && msgs.State() == old(msgs.State()).(messagesByRoomId := old(msgs.messagesByRoomId)[roomId := WithoutMessage(ms, messageId)])
      && admin.State() == old(admin.State()).(moderationAuditBySpaceId :=
           old(admin.moderationAuditBySpaceId)[spaceId := CappedAudit([entry] + AuditOf(old(admin.State()), spaceId))])
  {
    var roomId := rooms.currentRoomId;
    var spaceId := rooms.currentSpaceId;
    var ms := RoomMessages(msgs.messagesByRoomId, roomId);
    var entry := AuditEvent(auditId, RedactAuditAction, session.me.id, RedactTarget(ms, messageId), now, Some(messageId));
    msgs.messagesByRoomId := msgs.messagesByRoomId[roomId := WithoutMessage(ms, messageId)];
    admin.moderationAuditBySpaceId := admin.moderationAuditBySpaceId[spaceId := CappedAudit([entry] + AuditOf(admin.State(), spaceId))];
  }

  /** Redacting keeps the admin slice valid: the audit log of the space stays within 250 entries. */
  lemma {:induction false} RedactKeepsAdminValid(s: AdminState, spaceId: string, entry: AuditEvent)
    requires Valid(s)
    ensures Valid(s.(moderationAuditBySpaceId := s.moderationAuditBySpaceId[spaceId := CappedAudit([entry] + AuditOf(s, spaceId))]))
  {
  }

  // ---------------------------------------------------------------------------
  // simulateIncoming
  // ---------------------------------------------------------------------------

  /** The body of the simulated message: it mentions the signed-in user. */
  function IncomingBody(meName: string): string
  {
    "@" + meName + IncomingSuffix
  }

  /** `body.includes(`@${me.name}`)` always holds for the simulated body, so the mention notification is always pushed. */
  lemma {:induction false} IncomingAlwaysMentions(meName: string)
    ensures Contains(IncomingBody(meName), "@" + meName)
  {
    var needle := "@" + meName;
    assert IncomingBody(meName)[0..|needle|] == needle;
    assert ContainsAt(IncomingBody(meName), needle, 0);
  }

  /** The rooms with one more unread message in one room. */
  function WithUnreadIncrement(rooms: seq<Room>, roomId: string): (r: seq<Room>)
    ensures |r| == |rooms|
    ensures forall i :: 0 <= i < |rooms| ==> r[i] == if rooms[i].id == roomId then rooms[i].(unreadCount := rooms[i].unreadCount + 1) else rooms[i]
  {
    seq(|rooms|, i requires 0 <= i < |rooms| => if rooms[i].id == roomId then rooms[i].(unreadCount := rooms[i].unreadCount + 1) else rooms[i])
  }

  /** The author of the simulated message: the first member, or the signed-in user when there is none. */
  function IncomingAuthor(s: SessionState): string
  {
    if s.users != [] then s.users[0].id else s.me.id
  }

  /**
   * `simulateIncoming()`: a message from the first member that mentions the
   * signed-in user is appended to the current room, that room alone gets one
   * more unread message, and a `Mention in #room` notification is prepended.
   * `messageId`, `now` and `noteId` are `uid("m")`, `Date.now()` and
   * `uid("n")`.
   */
  method SimulateIncoming(messageId: string, now: int, noteId: string,
                          msgs: MessagesSlice, rooms: RoomsSlice, session: SessionSlice, ui: UiSlice)
    modifies msgs, rooms, ui
    ensures var roomId := old(rooms.currentRoomId);
      var body := IncomingBody(session.me.name);
      var m := Message(messageId, roomId, IncomingAuthor(session.State()), body, now, [], 0, None, None, false, false, None);
      && msgs.State() == old(msgs.State()).(messagesByRoomId := old(msgs.messagesByRoomId)[roomId := RoomMessages(old(msgs.messagesByRoomId), roomId) + [m]])
      && rooms.State() == old(rooms.State()).(rooms := WithUnreadIncrement(old(rooms.rooms), roomId))
      && ui.notifications == [Notification(noteId, MentionTitlePrefix + roomId, body, now)] + old(ui.notifications)
      && ui.Flags() == old(ui.Flags())
  {
    var roomId := rooms.currentRoomId;
    var body := IncomingBody(session.me.name);
    var m := Message(messageId, roomId, IncomingAuthor(session.State()), body, now, [], 0, None, None, false, false, None);
    msgs.messagesByRoomId := msgs.messagesByRoomId[roomId := RoomMessages(msgs.messagesByRoomId, roomId) + [m]];
    rooms.rooms := WithUnreadIncrement(rooms.rooms, roomId);
    IncomingAlwaysMentions(session.me.name);
    ui.PushNotification(MentionTitlePrefix + roomId, body, noteId, now);
  }
}
