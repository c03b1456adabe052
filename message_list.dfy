/**
 * The pure helpers of the message list (src/components/MessageList.tsx): the
 * relative age label, the context menu position, the unread separator and the
 * grouping of consecutive messages. Calendar days depend on the local time
 * zone, so `sameDay` is a parameter; dates older than a week are rendered by
 * the locale and stay abstract.
 */
module MessageListView {
  import opened Text
  import opened Entities

  const MinuteMs := 60000
  const HourMs := 60 * MinuteMs
  const DayMs := 24 * HourMs
  /** `THREAD_GROUP_WINDOW_MS`: five minutes. */
  const GroupWindowMs := 5 * MinuteMs
  const ContextMenuWidth := 220
  const ContextMenuHeight := 260
  /** The smallest coordinate a context menu is placed at. */
  const MenuMargin := 8

  // ---------------------------------------------------------------------------
  // formatRelativeAge
  // ---------------------------------------------------------------------------

  /** The unit `formatRelativeAge` picks, with its count. */
  datatype Age = JustNow | MinutesAgo(n: nat) | HoursAgo(n: nat) | DaysAgo(n: nat) | OlderThanWeek

  /** The age of a message, a future timestamp counting as no time at all. */
  function AgeOf(timestamp: int, now: int): Age
  {
    var delta := if now - timestamp < 0 then 0 else now - timestamp;
    if delta < MinuteMs then JustNow
    else if delta < HourMs then MinutesAgo(if delta / MinuteMs < 1 then 1 else delta / MinuteMs)
    else if delta < DayMs then HoursAgo(delta / HourMs)
    else if delta < 7 * DayMs then DaysAgo(delta / DayMs)
    else OlderThanWeek
  }

  /**
   * Each label counts whole units of the clamped delay, within the unit's range:
   * "just now" below a minute (and for future timestamps), 1..59 minutes, 1..23
   * hours, 1..6 days.
   */
  lemma {:induction false} AgeOfSpec(timestamp: int, now: int)
    ensures var delta := if now - timestamp < 0 then 0 else now - timestamp;
      match AgeOf(timestamp, now)
      case JustNow => delta < MinuteMs
      case MinutesAgo(n) => 1 <= n <= 59 && n * MinuteMs <= delta < (n + 1) * MinuteMs
      case HoursAgo(n) => 1 <= n <= 23 && n * HourMs <= delta < (n + 1) * HourMs
      case DaysAgo(n) => 1 <= n <= 6 && n * DayMs <= delta < (n + 1) * DayMs
      case OlderThanWeek => delta >= 7 * DayMs
  {
  }

  /** A future timestamp reads as "just now". */
  lemma {:induction false} FutureIsJustNow(timestamp: int, now: int)
    requires timestamp >= now
    ensures AgeOf(timestamp, now) == JustNow
  {
  }

  /** `formatRelativeAge`; the empty string stands in for the locale's short date, used past a week. */
  function FormatRelativeAge(timestamp: int, now: int): string
  {
    match AgeOf(timestamp, now)
    case JustNow => "just now"
    case MinutesAgo(n) => NatToString(n) + "m ago"
    case HoursAgo(n) => NatToString(n) + "h ago"
    case DaysAgo(n) => NatToString(n) + "d ago"
    case OlderThanWeek => ""
  }

  // ---------------------------------------------------------------------------
  // clampMenuPoint
  // ---------------------------------------------------------------------------

  /** `Math.max(8, Math.min(v, limit))`. */
  function ClampCoordinate(v: int, limit: int): int
  {
    var low := if v < limit then v else limit;
    if low < MenuMargin then MenuMargin else low
  }

  datatype Point = Point(x: int, y: int)

  datatype Viewport = NoWindow | Window(innerWidth: int, innerHeight: int)

  /** `clampMenuPoint`: the point unchanged without a window, else kept inside it. */
  function ClampMenuPoint(p: Point, viewport: Viewport): Point
  {
    match viewport
    case NoWindow => p
    case Window(w, h) => Point(ClampCoordinate(p.x, w - ContextMenuWidth), ClampCoordinate(p.y, h - ContextMenuHeight))
  }

  /**
   * With a window, the menu is never closer than 8 to the top-left, never past
   * the viewport minus its size whenever that bound is at least 8, and stays
   * where it was asked to be when that already fits.
   */
  lemma {:induction false} ClampMenuPointSpec(p: Point, w: int, h: int)
    ensures var r := ClampMenuPoint(p, Window(w, h));
      r.x >= MenuMargin && r.y >= MenuMargin &&
      (w - ContextMenuWidth >= MenuMargin ==> r.x <= w - ContextMenuWidth) &&
      (h - ContextMenuHeight >= MenuMargin ==> r.y <= h - ContextMenuHeight) &&
      (MenuMargin <= p.x <= w - ContextMenuWidth ==> r.x == p.x) &&
      (MenuMargin <= p.y <= h - ContextMenuHeight ==> r.y == p.y)
  {
  }

  // ---------------------------------------------------------------------------
  // unreadSeparatorIndex
  // ---------------------------------------------------------------------------

  /** `messages.findIndex((message) => message.timestamp > lastReadTs)`. */
  function FirstNewerThan(ms: seq<Message>, lastReadTs: int): (r: int)
    ensures -1 <= r < |ms|
    ensures r >= 0 ==> ms[r].timestamp > lastReadTs && forall j :: 0 <= j < r ==> ms[j].timestamp <= lastReadTs
    ensures r == -1 <==> forall j :: 0 <= j < |ms| ==> ms[j].timestamp <= lastReadTs
  {
    if ms == [] then -1
    else if ms[0].timestamp > lastReadTs then 0
    else
      var rest := FirstNewerThan(ms[1..], lastReadTs);
      if rest == -1 then -1 else rest + 1
  }

  /** The index of the first unread message, `-1` when there is none to mark. */
  function UnreadSeparatorIndex(ms: seq<Message>, unreadCount: int, lastReadTs: int): int
  {
    if unreadCount <= 0 || ms == [] then -1
    else
      var byTimestamp := FirstNewerThan(ms, lastReadTs);
      if byTimestamp >= 0 then byTimestamp
      else if |ms| - unreadCount < 0 then 0 else |ms| - unreadCount
  }

  /**
   * There is a separator exactly when there are unread messages to show; it sits
   * on the first message newer than the read marker, or, when every message is
   * older, `unreadCount` messages from the end (at the top if there are fewer).
   */
  lemma {:induction false} UnreadSeparatorIndexSpec(ms: seq<Message>, unreadCount: int, lastReadTs: int)
    ensures var r := UnreadSeparatorIndex(ms, unreadCount, lastReadTs);
      (r == -1 <==> unreadCount <= 0 || ms == []) &&
      (r != -1 ==> 0 <= r < |ms|) &&
      (r != -1 && (exists j :: 0 <= j < |ms| && ms[j].timestamp > lastReadTs) ==>
        ms[r].timestamp > lastReadTs && forall j :: 0 <= j < r ==> ms[j].timestamp <= lastReadTs) &&
      (r != -1 && (forall j :: 0 <= j < |ms| ==> ms[j].timestamp <= lastReadTs) ==>
        r == (if |ms| - unreadCount < 0 then 0 else |ms| - unreadCount))
  {
  }

  // ---------------------------------------------------------------------------
  // presentationRows
  // ---------------------------------------------------------------------------

  datatype Row = Row(message: Message, groupedWithPrevious: bool, showDaySeparator: bool, showUnreadSeparator: bool)

  /** The row of message `i`, given the local calendar's `sameDay`. */
  function RowAt(ms: seq<Message>, i: nat, unreadIndex: int, sameDay: (int, int) -> bool): Row
    requires i < |ms|
  {
    var m := ms[i];
    if i == 0 then Row(m, false, true, unreadIndex == 0)
    else
      var prev := ms[i - 1];
      Row(m,
        prev.authorId == m.authorId && sameDay(prev.timestamp, m.timestamp) && m.timestamp - prev.timestamp < GroupWindowMs,
        !sameDay(prev.timestamp, m.timestamp),
        unreadIndex == i)
  }

  /** `presentationRows`. */
  function PresentationRows(ms: seq<Message>, unreadIndex: int, sameDay: (int, int) -> bool): (r: seq<Row>)
    ensures |r| == |ms|
  {
    seq(|ms|, i requires 0 <= i < |ms| => RowAt(ms, i, unreadIndex, sameDay))
  }

  /**
   * Rows keep the messages in order; the first row starts a day and is never
   * grouped; a grouped message has the author of the one before, on the same
   * day and less than five minutes later, so it never opens a day; and at most
   * one row carries the unread separator.
   */
  lemma {:induction false} PresentationRowsSpec(ms: seq<Message>, unreadIndex: int, sameDay: (int, int) -> bool)
    ensures var rows := PresentationRows(ms, unreadIndex, sameDay);
      (forall i :: 0 <= i < |ms| ==> rows[i].message == ms[i]) &&
      (ms != [] ==> rows[0].showDaySeparator && !rows[0].groupedWithPrevious) &&
      (forall i :: 0 < i < |ms| && rows[i].groupedWithPrevious ==>
        ms[i - 1].authorId == ms[i].authorId && ms[i].timestamp - ms[i - 1].timestamp < GroupWindowMs &&
        !rows[i].showDaySeparator) &&
      (forall i :: 0 < i < |ms| ==> (rows[i].showDaySeparator <==> !sameDay(ms[i - 1].timestamp, ms[i].timestamp))) &&
      (forall i, j :: 0 <= i < j < |ms| && rows[i].showUnreadSeparator ==> !rows[j].showUnreadSeparator) &&
      (forall i :: 0 <= i < |ms| ==> (rows[i].showUnreadSeparator <==> i == unreadIndex))
  {
  }
}
