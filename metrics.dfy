/**
 * The local UX metrics: events of four types kept in local storage, read
 * back sorted by time and capped to the most recent 5000, and summarised per
 * UTC week (weeks start on Monday 00:00). Timestamps are milliseconds since
 * the epoch; fresh ids and the clock are parameters.
 */
module LocalMetrics {
  import opened Wrappers
  import opened Sorting
  import Json

  /** `METRIC_EVENT_LIMIT`. */
  const MetricEventLimit: nat := 5000
  const DayMs: int := 86400000
  const WeekMs: int := 7 * DayMs

  datatype MetricType = MessageSendSuccess | DeadClick | SettingsCompletion | ModerationActionSuccess

  /** `metricTypes`. */
  const AllMetricTypes: set<MetricType> := {MessageSendSuccess, DeadClick, SettingsCompletion, ModerationActionSuccess}

  function MetricTypeName(t: MetricType): string
  {
    match t
    case MessageSendSuccess => "message_send_success"
    case DeadClick => "dead_click"
    case SettingsCompletion => "settings_completion"
    case ModerationActionSuccess => "moderation_action_success"
  }

  lemma {:induction false} AllMetricTypesComplete(t: MetricType)
    ensures t in AllMetricTypes
  {
  }

  /** `parseMetricType`: exactly the four type names are accepted. */
  function ParseMetricType(v: Json.Value): (r: Option<MetricType>)
    ensures r.Some? ==> v == Json.Str(MetricTypeName(r.value))
  {
    if v == Json.Str(MetricTypeName(MessageSendSuccess)) then Some(MessageSendSuccess)
    else if v == Json.Str(MetricTypeName(DeadClick)) then Some(DeadClick)
    else if v == Json.Str(MetricTypeName(SettingsCompletion)) then Some(SettingsCompletion)
    else if v == Json.Str(MetricTypeName(ModerationActionSuccess)) then Some(ModerationActionSuccess)
    else None
  }

  /** Every type name parses back to its type, and nothing else is accepted. */
  lemma {:induction false} ParseMetricTypeSpec(v: Json.Value)
    ensures forall t :: ParseMetricType(Json.Str(MetricTypeName(t))) == Some(t)
    ensures ParseMetricType(v).None? <==> forall t :: v != Json.Str(MetricTypeName(t))
  {
    assert "message_send_success"[0] == 'm' && "dead_click"[0] == 'd';
    assert "settings_completion"[0] == 's' && "moderation_action_success"[0] == 'm';
    assert "message_send_success"[1] == 'e' && "moderation_action_success"[1] == 'o';
  }

  datatype MetricEvent = MetricEvent(id: string, kind: MetricType, timestamp: int, metadata: Option<Json.Value>)

  /**
   * `normalizeEvent`: an object with a known type becomes an event; a missing
   * or non-string id gets `freshId`, a missing or non-number timestamp gets
   * `now`, and metadata is kept when it is an object.
   */
  function NormalizeEvent(v: Json.Value, freshId: string, now: int): (r: Option<MetricEvent>)
    ensures r.Some? <==> v.Obj? && "type" in v.fields && ParseMetricType(v.fields["type"]).Some?
    ensures r.Some? ==> Some(r.value.kind) == ParseMetricType(v.fields["type"])
    ensures r.Some? ==> r.value.id == Json.GetString(v, "id").GetOr(freshId)
  {
    if !v.Obj? then None
    else
      match ParseMetricType(Json.Get(v, "type").GetOr(Json.Null))
      case None => None
      case Some(kind) =>
        var timestamp := match Json.Get(v, "timestamp") case Some(Num(n)) => n case _ => now;
        var metadata := match Json.Get(v, "metadata") case Some(m) => if Json.IsObjectLike(m) then Some(m) else None case None => None;
        Some(MetricEvent(Json.GetString(v, "id").GetOr(freshId), kind, timestamp, metadata))
  }

  /** A normalised event reads back as itself once written out as an object. */
  lemma {:induction false} NormalizeEventRoundTrip(e: MetricEvent, freshId: string, now: int)
    requires e.metadata.Some? ==> Json.IsObjectLike(e.metadata.value)
    ensures var fields := map["id" := Json.Str(e.id), "type" := Json.Str(MetricTypeName(e.kind)), "timestamp" := Json.Num(e.timestamp)];
      var v := Json.Obj(if e.metadata.Some? then fields["metadata" := e.metadata.value] else fields);
      NormalizeEvent(v, freshId, now) == Some(e)
  {
    ParseMetricTypeSpec(Json.Null);
  }

  /** The events among the items, in item order; the `i`-th item's fresh id is `freshId(i)`. */
  function NormalizedEvents(items: seq<Json.Value>, freshId: nat -> string, now: int): (r: seq<MetricEvent>)
    ensures |r| <= |items|
  {
    if items == [] then []
    else
      var init := NormalizedEvents(items[..|items| - 1], freshId, now);
      match NormalizeEvent(items[|items| - 1], freshId(|items| - 1), now)
      case Some(e) => init + [e]
      case None => init
  }

  /** `events.slice(-n)`: the last `n` events, or all of them. */
  function LastN(events: seq<MetricEvent>, n: nat): (r: seq<MetricEvent>)
    ensures |r| == if |events| < n then |events| else n
    ensures events == events[..|events| - |r|] + r
  {
    if |events| <= n then events else events[|events| - n..]
  }

  function Timestamp(e: MetricEvent): int
  {
    e.timestamp
  }

  /** `loadLocalMetricEvents` on the parsed storage value: non-arrays give nothing. */
  function LoadLocalMetricEvents(parsed: Json.Value, freshId: nat -> string, now: int): seq<MetricEvent>
  {
    if !parsed.Arr? then []
    else LastN(SortByKey(NormalizedEvents(parsed.items, freshId, now), Timestamp), MetricEventLimit)
  }

  /** The last events of a list come from it; all of them when there are few enough. */
  lemma {:induction false} LastNMultiset(events: seq<MetricEvent>, n: nat)
    ensures multiset(LastN(events, n)) <= multiset(events)
    ensures |events| <= n ==> LastN(events, n) == events
  {
    var r := LastN(events, n);
    var cut := |events| - |r|;
    assert multiset(events) == multiset(events[..cut]) + multiset(r);
  }

  /** The last events of a sorted list are sorted. */
  lemma {:induction false} LastNOfSorted(sorted: seq<MetricEvent>, n: nat)
    requires SortedByKey(sorted, Timestamp)
    ensures SortedByKey(LastN(sorted, n), Timestamp)
  {
    var cut := |sorted| - |LastN(sorted, n)|;
    SortedSlice(sorted, cut, |sorted|, Timestamp);
    assert LastN(sorted, n) == sorted[cut..|sorted|];
  }

  lemma {:induction false} SortedPair(sorted: seq<MetricEvent>, i: nat, j: nat)
    requires SortedByKey(sorted, Timestamp) && i < j < |sorted|
    ensures sorted[i].timestamp <= sorted[j].timestamp
  {
    assert Timestamp(sorted[i]) <= Timestamp(sorted[j]);
  }

  /** The last events of a sorted list are its latest: nothing dropped is later than anything kept. */
  lemma {:induction false} LastNAreLatest(sorted: seq<MetricEvent>, n: nat)
    requires SortedByKey(sorted, Timestamp)
    ensures var r := LastN(sorted, n);
      forall d, k :: d in sorted[..|sorted| - |r|] && k in r ==> d.timestamp <= k.timestamp
  {
    var r := LastN(sorted, n);
    var cut := |sorted| - |r|;
    assert r == sorted[cut..];
    forall d, k | d in sorted[..cut] && k in sorted[cut..]
      ensures d.timestamp <= k.timestamp
    {
      var i :| 0 <= i < cut && sorted[..cut][i] == d;
      var j :| 0 <= j < |sorted| - cut && sorted[cut..][j] == k;
      SortedPair(sorted, i, cut + j);
    }
  }

  /**
   * Loaded events are sorted by time, at most 5000, all taken from the stored
   * events (all of them when there are at most 5000), and the most recent
   * ones: every event dropped by the cap is no later than every event kept.
   */
  lemma {:induction false} LoadLocalMetricEventsSpec(parsed: Json.Value, freshId: nat -> string, now: int)
    ensures var r := LoadLocalMetricEvents(parsed, freshId, now);
      && SortedByKey(r, Timestamp)
      && |r| <= MetricEventLimit
      && (parsed.Arr? ==>
            var events := NormalizedEvents(parsed.items, freshId, now);
            var sorted := SortByKey(events, Timestamp);
            && multiset(r) <= multiset(events)
            && (|events| <= MetricEventLimit ==> multiset(r) == multiset(events))
            && forall d, k :: d in sorted[..|sorted| - |r|] && k in r ==> d.timestamp <= k.timestamp)
  {
    if parsed.Arr? {
      var events := NormalizedEvents(parsed.items, freshId, now);
      var sorted := SortByKey(events, Timestamp);
      LastNOfSorted(sorted, MetricEventLimit);
      LastNAreLatest(sorted, MetricEventLimit);
      LastNMultiset(sorted, MetricEventLimit);
    }
  }

  /** `saveLocalMetricEvents`: only the last 5000 events are written. */
  function SaveLocalMetricEvents(events: seq<MetricEvent>): seq<MetricEvent>
  {
    LastN(events, MetricEventLimit)
  }

  /** `trackLocalMetricEvent`: the new event is appended to the loaded ones and the list saved. */
  function TrackLocalMetricEvent(existing: seq<MetricEvent>, next: MetricEvent): seq<MetricEvent>
  {
    SaveLocalMetricEvents(existing + [next])
  }

  /** A tracked event is always stored, as the last one, and the store never exceeds the cap. */
  lemma {:induction false} TrackKeepsNewEvent(existing: seq<MetricEvent>, next: MetricEvent)
    ensures var r := TrackLocalMetricEvent(existing, next);
      |r| <= MetricEventLimit && r != [] && r[|r| - 1] == next
      && r[..|r| - 1] == LastN(existing, |r| - 1)
  {
    var all := existing + [next];
    var r := LastN(all, MetricEventLimit);
    assert all[|all| - 1] == next;
    assert r[|r| - 1] == all[|all| - 1];
    assert r[..|r| - 1] == existing[|existing| - (|r| - 1)..];
  }

  // ---------------------------------------------------------------------------
  // Weekly summaries
  // ---------------------------------------------------------------------------

  /** `getUTCDay()`: 0 for Sunday to 6 for Saturday; the epoch was a Thursday. */
  function WeekdayUtc(timestamp: int): int
  {
    (timestamp / DayMs + 4) % 7
  }

  /** `startOfWeekUtc`: back to the Monday of the week, at 00:00. */
  function StartOfWeekUtc(timestamp: int): int
  {
    var day := WeekdayUtc(timestamp);
    var diff := if day == 0 then -6 else 1 - day;
    (timestamp / DayMs + diff) * DayMs
  }

  /** A week start is a Monday at midnight, and its week holds the timestamp. */
  lemma {:induction false} StartOfWeekUtcSpec(timestamp: int)
    ensures var s := StartOfWeekUtc(timestamp);
      && s % DayMs == 0 && WeekdayUtc(s) == 1
      && s <= timestamp < s + WeekMs
  {
    var days := timestamp / DayMs;
    var day := WeekdayUtc(timestamp);
    var diff := if day == 0 then -6 else 1 - day;
    var s := (days + diff) * DayMs;
    assert s / DayMs == days + diff;
    assert days * DayMs <= timestamp < days * DayMs + DayMs;
  }

  /** Shifting a Monday midnight by whole weeks gives a Monday midnight. */
  lemma {:induction false} WeeksAwayIsMonday(s: int, k: int)
    requires s % DayMs == 0 && WeekdayUtc(s) == 1
    ensures (s + k * WeekMs) % DayMs == 0 && WeekdayUtc(s + k * WeekMs) == 1
  {
    var t := s + k * WeekMs;
    assert t == (s / DayMs + 7 * k) * DayMs;
    assert t / DayMs == s / DayMs + 7 * k;
    assert (s / DayMs + 7 * k + 4) % 7 == (s / DayMs + 4) % 7;
  }

  predicate InWeek(e: MetricEvent, weekStart: int)
  {
    weekStart <= e.timestamp < weekStart + WeekMs
  }

  /** How many events of a type fall in the week. */
  function CountInWeek(events: seq<MetricEvent>, t: MetricType, weekStart: int): nat
  {
    if events == [] then 0
    else
      var last := events[|events| - 1];
      CountInWeek(events[..|events| - 1], t, weekStart) + if last.kind == t && InWeek(last, weekStart) then 1 else 0
  }

  /** The totals of one week, one count per type. */
  function WeekTotals(events: seq<MetricEvent>, weekStart: int): map<MetricType, nat>
  {
    map t | t in AllMetricTypes :: CountInWeek(events, t, weekStart)
  }

  /** `WeeklyMetricSummary`, with the week start as a timestamp. */
  datatype WeekSummary = WeekSummary(weekStart: int, totals: map<MetricType, nat>)

  /** The start of the `i`-th of `n` weeks, oldest first, ending with the reference week. */
  function NthWeekStart(reference: int, n: nat, i: nat): int
  {
    StartOfWeekUtc(reference) - (n - 1 - i) * WeekMs
  }

  /** One week's totals, counted the way the `forEach` over the events does. */
  method CountWeek(events: seq<MetricEvent>, weekStart: int) returns (totals: map<MetricType, nat>)
    ensures totals == WeekTotals(events, weekStart)
  {
    totals := map[MessageSendSuccess := 0, DeadClick := 0, SettingsCompletion := 0, ModerationActionSuccess := 0];
    var i := 0;
    while i < |events|
      invariant 0 <= i <= |events|
      invariant totals == WeekTotals(events[..i], weekStart)
    {
      var e := events[i];
      assert events[..i + 1][..i] == events[..i];
      AllMetricTypesComplete(e.kind);
      if weekStart <= e.timestamp && e.timestamp < weekStart + WeekMs {
        totals := totals[e.kind := totals[e.kind] + 1];
      }
      i := i + 1;
    }
    assert events[..|events|] == events;
  }

  /** `summarizeWeeklyMetrics(events, numberOfWeeks, referenceTimestamp)`. */
  method SummarizeWeeklyMetrics(events: seq<MetricEvent>, numberOfWeeks: int, referenceTimestamp: int) returns (summaries: seq<WeekSummary>)
    ensures |summaries| == if numberOfWeeks < 0 then 0 else numberOfWeeks
    ensures forall i :: 0 <= i < |summaries| ==>
      summaries[i] == WeekSummary(NthWeekStart(referenceTimestamp, |summaries|, i), WeekTotals(events, NthWeekStart(referenceTimestamp, |summaries|, i)))
  {
    summaries := [];
    var thisWeekStart := StartOfWeekUtc(referenceTimestamp);
    var offset := numberOfWeeks - 1;
    while offset >= 0
      invariant offset < numberOfWeeks
      invariant numberOfWeeks > 0 ==> -1 <= offset
      invariant |summaries| == if numberOfWeeks <= 0 then 0 else numberOfWeeks - 1 - offset
      invariant forall i :: 0 <= i < |summaries| ==>
        summaries[i] == WeekSummary(NthWeekStart(referenceTimestamp, numberOfWeeks, i), WeekTotals(events, NthWeekStart(referenceTimestamp, numberOfWeeks, i)))
    {
      var weekStart := thisWeekStart - offset * WeekMs;
      var totals := CountWeek(events, weekStart);
      summaries := summaries + [WeekSummary(weekStart, totals)];
      offset := offset - 1;
    }
  }

  /**
   * The summarised weeks are consecutive Monday-midnight starts seven days
   * apart, the last one holding the reference time, and their intervals are
   * disjoint: no event is counted in two weeks.
   */
  lemma {:induction false} WeeksSpec(reference: int, n: nat)
    requires n > 0
    ensures forall i :: 0 <= i < n ==> NthWeekStart(reference, n, i) % DayMs == 0 && WeekdayUtc(NthWeekStart(reference, n, i)) == 1
    ensures forall i :: 0 <= i < n - 1 ==> NthWeekStart(reference, n, i + 1) == NthWeekStart(reference, n, i) + WeekMs
    ensures NthWeekStart(reference, n, n - 1) <= reference < NthWeekStart(reference, n, n - 1) + WeekMs
    ensures forall i, j, e :: 0 <= i < j < n && InWeek(e, NthWeekStart(reference, n, i)) ==> !InWeek(e, NthWeekStart(reference, n, j))
  {
    StartOfWeekUtcSpec(reference);
    forall i | 0 <= i < n
      ensures NthWeekStart(reference, n, i) % DayMs == 0 && WeekdayUtc(NthWeekStart(reference, n, i)) == 1
    {
      WeeksAwayIsMonday(StartOfWeekUtc(reference), -(n - 1 - i));
    }
  }

  /** Counting over a concatenation adds up. */
  lemma {:induction false} CountInWeekAppend(a: seq<MetricEvent>, b: seq<MetricEvent>, t: MetricType, weekStart: int)
    ensures CountInWeek(a + b, t, weekStart) == CountInWeek(a, t, weekStart) + CountInWeek(b, t, weekStart)
  {
    if b != [] {
      assert (a + b)[..|a + b| - 1] == a + b[..|b| - 1];
      CountInWeekAppend(a, b[..|b| - 1], t, weekStart);
    } else {
      assert a + b == a;
    }
  }

  /** The counts of one type over all the weeks never exceed the events of that type. */
  lemma {:induction false} CountInWeekAtMost(events: seq<MetricEvent>, t: MetricType, weekStart: int)
    ensures CountInWeek(events, t, weekStart) <= |events|
  {
    if events != [] {
      CountInWeekAtMost(events[..|events| - 1], t, weekStart);
    }
  }

  /** Whether one event counts for the type and week. */
  function CountOne(e: MetricEvent, t: MetricType, weekStart: int): nat
  {
    if e.kind == t && InWeek(e, weekStart) then 1 else 0
  }

  lemma {:induction false} CountInWeekCons(e: MetricEvent, rest: seq<MetricEvent>, t: MetricType, weekStart: int)
    ensures CountInWeek([e] + rest, t, weekStart) == CountOne(e, t, weekStart) + CountInWeek(rest, t, weekStart)
  {
    CountInWeekAppend([e], rest, t, weekStart);
    assert [e][..0] == [];
  }

  /**
   * The weekly-summary example: three message sends spread over the four
   * weeks before 2026-02-10 10:00 UTC (the weeks start on 2026-01-19, 01-26,
   * 02-02 and 02-09).
   */
  lemma {:induction false} WeeklySummaryExample(m1: MetricEvent, m2: MetricEvent, d1: MetricEvent, s1: MetricEvent, m3: MetricEvent, mod1: MetricEvent)
    requires m1 == MetricEvent("m1", MessageSendSuccess, 1768824000000, None)
    requires m2 == MetricEvent("m2", MessageSendSuccess, 1768910400000, None)
    requires d1 == MetricEvent("d1", DeadClick, 1768996800000, None)
    requires s1 == MetricEvent("s1", SettingsCompletion, 1769169600000, None)
    requires m3 == MetricEvent("m3", MessageSendSuccess, 1769601600000, None)
    requires mod1 == MetricEvent("mod1", ModerationActionSuccess, 1770206400000, None)
    ensures var events := [m1, m2, d1, s1, m3, mod1];
      var reference := 1770717600000;
      && NthWeekStart(reference, 4, 0) == 1768780800000
      && CountInWeek(events, MessageSendSuccess, NthWeekStart(reference, 4, 0))
         + CountInWeek(events, MessageSendSuccess, NthWeekStart(reference, 4, 1))
         + CountInWeek(events, MessageSendSuccess, NthWeekStart(reference, 4, 2))
         + CountInWeek(events, MessageSendSuccess, NthWeekStart(reference, 4, 3)) == 3
  {
    assert StartOfWeekUtc(1770717600000) == 1770595200000;
    ExampleSendCount(m1, m2, d1, s1, m3, mod1, 1768780800000);
    ExampleSendCount(m1, m2, d1, s1, m3, mod1, 1769385600000);
    ExampleSendCount(m1, m2, d1, s1, m3, mod1, 1769990400000);
    ExampleSendCount(m1, m2, d1, s1, m3, mod1, 1770595200000);
  }

  /** In the example only the three sends can count as sends. */
  lemma {:induction false} ExampleSendCount(m1: MetricEvent, m2: MetricEvent, d1: MetricEvent, s1: MetricEvent, m3: MetricEvent, mod1: MetricEvent, w: int)
    requires d1.kind == DeadClick && s1.kind == SettingsCompletion && mod1.kind == ModerationActionSuccess
    ensures CountInWeek([m1, m2, d1, s1, m3, mod1], MessageSendSuccess, w) ==
      CountOne(m1, MessageSendSuccess, w) + CountOne(m2, MessageSendSuccess, w) + CountOne(m3, MessageSendSuccess, w)
  {
    var events := [m1, m2, d1, s1, m3, mod1];
    CountInWeekCons(m1, [m2, d1, s1, m3, mod1], MessageSendSuccess, w);
    CountInWeekCons(m2, [d1, s1, m3, mod1], MessageSendSuccess, w);
    CountInWeekCons(d1, [s1, m3, mod1], MessageSendSuccess, w);
    CountInWeekCons(s1, [m3, mod1], MessageSendSuccess, w);
    CountInWeekCons(m3, [mod1], MessageSendSuccess, w);
    CountInWeekCons(mod1, [], MessageSendSuccess, w);
    assert events == [m1] + [m2, d1, s1, m3, mod1];
    assert [m2, d1, s1, m3, mod1] == [m2] + [d1, s1, m3, mod1];
    assert [d1, s1, m3, mod1] == [d1] + [s1, m3, mod1];
    assert [s1, m3, mod1] == [s1] + [m3, mod1];
    assert [m3, mod1] == [m3] + [mod1];
    assert [mod1] == [mod1] + [];
  }
}
