/**
 * The browser (fetch) hard delete of a Synapse room in the TypeScript store: the same
 * negotiation, polling and room check as the native one, with its own status parser,
 * its own error messages, and no polling for an empty job id.
 */
module SynapseFetch {
  import opened Wrappers
  import opened Text
  import Json
  import opened Http
  import SynapseNative

  /** Index of the first slash of the trailing run of slashes in `value[..i]`. */
  function SlashRunStart(value: string, i: nat): (r: nat)
    requires i <= |value|
    ensures r <= i
  {
    if i > 0 && value[i - 1] == '/' then SlashRunStart(value, i - 1) else i
  }

  /** `value.replace(/\/+$/, "")`: cuts the string before its trailing run of slashes. */
  function NormalizeBaseUrl(value: string): (r: string)
  {
    value[..SlashRunStart(value, |value|)]
  }

  /** The trailing run of slashes reaches back to a non-slash character or the start. */
  lemma {:induction false} SlashRunStartSpec(value: string, i: nat)
    requires i <= |value|
    ensures var j := SlashRunStart(value, i);
            j <= i && (forall k :: j <= k < i ==> value[k] == '/') && (j == 0 || value[j - 1] != '/')
  {
    if i > 0 && value[i - 1] == '/' {
      SlashRunStartSpec(value, i - 1);
    }
  }

  /** The regular expression removes every trailing slash and nothing else. */
  lemma {:induction false} NormalizeBaseUrlSpec(value: string)
    ensures var r := NormalizeBaseUrl(value);
            |r| <= |value| && r == value[..|r|] && (forall i :: |r| <= i < |value| ==> value[i] == '/') &&
            (r == [] || r[|r| - 1] != '/')
  {
    SlashRunStartSpec(value, |value|);
  }

  /** The regular-expression replacement and Rust's `trim_end_matches('/')` agree on every string. */
  lemma {:induction false} NormalizeBaseUrlAgreesWithNative(value: string)
    ensures NormalizeBaseUrl(value) == SynapseNative.NormalizeBaseUrl(value)
    decreases |value|
  {
    if value != [] && value[|value| - 1] == '/' {
      var v := value[..|value| - 1];
      NormalizeBaseUrlAgreesWithNative(v);
      SlashRunStartSpec(value, |value|);
      SlashRunStartSpec(v, |v|);
      assert SlashRunStart(value, |value|) == SlashRunStart(value, |v|);
      SlashRunPrefix(value, v, |v|);
      assert value[..SlashRunStart(v, |v|)] == v[..SlashRunStart(v, |v|)];
    }
  }

  /** The slash run of a prefix is computed from that prefix alone. */
  lemma {:induction false} SlashRunPrefix(value: string, v: string, i: nat)
    requires i <= |v| <= |value| && v == value[..|v|]
    ensures SlashRunStart(value, i) == SlashRunStart(v, i)
  {
    if i > 0 {
      assert value[i - 1] == v[i - 1];
      SlashRunPrefix(value, v, i - 1);
    }
  }

  /**
   * `readErrorBody`: "HTTP <status>" for an empty body, "<status>: <error>" when the body
   * parses to an object whose `error` is a string with a non-whitespace character, and
   * "<status>: <body>" for anything else. The status is printed as a bare number.
   */
  function ReadErrorBody(status: nat, text: string, json: Option<Json.Value>): (r: string)
    ensures text == [] ==> r == "HTTP " + NatToString(status)
    ensures text != [] && json.Some? && Json.GetString(json.value, "error").Some? &&
            !IsBlankJs(Json.GetString(json.value, "error").value) ==>
              r == NatToString(status) + ": " + Json.GetString(json.value, "error").value
    ensures text != [] && (json.None? || Json.GetString(json.value, "error").None? ||
                           IsBlankJs(Json.GetString(json.value, "error").value)) ==>
              r == NatToString(status) + ": " + text
  {
    if text == [] then "HTTP " + NatToString(status)
    else
      match json
      case Some(v) =>
        (match Json.GetString(v, "error")
         case Some(m) => if IsBlankJs(m) then NatToString(status) + ": " + text else NatToString(status) + ": " + m
         case None => NatToString(status) + ": " + text)
      case None => NatToString(status) + ": " + text
  }

  /** The status and error a status payload reports, as `SynapseDeleteStatus`. */
  datatype SynapseDeleteStatus = SynapseDeleteStatus(status: Option<string>, error: Option<string>)

  /** JavaScript `a ?? b` on optional strings. */
  function Coalesce(a: Option<string>, b: Option<string>): Option<string>
  {
    if a.Some? then a else b
  }

  /** `typeof v === "object"` for a truthy value: an object or an array. */
  predicate IsJsObject(v: Json.Value)
  {
    v.Obj? || v.Arr?
  }

  /** The string `error` of the `shutdown_room` member when that is an object. */
  function ShutdownError(v: Json.Value): Option<string>
  {
    match Json.GetObject(v, "shutdown_room")
    case Some(shutdown) => Json.GetString(shutdown, "error")
    case None => None
  }

  /** The index of the first entry at or after `from` that is an object or an array. */
  function FindFirstObject(results: seq<Json.Value>, from: nat): (r: Option<nat>)
    requires from <= |results|
    ensures r.Some? ==> from <= r.value < |results|
    decreases |results| - from
  {
    if from == |results| then None
    else if IsJsObject(results[from]) then Some(from)
    else FindFirstObject(results, from + 1)
  }

  /** `FindFirstObject` finds the first object entry at or after `from`, or reports that there is none. */
  lemma {:induction false} FindFirstObjectSpec(results: seq<Json.Value>, from: nat)
    requires from <= |results|
    ensures var r := FindFirstObject(results, from);
            (r.Some? ==> IsJsObject(results[r.value]) && forall j :: from <= j < r.value ==> !IsJsObject(results[j])) &&
            (r.None? ==> forall j :: from <= j < |results| ==> !IsJsObject(results[j]))
    decreases |results| - from
  {
    if from < |results| && !IsJsObject(results[from]) {
      FindFirstObjectSpec(results, from + 1);
    }
  }

  /**
   * The `results` entry that describes the job: the first one with its id, else the first
   * entry that is an object (arrays included).
   */
  function MatchingEntry(results: seq<Json.Value>, deleteId: string): Option<Json.Value>
  {
    match SynapseNative.FindByDeleteId(results, deleteId, 0)
    case Some(i) => Some(results[i])
    case None =>
      match FindFirstObject(results, 0)
      case Some(i) => Some(results[i])
      case None => None
  }

  /**
   * `parseSynapseDeleteStatus`: nothing for a payload that is not an object; a non-empty
   * top-level string `status` wins, with the top-level `error` or else the `shutdown_room`
   * one; otherwise the matching `results` entry's status and error; otherwise nothing.
   */
  function ParseSynapseDeleteStatus(payload: Json.Value, deleteId: string): SynapseDeleteStatus
  {
    if !payload.Obj? then SynapseDeleteStatus(None, None)
    else
      var status := Json.GetString(payload, "status");
      if status.Some? && status.value != "" then
        SynapseDeleteStatus(status, Coalesce(Json.GetString(payload, "error"), ShutdownError(payload)))
      else
        match MatchingEntry(Json.GetArray(payload, "results").GetOr([]), deleteId)
        case Some(entry) =>
          SynapseDeleteStatus(Json.GetString(entry, "status"), Coalesce(Json.GetString(entry, "error"), ShutdownError(entry)))
        case None => SynapseDeleteStatus(None, None)
  }

  /**
   * Where `ParseSynapseDeleteStatus` takes the job's status from: nowhere for a
   * non-object; the top level when its `status` is a non-empty string; else the entry
   * with the job's id; else the first object entry; the error is kept even when blank.
   */
  lemma {:induction false} ParseSynapseDeleteStatusSpec(payload: Json.Value, deleteId: string)
    ensures var r := ParseSynapseDeleteStatus(payload, deleteId);
            (!payload.Obj? ==> r == SynapseDeleteStatus(None, None)) &&
            (payload.Obj? && Json.GetString(payload, "status").Some? && Json.GetString(payload, "status").value != "" ==>
               r.status == Json.GetString(payload, "status") &&
               r.error == Coalesce(Json.GetString(payload, "error"), ShutdownError(payload))) &&
            (payload.Obj? && (Json.GetString(payload, "status").None? || Json.GetString(payload, "status").value == "") ==>
               var results := Json.GetArray(payload, "results").GetOr([]);
               ((exists j :: 0 <= j < |results| && Json.GetString(results[j], "delete_id") == Some(deleteId)) ==>
                  MatchingEntry(results, deleteId).Some? &&
                  Json.GetString(MatchingEntry(results, deleteId).value, "delete_id") == Some(deleteId) &&
                  r.status == Json.GetString(MatchingEntry(results, deleteId).value, "status")) &&
               ((forall j :: 0 <= j < |results| ==> !IsJsObject(results[j])) ==> r == SynapseDeleteStatus(None, None)))
  {
    if payload.Obj? {
      var results := Json.GetArray(payload, "results").GetOr([]);
      SynapseNative.FindByDeleteIdSpec(results, deleteId, 0);
      FindFirstObjectSpec(results, 0);
    }
  }

  /** `isSynapseDeleteComplete`. */
  predicate IsComplete(status: Option<string>)
  {
    status.Some? && Lower(status.value) == "complete"
  }

  /** `isSynapseDeleteFailed`. */
  predicate IsFailed(status: Option<string>)
  {
    status.Some? && Lower(status.value) == "failed"
  }

  /** `await response.json().catch(() => null)`: the parsed body, `null` when it does not parse. */
  function Payload(reply: Reply): Json.Value
    requires reply.Response?
  {
    reply.json.GetOr(Json.Null)
  }

  /**
   * What one iteration of `pollSynapseDeleteStatus` does with a reply on the given route:
   * a rejected fetch or a non-success other than 404/405 stops with an error; 404/405
   * switches from the per-job route to the per-room route, and on the per-room route
   * stops successfully; a `complete` job stops successfully; a `failed` job stops with
   * its error or the default message; anything else polls again.
   */
  function PollStep(reply: Reply, onIdRoute: bool, deleteId: string): Step
  {
    match reply
    case TransportError(d) => Stop(Failed(Unreachable(PollingStatus, d)))
    case Response(status, text, json) =>
      if status == 404 || status == 405 then
        if onIdRoute then SwitchRoute else Stop(Done)
      else if !IsSuccess(status) then Stop(Failed(ErrorResponse(status, text, json)))
      else
        var ds := ParseSynapseDeleteStatus(Payload(reply), deleteId);
        if IsComplete(ds.status) then Stop(Done)
        else if IsFailed(ds.status) then Stop(Failed(JobFailed(ds.error)))
        else Retry
  }

  function PollStepAt(net: Net, k0: nat, deleteId: string, i: nat): Step
  {
    PollStep(RunReply(net, k0, i), OnIdRoute(net, k0, i), deleteId)
  }

  /** Payloads on which the two status parsers read the same status and error. */
  predicate ParsesAlike(payload: Json.Value, deleteId: string)
  {
    payload.Obj? ==>
      Json.GetString(payload, "status") != Some("") &&
      (Json.GetString(payload, "status").None? && Json.GetArray(payload, "results").Some? ==>
         var results := Json.GetArray(payload, "results").value;
         results != [] && SynapseNative.FindByDeleteId(results, deleteId, 0).None? ==> IsJsObject(results[0]))
  }

  /**
   * Where the two parsers agree: on a payload without an empty `status` whose fallback
   * entry, if needed, is the first one, both read the same status, and the same error
   * whenever the TypeScript one is absent or not blank.
   */
  lemma {:induction false} ParseAgreesWithNative(payload: Json.Value, deleteId: string)
    requires ParsesAlike(payload, deleteId)
    ensures var ts := ParseSynapseDeleteStatus(payload, deleteId);
            var rs := SynapseNative.ParseDeleteStatus(payload, deleteId);
            ts.status == rs.status && (ts.error.None? || !IsBlankRust(ts.error.value) ==> ts.error == rs.error)
  {
    if payload.Obj? {
      var results := Json.GetArray(payload, "results").GetOr([]);
      SynapseNative.FindByDeleteIdSpec(results, deleteId, 0);
      if Json.GetString(payload, "status").None? && results != [] && SynapseNative.FindByDeleteId(results, deleteId, 0).None? {
        FindFirstObjectSpec(results, 0);
        assert FindFirstObject(results, 0) == Some(0);
      }
    }
  }

  /** An empty top-level `status` is a status for the native parser and absent for this one. */
  lemma {:induction false} EmptyStatusDiffers()
    ensures var p := Json.Obj(map["status" := Json.Str(""),
                                  "results" := Json.Arr([Json.Obj(map["status" := Json.Str("complete")])])]);
            SynapseNative.ParseDeleteStatus(p, "job").status == Some("") &&
            ParseSynapseDeleteStatus(p, "job").status == Some("complete")
  {
    var entry := Json.Obj(map["status" := Json.Str("complete")]);
    var p := Json.Obj(map["status" := Json.Str(""), "results" := Json.Arr([entry])]);
    assert Json.GetString(p, "status") == Some("");
    assert Json.GetArray(p, "results") == Some([entry]);
    assert SynapseNative.FindByDeleteId([entry], "job", 1) == None;
    assert SynapseNative.FindByDeleteId([entry], "job", 0) == None;
    assert FindFirstObject([entry], 0) == Some(0);
  }

  /** Without a match, the native parser falls back to a first entry that is not an object; this one skips it. */
  lemma {:induction false} FallbackEntryDiffers()
    ensures var entry := Json.Obj(map["status" := Json.Str("complete")]);
            var p := Json.Obj(map["results" := Json.Arr([Json.Str("x"), entry])]);
            SynapseNative.ParseDeleteStatus(p, "job").status == None &&
            ParseSynapseDeleteStatus(p, "job").status == Some("complete")
  {
    var entry := Json.Obj(map["status" := Json.Str("complete")]);
    var results := [Json.Str("x"), entry];
    var p := Json.Obj(map["results" := Json.Arr(results)]);
    assert Json.GetString(p, "status") == None;
    assert Json.GetArray(p, "results") == Some(results);
    assert SynapseNative.FindByDeleteId(results, "job", 2) == None;
    assert SynapseNative.FindByDeleteId(results, "job", 1) == None;
    assert SynapseNative.FindByDeleteId(results, "job", 0) == None;
    assert FindFirstObject(results, 1) == Some(1);
    assert FindFirstObject(results, 0) == Some(1);
  }

  /** A blank `error` is dropped by the native parser and kept by this one. */
  lemma {:induction false} BlankErrorDiffers()
    ensures var p := Json.Obj(map["status" := Json.Str("failed"), "error" := Json.Str("")]);
            SynapseNative.ParseDeleteStatus(p, "job").error == None &&
            ParseSynapseDeleteStatus(p, "job").error == Some("")
  {
    var p := Json.Obj(map["status" := Json.Str("failed"), "error" := Json.Str("")]);
    assert Json.GetString(p, "status") == Some("failed");
    assert Json.GetString(p, "error") == Some("");
    assert IsBlankRust("");
    assert Json.GetObject(p, "shutdown_room") == None;
  }

  /** `isSynapseDeleteComplete` and the native `eq_ignore_ascii_case("complete")` agree. */
  lemma {:induction false} CompleteTestAgrees(status: Option<string>)
    ensures IsComplete(status) <==> status.Some? && EqIgnoreAsciiCase(status.value, "complete")
  {
    if status.Some? {
      LowerKeepsLowercase("complete");
      assert EqIgnoreAsciiCase(status.value, "complete") <==> Lower(status.value) == "complete";
    }
  }

  /** `isSynapseDeleteFailed` and the native `eq_ignore_ascii_case("failed")` agree. */
  lemma {:induction false} FailedTestAgrees(status: Option<string>)
    ensures IsFailed(status) <==> status.Some? && EqIgnoreAsciiCase(status.value, "failed")
  {
    if status.Some? {
      LowerKeepsLowercase("failed");
      assert EqIgnoreAsciiCase(status.value, "failed") <==> Lower(status.value) == "failed";
    }
  }

  /** `pollSynapseDeleteStatus` and `poll_delete_status` decide alike on replies both parsers read alike. */
  lemma {:induction false} PollStepAgreesWithNative(reply: Reply, onIdRoute: bool, deleteId: string)
    requires reply.Response? && IsSuccess(reply.status) ==>
               ParsesAlike(Payload(reply), deleteId) &&
               var e := ParseSynapseDeleteStatus(Payload(reply), deleteId).error;
               e.None? || !IsBlankRust(e.value)
    ensures PollStep(reply, onIdRoute, deleteId) == SynapseNative.PollStep(reply, onIdRoute, deleteId)
  {
    if reply.Response? && IsSuccess(reply.status) && reply.status != 404 && reply.status != 405 {
      var p := Payload(reply);
      var ts := ParseSynapseDeleteStatus(p, deleteId);
      var rs := SynapseNative.ParseDeleteStatus(SynapseNative.Payload(reply), deleteId);
      ParseAgreesWithNative(p, deleteId);
      NullParsesEmpty(deleteId);
      assert rs == SynapseNative.ParseDeleteStatus(p, deleteId);
      CompleteTestAgrees(ts.status);
      FailedTestAgrees(ts.status);
    }
  }

  /** The native parser reads nothing from `null` and from `{}` alike. */
  lemma {:induction false} NullParsesEmpty(deleteId: string)
    ensures SynapseNative.ParseDeleteStatus(Json.Null, deleteId) == SynapseNative.ParseDeleteStatus(Json.EmptyObject, deleteId)
  {
  }

  /**
   * The requests and outcome of a status-polling loop that started at session request
   * `k0`: each request is on the per-job route until a reply was 404/405 and on the
   * per-room route after it, no reply before the last one stopped the loop, and the
   * outcome is the last reply's decision or the time-out.
   */
  ghost predicate PollTrace(net: Net, k0: nat, base: string, room: string, deleteId: string,
                            sent: seq<Request>, res: Outcome)
  {
    1 <= |sent| && SortedByRank(sent) &&
    (forall i {:trigger sent[i]} :: 0 <= i < |sent| ==> sent[i] == StatusRequest(base, room, deleteId, OnIdRoute(net, k0, i))) &&
    (forall i :: 0 <= i < |sent| - 1 ==> !PollStepAt(net, k0, deleteId, i).Stop?) &&
    EndedBy(PollStepAt(net, k0, deleteId, |sent| - 1), res, PollTimedOut)
  }

  /** A status reply never stops the poller with a time-out: only the clock does. */
  lemma {:induction false} PollStepNeverTimesOut(reply: Reply, onIdRoute: bool, deleteId: string)
    ensures PollStep(reply, onIdRoute, deleteId).Stop? ==> !TimedOut(PollStep(reply, onIdRoute, deleteId).outcome)
  {
  }

  /**
   * The time a polling loop has spent after its first `n` requests: each request's
   * latency, and a 1.5 s sleep after each reply that asked to poll again; a route
   * switch goes on without sleeping.
   */
  function PollClock(net: Net, k0: nat, deleteId: string, n: nat): nat
  {
    if n == 0 then 0
    else PollClock(net, k0, deleteId, n - 1) + LatencyAt(net, k0 + n - 1) +
         (if PollStepAt(net, k0, deleteId, n - 1) == Retry then PollInterval else 0)
  }

  /**
   * `pollSynapseDeleteStatus`: polls the per-job status route until a 404/405 moves it to
   * the per-room route, and stops as `PollStep` decides or when 90 s have elapsed.
   */
  method PollSynapseDeleteStatus(net: Net, base: string, room: string, deleteId: string, k0: nat, t0: nat)
    returns (res: Outcome, sent: seq<Request>, t: nat)
    ensures 1 <= |sent| <= SynapseNative.MaxStatusPolls && t >= t0
    ensures PollTrace(net, k0, base, room, deleteId, sent, res)
    ensures Finished(PollStepAt(net, k0, deleteId, |sent| - 1), res, PollTimedOut, t0, t)
    ensures t == t0 + PollClock(net, k0, deleteId, |sent|)
  {
    var byDeleteId := true;
    ghost var sleeps: nat := 0;
    sent, t := [], t0;
    while t - t0 < Deadline
      invariant t >= t0 + PollInterval * sleeps && sleeps <= 60
      invariant |sent| == sleeps + (if byDeleteId then 0 else 1)
      invariant byDeleteId == OnIdRoute(net, k0, |sent|)
      invariant forall i {:trigger sent[i]} :: 0 <= i < |sent| ==> sent[i] == StatusRequest(base, room, deleteId, OnIdRoute(net, k0, i))
      invariant forall i :: 0 <= i < |sent| ==> !PollStepAt(net, k0, deleteId, i).Stop?
      invariant sent == [] ==> t == t0
      invariant t == t0 + PollClock(net, k0, deleteId, |sent|)
      decreases t0 + Deadline - t, byDeleteId
    {
      var n := |sent|;
      var reply := RunReply(net, k0, n);
      var step := PollStep(reply, byDeleteId, deleteId);
      assert step == PollStepAt(net, k0, deleteId, n);
      sent := sent + [StatusRequest(base, room, deleteId, byDeleteId)];
      t := t + LatencyAt(net, k0 + n);
      match step
      case Stop(outcome) =>
        res := outcome;
        StatusRequestsSorted(net, k0, base, room, deleteId, sent);
        return;
      case SwitchRoute =>
        byDeleteId := false;
      case Retry =>
        t := t + PollInterval;
        sleeps := sleeps + 1;
    }
    res := Failed(PollTimedOut);
    StatusRequestsSorted(net, k0, base, room, deleteId, sent);
  }

  /** Once a polling loop has left the per-job route it never comes back to it. */
  lemma {:induction false} StatusRequestsSorted(net: Net, k0: nat, base: string, room: string, deleteId: string, sent: seq<Request>)
    requires forall i {:trigger sent[i]} :: 0 <= i < |sent| ==> sent[i] == StatusRequest(base, room, deleteId, OnIdRoute(net, k0, i))
    ensures SortedByRank(sent)
  {
    forall i, j | 0 <= i < j < |sent|
      ensures Rank(sent[i]) <= Rank(sent[j])
    {
      OnIdRouteMonotone(net, k0, i, j);
    }
  }

  /**
   * What one iteration of `waitForSynapseRoomRemoval` does with a reply of the room
   * lookup: 404 means the room is gone; a rejected fetch or another non-success stops
   * with an error; a success means the room still exists, so it sleeps and looks again.
   */
  function RoomCheckStep(reply: Reply): Step
  {
    match reply
    case TransportError(d) => Stop(Failed(Unreachable(VerifyingPurge, d)))
    case Response(status, text, json) =>
      if status == 404 then Stop(Done)
      else if !IsSuccess(status) then Stop(Failed(ErrorResponse(status, text, json)))
      else Retry
  }

  function RoomCheckStepAt(net: Net, k0: nat, i: nat): Step
  {
    RoomCheckStep(RunReply(net, k0, i))
  }

  /** The room check decides exactly as `wait_for_room_removal` does, reply by reply. */
  lemma {:induction false} RoomCheckStepAgreesWithNative(reply: Reply)
    ensures RoomCheckStep(reply) == SynapseNative.WaitStep(reply)
  {
  }

  /** A room lookup never stops the room check with a time-out: only the clock does. */
  lemma {:induction false} RoomCheckStepNeverTimesOut(reply: Reply)
    ensures RoomCheckStep(reply).Stop? ==> !TimedOut(RoomCheckStep(reply).outcome)
  {
  }

  /**
   * The requests and outcome of a room-check loop that started at session request `k0`:
   * every request is the room lookup, every reply before the last one asked to look
   * again, and the outcome is the last reply's decision or the time-out.
   */
  ghost predicate RoomCheckTrace(net: Net, k0: nat, base: string, room: string, sent: seq<Request>, res: Outcome)
  {
    1 <= |sent| && SortedByRank(sent) &&
    (forall i :: 0 <= i < |sent| ==> sent[i] == RoomCheckRequest(base, room)) &&
    (forall i :: 0 <= i < |sent| - 1 ==> RoomCheckStepAt(net, k0, i) == Retry) &&
    EndedBy(RoomCheckStepAt(net, k0, |sent| - 1), res, RoomStillPresent)
  }

  /**
   * The time a room-check loop has spent after its first `n` requests: each request's
   * latency, and a 1.5 s sleep after each reply that asked to look again.
   */
  function RoomCheckClock(net: Net, k0: nat, n: nat): nat
  {
    if n == 0 then 0
    else RoomCheckClock(net, k0, n - 1) + LatencyAt(net, k0 + n - 1) +
         (if RoomCheckStepAt(net, k0, n - 1) == Retry then PollInterval else 0)
  }

  /**
   * `waitForSynapseRoomRemoval`: looks the room up until the lookup answers 404, fails,
   * or 90 s have elapsed.
   */
  method WaitForSynapseRoomRemoval(net: Net, base: string, room: string, k0: nat, t0: nat)
    returns (res: Outcome, sent: seq<Request>, t: nat)
    ensures 1 <= |sent| <= SynapseNative.MaxRoomChecks && t >= t0
    ensures RoomCheckTrace(net, k0, base, room, sent, res)
    ensures Finished(RoomCheckStepAt(net, k0, |sent| - 1), res, RoomStillPresent, t0, t)
    ensures t == t0 + RoomCheckClock(net, k0, |sent|)
  {
    sent, t := [], t0;
    while t - t0 < Deadline
      invariant t >= t0 + PollInterval * |sent| && |sent| <= 60
      invariant forall i :: 0 <= i < |sent| ==> sent[i] == RoomCheckRequest(base, room)
      invariant forall i :: 0 <= i < |sent| ==> RoomCheckStepAt(net, k0, i) == Retry
      invariant sent == [] ==> t == t0
      invariant t == t0 + RoomCheckClock(net, k0, |sent|)
      decreases t0 + Deadline - t
    {
      var n := |sent|;
      var step := RoomCheckStep(RunReply(net, k0, n));
      assert step == RoomCheckStepAt(net, k0, n);
      sent := sent + [RoomCheckRequest(base, room)];
      t := t + LatencyAt(net, k0 + n);
      match step
      case Stop(outcome) =>
        res := outcome;
        return;
      case SwitchRoute =>
        assert false;
      case Retry =>
        t := t + PollInterval;
    }
    res := Failed(RoomStillPresent);
  }

  /**
   * What an initiating attempt makes of its reply: a rejected fetch throws; 404/405
   * returns `false` (falls through) for the v2 and v1 DELETE; another non-success throws
   * the error body; a success returns `true`.
   */
  function AttemptReply(reply: Reply, variant: nat): (r: Initiation)
    requires variant <= 2
    ensures r == FallThrough <==> variant < 2 && IsNotFoundOrNotAllowed(reply)
    ensures r == Accepted <==> reply.Response? && IsSuccess(reply.status)
    ensures reply.TransportError? ==> r == Rejected(Unreachable(InitiationPhase(variant), reply.detail))
  {
    match reply
    case TransportError(d) => Rejected(Unreachable(InitiationPhase(variant), d))
    case Response(status, text, json) =>
      if variant < 2 && (status == 404 || status == 405) then FallThrough
      else if !IsSuccess(status) then Rejected(ErrorResponse(status, text, json))
      else Accepted
  }

  /** Each attempt decides exactly as the native negotiation does. */
  lemma {:induction false} AttemptReplyAgreesWithNative(reply: Reply, variant: nat)
    requires variant <= 2
    ensures AttemptReply(reply, variant) == SynapseNative.Initiate(reply, variant)
  {
  }

  /** The job id of an accepted v2 reply, when it is a non-empty string (`if (deleteId)`). */
  function DeleteId(reply: Reply): (r: Option<string>)
    ensures r.Some? ==> r.value != []
  {
    if reply.Response? && IsSuccess(reply.status) then
      match Json.GetString(Payload(reply), "delete_id")
      case Some(id) => if id == [] then None else Some(id)
      case None => None
    else None
  }

  /** The native path polls every job id it gets; this one polls exactly the non-empty ones. */
  lemma {:induction false} DeleteIdAgreesWithNative(reply: Reply)
    ensures DeleteId(reply).Some? ==> DeleteId(reply) == SynapseNative.V2DeleteId(reply)
    ensures SynapseNative.V2DeleteId(reply).Some? && SynapseNative.V2DeleteId(reply).value != [] ==>
              DeleteId(reply) == SynapseNative.V2DeleteId(reply)
    ensures SynapseNative.V2DeleteId(reply) == Some([]) ==> DeleteId(reply).None?
  {
    if reply.Response? && reply.json.None? {
      assert Json.GetString(Json.Null, "delete_id").None?;
      assert Json.GetString(Json.EmptyObject, "delete_id").None?;
    }
  }

  /** The outcome of a v2 attempt that polled: `true` when polling ended well, the poller's error otherwise. */
  function PolledOutcome(used: Initiation): Outcome
  {
    if used.Rejected? then Failed(used.failure) else Done
  }

  /**
   * What `attemptV2` sent and returned: the v2 DELETE, then, when it was accepted with a
   * non-empty job id, the status polls, ending as the poller ended; otherwise the DELETE
   * alone, decided by its reply.
   */
  ghost predicate V2Attempted(net: Net, k0: nat, base: string, room: string, sent: seq<Request>, used: Initiation,
                              tLoop: nat, t: nat)
  {
    1 <= |sent| && sent[0] == InitiationRequest(base, room, 0) &&
    var r0 := RunReply(net, k0, 0);
    if AttemptReply(r0, 0) == Accepted && DeleteId(r0).Some? then
      !used.FallThrough? && PollTrace(net, k0 + 1, base, room, DeleteId(r0).value, sent[1..], PolledOutcome(used)) &&
      Finished(PollStepAt(net, k0 + 1, DeleteId(r0).value, |sent| - 2), PolledOutcome(used), PollTimedOut, tLoop, t)
    else
      |sent| == 1 && used == AttemptReply(r0, 0)
  }

  /**
   * `attemptV2`: the v2 DELETE, and the status polling when its reply names a job;
   * `tLoop` is the time the polling began.
   */
  method AttemptV2(net: Net, base: string, room: string, k0: nat, t0: nat)
    returns (used: Initiation, sent: seq<Request>, t: nat, ghost tLoop: nat)
    ensures t0 <= tLoop <= t
    ensures V2Attempted(net, k0, base, room, sent, used, tLoop, t)
    ensures 1 <= |sent| && sent[0] == InitiationRequest(base, room, 0)
    ensures !(AttemptReply(RunReply(net, k0, 0), 0) == Accepted && DeleteId(RunReply(net, k0, 0)).Some?) ==>
      sent == [InitiationRequest(base, room, 0)] && used == AttemptReply(RunReply(net, k0, 0), 0)
  {
    var reply := RunReply(net, k0, 0);
    sent, t := [InitiationRequest(base, room, 0)], t0 + LatencyAt(net, k0);
    tLoop := t;
    used := AttemptReply(reply, 0);
    if used == Accepted {
      var deleteId := DeleteId(reply);
      if deleteId.Some? {
        var polled, polls, t1 := PollSynapseDeleteStatus(net, base, room, deleteId.value, k0 + 1, t);
        sent, t := sent + polls, t1;
        assert sent[1..] == polls;
        if polled.Failed? {
          used := Rejected(polled.failure);
        }
      }
    }
  }

  /** `attemptV1Delete`: the v1 DELETE, the session's `k`-th request. */
  method AttemptV1Delete(net: Net, base: string, room: string, k: nat, t0: nat)
    returns (used: Initiation, sent: Request, t: nat)
    ensures sent == InitiationRequest(base, room, 1) && used == AttemptReply(ReplyAt(net, k), 1) && t >= t0
  {
    sent, t := InitiationRequest(base, room, 1), t0 + LatencyAt(net, k);
    used := AttemptReply(ReplyAt(net, k), 1);
  }

  /** `attemptLegacyDelete`: the legacy POST, the session's `k`-th request; it never falls through. */
  method AttemptLegacyDelete(net: Net, base: string, room: string, k: nat, t0: nat)
    returns (used: Initiation, sent: Request, t: nat)
    ensures sent == InitiationRequest(base, room, 2) && used == AttemptReply(ReplyAt(net, k), 2) && t >= t0
    ensures !used.FallThrough?
  {
    sent, t := InitiationRequest(base, room, 2), t0 + LatencyAt(net, k);
    used := AttemptReply(ReplyAt(net, k), 2);
  }

  /**
   * The attempts of a session, in order: `n` is the last attempt made, every earlier one
   * fell through, and the last one did not.
   */
  ghost predicate AttemptedInOrder(net: Net, k0: nat, base: string, room: string, n: nat, sent: seq<Request>,
                                   used: Initiation, tLoop: nat, t: nat)
  {
    n <= 2 && !used.FallThrough? &&
    (forall i :: 0 <= i < n ==> AttemptReply(RunReply(net, k0, i), i) == FallThrough) &&
    if n == 0 then V2Attempted(net, k0, base, room, sent, used, tLoop, t)
    else sent == Initiations(base, room, n + 1) && used == AttemptReply(RunReply(net, k0, n), n)
  }

  /** `usedV2 || usedV1 || attemptLegacyDelete()`: the three attempts, each only after the previous one returned `false`. */
  method AttemptInOrder(net: Net, base: string, room: string, k0: nat, t0: nat)
    returns (n: nat, used: Initiation, sent: seq<Request>, t: nat, ghost tLoop: nat)
    ensures t0 <= tLoop <= t
    ensures AttemptedInOrder(net, k0, base, room, n, sent, used, tLoop, t)
    ensures n <= 2 && !used.FallThrough?
    ensures forall i :: 0 <= i < n ==> AttemptReply(RunReply(net, k0, i), i) == FallThrough
    ensures 0 < n ==> sent == Initiations(base, room, n + 1) && used == AttemptReply(RunReply(net, k0, n), n)
  {
    n := 0;
    used, sent, t, tLoop := AttemptV2(net, base, room, k0, t0);
    if used.FallThrough? {
      var req;
      used, req, t := AttemptV1Delete(net, base, room, k0 + 1, t);
      n, sent := 1, sent + [req];
      if used.FallThrough? {
        used, req, t := AttemptLegacyDelete(net, base, room, k0 + 2, t);
        n, sent := 2, sent + [req];
      }
    }
  }

  /**
   * The v2 DELETE comes first; v2, v1 and legacy are tried in this order, each at most
   * once, the next one only after the previous one returned `false`; every request goes
   * to the normalised base URL and the same room, and the later phases follow in order.
   */
  ghost predicate TriedInOrder(net: Net, k0: nat, base: string, room: string, sent: seq<Request>)
  {
    1 <= |sent| && sent[0] == InitiationRequest(base, room, 0) && SortedByRank(sent) &&
    (forall i :: 0 <= i < |sent| ==> sent[i].base == base && sent[i].room == room) &&
    (forall i :: 0 <= i < |sent| && Rank(sent[i]) <= 2 ==>
       i == Rank(sent[i]) && sent[i] == InitiationRequest(base, room, i) &&
       (i > 0 ==> AttemptReply(RunReply(net, k0, i - 1), i - 1) == FallThrough))
  }

  /**
   * Status requests are made only after the v2 DELETE was accepted with a non-empty job
   * id, for that id, switching routes as the poller does; and such a reply is always
   * polled, starting with the per-job route.
   */
  ghost predicate PolledWhenNamed(net: Net, k0: nat, base: string, room: string, sent: seq<Request>)
  {
    var id := DeleteId(RunReply(net, k0, 0));
    (forall i :: 0 <= i < |sent| && 3 <= Rank(sent[i]) <= 4 ==>
       id.Some? && i >= 1 && sent[i] == StatusRequest(base, room, id.value, OnIdRoute(net, k0 + 1, i - 1))) &&
    (id.Some? ==> |sent| >= 2 && Rank(sent[1]) == 3)
  }

  /**
   * The outcome is the one the last reply decides: a throwing attempt's error, the
   * poller's error or time-out, or the room check's result or time-out.
   */
  ghost predicate DecidedByLastReply(net: Net, k0: nat, sent: seq<Request>, res: Outcome, tLoop: nat, t: nat)
  {
    1 <= |sent| &&
    var last := |sent| - 1;
    (Rank(sent[last]) <= 2 ==>
       last <= 2 &&
       var init := AttemptReply(RunReply(net, k0, last), last);
       init.Rejected? && res == Failed(init.failure)) &&
    (3 <= Rank(sent[last]) <= 4 ==>
       res.Failed? && DeleteId(RunReply(net, k0, 0)).Some? && last >= 1 &&
       Finished(PollStepAt(net, k0 + 1, DeleteId(RunReply(net, k0, 0)).value, last - 1), res, PollTimedOut, tLoop, t)) &&
    (Rank(sent[last]) == 5 ==> Finished(RoomCheckStepAt(net, k0, last), res, RoomStillPresent, tLoop, t))
  }

  /**
   * Each loop went on only as its replies asked: a status reply followed by another
   * status request asked to switch routes or to poll again, the one followed by the room
   * check found the job complete or the status routes missing, and a room check
   * followed by another found the room still present.
   */
  ghost predicate LoopsContinued(net: Net, k0: nat, sent: seq<Request>)
  {
    var id := DeleteId(RunReply(net, k0, 0));
    forall i :: 1 <= i < |sent| - 1 ==>
      (3 <= Rank(sent[i]) <= 4 && id.Some? ==>
         if Rank(sent[i + 1]) == 5 then PollStepAt(net, k0 + 1, id.value, i - 1) == Stop(Done)
         else !PollStepAt(net, k0 + 1, id.value, i - 1).Stop?) &&
      (Rank(sent[i]) == 5 ==> RoomCheckStepAt(net, k0, i) == Retry)
  }

  /**
   * A session ends with one of the two time-outs only when its last loop ran for the
   * whole deadline: no reply, to an initiating request or inside a loop, times out.
   */
  lemma {:induction false} SessionTimesOutLate(net: Net, k0: nat, base: string, room: string, sent: seq<Request>,
                              res: Outcome, tLoop: nat, t: nat)
    requires SessionTrace(net, k0, base, room, sent, res, tLoop, t)
    ensures TimedOut(res) ==> t >= tLoop + Deadline
  {
    var last := |sent| - 1;
    if Rank(sent[last]) <= 2 {
      var init := AttemptReply(RunReply(net, k0, last), last);
      assert init.Rejected? && res == Failed(init.failure);
    } else if Rank(sent[last]) <= 4 {
      var id := DeleteId(RunReply(net, k0, 0)).value;
      PollStepNeverTimesOut(RunReply(net, k0 + 1, last - 1), OnIdRoute(net, k0 + 1, last - 1), id);
    } else {
      RoomCheckStepNeverTimesOut(RunReply(net, k0, last));
    }
  }

  /**
   * What a fetch-path hard delete guarantees about the requests it sent and its outcome:
   * the properties above, and success only when the room lookup answered 404.
   */
  ghost predicate SessionTrace(net: Net, k0: nat, base: string, room: string, sent: seq<Request>, res: Outcome,
                               tLoop: nat, t: nat)
  {
    TriedInOrder(net, k0, base, room, sent) && PolledWhenNamed(net, k0, base, room, sent) &&
    TransportEnds(net, k0, sent) && DecidedByLastReply(net, k0, sent, res, tLoop, t) && LoopsContinued(net, k0, sent) &&
    (res.Done? ==> Rank(sent[|sent| - 1]) == 5 && RoomCheckStepAt(net, k0, |sent| - 1) == Stop(Done))
  }

  /** The initiating requests up to `n`, followed by later phases in order, were tried in order. */
  lemma {:induction false} InitiationsInOrder(net: Net, k0: nat, base: string, room: string, n: nat, rest: seq<Request>)
    requires n <= 2
    requires forall i :: 0 <= i < n ==> AttemptReply(RunReply(net, k0, i), i) == FallThrough
    requires SortedByRank(rest)
    requires forall i :: 0 <= i < |rest| ==> Rank(rest[i]) >= 3 && rest[i].base == base && rest[i].room == room
    ensures TriedInOrder(net, k0, base, room, Initiations(base, room, n + 1) + rest)
  {
    ConcatSortedByRank(Initiations(base, room, n + 1), rest);
  }

  /** The status requests of a session whose v2 DELETE was accepted with a job id. */
  lemma {:induction false} PollsFollowV2(net: Net, k0: nat, kp: nat, base: string, room: string, polls: seq<Request>, rest: seq<Request>)
    requires kp == k0 + 1
    requires DeleteId(RunReply(net, k0, 0)).Some?
    requires 1 <= |polls|
    requires forall i :: 0 <= i < |polls| ==>
               polls[i] == StatusRequest(base, room, DeleteId(RunReply(net, k0, 0)).value, OnIdRoute(net, kp, i))
    requires forall i :: 0 <= i < |rest| ==> Rank(rest[i]) == 5
    ensures PolledWhenNamed(net, k0, base, room, Initiations(base, room, 1) + polls + rest)
  {
    var sent := Initiations(base, room, 1) + polls + rest;
    assert OnIdRoute(net, kp, 0);
    assert sent[1] == polls[0];
    forall i | 0 <= i < |sent| && 3 <= Rank(sent[i]) <= 4
      ensures i >= 1 && i - 1 < |polls| && sent[i] == polls[i - 1]
    {
    }
  }

  /** A session without status requests: the v2 DELETE was not accepted with a non-empty job id. */
  lemma {:induction false} NoPolls(net: Net, k0: nat, base: string, room: string, n: nat, rest: seq<Request>)
    requires n <= 2
    requires n > 0 ==> AttemptReply(RunReply(net, k0, 0), 0) == FallThrough
    requires n == 0 ==> DeleteId(RunReply(net, k0, 0)).None?
    requires forall i :: 0 <= i < |rest| ==> Rank(rest[i]) == 5
    ensures PolledWhenNamed(net, k0, base, room, Initiations(base, room, n + 1) + rest)
  {
    assert DeleteId(RunReply(net, k0, 0)).None?;
  }

  /** A session that stops at an attempt that threw, before any polling. */
  lemma {:induction false} RejectedSession(net: Net, k0: nat, base: string, room: string, n: nat, m: Failure, sent: seq<Request>,
                          tLoop: nat, t: nat)
    requires n <= 2
    requires forall i :: 0 <= i < n ==> AttemptReply(RunReply(net, k0, i), i) == FallThrough
    requires AttemptReply(RunReply(net, k0, n), n) == Rejected(m)
    requires sent == Initiations(base, room, n + 1)
    ensures SessionTrace(net, k0, base, room, sent, Failed(m), tLoop, t)
  {
    InitiationsInOrder(net, k0, base, room, n, []);
    assert sent + [] == sent;
    NoPolls(net, k0, base, room, n, []);
  }

  /** How a session whose poller failed or timed out ends: at the poller's last reply. */
  lemma {:induction false} PollFailedEnds(net: Net, k0: nat, kp: nat, base: string, room: string, id: string,
                       polls: seq<Request>, polled: Outcome, tLoop: nat, t: nat)
    requires kp == k0 + 1
    requires AttemptReply(RunReply(net, k0, 0), 0) == Accepted && DeleteId(RunReply(net, k0, 0)) == Some(id)
    requires PollTrace(net, kp, base, room, id, polls, polled) && polled.Failed?
    requires Finished(PollStepAt(net, kp, id, |polls| - 1), polled, PollTimedOut, tLoop, t)
    ensures var sent := Initiations(base, room, 1) + polls;
            TransportEnds(net, k0, sent) && DecidedByLastReply(net, k0, sent, polled, tLoop, t)
  {
    var sent := Initiations(base, room, 1) + polls;
    forall i | 1 <= i < |sent| - 1
      ensures !RunReply(net, k0, i).TransportError?
    {
      assert RunReply(net, kp, i - 1) == RunReply(net, k0, i);
      assert !PollStepAt(net, kp, id, i - 1).Stop?;
    }
    assert sent[|sent| - 1] == polls[|polls| - 1];
  }

  /** In a session whose poller failed or timed out, every status reply but the last asked to go on. */
  lemma {:induction false} PollFailedContinued(net: Net, k0: nat, kp: nat, base: string, room: string, id: string,
                            polls: seq<Request>, polled: Outcome)
    requires kp == k0 + 1 && DeleteId(RunReply(net, k0, 0)) == Some(id)
    requires PollTrace(net, kp, base, room, id, polls, polled)
    ensures LoopsContinued(net, k0, Initiations(base, room, 1) + polls)
  {
    var sent := Initiations(base, room, 1) + polls;
    forall i | 1 <= i < |sent| - 1
      ensures Rank(sent[i]) != 5
      ensures 3 <= Rank(sent[i]) <= 4 ==> Rank(sent[i + 1]) != 5 && !PollStepAt(net, kp, id, i - 1).Stop?
    {
      assert sent[i] == polls[i - 1] && sent[i + 1] == polls[i];
    }
  }

  /** In a session that polled the job to completion, the loops went on as their replies asked. */
  lemma {:induction false} PolledContinued(net: Net, k0: nat, kp: nat, kc: nat, base: string, room: string, id: string,
                        polls: seq<Request>, checks: seq<Request>, checked: Outcome)
    requires kp == k0 + 1 && kc == k0 + 1 + |polls| && DeleteId(RunReply(net, k0, 0)) == Some(id)
    requires PollTrace(net, kp, base, room, id, polls, Done)
    requires RoomCheckTrace(net, kc, base, room, checks, checked)
    ensures LoopsContinued(net, k0, Initiations(base, room, 1) + polls + checks)
  {
    var sent := Initiations(base, room, 1) + polls + checks;
    forall i | 1 <= i < |sent| - 1
      ensures 3 <= Rank(sent[i]) <= 4 ==>
                if Rank(sent[i + 1]) == 5 then PollStepAt(net, kp, id, i - 1) == Stop(Done)
                else !PollStepAt(net, kp, id, i - 1).Stop?
      ensures Rank(sent[i]) == 5 ==> RoomCheckStepAt(net, k0, i) == Retry
    {
      if i < |polls| {
        assert sent[i] == polls[i - 1] && sent[i + 1] == polls[i];
      } else if i == |polls| {
        assert sent[i] == polls[i - 1] && sent[i + 1] == checks[0];
      } else {
        var j := i - 1 - |polls|;
        assert sent[i] == checks[j];
        assert RunReply(net, kc, j) == RunReply(net, k0, i);
        assert RoomCheckStepAt(net, kc, j) == Retry;
      }
    }
  }

  /** In a session that checked the room without polling, every room check but the last found the room. */
  lemma {:induction false} UnpolledContinued(net: Net, k0: nat, kc: nat, base: string, room: string, n: nat,
                          checks: seq<Request>, checked: Outcome)
    requires n <= 2 && kc == k0 + n + 1
    requires RoomCheckTrace(net, kc, base, room, checks, checked)
    ensures LoopsContinued(net, k0, Initiations(base, room, n + 1) + checks)
  {
    var sent := Initiations(base, room, n + 1) + checks;
    forall i | 1 <= i < |sent| - 1
      ensures Rank(sent[i]) < 3 || Rank(sent[i]) == 5
      ensures Rank(sent[i]) == 5 ==> RoomCheckStepAt(net, k0, i) == Retry
    {
      if i > n {
        var j := i - (n + 1);
        assert sent[i] == checks[j];
        assert RunReply(net, kc, j) == RunReply(net, k0, i);
        assert RoomCheckStepAt(net, kc, j) == Retry;
      }
    }
  }

  /** A session whose poller failed or timed out inside `attemptV2`. */
  lemma {:induction false} PollFailedSession(net: Net, k0: nat, kp: nat, base: string, room: string, id: string,
                          polls: seq<Request>, polled: Outcome, sent: seq<Request>, tLoop: nat, t: nat)
    requires kp == k0 + 1
    requires AttemptReply(RunReply(net, k0, 0), 0) == Accepted && DeleteId(RunReply(net, k0, 0)) == Some(id)
    requires PollTrace(net, kp, base, room, id, polls, polled) && polled.Failed?
    requires Finished(PollStepAt(net, kp, id, |polls| - 1), polled, PollTimedOut, tLoop, t)
    requires sent == Initiations(base, room, 1) + polls
    ensures SessionTrace(net, k0, base, room, sent, polled, tLoop, t)
  {
    InitiationsInOrder(net, k0, base, room, 0, polls);
    PollsFollowV2(net, k0, kp, base, room, polls, []);
    assert Initiations(base, room, 1) + polls + [] == sent;
    PollFailedEnds(net, k0, kp, base, room, id, polls, polled, tLoop, t);
    PollFailedContinued(net, k0, kp, base, room, id, polls, polled);
  }

  /** A session that stops because an attempt threw. */
  lemma {:induction false} ThrewSession(net: Net, k0: nat, base: string, room: string, n: nat, sent: seq<Request>, used: Initiation,
                       tLoop: nat, t: nat)
    requires AttemptedInOrder(net, k0, base, room, n, sent, used, tLoop, t) && used.Rejected?
    ensures SessionTrace(net, k0, base, room, sent, Failed(used.failure), tLoop, t)
  {
    var r0 := RunReply(net, k0, 0);
    if n == 0 && AttemptReply(r0, 0) == Accepted && DeleteId(r0).Some? {
      var polls := sent[1..];
      assert sent == Initiations(base, room, 1) + polls;
      PollFailedSession(net, k0, k0 + 1, base, room, DeleteId(r0).value, polls, Failed(used.failure), sent, tLoop, t);
    } else {
      RejectedSession(net, k0, base, room, n, used.failure, sent, tLoop, t);
    }
  }

  /** No transport failure before the room check's last reply, in a session that polled. */
  lemma {:induction false} PolledTransport(net: Net, k0: nat, kp: nat, kc: nat, id: string, polls: seq<Request>, checks: seq<Request>,
                        before: seq<Request>)
    requires kp == k0 + 1 && kc == k0 + 1 + |polls| && |before| == 1
    requires AttemptReply(RunReply(net, k0, 0), 0) == Accepted
    requires 1 <= |polls|
    requires forall i :: 0 <= i < |polls| - 1 ==> !PollStepAt(net, kp, id, i).Stop?
    requires PollStepAt(net, kp, id, |polls| - 1) == Stop(Done)
    requires 1 <= |checks|
    requires forall i :: 0 <= i < |checks| - 1 ==> RoomCheckStepAt(net, kc, i) == Retry
    ensures TransportEnds(net, k0, before + polls + checks)
  {
    var sent := before + polls + checks;
    forall i | 0 <= i < |sent| - 1
      ensures !RunReply(net, k0, i).TransportError?
    {
      if i == 0 {
      } else if i < kc - k0 {
        assert RunReply(net, kp, i - 1) == RunReply(net, k0, i);
        assert PollStepAt(net, kp, id, i - 1).Stop? ==> i - 1 == |polls| - 1;
      } else {
        assert RunReply(net, kc, i - (kc - k0)) == RunReply(net, k0, i);
        assert RoomCheckStepAt(net, kc, i - (kc - k0)) == Retry;
      }
    }
  }

  /** No transport failure before the room check's last reply, in a session that did not poll. */
  lemma {:induction false} UnpolledTransport(net: Net, k0: nat, kc: nat, n: nat, checks: seq<Request>, before: seq<Request>)
    requires n <= 2 && kc == k0 + n + 1 && |before| == n + 1
    requires forall i :: 0 <= i < n ==> AttemptReply(RunReply(net, k0, i), i) == FallThrough
    requires AttemptReply(RunReply(net, k0, n), n) == Accepted
    requires 1 <= |checks|
    requires forall i :: 0 <= i < |checks| - 1 ==> RoomCheckStepAt(net, kc, i) == Retry
    ensures TransportEnds(net, k0, before + checks)
  {
    var sent := before + checks;
    forall i | 0 <= i < |sent| - 1
      ensures !RunReply(net, k0, i).TransportError?
    {
      if i > n {
        assert RunReply(net, kc, i - (n + 1)) == RunReply(net, k0, i);
        assert RoomCheckStepAt(net, kc, i - (n + 1)) == Retry;
      }
    }
  }

  /** The room check's last reply decides a session that ends with the room check. */
  lemma {:induction false} CheckedDecided(net: Net, k0: nat, kc: nat, base: string, room: string,
                       before: seq<Request>, checks: seq<Request>, checked: Outcome, tLoop: nat, t: nat)
    requires kc == k0 + |before|
    requires RoomCheckTrace(net, kc, base, room, checks, checked)
    requires Finished(RoomCheckStepAt(net, kc, |checks| - 1), checked, RoomStillPresent, tLoop, t)
    ensures var sent := before + checks;
            DecidedByLastReply(net, k0, sent, checked, tLoop, t) &&
            (checked.Done? ==> Rank(sent[|sent| - 1]) == 5 && RoomCheckStepAt(net, k0, |sent| - 1) == Stop(Done))
  {
    var sent := before + checks;
    assert RunReply(net, kc, |checks| - 1) == RunReply(net, k0, |sent| - 1);
    assert sent[|sent| - 1] == checks[|checks| - 1];
  }

  /** A session whose v2 attempt polled the job to completion and then checked the room. */
  lemma {:induction false} PolledSession(net: Net, k0: nat, kp: nat, kc: nat, base: string, room: string, id: string,
                      polls: seq<Request>, checks: seq<Request>, checked: Outcome, sent: seq<Request>,
                      tLoop: nat, t: nat)
    requires kp == k0 + 1 && kc == k0 + 1 + |polls|
    requires AttemptReply(RunReply(net, k0, 0), 0) == Accepted && DeleteId(RunReply(net, k0, 0)) == Some(id)
    requires PollTrace(net, kp, base, room, id, polls, Done)
    requires RoomCheckTrace(net, kc, base, room, checks, checked)
    requires Finished(RoomCheckStepAt(net, kc, |checks| - 1), checked, RoomStillPresent, tLoop, t)
    requires sent == Initiations(base, room, 1) + polls + checks
    ensures SessionTrace(net, k0, base, room, sent, checked, tLoop, t)
  {
    var before := Initiations(base, room, 1);
    assert sent == before + (polls + checks);
    ConcatSortedByRank(polls, checks);
    InitiationsInOrder(net, k0, base, room, 0, polls + checks);
    PollsFollowV2(net, k0, kp, base, room, polls, checks);
    PolledTransport(net, k0, kp, kc, id, polls, checks, before);
    CheckedDecided(net, k0, kc, base, room, before + polls, checks, checked, tLoop, t);
    PolledContinued(net, k0, kp, kc, base, room, id, polls, checks, checked);
  }

  /** A session that checked the room right after an accepted attempt `n` that did not poll. */
  lemma {:induction false} UnpolledSession(net: Net, k0: nat, base: string, room: string, n: nat,
                        before: seq<Request>, checks: seq<Request>, checked: Outcome, tLoop: nat, t: nat)
    requires n <= 2 && before == Initiations(base, room, n + 1)
    requires forall i :: 0 <= i < n ==> AttemptReply(RunReply(net, k0, i), i) == FallThrough
    requires AttemptReply(RunReply(net, k0, n), n) == Accepted
    requires n == 0 ==> DeleteId(RunReply(net, k0, 0)).None?
    requires RoomCheckTrace(net, k0 + n + 1, base, room, checks, checked)
    requires Finished(RoomCheckStepAt(net, k0 + n + 1, |checks| - 1), checked, RoomStillPresent, tLoop, t)
    ensures SessionTrace(net, k0, base, room, before + checks, checked, tLoop, t)
  {
    InitiationsInOrder(net, k0, base, room, n, checks);
    NoPolls(net, k0, base, room, n, checks);
    UnpolledTransport(net, k0, k0 + n + 1, n, checks, before);
    CheckedDecided(net, k0, k0 + n + 1, base, room, before, checks, checked, tLoop, t);
    UnpolledContinued(net, k0, k0 + n + 1, base, room, n, checks, checked);
  }

  /** A session whose v2 attempt, accepted with a job id, polled it to completion. */
  lemma {:induction false} V2PolledSession(net: Net, k0: nat, base: string, room: string, before: seq<Request>, used: Initiation,
                        tPoll: nat, t1: nat, checks: seq<Request>, checked: Outcome, tLoop: nat, t: nat)
    requires V2Attempted(net, k0, base, room, before, used, tPoll, t1) && used == Accepted
    requires DeleteId(RunReply(net, k0, 0)).Some?
    requires RoomCheckTrace(net, k0 + |before|, base, room, checks, checked)
    requires Finished(RoomCheckStepAt(net, k0 + |before|, |checks| - 1), checked, RoomStillPresent, tLoop, t)
    ensures SessionTrace(net, k0, base, room, before + checks, checked, tLoop, t)
  {
    var polls := before[1..];
    assert before == Initiations(base, room, 1) + polls;
    assert before + checks == Initiations(base, room, 1) + polls + checks;
    PolledSession(net, k0, k0 + 1, k0 + |before|, base, room, DeleteId(RunReply(net, k0, 0)).value, polls, checks,
                  checked, before + checks, tLoop, t);
  }

  /** An accepted attempt that did not poll sent only the initiating requests. */
  lemma {:induction false} AcceptedUnpolled(net: Net, k0: nat, base: string, room: string, n: nat, before: seq<Request>, used: Initiation,
                         tPoll: nat, t1: nat)
    requires AttemptedInOrder(net, k0, base, room, n, before, used, tPoll, t1) && used == Accepted
    requires !(n == 0 && DeleteId(RunReply(net, k0, 0)).Some?)
    ensures before == Initiations(base, room, n + 1) && AttemptReply(RunReply(net, k0, n), n) == Accepted
    ensures n == 0 ==> DeleteId(RunReply(net, k0, 0)).None?
  {
    if n == 0 {
      assert before == Initiations(base, room, 1);
    }
  }

  /** A session whose accepting attempt is followed by the room check. */
  lemma {:induction false} CheckedSession(net: Net, k0: nat, base: string, room: string, n: nat, before: seq<Request>,
                       used: Initiation, tPoll: nat, t1: nat, checks: seq<Request>, checked: Outcome, tLoop: nat, t: nat)
    requires AttemptedInOrder(net, k0, base, room, n, before, used, tPoll, t1) && used == Accepted
    requires RoomCheckTrace(net, k0 + |before|, base, room, checks, checked)
    requires Finished(RoomCheckStepAt(net, k0 + |before|, |checks| - 1), checked, RoomStillPresent, tLoop, t)
    ensures SessionTrace(net, k0, base, room, before + checks, checked, tLoop, t)
  {
    if n == 0 && DeleteId(RunReply(net, k0, 0)).Some? {
      V2PolledSession(net, k0, base, room, before, used, tPoll, t1, checks, checked, tLoop, t);
    } else {
      AcceptedUnpolled(net, k0, base, room, n, before, used, tPoll, t1);
      UnpolledSession(net, k0, base, room, n, before, checks, checked, tLoop, t);
    }
  }

  /**
   * `requestSynapseHardDelete` on the fetch path: normalises the base URL, tries v2 (with
   * its polling), v1 and legacy in order, and after an accepted attempt always checks
   * that the room is gone. `tLoop` is the time the last loop began: a session ends with a
   * time-out only once that loop has run for the whole deadline.
   */
  method RequestSynapseHardDelete(net: Net, baseUrl: string, room: string, k0: nat, t0: nat)
    returns (res: Outcome, sent: seq<Request>, t: nat, ghost tLoop: nat)
    ensures t0 <= tLoop <= t
    ensures SessionTrace(net, k0, NormalizeBaseUrl(baseUrl), room, sent, res, tLoop, t)
    ensures 1 <= |sent| && t0 <= t
    ensures res.Done? ==> Rank(sent[|sent| - 1]) == 5 && RoomCheckStepAt(net, k0, |sent| - 1) == Stop(Done)
  {
    var base := NormalizeBaseUrl(baseUrl);
    var n, used;
    n, used, sent, t, tLoop := AttemptInOrder(net, base, room, k0, t0);
    if used.Rejected? {
      res := Failed(used.failure);
      ThrewSession(net, k0, base, room, n, sent, used, tLoop, t);
      return;
    }
    var checked, checks, t1 := WaitForSynapseRoomRemoval(net, base, room, k0 + |sent|, t);
    CheckedSession(net, k0, base, room, n, sent, used, tLoop, t, checks, checked, t, t1);
    res, sent, t, tLoop := checked, sent + checks, t1, t;
  }

  const DeletionFailedMessage := "Synapse room deletion failed."

  /**
   * The message of the error `requestSynapseHardDelete` throws for a failure: a rejected
   * fetch's own error, the error body, the job's error (even a blank one) or the default
   * text, and the two time-out texts.
   */
  function ErrorMessage(f: Failure): (r: string)
    ensures f.Unreachable? ==> r == f.detail
    ensures f.JobFailed? && f.error.Some? ==> r == f.error.value
  {
    match f
    case Unreachable(_, detail) => detail
    case ErrorResponse(status, text, json) => ReadErrorBody(status, text, json)
    case JobFailed(error) => error.GetOr(DeletionFailedMessage)
    case PollTimedOut => "Timed out waiting for Synapse room purge completion."
    case RoomStillPresent => "Synapse still reports this room after deletion. Purge did not complete."
  }

  /** A `failed` status is not a `complete` one. */
  lemma {:induction false} FailedIsNotComplete()
    ensures IsFailed(Some("failed")) && !IsComplete(Some("failed"))
  {
    LowerKeepsLowercase("failed");
  }

  /**
   * A `failed` job whose `error` is the empty string (as `BlankErrorDiffers` shows one)
   * makes the fetch path throw an error with an empty message.
   */
  lemma {:induction false} BlankJobErrorThrowsEmptyMessage(reply: Reply, onIdRoute: bool, deleteId: string)
    requires reply.Response? && IsSuccess(reply.status)
    requires ParseSynapseDeleteStatus(Payload(reply), deleteId) == SynapseDeleteStatus(Some("failed"), Some(""))
    ensures PollStep(reply, onIdRoute, deleteId) == Stop(Failed(JobFailed(Some(""))))
    ensures ErrorMessage(PollStep(reply, onIdRoute, deleteId).outcome.failure) == ""
  {
    FailedIsNotComplete();
  }
}
