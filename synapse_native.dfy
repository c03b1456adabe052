/**
 * The native (Rust) hard delete of a Synapse room: version negotiation between the
 * v2 DELETE, v1 DELETE and legacy POST admin routes, polling of the v2 deletion job,
 * and the final check that the room lookup answers 404.
 */
module SynapseNative {
  import opened Wrappers
  import opened Text
  import Json
  import opened Http

  /** `trim_end_matches('/')`: removes every trailing slash and nothing else. */
  function NormalizeBaseUrl(value: string): (r: string)
    ensures |r| <= |value| && r == value[..|r|]
    ensures forall i :: |r| <= i < |value| ==> value[i] == '/'
    ensures r == [] || r[|r| - 1] != '/'
  {
    if value != [] && value[|value| - 1] == '/' then NormalizeBaseUrl(value[..|value| - 1]) else value
  }

  lemma {:induction false} NormalizeBaseUrlIdempotent(value: string)
    ensures NormalizeBaseUrl(NormalizeBaseUrl(value)) == NormalizeBaseUrl(value)
  {
  }

  /** A base URL with or without one more trailing slash normalises to the same string. */
  lemma {:induction false} NormalizeBaseUrlIgnoresTrailingSlash(value: string)
    ensures NormalizeBaseUrl(value + "/") == NormalizeBaseUrl(value)
  {
    assert (value + "/")[..|value|] == value;
  }

  /** The canonical reason phrases of the `http` crate's status codes. */
  function ReasonPhrase(status: nat): Option<string>
  {
    match status
    case 100 => Some("Continue")
    case 101 => Some("Switching Protocols")
    case 102 => Some("Processing")
    case 200 => Some("OK")
    case 201 => Some("Created")
    case 202 => Some("Accepted")
    case 203 => Some("Non Authoritative Information")
    case 204 => Some("No Content")
    case 205 => Some("Reset Content")
    case 206 => Some("Partial Content")
    case 207 => Some("Multi-Status")
    case 208 => Some("Already Reported")
    case 226 => Some("IM Used")
    case 300 => Some("Multiple Choices")
    case 301 => Some("Moved Permanently")
    case 302 => Some("Found")
    case 303 => Some("See Other")
    case 304 => Some("Not Modified")
    case 305 => Some("Use Proxy")
    case 307 => Some("Temporary Redirect")
    case 308 => Some("Permanent Redirect")
    case 400 => Some("Bad Request")
    case 401 => Some("Unauthorized")
    case 402 => Some("Payment Required")
    case 403 => Some("Forbidden")
    case 404 => Some("Not Found")
    case 405 => Some("Method Not Allowed")
    case 406 => Some("Not Acceptable")
    case 407 => Some("Proxy Authentication Required")
    case 408 => Some("Request Timeout")
    case 409 => Some("Conflict")
    case 410 => Some("Gone")
    case 411 => Some("Length Required")
    case 412 => Some("Precondition Failed")
    case 413 => Some("Payload Too Large")
    case 414 => Some("URI Too Long")
    case 415 => Some("Unsupported Media Type")
    case 416 => Some("Range Not Satisfiable")
    case 417 => Some("Expectation Failed")
    case 418 => Some("I'm a teapot")
    case 421 => Some("Misdirected Request")
    case 422 => Some("Unprocessable Entity")
    case 423 => Some("Locked")
    case 424 => Some("Failed Dependency")
    case 426 => Some("Upgrade Required")
    case 428 => Some("Precondition Required")
    case 429 => Some("Too Many Requests")
    case 431 => Some("Request Header Fields Too Large")
    case 451 => Some("Unavailable For Legal Reasons")
    case 500 => Some("Internal Server Error")
    case 501 => Some("Not Implemented")
    case 502 => Some("Bad Gateway")
    case 503 => Some("Service Unavailable")
    case 504 => Some("Gateway Timeout")
    case 505 => Some("HTTP Version Not Supported")
    case 506 => Some("Variant Also Negotiates")
    case 507 => Some("Insufficient Storage")
    case 508 => Some("Loop Detected")
    case 510 => Some("Not Extended")
    case 511 => Some("Network Authentication Required")
    case _ => None
  }

  /** `format!("{}", status)` for a `StatusCode`: the code, a space and its reason phrase. */
  function StatusDisplay(status: nat): (r: string)
    ensures StartsWith(r, NatToString(status) + " ")
  {
    NatToString(status) + " " + ReasonPhrase(status).GetOr("<unknown status code>")
  }

  /** The non-blank string `error` of a JSON body, if it has one. */
  function BodyErrorMessage(json: Option<Json.Value>): (r: Option<string>)
    ensures r.Some? ==> json.Some? && Json.GetString(json.value, "error") == r && !IsBlankRust(r.value)
    ensures r.None? && json.Some? && Json.GetString(json.value, "error").Some?
            ==> IsBlankRust(Json.GetString(json.value, "error").value)
  {
    match json
    case None => None
    case Some(v) =>
      match Json.GetString(v, "error")
      case None => None
      case Some(m) => if IsBlankRust(m) then None else Some(m)
  }

  /**
   * `read_error_body`: "HTTP <status>" for an empty body, "<status>: <error>" for a JSON
   * body with a non-blank string `error`, and "<status>: <body>" for anything else.
   */
  function ReadErrorBody(status: nat, text: string, json: Option<Json.Value>): (r: string)
    ensures text == [] ==> r == "HTTP " + StatusDisplay(status)
    ensures text != [] && BodyErrorMessage(json).Some? ==> r == StatusDisplay(status) + ": " + BodyErrorMessage(json).value
    ensures text != [] && BodyErrorMessage(json).None? ==> r == StatusDisplay(status) + ": " + text
  {
    if text == [] then "HTTP " + StatusDisplay(status)
    else
      match BodyErrorMessage(json)
      case Some(m) => StatusDisplay(status) + ": " + m
      case None => StatusDisplay(status) + ": " + text
  }


  /** The string member `key` of `v` when it is not blank. */
  function NonBlankString(v: Json.Value, key: string): Option<string>
  {
    match Json.GetString(v, key)
    case Some(s) => if IsBlankRust(s) then None else Some(s)
    case None => None
  }

  /**
   * `extract_nested_error`: the top-level `error` when it is a non-blank string, else the
   * `error` of the `shutdown_room` object when that is a non-blank string, else nothing.
   */
  function ExtractNestedError(v: Json.Value): Option<string>
  {
    match NonBlankString(v, "error")
    case Some(m) => Some(m)
    case None =>
      match Json.GetObject(v, "shutdown_room")
      case Some(shutdown) => NonBlankString(shutdown, "error")
      case None => None
  }

  /** The nested error is never blank; the top-level one wins over the `shutdown_room` one. */
  lemma {:induction false} ExtractNestedErrorSpec(v: Json.Value)
    ensures var r := ExtractNestedError(v);
            (r.Some? ==> !IsBlankRust(r.value)) &&
            (Json.GetString(v, "error").Some? && !IsBlankRust(Json.GetString(v, "error").value) ==>
               r == Json.GetString(v, "error")) &&
            (NonBlankString(v, "error").None? ==>
               (r.Some? <==> Json.GetObject(v, "shutdown_room").Some? &&
                             NonBlankString(Json.GetObject(v, "shutdown_room").value, "error").Some?)) &&
            (NonBlankString(v, "error").None? && r.Some? ==>
               r == Json.GetString(Json.GetObject(v, "shutdown_room").value, "error"))
  {
  }

  /** The index of the first entry whose string `delete_id` equals `deleteId`, searching from `from`. */
  function FindByDeleteId(results: seq<Json.Value>, deleteId: string, from: nat): (r: Option<nat>)
    requires from <= |results|
    ensures r.Some? ==> from <= r.value < |results|
    decreases |results| - from
  {
    if from == |results| then None
    else if Json.GetString(results[from], "delete_id") == Some(deleteId) then Some(from)
    else FindByDeleteId(results, deleteId, from + 1)
  }

  /** `FindByDeleteId` finds the first matching entry at or after `from`, or reports that there is none. */
  lemma {:induction false} FindByDeleteIdSpec(results: seq<Json.Value>, deleteId: string, from: nat)
    requires from <= |results|
    ensures var r := FindByDeleteId(results, deleteId, from);
            (r.Some? ==> from <= r.value < |results| && Json.GetString(results[r.value], "delete_id") == Some(deleteId)) &&
            (r.Some? ==> forall j :: from <= j < r.value ==> Json.GetString(results[j], "delete_id") != Some(deleteId)) &&
            (r.None? ==> forall j :: from <= j < |results| ==> Json.GetString(results[j], "delete_id") != Some(deleteId))
    decreases |results| - from
  {
    if from < |results| && Json.GetString(results[from], "delete_id") != Some(deleteId) {
      FindByDeleteIdSpec(results, deleteId, from + 1);
    }
  }

  /** The `results` entry that describes the job: the one with its id, else the first one. */
  function SelectEntry(results: seq<Json.Value>, deleteId: string): Option<Json.Value>
  {
    match FindByDeleteId(results, deleteId, 0)
    case Some(i) => Some(results[i])
    case None => if results == [] then None else Some(results[0])
  }

  /**
   * `SelectEntry` picks nothing only from an empty list, picks an entry of the list, prefers an
   * entry with the job's id, and falls back to the first entry.
   */
  lemma {:induction false} SelectEntrySpec(results: seq<Json.Value>, deleteId: string)
    ensures var r := SelectEntry(results, deleteId);
            (r.None? <==> results == []) && (r.Some? ==> r.value in results) &&
            ((exists j :: 0 <= j < |results| && Json.GetString(results[j], "delete_id") == Some(deleteId)) ==>
               r.Some? && Json.GetString(r.value, "delete_id") == Some(deleteId)) &&
            ((results != [] &&
              forall j :: 0 <= j < |results| ==> Json.GetString(results[j], "delete_id") != Some(deleteId)) ==>
               r == Some(results[0]))
  {
    FindByDeleteIdSpec(results, deleteId, 0);
  }

  /** The status and error a status payload reports for one deletion job. */
  datatype DeleteStatus = DeleteStatus(status: Option<string>, error: Option<string>)

  /**
   * `parse_delete_status`: a top-level string `status` (even an empty one) wins, with the
   * payload's nested error; otherwise the selected `results` entry's status and nested
   * error; otherwise nothing.
   */
  function ParseDeleteStatus(payload: Json.Value, deleteId: string): DeleteStatus
  {
    match Json.GetString(payload, "status")
    case Some(s) => DeleteStatus(Some(s), ExtractNestedError(payload))
    case None =>
      match Json.GetArray(payload, "results")
      case None => DeleteStatus(None, None)
      case Some(results) =>
        match SelectEntry(results, deleteId)
        case Some(entry) => DeleteStatus(Json.GetString(entry, "status"), ExtractNestedError(entry))
        case None => DeleteStatus(None, None)
  }

  /**
   * Where `ParseDeleteStatus` takes the job's status from: the top level when it has a
   * string `status`, else the selected `results` entry, else nowhere; the error it reports
   * is never blank.
   */
  lemma {:induction false} ParseDeleteStatusSpec(payload: Json.Value, deleteId: string)
    ensures var r := ParseDeleteStatus(payload, deleteId);
            (Json.GetString(payload, "status").Some? ==>
               r == DeleteStatus(Json.GetString(payload, "status"), ExtractNestedError(payload))) &&
            ((Json.GetString(payload, "status").None? &&
              (Json.GetArray(payload, "results").None? || Json.GetArray(payload, "results").value == [])) ==>
               r == DeleteStatus(None, None)) &&
            (Json.GetString(payload, "status").None? && Json.GetArray(payload, "results").Some? &&
             Json.GetArray(payload, "results").value != [] ==>
               var e := SelectEntry(Json.GetArray(payload, "results").value, deleteId).value;
               r == DeleteStatus(Json.GetString(e, "status"), ExtractNestedError(e))) &&
            (r.error.Some? ==> !IsBlankRust(r.error.value))
  {
    ExtractNestedErrorSpec(payload);
    match Json.GetArray(payload, "results")
    case Some(results) =>
      SelectEntrySpec(results, deleteId);
      if results != [] {
        ExtractNestedErrorSpec(SelectEntry(results, deleteId).value);
      }
    case None =>
  }

  /** A payload with no `status` and no `results` reports nothing. */
  lemma {:induction false} ParseDeleteStatusEmpty(deleteId: string)
    ensures ParseDeleteStatus(Json.EmptyObject, deleteId) == DeleteStatus(None, None)
  {
  }

  const DeletionFailedMessage := "Synapse room deletion failed."

  /** The prefix of the message for a request that could not be sent. */
  function NetworkPrefix(phase: Phase): string
  {
    match phase
    case DeletingV2 => "Network error while deleting room: "
    case DeletingV1 => "Network error while deleting room (v1): "
    case DeletingLegacy => "Network error while deleting room (legacy): "
    case PollingStatus => "Network error while polling delete status: "
    case VerifyingPurge => "Network error while verifying room purge: "
  }

  /** Every network-failure message names the network and the stage that failed. */
  lemma {:induction false} NetworkPrefixStem(phase: Phase)
    ensures StartsWith(NetworkPrefix(phase), "Network error while ")
    ensures |NetworkPrefix(phase)| > |"Network error while "|
  {
    match phase
    case DeletingV2 =>
    case DeletingV1 =>
    case DeletingLegacy =>
    case PollingStatus =>
    case VerifyingPurge =>
  }

  /** The error message `request_synapse_hard_delete` returns for a failure. */
  function Message(f: Failure): (r: string)
    ensures f.Unreachable? ==> |r| >= |f.detail| && r[|r| - |f.detail|..] == f.detail
  {
    match f
    case Unreachable(phase, detail) => NetworkPrefix(phase) + detail
    case ErrorResponse(status, text, json) => ReadErrorBody(status, text, json)
    case JobFailed(error) => error.GetOr(DeletionFailedMessage)
    case PollTimedOut => "Timed out waiting for Synapse room purge completion."
    case RoomStillPresent => "Synapse still reports this room after deletion. Purge did not complete."
  }

  /** A failed deletion job is reported with a message that is not blank. */
  lemma {:induction false} JobFailedMessageNotBlank(error: Option<string>)
    requires error.None? || !IsBlankRust(error.value)
    ensures !IsBlankRust(Message(JobFailed(error)))
  {
    if error.None? {
      TrimSpec(DeletionFailedMessage, IsRustSpace);
      assert !IsRustSpace(DeletionFailedMessage[0]);
    }
  }

  /** The body of a successful response as JSON, `{}` when it does not parse. */
  function Payload(reply: Reply): Json.Value
    requires reply.Response?
  {
    reply.json.GetOr(Json.EmptyObject)
  }

  /**
   * What `poll_delete_status` does with one reply on the given route: a transport failure
   * or a non-success other than 404/405 stops with an error; 404/405 switches from the
   * per-job route to the per-room route, and on the per-room route stops successfully; a
   * `complete` job (any ASCII case) stops successfully; a `failed` job stops with its
   * error or the default message; anything else polls again.
   */
  function PollStep(reply: Reply, onIdRoute: bool, deleteId: string): Step
  {
    match reply
    case TransportError(d) => Stop(Failed(Unreachable(PollingStatus, d)))
    case Response(status, text, json) =>
      if status == 404 || status == 405 then
        if onIdRoute then SwitchRoute else Stop(Done)
      else if !IsSuccess(status) then Stop(Failed(ErrorResponse(status, text, json)))
      else
        var ds := ParseDeleteStatus(Payload(reply), deleteId);
        if ds.status.Some? && EqIgnoreAsciiCase(ds.status.value, "complete") then Stop(Done)
        else if ds.status.Some? && EqIgnoreAsciiCase(ds.status.value, "failed") then
          Stop(Failed(JobFailed(ds.error)))
        else Retry
  }

  /** The decisions `PollStep` makes, case by case. */
  lemma {:induction false} PollStepCases(reply: Reply, onIdRoute: bool, deleteId: string)
    ensures PollStep(reply, onIdRoute, deleteId) == SwitchRoute <==> onIdRoute && IsNotFoundOrNotAllowed(reply)
    ensures PollStep(reply, onIdRoute, deleteId).Retry? ==> reply.Response? && IsSuccess(reply.status)
    ensures PollStep(reply, onIdRoute, deleteId) == Stop(Done) <==>
              (IsNotFoundOrNotAllowed(reply) && !onIdRoute) ||
              (reply.Response? && IsSuccess(reply.status) &&
               var s := ParseDeleteStatus(Payload(reply), deleteId).status;
               s.Some? && EqIgnoreAsciiCase(s.value, "complete"))
    ensures reply.TransportError? ==> PollStep(reply, onIdRoute, deleteId) == Stop(Failed(Unreachable(PollingStatus, reply.detail)))
    ensures reply.Response? && !IsSuccess(reply.status) && !IsNotFoundOrNotAllowed(reply) ==>
              PollStep(reply, onIdRoute, deleteId) == Stop(Failed(ResponseFailure(reply)))
  {
  }

  /** A status reply never stops the poller with a time-out: only the clock does. */
  lemma {:induction false} PollStepNeverTimesOut(reply: Reply, onIdRoute: bool, deleteId: string)
    ensures PollStep(reply, onIdRoute, deleteId).Stop? ==> !TimedOut(PollStep(reply, onIdRoute, deleteId).outcome)
  {
  }

  /** The decision on the i-th reply of a polling loop that started at session request k0. */
  function PollStepAt(net: Net, k0: nat, deleteId: string, i: nat): Step
  {
    PollStep(RunReply(net, k0, i), OnIdRoute(net, k0, i), deleteId)
  }


  /**
   * The requests and outcome of a status-polling loop that started at session request
   * `k0`: each request is on the per-job route until a reply was 404/405 and on the
   * per-room route after it, no reply before the last one stopped the loop, and the
   * outcome is the last reply's decision or the time-out.
   */
  ghost predicate PollTrace(net: Net, k0: nat, base: string, room: string, deleteId: string,
                            sent: seq<Request>, res: Outcome)
  {
    1 <= |sent| && SortedByRank(sent) &&
    (forall i {:trigger sent[i]} :: 0 <= i < |sent| ==> sent[i] == StatusRequest(base, room, deleteId, OnIdRoute(net, k0, i))) &&
    (forall i :: 0 <= i < |sent| - 1 ==> !PollStepAt(net, k0, deleteId, i).Stop?) &&
    EndedBy(PollStepAt(net, k0, deleteId, |sent| - 1), res, PollTimedOut)
  }

  /**
   * Requests of one polling loop: every request but the route switch and the last is
   * followed by a 1.5 s sleep, and a request is sent only while fewer than 60 sleeps
   * have passed.
   */
  const MaxStatusPolls: nat := 61

  /**
   * The time a polling loop has spent after its first `n` requests: each request's
   * latency, and a 1.5 s sleep after each reply that asked to poll again; a route
   * switch goes on without sleeping.
   */
  function PollClock(net: Net, k0: nat, deleteId: string, n: nat): nat
  {
    if n == 0 then 0
    else PollClock(net, k0, deleteId, n - 1) + LatencyAt(net, k0 + n - 1) +
         (if PollStepAt(net, k0, deleteId, n - 1) == Retry then PollInterval else 0)
  }

  /**
   * `poll_delete_status`: polls the per-job status route until a 404/405 moves it to the
   * per-room route, and stops as `PollStep` decides or when 90 s have elapsed.
   */
  method PollDeleteStatus(net: Net, base: string, room: string, deleteId: string, k0: nat, t0: nat)
    returns (res: Outcome, sent: seq<Request>, t: nat)
    ensures 1 <= |sent| <= MaxStatusPolls && t >= t0
    ensures forall i {:trigger sent[i]} :: 0 <= i < |sent| ==> sent[i] == StatusRequest(base, room, deleteId, OnIdRoute(net, k0, i))
    ensures forall i :: 0 <= i < |sent| - 1 ==> !PollStepAt(net, k0, deleteId, i).Stop?
    ensures SortedByRank(sent)
    ensures Finished(PollStepAt(net, k0, deleteId, |sent| - 1), res, PollTimedOut, t0, t)
    ensures t == t0 + PollClock(net, k0, deleteId, |sent|)
  {
    var useDeleteIdRoute := true;
    ghost var sleeps: nat := 0;
    sent, t := [], t0;
    while t - t0 < Deadline
      invariant t >= t0 + PollInterval * sleeps && sleeps <= 60
      invariant |sent| == sleeps + (if useDeleteIdRoute then 0 else 1)
      invariant useDeleteIdRoute == OnIdRoute(net, k0, |sent|)
      invariant forall i {:trigger sent[i]} :: 0 <= i < |sent| ==> sent[i] == StatusRequest(base, room, deleteId, OnIdRoute(net, k0, i))
      invariant forall i :: 0 <= i < |sent| ==> !PollStepAt(net, k0, deleteId, i).Stop?
      invariant sent == [] ==> t == t0
      invariant t == t0 + PollClock(net, k0, deleteId, |sent|)
      decreases t0 + Deadline - t, useDeleteIdRoute
    {
      var n := |sent|;
      var reply := RunReply(net, k0, n);
      var step := PollStep(reply, useDeleteIdRoute, deleteId);
      assert step == PollStepAt(net, k0, deleteId, n);
      sent := sent + [StatusRequest(base, room, deleteId, useDeleteIdRoute)];
      assert forall i {:trigger sent[i]} :: 0 <= i < |sent| ==> sent[i] == StatusRequest(base, room, deleteId, OnIdRoute(net, k0, i));
      t := t + LatencyAt(net, k0 + n);
      if step.Stop? {
        res := step.outcome;
        PollRequestsSorted(net, k0, base, room, deleteId, sent);
        return;
      }
      assert forall i :: 0 <= i < |sent| ==> !PollStepAt(net, k0, deleteId, i).Stop?;
      if step == SwitchRoute {
        useDeleteIdRoute := false;
      } else {
        t := t + PollInterval;
        sleeps := sleeps + 1;
      }
    }
    res := Failed(PollTimedOut);
    PollRequestsSorted(net, k0, base, room, deleteId, sent);
  }

  /** Once a polling loop has left the per-job route it never comes back to it. */
  lemma {:induction false} PollRequestsSorted(net: Net, k0: nat, base: string, room: string, deleteId: string, sent: seq<Request>)
    requires forall i {:trigger sent[i]} :: 0 <= i < |sent| ==> sent[i] == StatusRequest(base, room, deleteId, OnIdRoute(net, k0, i))
    ensures SortedByRank(sent)
  {
    forall i, j | 0 <= i < j < |sent|
      ensures Rank(sent[i]) <= Rank(sent[j])
    {
      OnIdRouteMonotone(net, k0, i, j);
    }
  }

  /**
   * What `wait_for_room_removal` does with one reply of the room lookup: 404 means the
   * room is gone; a transport failure or another non-success stops with an error; a
   * success means the room still exists, so it sleeps and looks again.
   */
  function WaitStep(reply: Reply): Step
  {
    match reply
    case TransportError(d) => Stop(Failed(Unreachable(VerifyingPurge, d)))
    case Response(status, text, json) =>
      if status == 404 then Stop(Done)
      else if !IsSuccess(status) then Stop(Failed(ErrorResponse(status, text, json)))
      else Retry
  }

  function WaitStepAt(net: Net, k0: nat, i: nat): Step
  {
    WaitStep(RunReply(net, k0, i))
  }


  /** The room lookup succeeds only on 404, and only a 2xx reply makes it look again. */
  lemma {:induction false} WaitStepCases(reply: Reply)
    ensures WaitStep(reply) == Stop(Done) <==> reply.Response? && reply.status == 404
    ensures WaitStep(reply) == Retry <==> reply.Response? && IsSuccess(reply.status)
    ensures reply.TransportError? ==> WaitStep(reply) == Stop(Failed(Unreachable(VerifyingPurge, reply.detail)))
    ensures reply.Response? && reply.status != 404 && !IsSuccess(reply.status) ==>
              WaitStep(reply) == Stop(Failed(ResponseFailure(reply)))
    ensures WaitStep(reply) != SwitchRoute
  {
  }

  /**
   * The requests and outcome of a room-check loop that started at session request `k0`:
   * every request is the room lookup, every reply before the last one asked to look
   * again, and the outcome is the last reply's decision or the time-out.
   */
  ghost predicate WaitTrace(net: Net, k0: nat, base: string, room: string, sent: seq<Request>, res: Outcome)
  {
    1 <= |sent| && SortedByRank(sent) &&
    (forall i :: 0 <= i < |sent| ==> sent[i] == RoomCheckRequest(base, room)) &&
    (forall i :: 0 <= i < |sent| - 1 ==> WaitStepAt(net, k0, i) == Retry) &&
    EndedBy(WaitStepAt(net, k0, |sent| - 1), res, RoomStillPresent)
  }

  /** A room lookup never stops the room check with a time-out: only the clock does. */
  lemma {:induction false} WaitStepNeverTimesOut(reply: Reply)
    ensures WaitStep(reply).Stop? ==> !TimedOut(WaitStep(reply).outcome)
  {
  }

  /** Room checks of one loop: a check is sent only while fewer than 60 sleeps of 1.5 s have passed. */
  const MaxRoomChecks: nat := 60

  /**
   * The time a room-check loop has spent after its first `n` requests: each request's
   * latency, and a 1.5 s sleep after each reply that asked to look again.
   */
  function WaitClock(net: Net, k0: nat, n: nat): nat
  {
    if n == 0 then 0
    else WaitClock(net, k0, n - 1) + LatencyAt(net, k0 + n - 1) +
         (if WaitStepAt(net, k0, n - 1) == Retry then PollInterval else 0)
  }

  /**
   * `wait_for_room_removal`: looks the room up until the lookup answers 404, fails, or
   * 90 s have elapsed.
   */
  method WaitForRoomRemoval(net: Net, base: string, room: string, k0: nat, t0: nat)
    returns (res: Outcome, sent: seq<Request>, t: nat)
    ensures 1 <= |sent| <= MaxRoomChecks && t >= t0
    ensures WaitTrace(net, k0, base, room, sent, res)
    ensures Finished(WaitStepAt(net, k0, |sent| - 1), res, RoomStillPresent, t0, t)
    ensures t == t0 + WaitClock(net, k0, |sent|)
  {
    sent, t := [], t0;
    while t - t0 < Deadline
      invariant t >= t0 + PollInterval * |sent| && |sent| <= 60
      invariant forall i :: 0 <= i < |sent| ==> sent[i] == RoomCheckRequest(base, room)
      invariant forall i :: 0 <= i < |sent| ==> WaitStepAt(net, k0, i) == Retry
      invariant sent == [] ==> t == t0
      invariant t == t0 + WaitClock(net, k0, |sent|)
      decreases t0 + Deadline - t
    {
      var n := |sent|;
      var step := WaitStep(RunReply(net, k0, n));
      assert step == WaitStepAt(net, k0, n);
      sent := sent + [RoomCheckRequest(base, room)];
      t := t + LatencyAt(net, k0 + n);
      match step
      case Stop(outcome) =>
        res := outcome;
        return;
      case SwitchRoute =>
        assert false;
      case Retry =>
        t := t + PollInterval;
    }
    res := Failed(RoomStillPresent);
  }

  /**
   * The reply to an initiating request: a transport failure rejects the deletion with
   * the variant's network message; 404/405 falls through to the next variant, except
   * for the legacy POST, the last one; another non-success rejects it with the error
   * body; a success accepts it.
   */
  function Initiate(reply: Reply, variant: nat): (r: Initiation)
    requires variant <= 2
    ensures r == FallThrough <==> variant < 2 && IsNotFoundOrNotAllowed(reply)
    ensures r == Accepted <==> reply.Response? && IsSuccess(reply.status)
    ensures reply.TransportError? ==> r == Rejected(Unreachable(InitiationPhase(variant), reply.detail))
  {
    match reply
    case TransportError(d) => Rejected(Unreachable(InitiationPhase(variant), d))
    case Response(status, text, json) =>
      if variant < 2 && (status == 404 || status == 405) then FallThrough
      else if !IsSuccess(status) then Rejected(ErrorResponse(status, text, json))
      else Accepted
  }

  /** The deletion job id carried by an accepted v2 reply (an empty string included). */
  function V2DeleteId(reply: Reply): Option<string>
  {
    if reply.Response? && IsSuccess(reply.status) then Json.GetString(Payload(reply), "delete_id") else None
  }

  /**
   * The v2 DELETE comes first; v2, v1 and legacy are tried in this order, each at most
   * once, the next one only after the previous one fell through; every request goes to
   * the normalised base URL and the same room, and the later phases follow in order.
   */
  ghost predicate TriedInOrder(net: Net, k0: nat, base: string, room: string, sent: seq<Request>)
  {
    1 <= |sent| && sent[0] == InitiationRequest(base, room, 0) && SortedByRank(sent) &&
    (forall i :: 0 <= i < |sent| ==> sent[i].base == base && sent[i].room == room) &&
    (forall i :: 0 <= i < |sent| && Rank(sent[i]) <= 2 ==>
       i == Rank(sent[i]) && sent[i] == InitiationRequest(base, room, i) &&
       (i > 0 ==> Initiate(RunReply(net, k0, i - 1), i - 1) == FallThrough))
  }

  /**
   * Status requests are made only after the v2 DELETE was accepted with a `delete_id`,
   * for that id, switching routes as the poller does; and such a reply is always polled,
   * starting with the per-job route.
   */
  ghost predicate PolledWhenNamed(net: Net, k0: nat, base: string, room: string, sent: seq<Request>)
  {
    var id := V2DeleteId(RunReply(net, k0, 0));
    (forall i :: 0 <= i < |sent| && 3 <= Rank(sent[i]) <= 4 ==>
       id.Some? && i >= 1 && sent[i] == StatusRequest(base, room, id.value, OnIdRoute(net, k0 + 1, i - 1))) &&
    (id.Some? ==> |sent| >= 2 && Rank(sent[1]) == 3)
  }

  /**
   * The outcome is the one the last reply decides: a rejected initiation's error, the
   * poller's error or time-out, or the room check's result or time-out; a loop that
   * started at `tLoop` times out only once the whole deadline has passed at `t`.
   */
  ghost predicate DecidedByLastReply(net: Net, k0: nat, sent: seq<Request>, res: Outcome, tLoop: nat, t: nat)
  {
    1 <= |sent| &&
    var last := |sent| - 1;
    (Rank(sent[last]) <= 2 ==>
       last <= 2 &&
       var init := Initiate(RunReply(net, k0, last), last);
       init.Rejected? && res == Failed(init.failure)) &&
    (3 <= Rank(sent[last]) <= 4 ==>
       res.Failed? && V2DeleteId(RunReply(net, k0, 0)).Some? && last >= 1 &&
       Finished(PollStepAt(net, k0 + 1, V2DeleteId(RunReply(net, k0, 0)).value, last - 1), res, PollTimedOut, tLoop, t)) &&
    (Rank(sent[last]) == 5 ==> Finished(WaitStepAt(net, k0, last), res, RoomStillPresent, tLoop, t))
  }

  /**
   * Each loop went on only as its replies asked: a status reply followed by another
   * status request asked to switch routes or to poll again, the one followed by the room
   * check found the job complete or the status routes missing, and a room check
   * followed by another found the room still present.
   */
  ghost predicate LoopsContinued(net: Net, k0: nat, sent: seq<Request>)
  {
    var id := V2DeleteId(RunReply(net, k0, 0));
    forall i :: 1 <= i < |sent| - 1 ==>
      (3 <= Rank(sent[i]) <= 4 && id.Some? ==>
         if Rank(sent[i + 1]) == 5 then PollStepAt(net, k0 + 1, id.value, i - 1) == Stop(Done)
         else !PollStepAt(net, k0 + 1, id.value, i - 1).Stop?) &&
      (Rank(sent[i]) == 5 ==> WaitStepAt(net, k0, i) == Retry)
  }

  /**
   * What a hard-delete session guarantees about the requests it sent and its outcome,
   * ending at `t` with a last loop that began at `tLoop`: the properties above, and
   * success only when the room lookup answered 404.
   */
  ghost predicate SessionTrace(net: Net, k0: nat, base: string, room: string, sent: seq<Request>, res: Outcome,
                               tLoop: nat, t: nat)
  {
    TriedInOrder(net, k0, base, room, sent) && PolledWhenNamed(net, k0, base, room, sent) &&
    TransportEnds(net, k0, sent) && DecidedByLastReply(net, k0, sent, res, tLoop, t) && LoopsContinued(net, k0, sent) &&
    (res.Done? ==> Rank(sent[|sent| - 1]) == 5 && WaitStepAt(net, k0, |sent| - 1) == Stop(Done))
  }

  /**
   * A session ends with one of the two time-outs only when its last loop ran for the
   * whole deadline: no reply, to an initiating request or inside a loop, times out.
   */
  lemma {:induction false} SessionTimesOutLate(net: Net, k0: nat, base: string, room: string, sent: seq<Request>,
                              res: Outcome, tLoop: nat, t: nat)
    requires SessionTrace(net, k0, base, room, sent, res, tLoop, t)
    ensures TimedOut(res) ==> t >= tLoop + Deadline
  {
    var last := |sent| - 1;
    if Rank(sent[last]) <= 2 {
      var init := Initiate(RunReply(net, k0, last), last);
      assert init.Rejected? && res == Failed(init.failure);
    } else if Rank(sent[last]) <= 4 {
      var id := V2DeleteId(RunReply(net, k0, 0)).value;
      PollStepNeverTimesOut(RunReply(net, k0 + 1, last - 1), OnIdRoute(net, k0 + 1, last - 1), id);
    } else {
      WaitStepNeverTimesOut(RunReply(net, k0, last));
    }
  }

  /** The initiating requests up to `n`, followed by later phases in order, were tried in order. */
  lemma {:induction false} InitiationsInOrder(net: Net, k0: nat, base: string, room: string, n: nat, rest: seq<Request>)
    requires n <= 2
    requires forall i :: 0 <= i < n ==> Initiate(RunReply(net, k0, i), i) == FallThrough
    requires SortedByRank(rest)
    requires forall i :: 0 <= i < |rest| ==> Rank(rest[i]) >= 3 && rest[i].base == base && rest[i].room == room
    ensures TriedInOrder(net, k0, base, room, Initiations(base, room, n + 1) + rest)
  {
    var inits := Initiations(base, room, n + 1);
    ConcatSortedByRank(inits, rest);
  }

  /** The status requests of a session whose v2 DELETE was accepted with a job id. */
  lemma {:induction false} PollsFollowV2(net: Net, k0: nat, kp: nat, base: string, room: string, polls: seq<Request>, rest: seq<Request>)
    requires kp == k0 + 1
    requires Initiate(RunReply(net, k0, 0), 0) == Accepted && V2DeleteId(RunReply(net, k0, 0)).Some?
    requires 1 <= |polls|
    requires forall i :: 0 <= i < |polls| ==>
               polls[i] == StatusRequest(base, room, V2DeleteId(RunReply(net, k0, 0)).value, OnIdRoute(net, kp, i))
    requires forall i :: 0 <= i < |rest| ==> Rank(rest[i]) == 5
    ensures PolledWhenNamed(net, k0, base, room, Initiations(base, room, 1) + polls + rest)
  {
    var sent := Initiations(base, room, 1) + polls + rest;
    assert OnIdRoute(net, kp, 0);
    assert sent[1] == polls[0];
    forall i | 0 <= i < |sent| && 3 <= Rank(sent[i]) <= 4
      ensures i >= 1 && i - 1 < |polls| && sent[i] == polls[i - 1]
    {
    }
  }

  /** A session without status requests: the v2 DELETE was not accepted with a job id. */
  lemma {:induction false} NoPolls(net: Net, k0: nat, base: string, room: string, n: nat, rest: seq<Request>)
    requires n <= 2
    requires n > 0 ==> Initiate(RunReply(net, k0, 0), 0) == FallThrough
    requires n == 0 ==> V2DeleteId(RunReply(net, k0, 0)).None?
    requires forall i :: 0 <= i < |rest| ==> Rank(rest[i]) == 5
    ensures PolledWhenNamed(net, k0, base, room, Initiations(base, room, n + 1) + rest)
  {
    assert V2DeleteId(RunReply(net, k0, 0)).None?;
  }

  /** A session that stops at a rejected initiating request. */
  lemma {:induction false} RejectedSession(net: Net, k0: nat, base: string, room: string, n: nat, m: Failure, sent: seq<Request>,
                          tLoop: nat, t: nat)
    requires n <= 2
    requires forall i :: 0 <= i < n ==> Initiate(RunReply(net, k0, i), i) == FallThrough
    requires Initiate(RunReply(net, k0, n), n) == Rejected(m)
    requires sent == Initiations(base, room, n + 1)
    ensures SessionTrace(net, k0, base, room, sent, Failed(m), tLoop, t)
  {
    InitiationsInOrder(net, k0, base, room, n, []);
    assert sent + [] == sent;
    NoPolls(net, k0, base, room, n, []);
  }

  /** A session whose poller failed or timed out after an accepted v2 DELETE. */
  lemma {:induction false} PollFailedSession(net: Net, k0: nat, kp: nat, base: string, room: string, id: string,
                          polls: seq<Request>, polled: Outcome, sent: seq<Request>, tLoop: nat, t: nat)
    requires kp == k0 + 1
    requires Initiate(RunReply(net, k0, 0), 0) == Accepted && V2DeleteId(RunReply(net, k0, 0)) == Some(id)
    requires PollTrace(net, kp, base, room, id, polls, polled) && polled.Failed?
    requires Finished(PollStepAt(net, kp, id, |polls| - 1), polled, PollTimedOut, tLoop, t)
    requires sent == Initiations(base, room, 1) + polls
    ensures SessionTrace(net, k0, base, room, sent, polled, tLoop, t)
  {
    InitiationsInOrder(net, k0, base, room, 0, polls);
    PollsFollowV2(net, k0, kp, base, room, polls, []);
    assert Initiations(base, room, 1) + polls + [] == sent;
    PollFailedEnds(net, k0, kp, base, room, id, polls, polled, tLoop, t);
    PollFailedContinued(net, k0, kp, base, room, id, polls, polled);
  }

  /** In a session whose poller failed or timed out, every status reply but the last asked to go on. */
  lemma {:induction false} PollFailedContinued(net: Net, k0: nat, kp: nat, base: string, room: string, id: string,
                            polls: seq<Request>, polled: Outcome)
    requires kp == k0 + 1 && V2DeleteId(RunReply(net, k0, 0)) == Some(id)
    requires PollTrace(net, kp, base, room, id, polls, polled)
    ensures LoopsContinued(net, k0, Initiations(base, room, 1) + polls)
  {
    var sent := Initiations(base, room, 1) + polls;
    forall i | 1 <= i < |sent| - 1
      ensures Rank(sent[i]) != 5
      ensures 3 <= Rank(sent[i]) <= 4 ==> Rank(sent[i + 1]) != 5 && !PollStepAt(net, kp, id, i - 1).Stop?
    {
      assert sent[i] == polls[i - 1] && sent[i + 1] == polls[i];
    }
  }

  /** In a session that polled the job to completion, the loops went on as their replies asked. */
  lemma {:induction false} PolledContinued(net: Net, k0: nat, kp: nat, kc: nat, base: string, room: string, id: string,
                        polls: seq<Request>, checks: seq<Request>, checked: Outcome)
    requires kp == k0 + 1 && kc == k0 + 1 + |polls| && V2DeleteId(RunReply(net, k0, 0)) == Some(id)
    requires PollTrace(net, kp, base, room, id, polls, Done)
    requires WaitTrace(net, kc, base, room, checks, checked)
    ensures LoopsContinued(net, k0, Initiations(base, room, 1) + polls + checks)
  {
    var sent := Initiations(base, room, 1) + polls + checks;
    forall i | 1 <= i < |sent| - 1
      ensures 3 <= Rank(sent[i]) <= 4 ==>
                if Rank(sent[i + 1]) == 5 then PollStepAt(net, kp, id, i - 1) == Stop(Done)
                else !PollStepAt(net, kp, id, i - 1).Stop?
      ensures Rank(sent[i]) == 5 ==> WaitStepAt(net, k0, i) == Retry
    {
      if i < |polls| {
        assert sent[i] == polls[i - 1] && sent[i + 1] == polls[i];
      } else if i == |polls| {
        assert sent[i] == polls[i - 1] && sent[i + 1] == checks[0];
      } else {
        var j := i - 1 - |polls|;
        assert sent[i] == checks[j];
        assert RunReply(net, kc, j) == RunReply(net, k0, i);
        assert WaitStepAt(net, kc, j) == Retry;
      }
    }
  }

  /** In a session that checked the room without polling, every room check but the last found the room. */
  lemma {:induction false} UnpolledContinued(net: Net, k0: nat, kc: nat, base: string, room: string, n: nat,
                          checks: seq<Request>, checked: Outcome)
    requires n <= 2 && kc == k0 + n + 1
    requires WaitTrace(net, kc, base, room, checks, checked)
    ensures LoopsContinued(net, k0, Initiations(base, room, n + 1) + checks)
  {
    var sent := Initiations(base, room, n + 1) + checks;
    forall i | 1 <= i < |sent| - 1
      ensures Rank(sent[i]) < 3 || Rank(sent[i]) == 5
      ensures Rank(sent[i]) == 5 ==> WaitStepAt(net, k0, i) == Retry
    {
      if i > n {
        var j := i - (n + 1);
        assert sent[i] == checks[j];
        assert RunReply(net, kc, j) == RunReply(net, k0, i);
        assert WaitStepAt(net, kc, j) == Retry;
      }
    }
  }

  /** How a session whose poller failed or timed out ends: at the poller's last reply. */
  lemma {:induction false} PollFailedEnds(net: Net, k0: nat, kp: nat, base: string, room: string, id: string,
                       polls: seq<Request>, polled: Outcome, tLoop: nat, t: nat)
    requires kp == k0 + 1
    requires Initiate(RunReply(net, k0, 0), 0) == Accepted && V2DeleteId(RunReply(net, k0, 0)) == Some(id)
    requires PollTrace(net, kp, base, room, id, polls, polled) && polled.Failed?
    requires Finished(PollStepAt(net, kp, id, |polls| - 1), polled, PollTimedOut, tLoop, t)
    ensures var sent := Initiations(base, room, 1) + polls;
            TransportEnds(net, k0, sent) && DecidedByLastReply(net, k0, sent, polled, tLoop, t)
  {
    var sent := Initiations(base, room, 1) + polls;
    forall i | 1 <= i < |sent| - 1
      ensures !RunReply(net, k0, i).TransportError?
    {
      assert RunReply(net, kp, i - 1) == RunReply(net, k0, i);
      assert !PollStepAt(net, kp, id, i - 1).Stop?;
    }
    assert sent[|sent| - 1] == polls[|polls| - 1];
  }

  /** No transport failure before the room check's last reply, in a session that polled. */
  lemma {:induction false} PolledTransport(net: Net, k0: nat, kp: nat, kc: nat, id: string, polls: seq<Request>, checks: seq<Request>,
                        before: seq<Request>)
    requires kp == k0 + 1 && kc == k0 + 1 + |polls| && |before| == 1
    requires Initiate(RunReply(net, k0, 0), 0) == Accepted
    requires 1 <= |polls|
    requires forall i :: 0 <= i < |polls| - 1 ==> !PollStepAt(net, kp, id, i).Stop?
    requires PollStepAt(net, kp, id, |polls| - 1) == Stop(Done)
    requires 1 <= |checks|
    requires forall i :: 0 <= i < |checks| - 1 ==> WaitStepAt(net, kc, i) == Retry
    ensures TransportEnds(net, k0, before + polls + checks)
  {
    var sent := before + polls + checks;
    forall i | 0 <= i < |sent| - 1
      ensures !RunReply(net, k0, i).TransportError?
    {
      if i == 0 {
      } else if i < kc - k0 {
        assert RunReply(net, kp, i - 1) == RunReply(net, k0, i);
        assert PollStepAt(net, kp, id, i - 1).Stop? ==> i - 1 == |polls| - 1;
      } else {
        assert RunReply(net, kc, i - (kc - k0)) == RunReply(net, k0, i);
        assert WaitStepAt(net, kc, i - (kc - k0)) == Retry;
      }
    }
  }

  /** No transport failure before the room check's last reply, in a session that did not poll. */
  lemma {:induction false} UnpolledTransport(net: Net, k0: nat, kc: nat, n: nat, checks: seq<Request>, before: seq<Request>)
    requires n <= 2 && kc == k0 + n + 1 && |before| == n + 1
    requires forall i :: 0 <= i < n ==> Initiate(RunReply(net, k0, i), i) == FallThrough
    requires Initiate(RunReply(net, k0, n), n) == Accepted
    requires 1 <= |checks|
    requires forall i :: 0 <= i < |checks| - 1 ==> WaitStepAt(net, kc, i) == Retry
    ensures TransportEnds(net, k0, before + checks)
  {
    var sent := before + checks;
    forall i | 0 <= i < |sent| - 1
      ensures !RunReply(net, k0, i).TransportError?
    {
      if i > n {
        assert RunReply(net, kc, i - (n + 1)) == RunReply(net, k0, i);
        assert WaitStepAt(net, kc, i - (n + 1)) == Retry;
      }
    }
  }

  /** A session that polled the v2 deletion job to completion and then checked the room. */
  lemma {:induction false} PolledSession(net: Net, k0: nat, kp: nat, kc: nat, base: string, room: string, id: string,
                      polls: seq<Request>, checks: seq<Request>, checked: Outcome, rest: seq<Request>,
                      tLoop: nat, t: nat)
    requires kp == k0 + 1 && kc == k0 + 1 + |polls|
    requires Initiate(RunReply(net, k0, 0), 0) == Accepted && V2DeleteId(RunReply(net, k0, 0)) == Some(id)
    requires PollTrace(net, kp, base, room, id, polls, Done)
    requires WaitTrace(net, kc, base, room, checks, checked)
    requires Finished(WaitStepAt(net, kc, |checks| - 1), checked, RoomStillPresent, tLoop, t)
    requires rest == polls + checks
    ensures SessionTrace(net, k0, base, room, Initiations(base, room, 1) + rest, checked, tLoop, t)
  {
    var before := Initiations(base, room, 1);
    assert before + rest == before + polls + checks;
    ConcatSortedByRank(polls, checks);
    InitiationsInOrder(net, k0, base, room, 0, polls + checks);
    PollsFollowV2(net, k0, kp, base, room, polls, checks);
    PolledTransport(net, k0, kp, kc, id, polls, checks, before);
    CheckedDecided(net, k0, kc, base, room, before + polls, checks, checked, tLoop, t);
    PolledContinued(net, k0, kp, kc, base, room, id, polls, checks, checked);
  }

  /** A session that checked the room right after an accepted initiating request `n`. */
  lemma {:induction false} UnpolledSession(net: Net, k0: nat, kc: nat, base: string, room: string, n: nat,
                        checks: seq<Request>, checked: Outcome, sent: seq<Request>, tLoop: nat, t: nat)
    requires n <= 2 && kc == k0 + n + 1
    requires forall i :: 0 <= i < n ==> Initiate(RunReply(net, k0, i), i) == FallThrough
    requires Initiate(RunReply(net, k0, n), n) == Accepted
    requires n == 0 ==> V2DeleteId(RunReply(net, k0, 0)).None?
    requires WaitTrace(net, kc, base, room, checks, checked)
    requires Finished(WaitStepAt(net, kc, |checks| - 1), checked, RoomStillPresent, tLoop, t)
    requires sent == Initiations(base, room, n + 1) + checks
    ensures SessionTrace(net, k0, base, room, sent, checked, tLoop, t)
  {
    var before := Initiations(base, room, n + 1);
    InitiationsInOrder(net, k0, base, room, n, checks);
    NoPolls(net, k0, base, room, n, checks);
    UnpolledTransport(net, k0, kc, n, checks, before);
    CheckedDecided(net, k0, kc, base, room, before, checks, checked, tLoop, t);
    UnpolledContinued(net, k0, kc, base, room, n, checks, checked);
  }

  /** The room check's last reply decides a session that ends with the room check. */
  lemma {:induction false} CheckedDecided(net: Net, k0: nat, kc: nat, base: string, room: string,
                       before: seq<Request>, checks: seq<Request>, checked: Outcome, tLoop: nat, t: nat)
    requires kc == k0 + |before|
    requires WaitTrace(net, kc, base, room, checks, checked)
    requires Finished(WaitStepAt(net, kc, |checks| - 1), checked, RoomStillPresent, tLoop, t)
    ensures var sent := before + checks;
            DecidedByLastReply(net, k0, sent, checked, tLoop, t) &&
            (checked.Done? ==> Rank(sent[|sent| - 1]) == 5 && WaitStepAt(net, k0, |sent| - 1) == Stop(Done))
  {
    var sent := before + checks;
    assert RunReply(net, kc, |checks| - 1) == RunReply(net, k0, |sent| - 1);
    assert sent[|sent| - 1] == checks[|checks| - 1];
  }

  /**
   * The three initiating blocks of `request_synapse_hard_delete`: sends the v2 DELETE,
   * then the v1 DELETE, then the legacy POST, each only after the previous one answered
   * 404/405, and reports the first request `n` whose reply did not fall through.
   */
  method Negotiate(net: Net, base: string, room: string, k0: nat, t0: nat)
    returns (n: nat, init: Initiation, sent: seq<Request>, t: nat)
    ensures n <= 2 && sent == Initiations(base, room, n + 1) && t >= t0
    ensures init == Initiate(RunReply(net, k0, n), n) && !init.FallThrough?
    ensures forall i :: 0 <= i < n ==> Initiate(RunReply(net, k0, i), i) == FallThrough
  {
    n, sent, t := 0, [InitiationRequest(base, room, 0)], t0 + LatencyAt(net, k0);
    init := Initiate(RunReply(net, k0, 0), 0);
    if init.FallThrough? {
      n, sent, t := 1, sent + [InitiationRequest(base, room, 1)], t + LatencyAt(net, k0 + 1);
      init := Initiate(RunReply(net, k0, 1), 1);
      if init.FallThrough? {
        n, sent, t := 2, sent + [InitiationRequest(base, room, 2)], t + LatencyAt(net, k0 + 2);
        init := Initiate(RunReply(net, k0, 2), 2);
      }
    }
  }

  /**
   * The part of `request_synapse_hard_delete` after a v2 DELETE that was accepted with a
   * job id: polls the job, and once it completed, checks that the room is gone.
   */
  method PollThenCheck(net: Net, base: string, room: string, deleteId: string, k0: nat, t0: nat)
    returns (res: Outcome, rest: seq<Request>, t: nat, ghost tLoop: nat)
    requires Initiate(RunReply(net, k0, 0), 0) == Accepted && V2DeleteId(RunReply(net, k0, 0)) == Some(deleteId)
    ensures t0 <= tLoop <= t
    ensures SessionTrace(net, k0, base, room, Initiations(base, room, 1) + rest, res, tLoop, t)
  {
    var polled, polls, t1 := PollDeleteStatus(net, base, room, deleteId, k0 + 1, t0);
    tLoop := t0;
    if polled.Failed? {
      res, rest, t := polled, polls, t1;
      PollFailedSession(net, k0, k0 + 1, base, room, deleteId, polls, polled, Initiations(base, room, 1) + rest, tLoop, t);
      return;
    }
    var checked, checks, t2 := WaitForRoomRemoval(net, base, room, k0 + 1 + |polls|, t1);
    res, rest, t, tLoop := checked, polls + checks, t2, t1;
    PolledSession(net, k0, k0 + 1, k0 + 1 + |polls|, base, room, deleteId, polls, checks, checked, rest, tLoop, t);
  }

  /**
   * `request_synapse_hard_delete`: negotiates the deletion route, polls the v2 deletion
   * job when the v2 reply names one, then checks that the room is gone. The base URL is
   * normalised once. `tLoop` is the time the last loop began: a session ends with a
   * time-out only once that loop has run for the whole deadline.
   */
  method RequestSynapseHardDelete(net: Net, baseUrl: string, room: string, k0: nat, t0: nat)
    returns (res: Outcome, sent: seq<Request>, t: nat, ghost tLoop: nat)
    ensures t0 <= tLoop <= t
    ensures SessionTrace(net, k0, NormalizeBaseUrl(baseUrl), room, sent, res, tLoop, t)
    ensures 1 <= |sent| && t0 <= t
    ensures res.Done? ==> Rank(sent[|sent| - 1]) == 5 && WaitStepAt(net, k0, |sent| - 1) == Stop(Done)
  {
    var base := NormalizeBaseUrl(baseUrl);
    var n, init;
    n, init, sent, t := Negotiate(net, base, room, k0, t0);
    tLoop := t;
    if init.Rejected? {
      res := Failed(init.failure);
      RejectedSession(net, k0, base, room, n, init.failure, sent, tLoop, t);
      return;
    }
    if n == 0 {
      var deleteId := Json.GetString(Payload(RunReply(net, k0, 0)), "delete_id");
      if deleteId.Some? {
        var rest;
        res, rest, t, tLoop := PollThenCheck(net, base, room, deleteId.value, k0, t);
        sent := sent + rest;
        return;
      }
    }
    var checked, checks, t2 := WaitForRoomRemoval(net, base, room, k0 + n + 1, t);
    res, sent, t, tLoop := checked, sent + checks, t2, t;
    UnpolledSession(net, k0, k0 + n + 1, base, room, n, checks, checked, sent, tLoop, t);
  }
}
