/**
 * The network as the hard-delete orchestrator sees it. A session issues requests one
 * after another; the k-th request of the session receives `net.reply(k)` after
 * `net.latency(k)` milliseconds. A reply is either an HTTP response — its status, its
 * body text and the body parsed as JSON (None when the text is not JSON) — or a
 * transport failure. Sleeping advances the same clock.
 */
module Http {
  import opened Wrappers
  import Json

  datatype Reply =
    | Response(status: nat, text: string, json: Option<Json.Value>)
    | TransportError(detail: string)

  datatype Net = Net(reply: nat -> Reply, latency: nat -> nat)

  /** The reply to the k-th request of the session. */
  function ReplyAt(net: Net, k: nat): Reply
  {
    net.reply(k)
  }

  function LatencyAt(net: Net, k: nat): nat
  {
    net.latency(k)
  }

  /** The reply to the i-th request of a loop that starts at session request k0. */
  function RunReply(net: Net, k0: nat, i: nat): Reply
  {
    net.reply(k0 + i)
  }

  datatype Verb = Get | Delete | Post

  /** The Synapse admin routes the orchestrator uses, below the base URL. */
  datatype Endpoint =
    | RoomV2            // /_synapse/admin/v2/rooms/{room}
    | RoomV1            // /_synapse/admin/v1/rooms/{room}
    | RoomV1Delete      // /_synapse/admin/v1/rooms/{room}/delete
    | StatusById(deleteId: string)   // /_synapse/admin/v2/rooms/delete_status/{deleteId}
    | StatusByRoom      // /_synapse/admin/v2/rooms/{room}/delete_status

  datatype Request = Request(verb: Verb, base: string, room: string, endpoint: Endpoint)

  /** The path of a request below the base URL (ids are shown unencoded). */
  function Path(r: Request): string
  {
    match r.endpoint
    case RoomV2 => "/_synapse/admin/v2/rooms/" + r.room
    case RoomV1 => "/_synapse/admin/v1/rooms/" + r.room
    case RoomV1Delete => "/_synapse/admin/v1/rooms/" + r.room + "/delete"
    case StatusById(id) => "/_synapse/admin/v2/rooms/delete_status/" + id
    case StatusByRoom => "/_synapse/admin/v2/rooms/" + r.room + "/delete_status"
  }

  function Url(r: Request): string
  {
    r.base + Path(r)
  }

  /** `status.is_success()` / `response.ok`. */
  predicate IsSuccess(status: nat)
  {
    200 <= status <= 299
  }

  /** The fall-through statuses: 404 Not Found and 405 Method Not Allowed. */
  predicate IsNotFoundOrNotAllowed(r: Reply)
  {
    r.Response? && (r.status == 404 || r.status == 405)
  }

  /** The stage of a hard delete at which a request could not be sent. */
  datatype Phase = DeletingV2 | DeletingV1 | DeletingLegacy | PollingStatus | VerifyingPurge

  /**
   * Why a hard delete failed. Each implementation renders a failure as the error message
   * its caller sees; the orchestration only decides which failure it is.
   */
  datatype Failure =
    | Unreachable(phase: Phase, detail: string)
    | ErrorResponse(status: nat, text: string, json: Option<Json.Value>)
    | JobFailed(error: Option<string>)
    | PollTimedOut
    | RoomStillPresent

  /** The failure a non-success response stands for. */
  function ResponseFailure(reply: Reply): Failure
    requires reply.Response?
  {
    ErrorResponse(reply.status, reply.text, reply.json)
  }

  /** The result of a hard delete or of one of its loops. */
  datatype Outcome = Done | Failed(failure: Failure)

  /** The time budget of each polling loop, in milliseconds. */
  const Deadline: nat := 90000
  /** The pause between two polls, in milliseconds. */
  const PollInterval: nat := 1500

  /** What one poll decides: switch to the per-room status route, sleep and poll again, or stop. */
  datatype Step = SwitchRoute | Retry | Stop(outcome: Outcome)

  /**
   * Whether the i-th status request of a polling loop still uses the per-job route
   * `delete_status/{id}`: no earlier reply of the loop was a 404 or 405.
   */
  function OnIdRoute(net: Net, k0: nat, i: nat): bool
  {
    i == 0 || (OnIdRoute(net, k0, i - 1) && !IsNotFoundOrNotAllowed(RunReply(net, k0, i - 1)))
  }

  /** Once a loop has left the per-job route it never returns to it. */
  lemma {:induction false} OnIdRouteMonotone(net: Net, k0: nat, i: nat, j: nat)
    requires i <= j
    ensures OnIdRoute(net, k0, j) ==> OnIdRoute(net, k0, i)
    decreases j - i
  {
    if i < j {
      OnIdRouteMonotone(net, k0, i, j - 1);
    }
  }

  /**
   * How a polling loop ends: the last step either stopped it with an outcome, or it did
   * not and the loop ran out of time, failing with `timeout`.
   */
  predicate Finished(last: Step, res: Outcome, timeout: Failure, t0: nat, t: nat)
  {
    if last.Stop? then res == last.outcome else res == Failed(timeout) && t >= t0 + Deadline
  }

  /**
   * The order of a request in a hard-delete session: the three initiating requests,
   * the two status routes, then the room-existence check.
   */
  function Rank(r: Request): nat
  {
    match r.endpoint
    case RoomV2 => 0
    case RoomV1 => if r.verb == Delete then 1 else 5
    case RoomV1Delete => 2
    case StatusById(_) => 3
    case StatusByRoom => 4
  }

  /** The status request of a polling loop on the chosen route. */
  function StatusRequest(base: string, room: string, deleteId: string, byId: bool): (r: Request)
    ensures r.verb == Get && r.base == base && r.room == room
    ensures Rank(r) == if byId then 3 else 4
  {
    Request(Get, base, room, if byId then StatusById(deleteId) else StatusByRoom)
  }

  /** The room lookup used to verify that the room is gone. */
  function RoomCheckRequest(base: string, room: string): (r: Request)
    ensures r.base == base && r.room == room && Rank(r) == 5
  {
    Request(Get, base, room, RoomV1)
  }

  /** The two time-outs, the only failures a polling loop decides by its clock. */
  predicate TimedOut(res: Outcome)
  {
    res == Failed(PollTimedOut) || res == Failed(RoomStillPresent)
  }

  /** How a loop that started somewhere inside a session ended, without its clock. */
  predicate EndedBy(last: Step, res: Outcome, timeout: Failure)
  {
    if last.Stop? then res == last.outcome else res == Failed(timeout)
  }

  /** Requests in non-decreasing `Rank` order. */
  predicate SortedByRank(s: seq<Request>)
  {
    forall i, j :: 0 <= i < j < |s| ==> Rank(s[i]) <= Rank(s[j])
  }

  lemma {:induction false} ConcatSortedByRank(a: seq<Request>, b: seq<Request>)
    requires SortedByRank(a) && SortedByRank(b)
    requires forall i, j :: 0 <= i < |a| && 0 <= j < |b| ==> Rank(a[i]) <= Rank(b[j])
    ensures SortedByRank(a + b)
  {
  }

  /** What an initiating request's reply means for the negotiation. */
  datatype Initiation = FallThrough | Accepted | Rejected(failure: Failure)

  /** The initiating requests in the order they are tried: v2 DELETE, v1 DELETE, legacy POST. */
  function InitiationRequest(base: string, room: string, variant: nat): (r: Request)
    requires variant <= 2
    ensures r.base == base && r.room == room && Rank(r) == variant
  {
    if variant == 0 then Request(Delete, base, room, RoomV2)
    else if variant == 1 then Request(Delete, base, room, RoomV1)
    else Request(Post, base, room, RoomV1Delete)
  }

  /** The stage of each initiating request. */
  function InitiationPhase(variant: nat): Phase
    requires variant <= 2
  {
    if variant == 0 then DeletingV2 else if variant == 1 then DeletingV1 else DeletingLegacy
  }

  /** The first `count` initiating requests, in the order they are tried. */
  function Initiations(base: string, room: string, count: nat): (r: seq<Request>)
    requires count <= 3
    ensures |r| == count
    ensures forall i :: 0 <= i < count ==> r[i] == InitiationRequest(base, room, i)
  {
    if count == 0 then [] else Initiations(base, room, count - 1) + [InitiationRequest(base, room, count - 1)]
  }

  /** No request follows a transport failure. */
  ghost predicate TransportEnds(net: Net, k0: nat, sent: seq<Request>)
  {
    forall i :: 0 <= i < |sent| - 1 ==> !RunReply(net, k0, i).TransportError?
  }
}
