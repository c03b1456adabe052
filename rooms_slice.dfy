/**
 * The rooms slice of the store and its layout actions: `createCategory`,
 * `deleteCategory`, `moveCategoryByStep`, `reorderCategory`, `moveRoomByStep`,
 * `moveRoomToCategory`, `reorderRoom`, `deleteRoom` and `markRoomRead`.
 *
 * Every layout action reads the current space's stored layout, hydrates it
 * against the space's rooms, computes the next layout, publishes it to the
 * space's state host room when a Matrix client is connected, and commits it
 * (layout, category list and room records) unless publishing failed, in which
 * case it pushes a notification instead.
 */
module RoomsSlices {
  import opened Wrappers
  import opened Sorting
  import opened Text
  import opened Entities
  import opened Layout
  import opened RoomOrder
  import opened Hydration
  import opened ApplyLayout
  import opened MoveItems
  import opened LayoutActions
  import opened LayoutDrafts
  import opened RoomDeletion
  import opened MessagesSlices
  import opened UiSlices
  import Http
  import SynapseFetch

  /**
   * How publishing the next layout went: no Matrix client (nothing is sent), the
   * state event was accepted, or `sendStateEvent` rejected with a message.
   */
  datatype Sync = Local | Sent | SendFailed(message: string)

  /** The id (`uid("n")`) and time (`Date.now()`) a pushed notification gets. */
  datatype Stamp = Stamp(id: string, timestamp: int)

  function Note(title: string, body: string, stamp: Stamp): Notification
  {
    Notification(stamp.id, title, body, stamp.timestamp)
  }

  /** The fields of the rooms slice, as one value. */
  datatype RoomsState = RoomsState(
    rooms: seq<Room>,
    currentSpaceId: string,
    currentRoomId: string,
    categoriesBySpaceId: map<string, seq<Category>>,
    spaceLayoutsBySpaceId: map<string, SpaceLayout>,
    spaceStateHostRoomIdBySpaceId: map<string, string>,
    roomLastReadTsByRoomId: map<string, int>,
    threadLastViewedTsByRoomId: map<string, map<string, int>>,
    historyLoadingByRoomId: map<string, bool>,
    historyHasMoreByRoomId: map<string, bool>)

  /** `state.spaceLayoutsBySpaceId[spaceId] ?? null`. */
  function StoredLayout(s: RoomsState, spaceId: string): Option<SpaceLayout>
  {
    if spaceId in s.spaceLayoutsBySpaceId then Some(s.spaceLayoutsBySpaceId[spaceId]) else None
  }

  /**
   * The layout the actions start from: none without a current space or a state
   * host room for it, else the stored layout hydrated against the space's rooms.
   */
  function CurrentBase(s: RoomsState): Option<SpaceLayout>
  {
    var spaceId := s.currentSpaceId;
    if spaceId == [] || !Truthy(ResolveSpaceStateHostRoomId(s.currentRoomId, s.rooms, s.spaceStateHostRoomIdBySpaceId, spaceId)) then None
    else Some(HydrateLayoutForRooms(StoredLayout(s, spaceId), GetSpaceRooms(s.rooms, spaceId)))
  }

  /** The commit of a layout action: the space's layout, its category list and its room records. */
  function Committed(s: RoomsState, spaceId: string, next: SpaceLayout): RoomsState
  {
    s.(spaceLayoutsBySpaceId := s.spaceLayoutsBySpaceId[spaceId := next],
       categoriesBySpaceId := s.categoriesBySpaceId[spaceId := LayoutToCategories(next)],
       rooms := ApplyLayoutToSpaceRooms(s.rooms, spaceId, next))
  }

  /** The state after an action that computed `next`: committed unless there was nothing to do or publishing failed. */
  function Published(s: RoomsState, next: Option<SpaceLayout>, sync: Sync): RoomsState
  {
    if next.Some? && !sync.SendFailed? then Committed(s, s.currentSpaceId, next.value) else s
  }

  /** The notifications after such an action: one failure notification exactly when publishing failed. */
  function Notified(ns: seq<Notification>, next: Option<SpaceLayout>, sync: Sync, title: string, stamp: Stamp): seq<Notification>
  {
    if next.Some? && sync.SendFailed? then [Note(title, sync.message, stamp)] + ns else ns
  }

  /** A committed layout is what the space then stores, and its rooms carry its placements. */
  lemma {:induction false} PublishedStoresLayout(s: RoomsState, next: Option<SpaceLayout>, sync: Sync)
    requires next.Some? && !sync.SendFailed?
    ensures var r := Published(s, next, sync);
      && StoredLayout(r, s.currentSpaceId) == next
      && r.categoriesBySpaceId[s.currentSpaceId] == LayoutToCategories(next.value)
      && multiset(r.rooms) == multiset(OtherSpaceRooms(s.rooms, s.currentSpaceId)) + multiset(WithPlacements(GetSpaceRooms(s.rooms, s.currentSpaceId), next.value))
      && r.currentRoomId == s.currentRoomId && r.currentSpaceId == s.currentSpaceId
  {
    ApplyLayoutToSpaceRoomsSpec(s.rooms, s.currentSpaceId, next.value);
  }

  /** A failed or pointless action leaves the slice as it was. */
  lemma {:induction false} UnpublishedKeepsState(s: RoomsState, next: Option<SpaceLayout>, sync: Sync, ns: seq<Notification>, title: string, stamp: Stamp)
    requires next.None? || sync.SendFailed?
    ensures Published(s, next, sync) == s
    ensures |Notified(ns, next, sync, title, stamp)| == if next.Some? then |ns| + 1 else |ns|
  {
  }

  // ---------------------------------------------------------------------------
  // The next layout of each action
  // ---------------------------------------------------------------------------

  /** The suffix the id search of `createCategory` stops at: the first whose id is not taken. */
  predicate LeastFreeSuffix(ids: seq<string>, baseId: string, suffix: nat)
  {
    && suffix >= 1
    && CandidateCategoryId(baseId, suffix) !in ids
    && forall k :: 1 <= k < suffix ==> CandidateCategoryId(baseId, k) in ids
  }

  /**
   * The `while` loop of `createCategory`: starting from the slug, bump the
   * suffix until the id is not among the category ids.
   */
  method FreshCategoryId(ids: seq<string>, baseId: string) returns (id: string, suffix: nat)
    ensures LeastFreeSuffix(ids, baseId, suffix) && id == CandidateCategoryId(baseId, suffix)
    ensures id !in ids
  {
    id := baseId;
    suffix := 1;
    ghost var unseen := set x | x in ids;
    while id in ids
      invariant suffix >= 1 && id == CandidateCategoryId(baseId, suffix)
      invariant forall k :: 1 <= k < suffix ==> CandidateCategoryId(baseId, k) in ids
      invariant unseen <= set x | x in ids
      invariant forall x :: x in ids && x !in unseen ==> exists k :: 1 <= k < suffix && CandidateCategoryId(baseId, k) == x
      decreases |unseen|
    {
      if id !in unseen {
        var k :| 1 <= k < suffix && CandidateCategoryId(baseId, k) == id;
        CandidatesDiffer(baseId, k, suffix);
        assert false;
      }
      unseen := unseen - {id};
      suffix := suffix + 1;
      id := baseId + "-" + NatToString(suffix);
    }
  }

  /**
   * `createCategory`: the new category, with the id the search settled on, appended and
   * normalised. The same `freshId` is reused for every candidate, where the source's
   * search calls `uid("cat")` anew on each pass; the two differ only after a random id
   * collided with an existing category id.
   */
  function CreateCategoryNext(s: RoomsState, name: string, freshId: string, suffix: nat): Option<SpaceLayout>
  {
    match CurrentBase(s)
    case None => None
    case Some(base) =>
      var trimmed := NormalizeCategoryName(name);
      var id := CandidateCategoryId(ToCategoryId(trimmed, freshId), suffix);
      Some(base.(categories := WithNewCategory(base.categories, id, trimmed)))
  }

  /**
   * The created category never collides with an existing one: it is appended
   * after the others, with a new non-empty id, the normalised name and the next
   * order; rooms keep their placements.
   */
  lemma {:induction false} CreateCategoryAppends(s: RoomsState, name: string, freshId: string, suffix: nat)
    requires freshId != []
    requires CurrentBase(s).Some?
    requires LeastFreeSuffix(Ids(CurrentBase(s).value.categories), ToCategoryId(NormalizeCategoryName(name), freshId), suffix)
    ensures var base := CurrentBase(s).value;
      var trimmed := NormalizeCategoryName(name);
      var id := CandidateCategoryId(ToCategoryId(trimmed, freshId), suffix);
      var r := CreateCategoryNext(s, name, freshId, suffix);
      && r.Some? && id != [] && id !in Ids(base.categories)
      && r.value.categories == base.categories + [LayoutCategory(id, trimmed, Finite(|base.categories|))]
      && r.value.rooms == base.rooms
  {
    var base := CurrentBase(s).value;
    HydrateCategories(StoredLayout(s, s.currentSpaceId), GetSpaceRooms(s.rooms, s.currentSpaceId));
    NewCategoryAppends(base.categories, name, freshId, suffix);
    var trimmed := NormalizeCategoryName(name);
    var id := CandidateCategoryId(ToCategoryId(trimmed, freshId), suffix);
    assert CreateCategoryNext(s, name, freshId, suffix) == Some(base.(categories := WithNewCategory(base.categories, id, trimmed)));
  }

  /** The category list part of `CreateCategoryAppends`, for any normalised list. */
  lemma {:induction false} NewCategoryAppends(cats: seq<LayoutCategory>, name: string, freshId: string, suffix: nat)
    requires freshId != [] && NormalizedCategories(cats)
    requires LeastFreeSuffix(Ids(cats), ToCategoryId(NormalizeCategoryName(name), freshId), suffix)
    ensures var trimmed := NormalizeCategoryName(name);
      var id := CandidateCategoryId(ToCategoryId(trimmed, freshId), suffix);
      && id != [] && id !in Ids(cats)
      && WithNewCategory(cats, id, trimmed) == cats + [LayoutCategory(id, trimmed, Finite(|cats|))]
  {
    var trimmed := NormalizeCategoryName(name);
    var baseId := ToCategoryId(trimmed, freshId);
    NormalizeCategoryNameSpec(name);
    assert baseId != [] by {
      ToCategoryIdSpec(trimmed, freshId);
    }
    var id := CandidateCategoryId(baseId, suffix);
    assert id != [] by {
      if suffix > 1 {
        assert id == baseId + "-" + NatToString(suffix);
      }
    }
    WithNewCategoryAppends(cats, id, trimmed);
  }

  /** `deleteCategory` once it is allowed: nothing without a base or for an unknown category. */
  function DeleteCategoryNext(s: RoomsState, categoryId: string): Option<SpaceLayout>
  {
    match CurrentBase(s)
    case None => None
    case Some(base) => if categoryId in Ids(base.categories) then Some(DeleteCategoryLayout(base, categoryId)) else None
  }

  function MoveCategoryByStepNext(s: RoomsState, categoryId: string, d: Direction): Option<SpaceLayout>
  {
    match CurrentBase(s)
    case None => None
    case Some(base) => MoveCategoryByStepLayout(base, categoryId, d)
  }

  function ReorderCategoryNext(s: RoomsState, sourceId: string, targetId: string): Option<SpaceLayout>
  {
    match CurrentBase(s)
    case None => None
    case Some(base) => ReorderCategoryLayout(base, sourceId, targetId)
  }

  function MoveRoomByStepNext(s: RoomsState, roomId: string, d: Direction): Option<SpaceLayout>
  {
    match CurrentBase(s)
    case None => None
    case Some(base) => MoveRoomByStepLayout(base, roomId, d)
  }

  function MoveRoomToCategoryNext(s: RoomsState, roomId: string, categoryId: string): Option<SpaceLayout>
  {
    match CurrentBase(s)
    case None => None
    case Some(base) => MoveRoomToCategoryLayout(base, roomId, categoryId)
  }

  function ReorderRoomNext(s: RoomsState, sourceId: string, targetId: string, targetCategoryId: Option<string>): Option<SpaceLayout>
  {
    match CurrentBase(s)
    case None => None
    case Some(base) => ReorderRoomLayout(base, sourceId, targetId, targetCategoryId)
  }

  // ---------------------------------------------------------------------------
  // Notification texts
  // ---------------------------------------------------------------------------

  const ManageChannelsToDeleteChannels: string := "Only server admins or roles explicitly granted Manage Channels can delete channels."
  const SelectServerContext: string := "Select a server context before deleting channels."
  const MissingSessionCredentials: string := "Missing Matrix session credentials for Synapse admin deletion."
  const ChannelDeletedWithLayoutWarning: string := "Channel deleted with layout warning"
  const LayoutSyncFailedPrefix: string := "Room was deleted, but layout sync failed: "
  const PermanentlyRemovedSuffix: string := " was permanently removed."
  const ChannelDeleted: string := "Channel deleted"
  const CategoryDeleteUnavailable: string := "Category delete unavailable"
  const ManageChannelsToDeleteCategories: string := "Only server admins or roles explicitly granted Manage Channels can delete categories."
  const FailedToCreateCategory: string := "Failed to create category"
  const FailedToDeleteCategory: string := "Failed to delete category"
  const FailedToMoveCategory: string := "Failed to move category"
  const FailedToReorderCategories: string := "Failed to reorder categories"
  const FailedToMoveChannelToCategory: string := "Failed to move channel to category"
  const FailedToMoveChannel: string := "Failed to move channel"
  const FailedToReorderChannels: string := "Failed to reorder channels"
  const ChannelDeleteUnavailable: string := "Channel delete unavailable"
  const FailedToDeleteChannel: string := "Failed to permanently delete channel"

  // ---------------------------------------------------------------------------
  // deleteRoom
  // ---------------------------------------------------------------------------

  /**
   * What the session can do for a hard delete: no Matrix client (the room is
   * only removed locally), a client without an access token or base URL, or a
   * client whose `requestSynapseHardDelete` threw `hardDeleteError` (if it did)
   * and whose layout state event failed with `layoutError` (if it did).
   */
  datatype Deletion = LocalOnly | MissingCredentials | Remote(hardDeleteError: Option<string>, layoutError: Option<string>)

  /** The deletion of a client whose hard delete ended with `hardDelete`: a failure throws its error message. */
  function RemoteDeletion(hardDelete: Http.Outcome, layoutError: Option<string>): (r: Deletion)
    ensures r.Remote? && r.layoutError == layoutError
    ensures r.hardDeleteError.None? <==> hardDelete.Done?
    ensures hardDelete.Failed? ==> r.hardDeleteError == Some(SynapseFetch.ErrorMessage(hardDelete.failure))
  {
    match hardDelete
    case Done => Remote(None, layoutError)
    case Failed(failure) => Remote(Some(SynapseFetch.ErrorMessage(failure)), layoutError)
  }

  /** The early exits of `deleteRoom`, in the order they are checked. */
  datatype DeleteGate = Ignored | Forbidden | NoContext | Proceed(room: Room)

  function DeleteRoomGate(s: RoomsState, roomId: string, canDelete: bool): DeleteGate
  {
    match FindRoom(s.rooms, roomId)
    case None => Ignored
    case Some(room) =>
      if room.IsDm() then Ignored
      else if !canDelete then Forbidden
      else if room.spaceId == [] || !Truthy(ResolveSpaceStateHostRoomId(roomId, s.rooms, s.spaceStateHostRoomIdBySpaceId, room.spaceId)) then NoContext
      else Proceed(room)
  }

  /** The other rooms of the deleted room's space. */
  function RemainingSpaceRooms(s: RoomsState, room: Room): seq<Room>
  {
    WithoutRoomId(GetSpaceRooms(s.rooms, room.spaceId), room.id)
  }

  /** The layout `deleteRoom` publishes and commits. */
  function DeletedRoomLayout(s: RoomsState, room: Room): SpaceLayout
  {
    DeleteRoomLayout(StoredLayout(s, room.spaceId), RemainingSpaceRooms(s, room), DeletedRoomCategory(room), room.id)
  }

  /** The room the layout is published to: the fallback host when the deleted room hosted the space's state. */
  function LayoutHostRoomId(s: RoomsState, room: Room): string
  {
    var hosts := s.spaceStateHostRoomIdBySpaceId;
    if room.spaceId in hosts && hosts[room.spaceId] == room.id then FallbackHostRoomId(RemainingSpaceRooms(s, room))
    else ResolveSpaceStateHostRoomId(room.id, s.rooms, hosts, room.spaceId).GetOr("")
  }

  /** The room `deleteRoom` removes, when it gets as far as removing one. */
  function DeletedRoom(s: RoomsState, roomId: string, canDelete: bool, deletion: Deletion): Option<Room>
  {
    match DeleteRoomGate(s, roomId, canDelete)
    case Proceed(room) => if HardDeleted(deletion) then Some(room) else None
    case _ => None
  }

  /** Whether the room is gone once the gates are passed: removed locally, or hard-deleted on the server. */
  predicate HardDeleted(deletion: Deletion)
  {
    deletion.LocalOnly? || (deletion.Remote? && deletion.hardDeleteError.None?)
  }

  /** The room records after a deletion: the others, with the published layout applied to the space. */
  function DeletionRooms(s: RoomsState, room: Room): seq<Room>
  {
    ApplyLayoutToSpaceRooms(WithoutRoomId(s.rooms, room.id), room.spaceId, DeletedRoomLayout(s, room))
  }

  /** The remaining rooms of the deleted room's space, as the updater reads them. */
  function DeletionSpaceRooms(s: RoomsState, room: Room): seq<Room>
  {
    GetSpaceRooms(WithoutRoomId(s.rooms, room.id), room.spaceId)
  }

  function DeletionFallbackRoomId(s: RoomsState, room: Room): string
  {
    FallbackRoomId(DeletionSpaceRooms(s, room), DeletionRooms(s, room))
  }

  function DeletionCurrentRoomId(s: RoomsState, room: Room): string
  {
    NextCurrentRoomId(s.currentRoomId, room.id, s.rooms, room.spaceId, DeletedRoomLayout(s, room))
  }

  /** The current space follows the fallback room when the current room was deleted. */
  function DeletionCurrentSpaceId(s: RoomsState, room: Room): string
  {
    if s.currentRoomId == room.id then
      match FindRoom(DeletionRooms(s, room), DeletionCurrentRoomId(s, room))
      case Some(fallback) => fallback.spaceId
      case None => s.currentSpaceId
    else s.currentSpaceId
  }

  function DeletionHost(s: RoomsState, room: Room): string
  {
    NextStateHostRoomId(s.spaceStateHostRoomIdBySpaceId, room.spaceId, room.id, DeletionSpaceRooms(s, room), DeletionFallbackRoomId(s, room))
  }

  /** The rooms-slice updater of a successful `deleteRoom`. */
  function RoomDeleted(s: RoomsState, room: Room): RoomsState
  {
    var next := DeletedRoomLayout(s, room);
    RoomsState(
      DeletionRooms(s, room),
      DeletionCurrentSpaceId(s, room),
      DeletionCurrentRoomId(s, room),
      s.categoriesBySpaceId[room.spaceId := LayoutToCategories(next)],
      s.spaceLayoutsBySpaceId[room.spaceId := next],
      s.spaceStateHostRoomIdBySpaceId[room.spaceId := DeletionHost(s, room)],
      s.roomLastReadTsByRoomId - {room.id},
      s.threadLastViewedTsByRoomId - {room.id},
      s.historyLoadingByRoomId - {room.id},
      s.historyHasMoreByRoomId - {room.id})
  }

  /** The messages-slice updater of a successful `deleteRoom`. */
  function MessagesAfterDeletion(m: MessagesState, currentRoomId: string, roomId: string): MessagesState
  {
    var wasCurrent := currentRoomId == roomId;
    m.(messagesByRoomId := m.messagesByRoomId - {roomId},
       replyToId := if wasCurrent then None else m.replyToId,
       threadRootId := if wasCurrent then None else m.threadRootId,
       showThread := if wasCurrent then false else m.showThread)
  }

  function DeleteRoomState(s: RoomsState, roomId: string, canDelete: bool, deletion: Deletion): RoomsState
  {
    match DeletedRoom(s, roomId, canDelete, deletion)
    case None => s
    case Some(room) => RoomDeleted(s, room)
  }

  function DeleteRoomMessages(m: MessagesState, s: RoomsState, roomId: string, canDelete: bool, deletion: Deletion): MessagesState
  {
    match DeletedRoom(s, roomId, canDelete, deletion)
    case None => m
    case Some(room) => MessagesAfterDeletion(m, s.currentRoomId, roomId)
  }


  /** The notifications `deleteRoom` pushes, newest first. */
  function DeleteRoomNotices(s: RoomsState, roomId: string, canDelete: bool, deletion: Deletion, stamp: Stamp, warningStamp: Stamp): seq<Notification>
  {
    match DeleteRoomGate(s, roomId, canDelete)
    case Proceed(room) => ProceedNotices(room, deletion, LayoutHostRoomId(s, room), stamp, warningStamp)
    case gate => RefusalNotices(gate, stamp)
  }

  /** The notification of a deletion stopped at a gate. */
  function RefusalNotices(gate: DeleteGate, stamp: Stamp): seq<Notification>
  {
    match gate
    case Forbidden =>
      [Note(ChannelDeleteUnavailable, ManageChannelsToDeleteChannels, stamp)]
    case NoContext =>
      [Note(ChannelDeleteUnavailable, SelectServerContext, stamp)]
    case _ => []
  }

  /** The notifications of a deletion that got past the gates, newest first. */
  function ProceedNotices(room: Room, deletion: Deletion, layoutHost: string, stamp: Stamp, warningStamp: Stamp): seq<Notification>
  {
    var deleted := Note(ChannelDeleted, room.name + PermanentlyRemovedSuffix, stamp);
    match deletion
    case LocalOnly => [deleted]
    case MissingCredentials =>
      [Note(FailedToDeleteChannel, MissingSessionCredentials, stamp)]
    case Remote(hardDeleteError, layoutError) =>
      if hardDeleteError.Some? then [Note(FailedToDeleteChannel, hardDeleteError.value, stamp)]
      else if layoutHost != [] && layoutError.Some? then
        [deleted, Note(ChannelDeletedWithLayoutWarning, LayoutSyncFailedPrefix + layoutError.value, warningStamp)]
      else [deleted]
  }

  /** A deletion that passes the gates removes `room` exactly when the hard delete went through. */
  lemma {:induction false} DeleteRoomProceeds(s: RoomsState, m: MessagesState, roomId: string, canDelete: bool, deletion: Deletion, stamp: Stamp, warningStamp: Stamp, room: Room)
    requires DeleteRoomGate(s, roomId, canDelete) == Proceed(room)
    ensures room.id == roomId && room in s.rooms && !room.IsDm()
    ensures DeleteRoomState(s, roomId, canDelete, deletion) == if HardDeleted(deletion) then RoomDeleted(s, room) else s
    ensures DeleteRoomMessages(m, s, roomId, canDelete, deletion) == if HardDeleted(deletion) then MessagesAfterDeletion(m, s.currentRoomId, room.id) else m
    ensures DeleteRoomNotices(s, roomId, canDelete, deletion, stamp, warningStamp) == ProceedNotices(room, deletion, LayoutHostRoomId(s, room), stamp, warningStamp)
  {
    assert DeletedRoom(s, roomId, canDelete, deletion) == if HardDeleted(deletion) then Some(room) else None;
  }

  /** A deletion stopped at a gate changes neither slice and pushes at most its refusal. */
  lemma {:induction false} DeleteRoomStopped(s: RoomsState, m: MessagesState, roomId: string, canDelete: bool, deletion: Deletion, stamp: Stamp, warningStamp: Stamp)
    requires !DeleteRoomGate(s, roomId, canDelete).Proceed?
    ensures DeleteRoomState(s, roomId, canDelete, deletion) == s
    ensures DeleteRoomMessages(m, s, roomId, canDelete, deletion) == m
    ensures DeleteRoomNotices(s, roomId, canDelete, deletion, stamp, warningStamp) == RefusalNotices(DeleteRoomGate(s, roomId, canDelete), stamp)
  {
    assert DeletedRoom(s, roomId, canDelete, deletion) == None;
  }

  /**
   * A hard delete that cannot run or fails leaves both slices as they were and
   * pushes only the failure, with the credentials text or the thrown message.
   */
  lemma {:induction false} FailedHardDeleteKeepsSlices(s: RoomsState, m: MessagesState, roomId: string, canDelete: bool, deletion: Deletion, stamp: Stamp, warningStamp: Stamp, room: Room)
    requires DeleteRoomGate(s, roomId, canDelete) == Proceed(room)
    requires deletion.MissingCredentials? || (deletion.Remote? && deletion.hardDeleteError.Some?)
    ensures DeleteRoomState(s, roomId, canDelete, deletion) == s
    ensures DeleteRoomMessages(m, s, roomId, canDelete, deletion) == m
    ensures DeleteRoomNotices(s, roomId, canDelete, deletion, stamp, warningStamp) ==
      [Note(FailedToDeleteChannel, if deletion.MissingCredentials? then MissingSessionCredentials else deletion.hardDeleteError.value, stamp)]
  {
    assert !HardDeleted(deletion);
    DeleteRoomProceeds(s, m, roomId, canDelete, deletion, stamp, warningStamp, room);
  }

  /**
   * After a successful deletion the room is gone from the room list, and every
   * other room is still listed.
   */
  lemma {:induction false} RoomDeletedRemovesRoom(s: RoomsState, room: Room)
    ensures forall x :: x in DeletionRooms(s, room) ==> x.id != room.id
    ensures forall x :: x in s.rooms && x.id != room.id ==> exists y :: y in DeletionRooms(s, room) && y.id == x.id
  {
    var nextRooms := WithoutRoomId(s.rooms, room.id);
    var next := DeletedRoomLayout(s, room);
    forall x | x in DeletionRooms(s, room)
      ensures x.id != room.id
    {
      AppliedRoomsComeFrom(nextRooms, room.spaceId, next, x);
    }
    forall x | x in s.rooms && x.id != room.id
      ensures exists y :: y in DeletionRooms(s, room) && y.id == x.id
    {
      AppliedKeepsRoom(nextRooms, room.spaceId, next, x);
    }
  }

  /**
   * After a successful deletion the room is in none of the per-room maps, is
   * not the current room and is no longer its space's state host.
   */
  lemma {:induction false} RoomDeletedForgetsRoom(s: RoomsState, room: Room)
    requires room.id != []
    ensures var r := RoomDeleted(s, room);
      && room.id !in r.roomLastReadTsByRoomId && room.id !in r.threadLastViewedTsByRoomId
      && room.id !in r.historyLoadingByRoomId && room.id !in r.historyHasMoreByRoomId
      && r.currentRoomId != room.id
      && r.spaceStateHostRoomIdBySpaceId[room.spaceId] != room.id
  {
    var r := RoomDeleted(s, room);
    assert r.currentRoomId == DeletionCurrentRoomId(s, room);
    assert r.spaceStateHostRoomIdBySpaceId[room.spaceId] == DeletionHost(s, room);
    DeletionCurrentRoomIdMoves(s, room);
    DeletionHostMoves(s, room);
  }

  /** The current room after a deletion is never the deleted one. */
  lemma {:induction false} DeletionCurrentRoomIdMoves(s: RoomsState, room: Room)
    requires room.id != []
    ensures DeletionCurrentRoomId(s, room) != room.id
  {
    NextCurrentRoomIdSpec(s.currentRoomId, room.id, s.rooms, room.spaceId, DeletedRoomLayout(s, room));
    RoomDeletedRemovesRoom(s, room);
  }

  /** The space's state host after a deletion is never the deleted room. */
  lemma {:induction false} DeletionHostMoves(s: RoomsState, room: Room)
    requires room.id != []
    ensures DeletionHost(s, room) != room.id
  {
    DeletionFallbackMoves(s, room);
    NextStateHostRoomIdSpec(s.spaceStateHostRoomIdBySpaceId, room.spaceId, room.id, DeletionSpaceRooms(s, room), DeletionFallbackRoomId(s, room));
  }

  /** The fallback room of a deletion is never the deleted room. */
  lemma {:induction false} DeletionFallbackMoves(s: RoomsState, room: Room)
    requires room.id != []
    ensures DeletionFallbackRoomId(s, room) != room.id
  {
    var nextRooms := WithoutRoomId(s.rooms, room.id);
    var spaceRooms := DeletionSpaceRooms(s, room);
    var applied := DeletionRooms(s, room);
    if spaceRooms != [] {
      assert spaceRooms[0] in nextRooms;
    } else if applied != [] {
      AppliedRoomsComeFrom(nextRooms, room.spaceId, DeletedRoomLayout(s, room), applied[0]);
    }
  }

  /** Every input room is still there after `applyLayoutToSpaceRooms`, with the same id. */
  lemma {:induction false} AppliedKeepsRoom(rooms: seq<Room>, spaceId: string, l: SpaceLayout, x: Room)
    requires x in rooms
    ensures exists y :: y in ApplyLayoutToSpaceRooms(rooms, spaceId, l) && y.id == x.id
  {
    var others := OtherSpaceRooms(rooms, spaceId);
    var mine := GetSpaceRooms(rooms, spaceId);
    ApplyLayoutToSpaceRoomsSpec(rooms, spaceId, l);
    var r := ApplyLayoutToSpaceRooms(rooms, spaceId, l);
    if x.spaceId == spaceId {
      var i :| 0 <= i < |mine| && mine[i] == x;
      var y := WithPlacements(mine, l)[i];
      assert y in multiset(r);
    } else {
      assert x in multiset(r);
    }
  }

  /**
   * When the current room is deleted, the current room becomes the first
   * remaining room of its space, and the reply target and open thread are
   * cleared; the deleted room's messages are dropped.
   */
  lemma {:induction false} CurrentRoomDeletedFallsBack(s: RoomsState, m: MessagesState, room: Room)
    requires room.id != [] && s.currentRoomId == room.id
    ensures var r := RoomDeleted(s, room);
      var spaceRooms := GetSpaceRooms(WithoutRoomId(s.rooms, room.id), room.spaceId);
      && (spaceRooms != [] ==> r.currentRoomId == spaceRooms[0].id)
      && (WithoutRoomId(s.rooms, room.id) == [] ==> r.currentRoomId == "")
    ensures var after := MessagesAfterDeletion(m, s.currentRoomId, room.id);
      && room.id !in after.messagesByRoomId
      && after.replyToId == None && after.threadRootId == None && !after.showThread
  {
    assert RoomDeleted(s, room).currentRoomId == DeletionCurrentRoomId(s, room);
    NextCurrentRoomIdSpec(s.currentRoomId, room.id, s.rooms, room.spaceId, DeletedRoomLayout(s, room));
  }

  // ---------------------------------------------------------------------------
  // markRoomRead
  // ---------------------------------------------------------------------------

  /** `getLatestMessageTimestamp`: the last message's time, or now for a room without messages. */
  function LatestMessageTimestamp(ms: seq<Message>, now: int): int
  {
    if |ms| > 0 then ms[|ms| - 1].timestamp else now
  }

  /** For a room whose messages are in time order, the latest timestamp is at least every message's. */
  lemma {:induction false} LatestMessageTimestampIsMax(ms: seq<Message>, now: int)
    requires forall i, j :: 0 <= i < j < |ms| ==> ms[i].timestamp <= ms[j].timestamp
    ensures forall m :: m in ms ==> m.timestamp <= LatestMessageTimestamp(ms, now)
    ensures ms != [] ==> exists m :: m in ms && m.timestamp == LatestMessageTimestamp(ms, now)
  {
    forall m | m in ms
      ensures m.timestamp <= LatestMessageTimestamp(ms, now)
    {
      var i :| 0 <= i < |ms| && ms[i] == m;
      if i < |ms| - 1 {
        assert ms[i].timestamp <= ms[|ms| - 1].timestamp;
      }
    }
    if ms != [] {
      assert ms[|ms| - 1] in ms;
    }
  }

  /** The rooms with the unread count of one room reset. */
  function WithRoomRead(rooms: seq<Room>, roomId: string): (r: seq<Room>)
    ensures |r| == |rooms|
    ensures forall i :: 0 <= i < |rooms| ==> r[i] == if rooms[i].id == roomId then rooms[i].(unreadCount := 0) else rooms[i]
  {
    seq(|rooms|, i requires 0 <= i < |rooms| => if rooms[i].id == roomId then rooms[i].(unreadCount := 0) else rooms[i])
  }

  /** Marking a room read twice is marking it once, and no room of that id is left with unread messages. */
  lemma {:induction false} WithRoomReadIdempotent(rooms: seq<Room>, roomId: string)
    ensures WithRoomRead(WithRoomRead(rooms, roomId), roomId) == WithRoomRead(rooms, roomId)
    ensures forall x :: x in WithRoomRead(rooms, roomId) && x.id == roomId ==> x.unreadCount == 0
  {
    var once := WithRoomRead(rooms, roomId);
    assert forall i :: 0 <= i < |once| ==> WithRoomRead(once, roomId)[i] == once[i];
  }

  /** The rooms-slice updater of `markRoomRead` for a non-empty target room. */
  function RoomRead(s: RoomsState, roomId: string, messages: seq<Message>, now: int): RoomsState
  {
    s.(roomLastReadTsByRoomId := s.roomLastReadTsByRoomId[roomId := LatestMessageTimestamp(messages, now)],
       rooms := WithRoomRead(s.rooms, roomId))
  }

  // ---------------------------------------------------------------------------
  // The in-place edits of a layout copy
  // ---------------------------------------------------------------------------

  /** The draft edits of `deleteCategory`: drop the category, then append its rooms to `"channels"`. */
  method DeleteCategoryDraft(base: SpaceLayout, categoryId: string) returns (next: SpaceLayout)
    ensures next == DeleteCategoryLayout(base, categoryId)
  {
    var draft := new LayoutDraft(base.(categories := NormalizeLayoutCategories(WithoutCategory(base.categories, categoryId))));
    var moved := GetOrderedRoomIdsByCategory(draft.Value(), categoryId);
    var defaults := GetOrderedRoomIdsByCategory(draft.Value(), DefaultCategoryId);
    draft.SetRoomOrderForCategory(DefaultCategoryId, defaults + moved);
    next := draft.Value();
  }

  /** The draft edits of `moveRoomByStep`. */
  method MoveRoomByStepDraft(base: SpaceLayout, roomId: string, d: Direction) returns (next: Option<SpaceLayout>)
    ensures next == MoveRoomByStepLayout(base, roomId, d)
  {
    if roomId !in base.rooms {
      return None;
    }
    var categoryId := base.rooms[roomId].categoryId;
    var ids := GetOrderedRoomIdsByCategory(base, categoryId);
    var source := IndexOf(ids, roomId);
    if source < 0 {
      return None;
    }
    var target := Step(source, d);
    if target < 0 || target >= |ids| {
      return None;
    }
    var draft := new LayoutDraft(base);
    draft.SetRoomOrderForCategory(categoryId, MoveItem(ids, source, target, IsEmptyId));
    next := Some(draft.Value());
  }

  /** The draft edits of `moveRoomToCategory`: rewrite the source category without the room, then the target with it last. */
  method MoveRoomToCategoryDraft(base: SpaceLayout, roomId: string, categoryId: string) returns (next: Option<SpaceLayout>)
    ensures next == MoveRoomToCategoryLayout(base, roomId, categoryId)
  {
    if roomId !in base.rooms || categoryId !in Ids(base.categories) {
      return None;
    }
    var from := base.rooms[roomId].categoryId;
    if from == categoryId {
      return None;
    }
    var draft := new LayoutDraft(base);
    var sourceIds := Remove(GetOrderedRoomIdsByCategory(draft.Value(), from), roomId);
    var targetIds := GetOrderedRoomIdsByCategory(draft.Value(), categoryId);
    draft.SetRoomOrderForCategory(from, sourceIds);
    draft.SetRoomOrderForCategory(categoryId, targetIds + [roomId]);
    next := Some(draft.Value());
  }

  /**
   * The draft edits of `reorderRoom`, with the source room dropped from the
   * destination's order before it is inserted in front of the target.
   */
  method ReorderRoomDraft(base: SpaceLayout, sourceId: string, targetId: string, targetCategoryId: Option<string>) returns (next: Option<SpaceLayout>)
    ensures next == ReorderRoomLayout(base, sourceId, targetId, targetCategoryId)
  {
    var dest := ReorderRoomDestination(base, sourceId, targetId, targetCategoryId);
    if dest.None? {
      return None;
    }
    var draft := new LayoutDraft(base);
    var from := base.rooms[sourceId].categoryId;
    draft.SetRoomOrderForCategory(from, Remove(GetOrderedRoomIdsByCategory(draft.Value(), from), sourceId));
    var ids := GetOrderedRoomIdsByCategory(draft.Value(), dest.value);
    draft.SetRoomOrderForCategory(dest.value, InsertBefore(Remove(ids, sourceId), sourceId, targetId));
    next := Some(draft.Value());
  }

  /** The draft edits of `deleteRoom`: rewrite the room's category without it, then delete its placement. */
  method DeleteRoomDraft(stored: Option<SpaceLayout>, remaining: seq<Room>, categoryId: string, roomId: string) returns (next: SpaceLayout)
    ensures next == DeleteRoomLayout(stored, remaining, categoryId, roomId)
  {
    var draft := new LayoutDraft(HydrateLayoutForRooms(stored, remaining));
    var remainingIds := Remove(GetOrderedRoomIdsByCategory(draft.Value(), categoryId), roomId);
    draft.SetRoomOrderForCategory(categoryId, remainingIds);
    draft.DeleteRoom(roomId);
    next := draft.Value();
  }

  /**
   * The checks `deleteRoom` makes first, in its order: the room must exist and
   * not be a DM, the caller must be allowed to delete channels, and the room's
   * space must have a state host (resolved as if the room were current).
   */
  method CheckDeletion(s: RoomsState, roomId: string, canDelete: bool) returns (gate: DeleteGate, host: string)
    ensures gate == DeleteRoomGate(s, roomId, canDelete)
    ensures gate.Proceed? ==> host == ResolveSpaceStateHostRoomId(roomId, s.rooms, s.spaceStateHostRoomIdBySpaceId, gate.room.spaceId).GetOr("")
  {
    host := "";
    var found := FindRoom(s.rooms, roomId);
    if found.None? || found.value.IsDm() {
      return Ignored, host;
    }
    var room := found.value;
    if !canDelete {
      return Forbidden, host;
    }
    var resolved := ResolveSpaceStateHostRoomId(roomId, s.rooms, s.spaceStateHostRoomIdBySpaceId, room.spaceId);
    if room.spaceId == [] || !Truthy(resolved) {
      return NoContext, host;
    }
    return Proceed(room), resolved.value;
  }

  /**
   * What `deleteRoom` works out before the hard delete: the layout without the
   * room (edited on a draft), the room the layout is published to, and the
   * rooms slice it commits once the room is gone.
   */
  method PrepareDeletion(s: RoomsState, room: Room, host: string) returns (next: SpaceLayout, layoutHost: string, committed: RoomsState)
    requires host == ResolveSpaceStateHostRoomId(room.id, s.rooms, s.spaceStateHostRoomIdBySpaceId, room.spaceId).GetOr("")
    ensures next == DeletedRoomLayout(s, room)
    ensures layoutHost == LayoutHostRoomId(s, room)
    ensures committed == RoomDeleted(s, room)
  {
    var spaceId := room.spaceId;
    var remaining := WithoutRoomId(GetSpaceRooms(s.rooms, spaceId), room.id);
    next := DeleteRoomDraft(StoredLayout(s, spaceId), remaining, DeletedRoomCategory(room), room.id);
    var hosts := s.spaceStateHostRoomIdBySpaceId;
    layoutHost := if spaceId in hosts && hosts[spaceId] == room.id then FallbackHostRoomId(remaining) else host;
    committed := RoomDeleted(s, room);
  }

  class RoomsSlice {
    var rooms: seq<Room>
    var currentSpaceId: string
    var currentRoomId: string
    var categoriesBySpaceId: map<string, seq<Category>>
    var spaceLayoutsBySpaceId: map<string, SpaceLayout>
    var spaceStateHostRoomIdBySpaceId: map<string, string>
    var roomLastReadTsByRoomId: map<string, int>
    var threadLastViewedTsByRoomId: map<string, map<string, int>>
    var historyLoadingByRoomId: map<string, bool>
    var historyHasMoreByRoomId: map<string, bool>

    function State(): RoomsState
      reads this
    {
      RoomsState(rooms, currentSpaceId, currentRoomId, categoriesBySpaceId, spaceLayoutsBySpaceId,
        spaceStateHostRoomIdBySpaceId, roomLastReadTsByRoomId, threadLastViewedTsByRoomId,
        historyLoadingByRoomId, historyHasMoreByRoomId)
    }

    /**
     * The initial slice: the given rooms, the first space (or the all-rooms
     * space), the first room (or none), and the given read markers.
     */
    constructor (initialRooms: seq<Room>, firstSpaceId: Option<string>, readMarkers: map<string, int>)
      ensures State() == RoomsState(initialRooms, firstSpaceId.GetOr(DefaultSpaceId), FirstId(initialRooms).GetOr(""),
        map[], map[], map[], readMarkers, map[], map[], map[])
    {
      rooms := initialRooms;
      currentSpaceId := firstSpaceId.GetOr(DefaultSpaceId);
      currentRoomId := FirstId(initialRooms).GetOr("");
      categoriesBySpaceId := map[];
      spaceLayoutsBySpaceId := map[];
      spaceStateHostRoomIdBySpaceId := map[];
      roomLastReadTsByRoomId := readMarkers;
      threadLastViewedTsByRoomId := map[];
      historyLoadingByRoomId := map[];
      historyHasMoreByRoomId := map[];
    }

    /** Replaces the whole slice, as the store's `set` does with the fields an updater returns. */
    method SetState(t: RoomsState)
      modifies this
      ensures State() == t
    {
      rooms := t.rooms;
      currentSpaceId := t.currentSpaceId;
      currentRoomId := t.currentRoomId;
      categoriesBySpaceId := t.categoriesBySpaceId;
      spaceLayoutsBySpaceId := t.spaceLayoutsBySpaceId;
      spaceStateHostRoomIdBySpaceId := t.spaceStateHostRoomIdBySpaceId;
      roomLastReadTsByRoomId := t.roomLastReadTsByRoomId;
      threadLastViewedTsByRoomId := t.threadLastViewedTsByRoomId;
      historyLoadingByRoomId := t.historyLoadingByRoomId;
      historyHasMoreByRoomId := t.historyHasMoreByRoomId;
    }

    /** Publishes a computed layout and commits it, or reports the failed publish. */
    method Publish(next: SpaceLayout, sync: Sync, title: string, stamp: Stamp, ui: UiSlice)
      modifies this, ui
      ensures State() == Published(old(State()), Some(next), sync)
      ensures ui.notifications == Notified(old(ui.notifications), Some(next), sync, title, stamp)
      ensures ui.Flags() == old(ui.Flags())
    {
      var s := State();
      if sync.SendFailed? {
        ui.PushNotification(title, sync.message, stamp.id, stamp.timestamp);
        assert State() == s;
        return;
      }
      Commit(next);
    }

    /** The `set` of a published layout in the current space. */
    method Commit(next: SpaceLayout)
      modifies this
      ensures State() == Committed(old(State()), old(currentSpaceId), next)
    {
      SetState(Committed(State(), currentSpaceId, next));
    }

    method CreateCategory(name: string, freshId: string, sync: Sync, stamp: Stamp, ui: UiSlice) returns (ghost suffix: nat)
      modifies this, ui
      ensures CurrentBase(old(State())).Some? ==>
        LeastFreeSuffix(Ids(CurrentBase(old(State())).value.categories), ToCategoryId(NormalizeCategoryName(name), freshId), suffix)
      ensures State() == Published(old(State()), CreateCategoryNext(old(State()), name, freshId, suffix), sync)
      ensures ui.notifications == Notified(old(ui.notifications), CreateCategoryNext(old(State()), name, freshId, suffix), sync, FailedToCreateCategory, stamp)
      ensures ui.Flags() == old(ui.Flags())
    {
      suffix := 0;
      var base := CurrentBase(State());
      if base.None? {
        return;
      }
      var trimmed := NormalizeCategoryName(name);
      var categoryId;
      categoryId, suffix := FreshCategoryId(Ids(base.value.categories), ToCategoryId(trimmed, freshId));
      var next := base.value.(categories := WithNewCategory(base.value.categories, categoryId, trimmed));
      Publish(next, sync, FailedToCreateCategory, stamp, ui);
    }

    /**
     * `deleteCategory`: nothing for `"channels"` or without a current space; a
     * notification when the user may not delete channels; otherwise as the
     * other layout actions.
     */
    method DeleteCategory(categoryId: string, canDelete: bool, sync: Sync, stamp: Stamp, ui: UiSlice)
      requires sync.Local? ==> canDelete
      modifies this, ui
      ensures categoryId == DefaultCategoryId || old(currentSpaceId) == [] ==>
        State() == old(State()) && ui.notifications == old(ui.notifications)
      ensures categoryId != DefaultCategoryId && old(currentSpaceId) != [] && !canDelete ==>
        State() == old(State()) &&
        ui.notifications == [Note(CategoryDeleteUnavailable,
          ManageChannelsToDeleteCategories, stamp)] + old(ui.notifications)
      ensures categoryId != DefaultCategoryId && old(currentSpaceId) != [] && canDelete ==>
        State() == Published(old(State()), DeleteCategoryNext(old(State()), categoryId), sync) &&
        ui.notifications == Notified(old(ui.notifications), DeleteCategoryNext(old(State()), categoryId), sync, FailedToDeleteCategory, stamp)
      ensures ui.Flags() == old(ui.Flags())
    {
      if categoryId == DefaultCategoryId || currentSpaceId == [] {
        return;
      }
      if !canDelete {
        ui.PushNotification(CategoryDeleteUnavailable,
          ManageChannelsToDeleteCategories, stamp.id, stamp.timestamp);
        return;
      }
      var base := CurrentBase(State());
      if base.None? || categoryId !in Ids(base.value.categories) {
        return;
      }
      var next := DeleteCategoryDraft(base.value, categoryId);
      Publish(next, sync, FailedToDeleteCategory, stamp, ui);
    }

    method MoveCategoryByStep(categoryId: string, d: Direction, sync: Sync, stamp: Stamp, ui: UiSlice)
      modifies this, ui
      ensures State() == Published(old(State()), MoveCategoryByStepNext(old(State()), categoryId, d), sync)
      ensures ui.notifications == Notified(old(ui.notifications), MoveCategoryByStepNext(old(State()), categoryId, d), sync, FailedToMoveCategory, stamp)
      ensures ui.Flags() == old(ui.Flags())
    {
      var base := CurrentBase(State());
      if base.None? {
        return;
      }
      var next := MoveCategoryByStepLayout(base.value, categoryId, d);
      if next.None? {
        return;
      }
      Publish(next.value, sync, FailedToMoveCategory, stamp, ui);
    }

    method ReorderCategory(sourceId: string, targetId: string, sync: Sync, stamp: Stamp, ui: UiSlice)
      modifies this, ui
      ensures State() == Published(old(State()), ReorderCategoryNext(old(State()), sourceId, targetId), sync)
      ensures ui.notifications == Notified(old(ui.notifications), ReorderCategoryNext(old(State()), sourceId, targetId), sync, FailedToReorderCategories, stamp)
      ensures ui.Flags() == old(ui.Flags())
    {
      var base := CurrentBase(State());
      if base.None? {
        return;
      }
      var next := ReorderCategoryLayout(base.value, sourceId, targetId);
      if next.None? {
        return;
      }
      Publish(next.value, sync, FailedToReorderCategories, stamp, ui);
    }

    /** `moveRoomByStep`: the room trades places with its neighbour in a draft of the layout. */
    method MoveRoomByStep(roomId: string, d: Direction, sync: Sync, stamp: Stamp, ui: UiSlice)
      modifies this, ui
      ensures State() == Published(old(State()), MoveRoomByStepNext(old(State()), roomId, d), sync)
      ensures ui.notifications == Notified(old(ui.notifications), MoveRoomByStepNext(old(State()), roomId, d), sync, FailedToMoveChannel, stamp)
      ensures ui.Flags() == old(ui.Flags())
    {
      var base := CurrentBase(State());
      if base.None? {
        return;
      }
      var next := MoveRoomByStepDraft(base.value, roomId, d);
      if next.None? {
        return;
      }
      Publish(next.value, sync, FailedToMoveChannel, stamp, ui);
    }

    /** `moveRoomToCategory`: the source category is rewritten without the room, then the target with it last. */
    method MoveRoomToCategory(roomId: string, categoryId: string, sync: Sync, stamp: Stamp, ui: UiSlice)
      modifies this, ui
      ensures State() == Published(old(State()), MoveRoomToCategoryNext(old(State()), roomId, categoryId), sync)
      ensures ui.notifications == Notified(old(ui.notifications), MoveRoomToCategoryNext(old(State()), roomId, categoryId), sync, FailedToMoveChannelToCategory, stamp)
      ensures ui.Flags() == old(ui.Flags())
    {
      var base := CurrentBase(State());
      if base.None? {
        return;
      }
      var next := MoveRoomToCategoryDraft(base.value, roomId, categoryId);
      if next.None? {
        return;
      }
      Publish(next.value, sync, FailedToMoveChannelToCategory, stamp, ui);
    }

    /**
     * `reorderRoom`, with the source room dropped from the destination's order
     * before it is inserted in front of the target.
     */
    method ReorderRoom(sourceId: string, targetId: string, targetCategoryId: Option<string>, sync: Sync, stamp: Stamp, ui: UiSlice)
      modifies this, ui
      ensures State() == Published(old(State()), ReorderRoomNext(old(State()), sourceId, targetId, targetCategoryId), sync)
      ensures ui.notifications == Notified(old(ui.notifications), ReorderRoomNext(old(State()), sourceId, targetId, targetCategoryId), sync, FailedToReorderChannels, stamp)
      ensures ui.Flags() == old(ui.Flags())
    {
      var base := CurrentBase(State());
      if base.None? {
        return;
      }
      var next := ReorderRoomDraft(base.value, sourceId, targetId, targetCategoryId);
      if next.None? {
        return;
      }
      Publish(next.value, sync, FailedToReorderChannels, stamp, ui);
    }

    /**
     * `deleteRoom`. `canDelete` is the permission check (always granted without
     * a Matrix client); `deletion` says how the hard delete and the layout
     * publish went.
     */
    method DeleteRoom(roomId: string, canDelete: bool, deletion: Deletion, stamp: Stamp, warningStamp: Stamp, msgs: MessagesSlice, ui: UiSlice)
      requires deletion.LocalOnly? ==> canDelete
      modifies this, msgs, ui
      ensures State() == DeleteRoomState(old(State()), roomId, canDelete, deletion)
      ensures msgs.State() == DeleteRoomMessages(old(msgs.State()), old(State()), roomId, canDelete, deletion)
      ensures ui.notifications == DeleteRoomNotices(old(State()), roomId, canDelete, deletion, stamp, warningStamp) + old(ui.notifications)
      ensures ui.Flags() == old(ui.Flags())
    {
      var s := State();
      var gate, host := CheckDeletion(s, roomId, canDelete);
      if !gate.Proceed? {
        DeleteRoomStopped(s, msgs.State(), roomId, canDelete, deletion, stamp, warningStamp);
        RefuseDeletion(gate, stamp, ui);
        return;
      }
      var room := gate.room;
      DeleteRoomProceeds(s, msgs.State(), roomId, canDelete, deletion, stamp, warningStamp, room);
      var next, layoutHost, committed := PrepareDeletion(s, room, host);
      FinishDeletion(room, layoutHost, committed, deletion, stamp, warningStamp, msgs, ui);
    }

    /** The notification of a deletion stopped at a gate (none for a DM or unknown room). */
    method RefuseDeletion(gate: DeleteGate, stamp: Stamp, ui: UiSlice)
      requires !gate.Proceed?
      modifies ui
      ensures ui.notifications == RefusalNotices(gate, stamp) + old(ui.notifications)
      ensures ui.Flags() == old(ui.Flags())
    {
      match gate {
        case Ignored =>
        case Forbidden =>
          ui.PushNotification(ChannelDeleteUnavailable,
            ManageChannelsToDeleteChannels, stamp.id, stamp.timestamp);
        case NoContext =>
          ui.PushNotification(ChannelDeleteUnavailable, SelectServerContext, stamp.id, stamp.timestamp);
      }
    }

    /**
     * The part of `deleteRoom` after its gates: the hard delete runs, the
     * layout goes to `layoutHost`, and on success the rooms slice becomes
     * `committed` and the messages slice drops the room.
     */
    method FinishDeletion(room: Room, layoutHost: string, committed: RoomsState, deletion: Deletion, stamp: Stamp, warningStamp: Stamp, msgs: MessagesSlice, ui: UiSlice)
      modifies this, msgs, ui
      ensures State() == if HardDeleted(deletion) then committed else old(State())
      ensures msgs.State() == if HardDeleted(deletion) then MessagesAfterDeletion(old(msgs.State()), old(currentRoomId), room.id) else old(msgs.State())
      ensures ui.notifications == ProceedNotices(room, deletion, layoutHost, stamp, warningStamp) + old(ui.notifications)
      ensures ui.Flags() == old(ui.Flags())
    {
      match deletion {
        case LocalOnly =>
        case MissingCredentials =>
          ui.PushNotification(FailedToDeleteChannel, MissingSessionCredentials, stamp.id, stamp.timestamp);
          return;
        case Remote(hardDeleteError, layoutError) =>
          if hardDeleteError.Some? {
            ui.PushNotification(FailedToDeleteChannel, hardDeleteError.value, stamp.id, stamp.timestamp);
              return;
          }
          if layoutHost != [] && layoutError.Some? {
            ui.PushNotification(ChannelDeletedWithLayoutWarning,
              LayoutSyncFailedPrefix + layoutError.value, warningStamp.id, warningStamp.timestamp);
          }
      }
      CommitDeletion(room, committed, stamp, msgs, ui);
    }

    /**
     * The end of a successful deletion: the two `set` calls, the rooms slice
     * and then the messages slice, and the "deleted" notification.
     */
    method CommitDeletion(room: Room, committed: RoomsState, stamp: Stamp, msgs: MessagesSlice, ui: UiSlice)
      modifies this, msgs, ui
      ensures State() == committed
      ensures msgs.State() == MessagesAfterDeletion(old(msgs.State()), old(currentRoomId), room.id)
      ensures ui.notifications == [Note(ChannelDeleted, room.name + PermanentlyRemovedSuffix, stamp)] + old(ui.notifications)
      ensures ui.Flags() == old(ui.Flags())
    {
      var previousRoomId := currentRoomId;
      SetState(committed);
      msgs.SetState(MessagesAfterDeletion(msgs.State(), previousRoomId, room.id));
      ui.PushNotification(ChannelDeleted, room.name + PermanentlyRemovedSuffix, stamp.id, stamp.timestamp);
    }

    /**
     * `markRoomRead(roomId?)`: the target (the given room, else the current one)
     * gets its last message's time as read marker and no unread messages.
     */
    method MarkRoomRead(roomId: Option<string>, msgs: MessagesSlice, now: int)
      modifies this
      ensures var target := roomId.GetOr(old(currentRoomId));
        State() == if target == [] then old(State()) else RoomRead(old(State()), target, RoomMessages(msgs.messagesByRoomId, target), now)
    {
      var target := roomId.GetOr(currentRoomId);
      if target == [] {
        return;
      }
      var messages := RoomMessages(msgs.messagesByRoomId, target);
      SetState(RoomRead(State(), target, messages, now));
    }
  }
}
