/**
 * What `deleteRoom` computes once the hard delete has gone through: the layout
 * without the room, the room to fall back to when the deleted room was the
 * current one, and the new state host of the space.
 */
module RoomDeletion {
  import opened Wrappers
  import opened Sorting
  import opened Entities
  import opened Layout
  import opened RoomOrder
  import opened Placements
  import opened Hydration
  import opened ApplyLayout

  /** `rooms.filter((candidate) => candidate.id !== roomId)`. */
  function WithoutRoomId(rooms: seq<Room>, roomId: string): (r: seq<Room>)
    ensures forall x :: x in r <==> x in rooms && x.id != roomId
    ensures |r| <= |rooms|
  {
    if rooms == [] then []
    else if rooms[0].id == roomId then WithoutRoomId(rooms[1..], roomId)
    else [rooms[0]] + WithoutRoomId(rooms[1..], roomId)
  }

  /** `rooms[0]?.id`. */
  function FirstId(rooms: seq<Room>): (r: Option<string>)
    ensures r.Some? <==> rooms != []
    ensures r.Some? ==> r.value == rooms[0].id
  {
    if rooms == [] then None else Some(rooms[0].id)
  }

  /** `room.category ?? "channels"`: the category the deleted room is taken out of. */
  function DeletedRoomCategory(room: Room): (r: string)
    ensures room.category.Some? ==> r == room.category.value
    ensures room.category.None? ==> r == DefaultCategoryId
  {
    room.category.GetOr(DefaultCategoryId)
  }

  /**
   * The layout `deleteRoom` publishes: the stored layout hydrated against the
   * space's other rooms, the room's category written back without it, and its
   * placement deleted.
   */
  function DeleteRoomLayout(stored: Option<SpaceLayout>, remaining: seq<Room>, categoryId: string, roomId: string): SpaceLayout
  {
    var base := HydrateLayoutForRooms(stored, remaining);
    var rest := Remove(GetOrderedRoomIdsByCategory(base, categoryId), roomId);
    Unassign(WithRoomOrder(base, categoryId, rest), roomId)
  }

  /**
   * `r` is `base` with `roomId` taken out of category `categoryId`: the room has
   * no placement, the other rooms of the category keep their order and are
   * numbered `0..m-1`, every other room keeps its placement, and the
   * categories are unchanged.
   */
  ghost predicate RemovedFromCategory(base: SpaceLayout, r: SpaceLayout, categoryId: string, roomId: string)
  {
    var ids := GetOrderedRoomIdsByCategory(base, categoryId);
    && WellKeyed(r) && r.categories == base.categories
    && roomId !in r.rooms
    && (forall k :: k in r.rooms <==> k in base.rooms)
    && (forall i :: 0 <= i < |ids| ==> ids[i] in r.rooms && r.rooms[ids[i]] == Placement(categoryId, i))
    && (forall k :: k in base.rooms && k !in ids ==> r.rooms[k] == base.rooms[k])
    && GetOrderedRoomIdsByCategory(r, categoryId) == ids
  }

  /**
   * The published layout is the hydrated layout with the deleted room taken out
   * of its category.
   */
  lemma {:induction false} DeleteRoomLayoutSpec(stored: Option<SpaceLayout>, remaining: seq<Room>, categoryId: string, roomId: string)
    requires forall x :: x in remaining ==> x.id != roomId
    ensures RemovedFromCategory(HydrateLayoutForRooms(stored, remaining), DeleteRoomLayout(stored, remaining, categoryId, roomId), categoryId, roomId)
  {
    var base := HydrateLayoutForRooms(stored, remaining);
    DeletedRoomNotHydrated(stored, remaining, roomId);
    DeleteRoomLayoutUnfolds(stored, remaining, categoryId, roomId);
    RewriteWithoutAbsent(base, categoryId, roomId);
  }

  /** A room missing from the remaining rooms has no placement in the hydrated layout. */
  lemma {:induction false} DeletedRoomNotHydrated(stored: Option<SpaceLayout>, remaining: seq<Room>, roomId: string)
    requires forall x :: x in remaining ==> x.id != roomId
    ensures WellKeyed(HydrateLayoutForRooms(stored, remaining))
    ensures roomId !in HydrateLayoutForRooms(stored, remaining).rooms
  {
    HydrateKeys(stored, remaining);
    var nd := NonDm(remaining);
    forall i | 0 <= i < |nd|
      ensures RoomIdsOf(nd)[i] != roomId
    {
      assert nd[i] in remaining;
    }
  }

  lemma {:induction false} DeleteRoomLayoutUnfolds(stored: Option<SpaceLayout>, remaining: seq<Room>, categoryId: string, roomId: string)
    ensures var base := HydrateLayoutForRooms(stored, remaining);
      DeleteRoomLayout(stored, remaining, categoryId, roomId) ==
        Unassign(WithRoomOrder(base, categoryId, Remove(GetOrderedRoomIdsByCategory(base, categoryId), roomId)), roomId)
  {
  }

  /** Writing a category back without a room that has no placement renumbers it and changes nothing else. */
  lemma {:induction false} RewriteWithoutAbsent(base: SpaceLayout, categoryId: string, roomId: string)
    requires WellKeyed(base) && roomId !in base.rooms
    ensures var ids := GetOrderedRoomIdsByCategory(base, categoryId);
      RemovedFromCategory(base, Unassign(WithRoomOrder(base, categoryId, Remove(ids, roomId)), roomId), categoryId, roomId)
  {
    var ids := GetOrderedRoomIdsByCategory(base, categoryId);
    GetOrderedSpec(base, categoryId);
    RemoveAbsent(ids, roomId);
    var written := WithRoomOrder(base, categoryId, ids);
    WithRoomOrderKeys(base, categoryId, ids);
    WithRoomOrderPlacements(base, categoryId, ids);
    WithRoomOrderRoundTrip(base, categoryId, ids);
    UnassignAbsent(written, roomId);
  }

  /**
   * `remainingSpaceRooms.find((candidate) => candidate.type !== "dm")?.id ??
   * remainingSpaceRooms[0]?.id ?? ""`: a non-DM room if there is one, else any
   * room, else nothing.
   */
  function FallbackHostRoomId(rooms: seq<Room>): (r: string)
  {
    match FirstNonDm(rooms)
    case Some(room) => room.id
    case None => FirstId(rooms).GetOr("")
  }

  /** The fallback host is one of the rooms, a non-DM one when there is one, and empty only without rooms. */
  lemma {:induction false} FallbackHostRoomIdSpec(rooms: seq<Room>)
    ensures var r := FallbackHostRoomId(rooms);
      && (rooms == [] ==> r == "")
      && (rooms != [] ==> exists i :: 0 <= i < |rooms| && rooms[i].id == r)
      && ((exists i :: 0 <= i < |rooms| && !rooms[i].IsDm()) ==> exists i :: 0 <= i < |rooms| && rooms[i].id == r && !rooms[i].IsDm())
  {
    var r := FallbackHostRoomId(rooms);
    if FirstNonDm(rooms).Some? {
      var x := FirstNonDm(rooms).value;
      var i :| 0 <= i < |rooms| && rooms[i] == x;
    } else if rooms != [] {
      assert rooms[0].id == r;
      if exists i :: 0 <= i < |rooms| && !rooms[i].IsDm() {
        var i :| 0 <= i < |rooms| && !rooms[i].IsDm();
        assert rooms[i] in rooms;
      }
    }
  }

  /** `nextSpaceRooms[0]?.id ?? appliedRooms[0]?.id ?? ""`. */
  function FallbackRoomId(spaceRooms: seq<Room>, applied: seq<Room>): (r: string)
  {
    FirstId(spaceRooms).GetOr(FirstId(applied).GetOr(""))
  }

  /** The current room after the deletion: the fallback room if the deleted room was current. */
  function NextCurrentRoomId(currentRoomId: string, roomId: string, rooms: seq<Room>, spaceId: string, next: SpaceLayout): string
  {
    var nextRooms := WithoutRoomId(rooms, roomId);
    if currentRoomId == roomId then
      FallbackRoomId(GetSpaceRooms(nextRooms, spaceId), ApplyLayoutToSpaceRooms(nextRooms, spaceId, next))
    else currentRoomId
  }

  /**
   * When the current room is deleted, the new current room is the first
   * remaining room of the space, else some remaining room, else none (`""`);
   * the deleted room is never current afterwards.
   */
  lemma {:induction false} NextCurrentRoomIdSpec(currentRoomId: string, roomId: string, rooms: seq<Room>, spaceId: string, next: SpaceLayout)
    requires roomId != []
    ensures var r := NextCurrentRoomId(currentRoomId, roomId, rooms, spaceId, next);
      var nextRooms := WithoutRoomId(rooms, roomId);
      var spaceRooms := GetSpaceRooms(nextRooms, spaceId);
      && r != roomId
      && (currentRoomId != roomId ==> r == currentRoomId)
      && (currentRoomId == roomId && spaceRooms != [] ==> r == spaceRooms[0].id)
      && (currentRoomId == roomId && r != "" ==> exists x :: x in rooms && x.id == r)
      && (currentRoomId == roomId && nextRooms == [] ==> r == "")
  {
    if currentRoomId == roomId {
      var nextRooms := WithoutRoomId(rooms, roomId);
      var spaceRooms := GetSpaceRooms(nextRooms, spaceId);
      var applied := ApplyLayoutToSpaceRooms(nextRooms, spaceId, next);
      var r := FallbackRoomId(spaceRooms, applied);
      if spaceRooms != [] {
        assert spaceRooms[0] in spaceRooms;
      } else if applied != [] {
        AppliedRoomsComeFrom(nextRooms, spaceId, next, applied[0]);
      } else {
        ApplyLayoutToSpaceRoomsSpec(nextRooms, spaceId, next);
      }
    }
  }

  /** Every room of `applyLayoutToSpaceRooms` is an input room with its placement filled in: same id, same space. */
  lemma {:induction false} AppliedRoomsComeFrom(rooms: seq<Room>, spaceId: string, l: SpaceLayout, x: Room)
    requires x in ApplyLayoutToSpaceRooms(rooms, spaceId, l)
    ensures exists y :: y in rooms && y.id == x.id && y.spaceId == x.spaceId
  {
    var others := OtherSpaceRooms(rooms, spaceId);
    var mine := GetSpaceRooms(rooms, spaceId);
    ApplyLayoutToSpaceRoomsSpec(rooms, spaceId, l);
    ApplyLayoutToRoomsSpec(mine, l);
    if x !in others {
      var placed := WithPlacements(mine, l);
      assert x in multiset(ApplyLayoutToRooms(mine, l));
      assert x in multiset(placed);
      var i :| 0 <= i < |placed| && placed[i] == x;
      assert mine[i] in rooms;
    }
  }

  /**
   * The state host of the space after the deletion: the first remaining non-DM
   * room (else the fallback room) when the deleted room was the host, the old
   * host otherwise, and `""` when there was none.
   */
  function NextStateHostRoomId(hosts: map<string, string>, spaceId: string, roomId: string, nextSpaceRooms: seq<Room>, fallbackRoomId: string): string
  {
    if spaceId in hosts && hosts[spaceId] == roomId then
      match FirstNonDm(nextSpaceRooms)
      case Some(room) => room.id
      case None => fallbackRoomId
    else if spaceId in hosts then hosts[spaceId]
    else ""
  }

  /**
   * A deleted room stops being its space's state host: a host that was the
   * deleted room is replaced by a remaining non-DM room of the space when there
   * is one, and any other host is kept.
   */
  lemma {:induction false} NextStateHostRoomIdSpec(hosts: map<string, string>, spaceId: string, roomId: string, nextSpaceRooms: seq<Room>, fallbackRoomId: string)
    requires roomId != []
    requires forall x :: x in nextSpaceRooms ==> x.id != roomId
    requires fallbackRoomId != roomId
    ensures var r := NextStateHostRoomId(hosts, spaceId, roomId, nextSpaceRooms, fallbackRoomId);
      && r != roomId
      && (spaceId in hosts && hosts[spaceId] != roomId ==> r == hosts[spaceId])
      && (spaceId in hosts && hosts[spaceId] == roomId && (exists x :: x in nextSpaceRooms && !x.IsDm()) ==>
            exists x :: x in nextSpaceRooms && !x.IsDm() && x.id == r)
  {
    if spaceId in hosts && hosts[spaceId] == roomId && FirstNonDm(nextSpaceRooms).Some? {
      assert FirstNonDm(nextSpaceRooms).value in nextSpaceRooms;
    }
  }
}
