/**
 * Turning a space layout back into room records and category lists, and the
 * helpers the room actions use to pick a space's rooms and its state host
 * room (`applyLayoutToRooms`, `layoutToCategories`, `getSpaceRooms`,
 * `withUpdatedSpaceRooms`, `applyLayoutToSpaceRooms`,
 * `resolveSpaceStateHostRoomId`).
 */
module ApplyLayout {
  import opened Wrappers
  import opened Text
  import opened Sorting
  import opened Entities
  import opened Layout

  /** `DEFAULT_SPACE.id`: the pseudo-space holding every room when there are no real spaces. */
  const DefaultSpaceId: string := "all"

  // ---------------------------------------------------------------------------
  // layoutToCategories
  // ---------------------------------------------------------------------------

  /** `layoutToCategories`: the normalised categories as plain `Category` records. */
  function LayoutToCategories(l: SpaceLayout): seq<Category>
  {
    AsCategories(NormalizeLayoutCategories(l.categories))
  }

  /** Each layout category as a `Category` record, its order read with `OrderKey`. */
  function AsCategories(cats: seq<LayoutCategory>): (r: seq<Category>)
    ensures |r| == |cats| && forall i :: 0 <= i < |cats| ==> r[i] == Category(cats[i].id, cats[i].name, OrderKey(cats[i]))
  {
    seq(|cats|, i requires 0 <= i < |cats| => Category(cats[i].id, cats[i].name, OrderKey(cats[i])))
  }

  function CategoryIds(cs: seq<Category>): (r: seq<string>)
    ensures |r| == |cs| && forall i :: 0 <= i < |cs| ==> r[i] == cs[i].id
  {
    seq(|cs|, i requires 0 <= i < |cs| => cs[i].id)
  }

  /**
   * The category list has distinct non-empty ids including `"channels"`, the
   * i-th has order i, and its ids are the layout's non-empty ids plus
   * `"channels"`.
   */
  lemma {:induction false} LayoutToCategoriesSpec(l: SpaceLayout)
    ensures var r := LayoutToCategories(l);
      && Distinct(CategoryIds(r))
      && (forall i :: 0 <= i < |r| ==> r[i].order == i && r[i].id != [] && IsCategoryName(r[i].name))
      && (forall x :: x in CategoryIds(r) <==> x == DefaultCategoryId || (x != [] && x in Ids(l.categories)))
  {
    var cats := NormalizeLayoutCategories(l.categories);
    NormalizeLayoutCategoriesSpec(l.categories);
    AsNormalizedCategories(cats);
  }

  /** Records of a normalised list keep its ids, number the categories in order and keep their names. */
  lemma {:induction false} AsNormalizedCategories(cats: seq<LayoutCategory>)
    requires NormalizedCategories(cats)
    ensures var r := AsCategories(cats);
      && CategoryIds(r) == Ids(cats)
      && (forall i :: 0 <= i < |r| ==> r[i].order == i && r[i].id != [] && IsCategoryName(r[i].name))
  {
    var r := AsCategories(cats);
    var ids := CategoryIds(r);
    assert ids == Ids(cats) by {
      forall i | 0 <= i < |ids|
        ensures ids[i] == Ids(cats)[i]
      {
        assert ids[i] == r[i].id == cats[i].id;
      }
    }
    forall i | 0 <= i < |r|
      ensures r[i].order == i && r[i].id != [] && IsCategoryName(r[i].name)
    {
      assert cats[i].order == Finite(i);
      assert Ids(cats)[i] == r[i].id;
    }
  }

  /** For a layout whose categories are already normalised, the list is exactly those categories. */
  lemma {:induction false} LayoutToCategoriesOfNormalized(l: SpaceLayout)
    requires NormalizedCategories(l.categories)
    ensures var r := LayoutToCategories(l);
      |r| == |l.categories| && forall i :: 0 <= i < |r| ==> r[i] == Category(l.categories[i].id, l.categories[i].name, i)
  {
    NormalizeLayoutCategoriesIdempotent(l.categories);
    assert LayoutToCategories(l) == AsCategories(l.categories);
    NumberedCategories(l.categories);
  }

  /** A normalised list's records carry each category's index as its order. */
  lemma {:induction false} NumberedCategories(cats: seq<LayoutCategory>)
    requires forall i :: 0 <= i < |cats| ==> cats[i].order == Finite(i)
    ensures forall i :: 0 <= i < |cats| ==> AsCategories(cats)[i] == Category(cats[i].id, cats[i].name, i)
  {
    forall i | 0 <= i < |cats|
      ensures OrderKey(cats[i]) == i
    {
      assert cats[i].order == Finite(i);
    }
  }

  // ---------------------------------------------------------------------------
  // applyLayoutToRooms
  // ---------------------------------------------------------------------------

  /**
   * The room record a layout implies: a DM is left as it is; another room takes
   * its placement's category and order, or `"channels"` and 0 when it has none.
   */
  function WithPlacement(room: Room, l: SpaceLayout): Room
  {
    if room.IsDm() then room
    else if room.id in l.rooms then
      room.(category := Some(l.rooms[room.id].categoryId), sortOrder := Some(l.rooms[room.id].order))
    else
      room.(category := Some(DefaultCategoryId), sortOrder := Some(0))
  }

  function WithPlacements(rooms: seq<Room>, l: SpaceLayout): (r: seq<Room>)
    ensures |r| == |rooms| && forall i :: 0 <= i < |rooms| ==> r[i] == WithPlacement(rooms[i], l)
  {
    seq(|rooms|, i requires 0 <= i < |rooms| => WithPlacement(rooms[i], l))
  }

  /**
   * The comparator of `applyLayoutToRooms` is negative: non-DMs come before DMs,
   * DMs go by name, other rooms by `sortOrder` (missing counts as 0) and then by name.
   */
  predicate RoomBefore(left: Room, right: Room)
  {
    if !left.IsDm() && right.IsDm() then true
    else if left.IsDm() && !right.IsDm() then false
    else if left.IsDm() && right.IsDm() then CodeUnitLess(left.name, right.name)
    else
      var lo := left.sortOrder.GetOr(0);
      var ro := right.sortOrder.GetOr(0);
      if lo != ro then lo < ro else CodeUnitLess(left.name, right.name)
  }

  /** The room comparator is consistent, so the stable sort is well defined. */
  lemma {:induction false} RoomBeforePreorder()
    ensures Preorder(RoomBefore)
  {
    forall a: Room, b: Room
      ensures RoomBefore(a, b) ==> !RoomBefore(b, a)
    {
      CodeUnitLessOrder(a.name, b.name, b.name);
    }
    forall a: Room, b: Room, c: Room
      ensures !RoomBefore(b, a) && !RoomBefore(c, b) ==> !RoomBefore(c, a)
    {
      CodeUnitLessOrder(a.name, b.name, c.name);
      CodeUnitLessOrder(c.name, b.name, a.name);
      CodeUnitLessOrder(c.name, a.name, b.name);
      CodeUnitLessOrder(b.name, c.name, a.name);
    }
  }

  /** `applyLayoutToRooms`: every room takes its placement, then the list is sorted stably. */
  function ApplyLayoutToRooms(rooms: seq<Room>, l: SpaceLayout): seq<Room>
  {
    RoomBeforePreorder();
    SortBy(WithPlacements(rooms, l), RoomBefore)
  }

  /**
   * Applying a layout rearranges the rooms with their placements filled in and
   * nothing else; every DM comes after every other room, DMs are in name order
   * and the other rooms in order of their layout position, then of their name.
   */
  lemma {:induction false} ApplyLayoutToRoomsSpec(rooms: seq<Room>, l: SpaceLayout)
    ensures var r := ApplyLayoutToRooms(rooms, l);
      && multiset(r) == multiset(WithPlacements(rooms, l))
      && (forall i, j :: 0 <= i < j < |r| && r[i].IsDm() ==> r[j].IsDm())
      && (forall i, j :: 0 <= i < j < |r| && r[i].IsDm() ==> !CodeUnitLess(r[j].name, r[i].name))
      && (forall i, j :: 0 <= i < j < |r| && !r[j].IsDm() ==>
            r[i].sortOrder.Some? && r[j].sortOrder.Some? && r[i].sortOrder.value <= r[j].sortOrder.value)
      && (forall i, j :: 0 <= i < j < |r| && !r[j].IsDm() && r[i].sortOrder == r[j].sortOrder ==>
            !CodeUnitLess(r[j].name, r[i].name))
  {
    var r := ApplyLayoutToRooms(rooms, l);
    PlacedRoomsHaveOrders(rooms, l, r);
    SortedRoomsOrder(r);
  }

  /** Every non-DM room of a rearrangement of the placed rooms has a sort order. */
  lemma {:induction false} PlacedRoomsHaveOrders(rooms: seq<Room>, l: SpaceLayout, r: seq<Room>)
    requires multiset(r) == multiset(WithPlacements(rooms, l))
    ensures forall x :: x in r && !x.IsDm() ==> x.sortOrder.Some?
  {
    var placed := WithPlacements(rooms, l);
    forall x | x in r && !x.IsDm()
      ensures x.sortOrder.Some?
    {
      assert x in multiset(placed);
      var k :| 0 <= k < |placed| && placed[k] == x;
    }
  }

  /** What a list sorted by the room comparator looks like, when every non-DM room has a sort order. */
  lemma {:induction false} SortedRoomsOrder(r: seq<Room>)
    requires SortedBy(r, RoomBefore)
    requires forall x :: x in r && !x.IsDm() ==> x.sortOrder.Some?
    ensures forall i, j :: 0 <= i < j < |r| && r[i].IsDm() ==> r[j].IsDm()
    ensures forall i, j :: 0 <= i < j < |r| && r[i].IsDm() ==> !CodeUnitLess(r[j].name, r[i].name)
    ensures forall i, j :: 0 <= i < j < |r| && !r[j].IsDm() ==>
      r[i].sortOrder.Some? && r[j].sortOrder.Some? && r[i].sortOrder.value <= r[j].sortOrder.value
    ensures forall i, j :: 0 <= i < j < |r| && !r[j].IsDm() && r[i].sortOrder == r[j].sortOrder ==>
      !CodeUnitLess(r[j].name, r[i].name)
  {
    forall i, j | 0 <= i < j < |r|
      ensures !RoomBefore(r[j], r[i])
    {
    }
  }

  // ---------------------------------------------------------------------------
  // The rooms of one space
  // ---------------------------------------------------------------------------

  /** `getSpaceRooms`: the rooms of the space, in their order. */
  function GetSpaceRooms(rooms: seq<Room>, spaceId: string): (r: seq<Room>)
    ensures forall x :: x in r <==> x in rooms && x.spaceId == spaceId
    ensures |r| <= |rooms|
  {
    if rooms == [] then []
    else if rooms[0].spaceId == spaceId then [rooms[0]] + GetSpaceRooms(rooms[1..], spaceId)
    else GetSpaceRooms(rooms[1..], spaceId)
  }

  /** `rooms.filter((room) => room.spaceId !== spaceId)`. */
  function OtherSpaceRooms(rooms: seq<Room>, spaceId: string): (r: seq<Room>)
    ensures forall x :: x in r <==> x in rooms && x.spaceId != spaceId
  {
    if rooms == [] then []
    else if rooms[0].spaceId != spaceId then [rooms[0]] + OtherSpaceRooms(rooms[1..], spaceId)
    else OtherSpaceRooms(rooms[1..], spaceId)
  }

  /** Splitting by space loses and invents nothing. */
  lemma {:induction false} SpaceSplit(rooms: seq<Room>, spaceId: string)
    ensures multiset(OtherSpaceRooms(rooms, spaceId)) + multiset(GetSpaceRooms(rooms, spaceId)) == multiset(rooms)
  {
    if rooms != [] {
      SpaceSplit(rooms[1..], spaceId);
      SpaceSplitStep(rooms, spaceId);
      assert rooms == [rooms[0]] + rooms[1..];
    }
  }

  /** The first room goes to exactly one side of the split. */
  lemma {:induction false} SpaceSplitStep(rooms: seq<Room>, spaceId: string)
    requires rooms != []
    ensures multiset(OtherSpaceRooms(rooms, spaceId)) + multiset(GetSpaceRooms(rooms, spaceId)) ==
      multiset{rooms[0]} + multiset(OtherSpaceRooms(rooms[1..], spaceId)) + multiset(GetSpaceRooms(rooms[1..], spaceId))
  {
    var tail := rooms[1..];
    var mine, others := GetSpaceRooms(tail, spaceId), OtherSpaceRooms(tail, spaceId);
    if rooms[0].spaceId == spaceId {
      assert GetSpaceRooms(rooms, spaceId) == [rooms[0]] + mine;
      assert OtherSpaceRooms(rooms, spaceId) == others;
      assert multiset([rooms[0]] + mine) == multiset{rooms[0]} + multiset(mine);
    } else {
      assert OtherSpaceRooms(rooms, spaceId) == [rooms[0]] + others;
      assert GetSpaceRooms(rooms, spaceId) == mine;
      assert multiset([rooms[0]] + others) == multiset{rooms[0]} + multiset(others);
    }
  }

  lemma {:induction false} NoOtherSpaceRooms(rooms: seq<Room>, spaceId: string)
    requires forall i :: 0 <= i < |rooms| ==> rooms[i].spaceId == spaceId
    ensures OtherSpaceRooms(rooms, spaceId) == []
  {
    if rooms != [] {
      assert forall i :: 0 <= i < |rooms[1..]| ==> rooms[1..][i].spaceId == spaceId by {
        forall i | 0 <= i < |rooms[1..]|
          ensures rooms[1..][i].spaceId == spaceId
        {
          assert rooms[1..][i] == rooms[i + 1];
        }
      }
      NoOtherSpaceRooms(rooms[1..], spaceId);
    }
  }

  /**
   * `withUpdatedSpaceRooms`: the updated rooms replace the whole list when every
   * room is in the space; otherwise they follow the rooms of other spaces.
   */
  function WithUpdatedSpaceRooms(rooms: seq<Room>, spaceId: string, updated: seq<Room>): seq<Room>
  {
    if forall i :: 0 <= i < |rooms| ==> rooms[i].spaceId == spaceId then updated
    else OtherSpaceRooms(rooms, spaceId) + updated
  }

  /** `applyLayoutToSpaceRooms`: apply the layout to one space's rooms, keeping the others. */
  function ApplyLayoutToSpaceRooms(rooms: seq<Room>, spaceId: string, l: SpaceLayout): seq<Room>
  {
    WithUpdatedSpaceRooms(rooms, spaceId, ApplyLayoutToRooms(GetSpaceRooms(rooms, spaceId), l))
  }

  /**
   * The rooms of other spaces come first, unchanged and in their order; after them
   * come the space's own rooms with the layout applied, and no room is lost or
   * duplicated.
   */
  lemma {:induction false} ApplyLayoutToSpaceRoomsSpec(rooms: seq<Room>, spaceId: string, l: SpaceLayout)
    ensures var r := ApplyLayoutToSpaceRooms(rooms, spaceId, l);
      && r == OtherSpaceRooms(rooms, spaceId) + ApplyLayoutToRooms(GetSpaceRooms(rooms, spaceId), l)
      && multiset(r) == multiset(OtherSpaceRooms(rooms, spaceId)) + multiset(WithPlacements(GetSpaceRooms(rooms, spaceId), l))
      && |r| == |rooms|
  {
    var others := OtherSpaceRooms(rooms, spaceId);
    var mine := GetSpaceRooms(rooms, spaceId);
    var updated := ApplyLayoutToRooms(mine, l);
    UpdatedSpaceRooms(rooms, spaceId, updated);
    assert multiset(others + updated) == multiset(others) + multiset(updated);
    SpaceSplitSizes(rooms, spaceId);
  }

  /** The updated rooms always follow the rooms of other spaces, of which there are none when every room is in the space. */
  lemma {:induction false} UpdatedSpaceRooms(rooms: seq<Room>, spaceId: string, updated: seq<Room>)
    ensures WithUpdatedSpaceRooms(rooms, spaceId, updated) == OtherSpaceRooms(rooms, spaceId) + updated
  {
    if forall i :: 0 <= i < |rooms| ==> rooms[i].spaceId == spaceId {
      NoOtherSpaceRooms(rooms, spaceId);
    }
  }

  /** The two sides of the split add up to the whole list. */
  lemma {:induction false} SpaceSplitSizes(rooms: seq<Room>, spaceId: string)
    ensures |OtherSpaceRooms(rooms, spaceId)| + |GetSpaceRooms(rooms, spaceId)| == |rooms|
  {
    SpaceSplit(rooms, spaceId);
    assert |multiset(OtherSpaceRooms(rooms, spaceId))| + |multiset(GetSpaceRooms(rooms, spaceId))| == |multiset(rooms)|;
  }

  // ---------------------------------------------------------------------------
  // resolveSpaceStateHostRoomId
  // ---------------------------------------------------------------------------

  /** `rooms.find((room) => room.type !== "dm")`. */
  function FirstNonDm(rooms: seq<Room>): (r: Option<Room>)
    ensures r.Some? ==> r.value in rooms && !r.value.IsDm()
    ensures r.None? ==> forall x :: x in rooms ==> x.IsDm()
  {
    if rooms == [] then None
    else if !rooms[0].IsDm() then Some(rooms[0])
    else FirstNonDm(rooms[1..])
  }

  /** A JavaScript string that is present and not empty. */
  predicate Truthy(s: Option<string>)
  {
    s.Some? && s.value != []
  }

  /**
   * `resolveSpaceStateHostRoomId`: a real space hosts its own state; the
   * all-rooms pseudo-space uses its mapped host, else the current room, else the
   * first non-DM room, else the first room.
   */
  function ResolveSpaceStateHostRoomId(currentRoomId: string, rooms: seq<Room>, hosts: map<string, string>, spaceId: string): Option<string>
  {
    if spaceId == [] then None
    else if spaceId != DefaultSpaceId then Some(spaceId)
    else if spaceId in hosts && hosts[spaceId] != [] then Some(hosts[spaceId])
    else if FindRoom(rooms, currentRoomId).Some? then Some(currentRoomId)
    else if FirstNonDm(rooms).Some? then Some(FirstNonDm(rooms).value.id)
    else if rooms != [] then Some(rooms[0].id)
    else None
  }

  /**
   * There is no host exactly for an empty space id, or for the all-rooms space
   * with no mapped host and no rooms; a host is the space itself, its mapped
   * host, or one of the rooms, preferring the current room and then non-DMs.
   */
  lemma {:induction false} ResolveSpaceStateHostRoomIdSpec(currentRoomId: string, rooms: seq<Room>, hosts: map<string, string>, spaceId: string)
    ensures var r := ResolveSpaceStateHostRoomId(currentRoomId, rooms, hosts, spaceId);
      && (r.None? <==> spaceId == [] || (spaceId == DefaultSpaceId && !(spaceId in hosts && hosts[spaceId] != []) && rooms == []))
      && (r.Some? && spaceId != DefaultSpaceId ==> r.value == spaceId)
      && (r.Some? && spaceId == DefaultSpaceId && !(spaceId in hosts && hosts[spaceId] != []) ==>
            exists i :: 0 <= i < |rooms| && rooms[i].id == r.value)
      && (r.Some? && spaceId == DefaultSpaceId && !(spaceId in hosts && hosts[spaceId] != []) && r.value != currentRoomId
            && (exists i :: 0 <= i < |rooms| && !rooms[i].IsDm()) ==>
            exists i :: 0 <= i < |rooms| && rooms[i].id == r.value && !rooms[i].IsDm())
  {
    var r := ResolveSpaceStateHostRoomId(currentRoomId, rooms, hosts, spaceId);
    if spaceId == DefaultSpaceId && !(spaceId in hosts && hosts[spaceId] != []) && r.Some? {
      if FindRoom(rooms, currentRoomId).Some? {
        var x := FindRoom(rooms, currentRoomId).value;
        var i :| 0 <= i < |rooms| && rooms[i] == x;
      } else if FirstNonDm(rooms).Some? {
        var x := FirstNonDm(rooms).value;
        var i :| 0 <= i < |rooms| && rooms[i] == x;
      } else {
        assert rooms[0] in rooms;
      }
    }
  }
}
