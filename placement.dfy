/**
 * Room placements of a space layout: deriving a layout from the rooms alone and
 * hydrating a stored layout against the current rooms. Both walk the non-DM rooms
 * in order and give each one a category and an order, keeping one "next order"
 * counter per category.
 */
module Placements {
  import opened Wrappers
  import opened Text
  import opened Sorting
  import opened Entities
  import opened Layout

  /** `room.category?.trim() || "channels"`. */
  function FallbackCategory(room: Room): (r: string)
    ensures r != []
  {
    if room.category.Some? && TrimJs(room.category.value) != [] then TrimJs(room.category.value) else DefaultCategoryId
  }

  /** `rooms.filter((room) => room.type !== "dm")`. */
  function NonDm(rooms: seq<Room>): (r: seq<Room>)
    ensures forall x :: x in r <==> x in rooms && !x.IsDm()
    ensures |r| <= |rooms|
  {
    if rooms == [] then []
    else if rooms[0].IsDm() then NonDm(rooms[1..])
    else [rooms[0]] + NonDm(rooms[1..])
  }

  /** One room to place: its id, its category and the order it asks for, if any. */
  datatype PlaceRequest = PlaceRequest(roomId: string, categoryId: string, proposed: Option<int>)

  /** The placements built so far, in key insertion order, and the next order of every category. */
  datatype Placed = Placed(keys: seq<string>, rooms: map<string, Placement>, next: map<string, int>)

  /** `nextOrderByCategory.get(categoryId) ?? 0`. */
  function NextOrder(next: map<string, int>, categoryId: string): int
  {
    if categoryId in next then next[categoryId] else 0
  }

  /**
   * Places one room: the proposed order when it is at least the category's next
   * order, else the next order; the category's next order becomes one more.
   */
  function Place(acc: Placed, req: PlaceRequest): Placed
  {
    var current := NextOrder(acc.next, req.categoryId);
    var order := if req.proposed.Some? && req.proposed.value >= current then req.proposed.value else current;
    Placed(
      if req.roomId in acc.rooms then acc.keys else acc.keys + [req.roomId],
      acc.rooms[req.roomId := Placement(req.categoryId, order)],
      acc.next[req.categoryId := order + 1])
  }

  /** The `forEach` over the requests, from an empty record and empty counters. */
  function PlaceAll(reqs: seq<PlaceRequest>): Placed
  {
    if reqs == [] then Placed([], map[], map[])
    else Place(PlaceAll(reqs[..|reqs| - 1]), reqs[|reqs| - 1])
  }

  function RoomIds(reqs: seq<PlaceRequest>): (r: seq<string>)
    ensures |r| == |reqs| && forall i :: 0 <= i < |reqs| ==> r[i] == reqs[i].roomId
  {
    seq(|reqs|, i requires 0 <= i < |reqs| => reqs[i].roomId)
  }

  /** What every step keeps: the key list matches the map, and every order is below its category's next order. */
  ghost predicate PlacedInvariant(p: Placed)
  {
    && Distinct(p.keys)
    && (forall k :: k in p.rooms <==> k in p.keys)
    && (forall k :: k in p.rooms ==> p.rooms[k].categoryId in p.next && 0 <= p.rooms[k].order < p.next[p.rooms[k].categoryId])
    && (forall c :: c in p.next ==> p.next[c] >= 1)
  }

  lemma {:induction false} PlaceKeepsInvariant(acc: Placed, req: PlaceRequest)
    requires PlacedInvariant(acc)
    ensures PlacedInvariant(Place(acc, req))
  {
    PlaceKeepsKeys(acc, req);
    PlaceKeepsOrdersBelowNext(acc, req);
  }

  /** A step keeps the key list free of repetitions and in step with the map. */
  lemma {:induction false} PlaceKeepsKeys(acc: Placed, req: PlaceRequest)
    requires Distinct(acc.keys) && forall k :: k in acc.rooms <==> k in acc.keys
    ensures var p := Place(acc, req);
      Distinct(p.keys) && forall k :: k in p.rooms <==> k in p.keys
  {
    var p := Place(acc, req);
    if req.roomId !in acc.rooms {
      assert p.keys == acc.keys + [req.roomId];
      forall i, j | 0 <= i < j < |p.keys|
        ensures p.keys[i] != p.keys[j]
      {
        if j == |p.keys| - 1 {
          assert p.keys[i] == acc.keys[i];
          assert p.keys[i] in acc.rooms;
        }
      }
    }
  }

  /** A step keeps every order below its category's next order, and next orders positive. */
  lemma {:induction false} PlaceKeepsOrdersBelowNext(acc: Placed, req: PlaceRequest)
    requires forall k :: k in acc.rooms ==> acc.rooms[k].categoryId in acc.next && 0 <= acc.rooms[k].order < acc.next[acc.rooms[k].categoryId]
    requires forall c :: c in acc.next ==> acc.next[c] >= 1
    ensures var p := Place(acc, req);
      && (forall k :: k in p.rooms ==> p.rooms[k].categoryId in p.next && 0 <= p.rooms[k].order < p.next[p.rooms[k].categoryId])
      && (forall c :: c in p.next ==> p.next[c] >= 1)
  {
    var p := Place(acc, req);
    forall k | k in p.rooms
      ensures p.rooms[k].categoryId in p.next && 0 <= p.rooms[k].order < p.next[p.rooms[k].categoryId]
    {
      if k != req.roomId && acc.rooms[k].categoryId != req.categoryId {
        assert p.rooms[k] == acc.rooms[k];
      }
    }
  }

  /** Every step keeps `PlacedInvariant`: the key list matches the map, and orders are non-negative. */
  lemma {:induction false} PlaceAllInvariant(reqs: seq<PlaceRequest>)
    ensures PlacedInvariant(PlaceAll(reqs))
  {
    if reqs != [] {
      PlaceAllInvariant(reqs[..|reqs| - 1]);
      PlaceKeepsInvariant(PlaceAll(reqs[..|reqs| - 1]), reqs[|reqs| - 1]);
    }
  }

  /** The placed rooms are exactly the requested ones. */
  lemma {:induction false} PlaceAllKeys(reqs: seq<PlaceRequest>)
    ensures forall k :: k in PlaceAll(reqs).rooms <==> k in RoomIds(reqs)
  {
    if reqs != [] {
      var init := reqs[..|reqs| - 1];
      PlaceAllKeys(init);
      RoomIdsSnoc(reqs);
    }
  }

  lemma {:induction false} RoomIdsSnoc(reqs: seq<PlaceRequest>)
    requires reqs != []
    ensures forall k :: k in RoomIds(reqs) <==> k in RoomIds(reqs[..|reqs| - 1]) || k == reqs[|reqs| - 1].roomId
  {
    var init := reqs[..|reqs| - 1];
    forall k | k in RoomIds(reqs) && k != reqs[|reqs| - 1].roomId
      ensures k in RoomIds(init)
    {
      var i :| 0 <= i < |reqs| && RoomIds(reqs)[i] == k;
      assert RoomIds(init)[i] == k;
    }
    forall k | k in RoomIds(init)
      ensures k in RoomIds(reqs)
    {
      var i :| 0 <= i < |init| && RoomIds(init)[i] == k;
      assert RoomIds(reqs)[i] == k;
    }
  }

  /** Every placement's category is one of the requested categories. */
  lemma {:induction false} PlaceAllCategories(reqs: seq<PlaceRequest>, allowed: set<string>)
    requires forall i :: 0 <= i < |reqs| ==> reqs[i].categoryId in allowed
    ensures forall k :: k in PlaceAll(reqs).rooms ==> PlaceAll(reqs).rooms[k].categoryId in allowed
  {
    if reqs != [] {
      PlaceAllCategories(reqs[..|reqs| - 1], allowed);
    }
  }

  /** Without repeated room ids, dropping the last request keeps the rest distinct and different from it. */
  lemma {:induction false} DistinctRequests(reqs: seq<PlaceRequest>)
    requires reqs != [] && Distinct(RoomIds(reqs))
    ensures Distinct(RoomIds(reqs[..|reqs| - 1]))
    ensures forall i :: 0 <= i < |reqs| - 1 ==> reqs[i].roomId != reqs[|reqs| - 1].roomId
  {
    var n := |reqs|;
    var ids, initIds := RoomIds(reqs), RoomIds(reqs[..n - 1]);
    forall i, j | 0 <= i < j < n - 1
      ensures initIds[i] != initIds[j]
    {
      assert initIds[i] == ids[i] && initIds[j] == ids[j];
    }
    forall i | 0 <= i < n - 1
      ensures reqs[i].roomId != reqs[n - 1].roomId
    {
      assert ids[i] != ids[n - 1];
    }
  }

  /** Placing another room leaves an existing placement as it is. */
  lemma {:induction false} PlaceKeepsOthers(acc: Placed, req: PlaceRequest, k: string)
    requires k in acc.rooms && k != req.roomId
    ensures k in Place(acc, req).rooms && Place(acc, req).rooms[k] == acc.rooms[k]
  {
  }

  /** A room placed into a category goes after every room already there. */
  lemma {:induction false} PlaceOrderAbove(acc: Placed, req: PlaceRequest, k: string)
    requires PlacedInvariant(acc)
    requires k in acc.rooms && acc.rooms[k].categoryId == req.categoryId
    ensures Place(acc, req).rooms[req.roomId].order > acc.rooms[k].order
  {
  }

  /** With distinct room ids every room keeps the category it asked for. */
  lemma {:induction false} PlaceAllKeepsCategory(reqs: seq<PlaceRequest>)
    requires Distinct(RoomIds(reqs))
    ensures forall i :: 0 <= i < |reqs| ==>
      reqs[i].roomId in PlaceAll(reqs).rooms && PlaceAll(reqs).rooms[reqs[i].roomId].categoryId == reqs[i].categoryId
  {
    if reqs != [] {
      var n := |reqs|;
      var init := reqs[..n - 1];
      DistinctRequests(reqs);
      PlaceAllKeepsCategory(init);
      forall i | 0 <= i < n - 1
        ensures reqs[i].roomId in PlaceAll(reqs).rooms && PlaceAll(reqs).rooms[reqs[i].roomId].categoryId == reqs[i].categoryId
      {
        assert init[i] == reqs[i];
        PlaceKeepsOthers(PlaceAll(init), reqs[n - 1], reqs[i].roomId);
      }
    }
  }

  /** With distinct room ids the orders strictly increase, in request order, within each category. */
  lemma {:induction false} PlaceAllIncreasing(reqs: seq<PlaceRequest>)
    requires Distinct(RoomIds(reqs))
    ensures forall i :: 0 <= i < |reqs| ==> reqs[i].roomId in PlaceAll(reqs).rooms
    ensures forall i, j :: 0 <= i < j < |reqs| && reqs[i].categoryId == reqs[j].categoryId ==>
      PlaceAll(reqs).rooms[reqs[i].roomId].order < PlaceAll(reqs).rooms[reqs[j].roomId].order
  {
    PlaceAllKeepsCategory(reqs);
    if reqs != [] {
      var n := |reqs|;
      var init := reqs[..n - 1];
      var last := reqs[n - 1];
      DistinctRequests(reqs);
      PlaceAllIncreasing(init);
      PlaceAllKeepsCategory(init);
      PlaceAllInvariant(init);
      var prev := PlaceAll(init);
      var p := PlaceAll(reqs);
      forall i, j | 0 <= i < j < n && reqs[i].categoryId == reqs[j].categoryId
        ensures p.rooms[reqs[i].roomId].order < p.rooms[reqs[j].roomId].order
      {
        assert init[i] == reqs[i];
        PlaceKeepsOthers(prev, last, reqs[i].roomId);
        if j == n - 1 {
          PlaceOrderAbove(prev, last, reqs[i].roomId);
        } else {
          assert init[j] == reqs[j];
          PlaceKeepsOthers(prev, last, reqs[j].roomId);
        }
      }
    }
  }

  /**
   * Every id is placed and, among the ids placed in the same category, an
   * earlier id has the smaller order.
   */
  ghost predicate OrdersIncrease(rooms: map<string, Placement>, ids: seq<string>)
  {
    && (forall i :: 0 <= i < |ids| ==> ids[i] in rooms)
    && (forall i, j :: 0 <= i < j < |ids| && rooms[ids[i]].categoryId == rooms[ids[j]].categoryId ==>
          rooms[ids[i]].order < rooms[ids[j]].order)
  }

  /** With distinct room ids the placements' orders increase in request order within each category. */
  lemma {:induction false} PlaceAllOrdersIncrease(reqs: seq<PlaceRequest>)
    requires Distinct(RoomIds(reqs))
    ensures OrdersIncrease(PlaceAll(reqs).rooms, RoomIds(reqs))
  {
    PlaceAllKeepsCategory(reqs);
    PlaceAllIncreasing(reqs);
  }
}

module Hydration {
  import opened Wrappers
  import opened Text
  import opened Sorting
  import opened Entities
  import opened Layout
  import opened Placements

  /** The ids of the given rooms, in order. */
  function RoomIdsOf(rooms: seq<Room>): (r: seq<string>)
    ensures |r| == |rooms| && forall i :: 0 <= i < |rooms| ==> r[i] == rooms[i].id
  {
    seq(|rooms|, i requires 0 <= i < |rooms| => rooms[i].id)
  }

  /** `categoryNameById`: the fallback categories of the non-DM rooms, or `"channels"` alone when there are none. */
  function DerivedCategoryIds(rooms: seq<Room>): (r: seq<string>)
    ensures r != [] && Distinct(r)
    ensures forall x :: x in r ==> x != []
  {
    var nd := NonDm(rooms);
    var ids := FirstAppearances(seq(|nd|, i requires 0 <= i < |nd| => FallbackCategory(nd[i])));
    if ids == [] then [DefaultCategoryId] else ids
  }

  /** The derived categories before normalisation: named `"Channels"` or after their id, ordered by position. */
  function DerivedCategories(rooms: seq<Room>): seq<LayoutCategory>
  {
    var ids := DerivedCategoryIds(rooms);
    seq(|ids|, i requires 0 <= i < |ids| =>
      LayoutCategory(ids[i], if ids[i] == DefaultCategoryId then DefaultCategoryName else ids[i], Finite(i)))
  }

  function DeriveRequests(rooms: seq<Room>): (r: seq<PlaceRequest>)
    ensures |r| == |NonDm(rooms)|
    ensures forall i :: 0 <= i < |r| ==> r[i] == PlaceRequest(NonDm(rooms)[i].id, FallbackCategory(NonDm(rooms)[i]), None)
  {
    var nd := NonDm(rooms);
    seq(|nd|, i requires 0 <= i < |nd| => PlaceRequest(nd[i].id, FallbackCategory(nd[i]), None))
  }

  /** `deriveLayoutFromRooms`: every non-DM room goes to its fallback category, numbered per category from 0. */
  function DeriveLayoutFromRooms(rooms: seq<Room>): SpaceLayout
  {
    var placed := PlaceAll(DeriveRequests(rooms));
    SpaceLayout(NormalizeLayoutCategories(DerivedCategories(rooms)), placed.keys, placed.rooms)
  }

  /** The placement `hydrateLayoutForRooms` asks for one non-DM room. */
  function HydrateRequest(base: SpaceLayout, categoryIds: seq<string>, room: Room): PlaceRequest
  {
    var existing := if room.id in base.rooms then Some(base.rooms[room.id]) else None;
    var candidate := if existing.Some? && existing.value.categoryId != [] then existing.value.categoryId else FallbackCategory(room);
    PlaceRequest(
      room.id,
      if candidate in categoryIds then candidate else DefaultCategoryId,
      if existing.Some? then Some(existing.value.order) else None)
  }

  function HydrateRequests(base: SpaceLayout, categoryIds: seq<string>, rooms: seq<Room>): (r: seq<PlaceRequest>)
    ensures |r| == |NonDm(rooms)|
    ensures forall i :: 0 <= i < |r| ==> r[i] == HydrateRequest(base, categoryIds, NonDm(rooms)[i])
  {
    var nd := NonDm(rooms);
    seq(|nd|, i requires 0 <= i < |nd| => HydrateRequest(base, categoryIds, nd[i]))
  }

  /** `hydrateLayoutForRooms`: the stored layout (or one derived from the rooms) fitted to the current rooms. */
  function HydrateLayoutForRooms(layout: Option<SpaceLayout>, rooms: seq<Room>): SpaceLayout
  {
    var base := HydrateBase(layout, rooms);
    var categories := NormalizeLayoutCategories(base.categories);
    var placed := PlaceAll(HydrateRequests(base, Ids(categories), rooms));
    SpaceLayout(categories, placed.keys, placed.rooms)
  }

  /**
   * A hydrated layout has normalised categories; its placements are exactly the
   * non-DM rooms, listed once each; every placement's category is one of the
   * categories and its order is non-negative.
   */
  lemma {:induction false} HydrateSpec(layout: Option<SpaceLayout>, rooms: seq<Room>)
    ensures var r := HydrateLayoutForRooms(layout, rooms);
      && NormalizedCategories(r.categories)
      && WellKeyed(r)
      && (forall k :: k in r.rooms <==> k in RoomIdsOf(NonDm(rooms)))
      && (forall k :: k in r.rooms ==> r.rooms[k].categoryId in Ids(r.categories) && r.rooms[k].order >= 0)
  {
    HydrateCategories(layout, rooms);
    HydrateKeys(layout, rooms);
    HydrateValidPlacements(layout, rooms);
  }

  function HydrateBase(layout: Option<SpaceLayout>, rooms: seq<Room>): SpaceLayout
  {
    if layout.Some? then layout.value else DeriveLayoutFromRooms(rooms)
  }

  lemma {:induction false} HydrateCategories(layout: Option<SpaceLayout>, rooms: seq<Room>)
    ensures NormalizedCategories(HydrateLayoutForRooms(layout, rooms).categories)
  {
    NormalizeLayoutCategoriesSpec(HydrateBase(layout, rooms).categories);
  }

  lemma {:induction false} HydrateKeys(layout: Option<SpaceLayout>, rooms: seq<Room>)
    ensures var r := HydrateLayoutForRooms(layout, rooms);
      WellKeyed(r) && forall k :: k in r.rooms <==> k in RoomIdsOf(NonDm(rooms))
  {
    var base := HydrateBase(layout, rooms);
    var reqs := HydrateRequests(base, Ids(NormalizeLayoutCategories(base.categories)), rooms);
    HydratedRooms(layout, rooms);
    HydrateRequestIds(base, Ids(NormalizeLayoutCategories(base.categories)), rooms);
    PlaceAllInvariant(reqs);
    PlaceAllKeys(reqs);
  }

  lemma {:induction false} HydrateValidPlacements(layout: Option<SpaceLayout>, rooms: seq<Room>)
    ensures var r := HydrateLayoutForRooms(layout, rooms);
      forall k :: k in r.rooms ==> r.rooms[k].categoryId in Ids(r.categories) && r.rooms[k].order >= 0
  {
    var base := HydrateBase(layout, rooms);
    var categories := NormalizeLayoutCategories(base.categories);
    assert DefaultCategoryId in Ids(categories) by {
      NormalizeLayoutCategoriesSpec(base.categories);
    }
    var ids := Ids(categories);
    var reqs := HydrateRequests(base, ids, rooms);
    HydrateRequestsAllowed(base, ids, rooms);
    PlaceAllInvariant(reqs);
    PlaceAllCategories(reqs, set x | x in ids);
  }

  /** Every hydrated request names a known category, as long as `"channels"` is one. */
  lemma {:induction false} HydrateRequestsAllowed(base: SpaceLayout, ids: seq<string>, rooms: seq<Room>)
    requires DefaultCategoryId in ids
    ensures var reqs := HydrateRequests(base, ids, rooms);
      forall i :: 0 <= i < |reqs| ==> reqs[i].categoryId in set x | x in ids
  {
  }

  /**
   * With distinct non-DM room ids, every non-DM room is placed and, within each
   * category, the orders strictly increase in room order.
   */
  lemma {:induction false} HydrateIncreasing(layout: Option<SpaceLayout>, rooms: seq<Room>)
    requires Distinct(RoomIdsOf(NonDm(rooms)))
    ensures OrdersIncrease(HydrateLayoutForRooms(layout, rooms).rooms, RoomIdsOf(NonDm(rooms)))
  {
    var base := HydrateBase(layout, rooms);
    var reqs := HydrateRequests(base, Ids(NormalizeLayoutCategories(base.categories)), rooms);
    HydratedRooms(layout, rooms);
    HydrateRequestIds(base, Ids(NormalizeLayoutCategories(base.categories)), rooms);
    PlaceAllOrdersIncrease(reqs);
  }

  /** The placements of a hydrated layout are those `PlaceAll` makes from the hydrate requests. */
  lemma {:induction false} HydratedRooms(layout: Option<SpaceLayout>, rooms: seq<Room>)
    ensures var base := HydrateBase(layout, rooms);
      HydrateLayoutForRooms(layout, rooms).rooms ==
        PlaceAll(HydrateRequests(base, Ids(NormalizeLayoutCategories(base.categories)), rooms)).rooms
  {
  }

  /** The hydrate requests ask for the non-DM rooms in order. */
  lemma {:induction false} HydrateRequestIds(base: SpaceLayout, categoryIds: seq<string>, rooms: seq<Room>)
    ensures RoomIds(HydrateRequests(base, categoryIds, rooms)) == RoomIdsOf(NonDm(rooms))
  {
  }

  /**
   * A derived layout has normalised categories, places exactly the non-DM rooms,
   * and puts each one in a category of the layout.
   */
  lemma {:induction false} DeriveSpec(rooms: seq<Room>)
    ensures var r := DeriveLayoutFromRooms(rooms);
      && NormalizedCategories(r.categories)
      && WellKeyed(r)
      && (forall k :: k in r.rooms <==> k in RoomIdsOf(NonDm(rooms)))
      && (forall k :: k in r.rooms ==> r.rooms[k].categoryId in Ids(r.categories))
  {
    NormalizeLayoutCategoriesSpec(DerivedCategories(rooms));
    DeriveKeys(rooms);
    DeriveValidPlacements(rooms);
  }

  lemma {:induction false} DeriveKeys(rooms: seq<Room>)
    ensures var r := DeriveLayoutFromRooms(rooms);
      WellKeyed(r) && forall k :: k in r.rooms <==> k in RoomIdsOf(NonDm(rooms))
  {
    var reqs := DeriveRequests(rooms);
    PlaceAllInvariant(reqs);
    PlaceAllKeys(reqs);
    assert RoomIds(reqs) == RoomIdsOf(NonDm(rooms));
  }

  lemma {:induction false} DeriveValidPlacements(rooms: seq<Room>)
    ensures var r := DeriveLayoutFromRooms(rooms);
      forall k :: k in r.rooms ==> r.rooms[k].categoryId in Ids(r.categories)
  {
    var derived := DerivedCategories(rooms);
    var ids := DerivedCategoryIds(rooms);
    var reqs := DeriveRequests(rooms);
    assert Ids(derived) == ids;
    var allowed := set x | x in ids;
    DeriveRequestsAllowed(rooms);
    PlaceAllCategories(reqs, allowed);
    assert forall x :: x in allowed ==> x in Ids(NormalizeLayoutCategories(derived)) by {
      NormalizeLayoutCategoriesSpec(derived);
    }
  }

  /** Every derived request names one of the derived categories. */
  lemma {:induction false} DeriveRequestsAllowed(rooms: seq<Room>)
    ensures var reqs := DeriveRequests(rooms);
      forall i :: 0 <= i < |reqs| ==> reqs[i].categoryId in DerivedCategoryIds(rooms)
  {
    var nd := NonDm(rooms);
    var fallbacks := seq(|nd|, i requires 0 <= i < |nd| => FallbackCategory(nd[i]));
    var reqs := DeriveRequests(rooms);
    forall i | 0 <= i < |reqs|
      ensures reqs[i].categoryId in DerivedCategoryIds(rooms)
    {
      assert reqs[i].categoryId == fallbacks[i];
    }
  }
}
