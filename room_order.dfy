/**
 * The order of the rooms inside one category: reading it off a layout
 * (`getOrderedRoomIdsByCategory`) and writing it back (`setRoomOrderForCategory`,
 * here the pure `WithRoomOrder`; the in-place version is `LayoutDraft`).
 */
module RoomOrder {
  import opened Sorting
  import opened Layout

  /** One `[roomId, placement]` pair of `Object.entries(layout.rooms)`, reduced to what the sort looks at. */
  datatype Entry = Entry(roomId: string, order: int)

  function EntryOrder(e: Entry): int
  {
    e.order
  }

  function EntryRoomId(e: Entry): string
  {
    e.roomId
  }

  /** The entries, in key order, whose placement is in `categoryId`. */
  function CategoryEntries(keys: seq<string>, rooms: map<string, Placement>, categoryId: string): (r: seq<Entry>)
    ensures forall e :: e in r ==>
      e.roomId in keys && e.roomId in rooms && rooms[e.roomId].categoryId == categoryId && e.order == rooms[e.roomId].order
    ensures forall k :: k in keys && k in rooms && rooms[k].categoryId == categoryId ==> Entry(k, rooms[k].order) in r
    ensures Distinct(keys) ==> forall i, j :: 0 <= i < j < |r| ==> r[i].roomId != r[j].roomId
  {
    if keys == [] then []
    else
      var rest := CategoryEntries(keys[1..], rooms, categoryId);
      assert forall k :: k in keys ==> k == keys[0] || k in keys[1..];
      if keys[0] in rooms && rooms[keys[0]].categoryId == categoryId then
        [Entry(keys[0], rooms[keys[0]].order)] + rest
      else rest
  }

  function EntryIds(es: seq<Entry>): (r: seq<string>)
    ensures |r| == |es| && forall i :: 0 <= i < |es| ==> r[i] == es[i].roomId
  {
    seq(|es|, i requires 0 <= i < |es| => es[i].roomId)
  }

  /** `getOrderedRoomIdsByCategory`: the rooms of a category, sorted stably by order. */
  function GetOrderedRoomIdsByCategory(l: SpaceLayout, categoryId: string): seq<string>
  {
    EntryIds(SortByKey(CategoryEntries(l.roomKeys, l.rooms, categoryId), EntryOrder))
  }

  /**
   * The ordered ids of a category are exactly its rooms, each once, in
   * non-decreasing order.
   */
  lemma {:induction false} GetOrderedSpec(l: SpaceLayout, categoryId: string)
    requires WellKeyed(l)
    ensures var r := GetOrderedRoomIdsByCategory(l, categoryId);
      && Distinct(r)
      && (forall k :: k in r <==> k in l.rooms && l.rooms[k].categoryId == categoryId)
      && (forall i, j :: 0 <= i < j < |r| ==> l.rooms[r[i]].order <= l.rooms[r[j]].order)
  {
    GetOrderedDistinct(l, categoryId);
    GetOrderedMembers(l, categoryId);
    GetOrderedSorted(l, categoryId);
  }

  lemma {:induction false} SortedEntriesSameMembers(es: seq<Entry>)
    ensures forall e :: e in SortByKey(es, EntryOrder) <==> e in es
  {
    var sorted := SortByKey(es, EntryOrder);
    forall e
      ensures e in sorted <==> e in es
    {
      assert e in sorted <==> e in multiset(sorted);
      assert e in es <==> e in multiset(es);
    }
  }

  lemma {:induction false} GetOrderedDistinct(l: SpaceLayout, categoryId: string)
    requires WellKeyed(l)
    ensures Distinct(GetOrderedRoomIdsByCategory(l, categoryId))
  {
    var es := CategoryEntries(l.roomKeys, l.rooms, categoryId);
    var sorted := SortByKey(es, EntryOrder);
    var r := EntryIds(sorted);
    PermutationKeepsDistinctKeys(es, sorted, EntryRoomId);
    forall i, j | 0 <= i < j < |r|
      ensures r[i] != r[j]
    {
      assert EntryRoomId(sorted[i]) != EntryRoomId(sorted[j]);
    }
  }

  lemma {:induction false} GetOrderedMembers(l: SpaceLayout, categoryId: string)
    ensures var r := GetOrderedRoomIdsByCategory(l, categoryId);
      forall k :: k in r <==> k in l.rooms && k in l.roomKeys && l.rooms[k].categoryId == categoryId
  {
    var es := CategoryEntries(l.roomKeys, l.rooms, categoryId);
    var sorted := SortByKey(es, EntryOrder);
    var r := EntryIds(sorted);
    SortedEntriesSameMembers(es);
    forall k
      ensures k in r <==> k in l.rooms && k in l.roomKeys && l.rooms[k].categoryId == categoryId
    {
      if k in r {
        var i :| 0 <= i < |r| && r[i] == k;
        assert sorted[i] in es;
      }
      if k in l.rooms && k in l.roomKeys && l.rooms[k].categoryId == categoryId {
        assert Entry(k, l.rooms[k].order) in sorted;
        var i :| 0 <= i < |sorted| && sorted[i] == Entry(k, l.rooms[k].order);
        assert r[i] == k;
      }
    }
  }

  lemma {:induction false} GetOrderedSorted(l: SpaceLayout, categoryId: string)
    ensures var r := GetOrderedRoomIdsByCategory(l, categoryId);
      forall i, j :: 0 <= i < j < |r| ==> r[i] in l.rooms && r[j] in l.rooms && l.rooms[r[i]].order <= l.rooms[r[j]].order
  {
    var es := CategoryEntries(l.roomKeys, l.rooms, categoryId);
    var sorted := SortByKey(es, EntryOrder);
    var r := EntryIds(sorted);
    SortedEntriesSameMembers(es);
    forall i, j | 0 <= i < j < |r|
      ensures r[i] in l.rooms && r[j] in l.rooms && l.rooms[r[i]].order <= l.rooms[r[j]].order
    {
      assert sorted[i] in es && sorted[j] in es;
      assert EntryOrder(sorted[i]) <= EntryOrder(sorted[j]);
    }
  }

  /** `layout.rooms[roomId] = placement`: a new key is enumerated last, a reassigned key keeps its place. */
  function Assign(l: SpaceLayout, roomId: string, p: Placement): SpaceLayout
  {
    l.(roomKeys := if roomId in l.rooms then l.roomKeys else l.roomKeys + [roomId], rooms := l.rooms[roomId := p])
  }

  /** `setRoomOrderForCategory`: the i-th listed room is placed in the category with order i. */
  function WithRoomOrder(l: SpaceLayout, categoryId: string, roomIds: seq<string>): SpaceLayout
  {
    if roomIds == [] then l
    else
      var n := |roomIds|;
      Assign(WithRoomOrder(l, categoryId, roomIds[..n - 1]), roomIds[n - 1], Placement(categoryId, n - 1))
  }

  lemma {:induction false} AssignKeepsWellKeyed(l: SpaceLayout, roomId: string, p: Placement)
    requires WellKeyed(l)
    ensures WellKeyed(Assign(l, roomId, p))
  {
    var r := Assign(l, roomId, p);
    if roomId !in l.rooms {
      forall i, j | 0 <= i < j < |r.roomKeys|
        ensures r.roomKeys[i] != r.roomKeys[j]
      {
        if j == |r.roomKeys| - 1 {
          assert r.roomKeys[i] == l.roomKeys[i];
        }
      }
    }
  }

  /**
   * Writing an order keeps the key list matched to the map, adds exactly the
   * listed rooms, and leaves every unlisted room as it was.
   */
  lemma {:induction false} WithRoomOrderKeys(l: SpaceLayout, categoryId: string, roomIds: seq<string>)
    ensures var r := WithRoomOrder(l, categoryId, roomIds);
      && r.categories == l.categories
      && (WellKeyed(l) ==> WellKeyed(r))
      && (forall k :: k in r.rooms <==> k in l.rooms || k in roomIds)
      && (forall k :: k in l.rooms && k !in roomIds ==> r.rooms[k] == l.rooms[k])
  {
    if roomIds != [] {
      var n := |roomIds|;
      var init := roomIds[..n - 1];
      WithRoomOrderKeys(l, categoryId, init);
      if WellKeyed(l) {
        AssignKeepsWellKeyed(WithRoomOrder(l, categoryId, init), roomIds[n - 1], Placement(categoryId, n - 1));
      }
      assert forall k :: k in roomIds <==> k in init || k == roomIds[n - 1] by {
        assert roomIds == init + [roomIds[n - 1]];
      }
    }
  }

  /** With distinct ids, the i-th listed room ends up in the category with order i. */
  lemma {:induction false} WithRoomOrderPlacements(l: SpaceLayout, categoryId: string, roomIds: seq<string>)
    requires Distinct(roomIds)
    ensures var r := WithRoomOrder(l, categoryId, roomIds);
      forall i :: 0 <= i < |roomIds| ==> roomIds[i] in r.rooms && r.rooms[roomIds[i]] == Placement(categoryId, i)
  {
    if roomIds != [] {
      var n := |roomIds|;
      var init := roomIds[..n - 1];
      WithRoomOrderPlacements(l, categoryId, init);
      forall i | 0 <= i < n - 1
        ensures roomIds[i] != roomIds[n - 1] && init[i] == roomIds[i]
      {
      }
    }
  }

  /**
   * Reading back an order just written gives it again, when the listed rooms are
   * distinct and include every room already in the category.
   */
  lemma {:induction false} WithRoomOrderRoundTrip(l: SpaceLayout, categoryId: string, roomIds: seq<string>)
    requires WellKeyed(l) && Distinct(roomIds)
    requires forall k :: k in l.rooms && l.rooms[k].categoryId == categoryId ==> k in roomIds
    ensures GetOrderedRoomIdsByCategory(WithRoomOrder(l, categoryId, roomIds), categoryId) == roomIds
  {
    WithRoomOrderKeys(l, categoryId, roomIds);
    WithRoomOrderPlacements(l, categoryId, roomIds);
    OrderedReadBack(WithRoomOrder(l, categoryId, roomIds), categoryId, roomIds);
  }

  /**
   * A category whose rooms are exactly the listed ones, the i-th with order i,
   * reads back as that list.
   */
  lemma {:induction false} OrderedReadBack(r: SpaceLayout, categoryId: string, roomIds: seq<string>)
    requires WellKeyed(r) && Distinct(roomIds)
    requires forall i :: 0 <= i < |roomIds| ==> roomIds[i] in r.rooms && r.rooms[roomIds[i]] == Placement(categoryId, i)
    requires forall k :: k in r.rooms && r.rooms[k].categoryId == categoryId ==> k in roomIds
    ensures GetOrderedRoomIdsByCategory(r, categoryId) == roomIds
  {
    var out := GetOrderedRoomIdsByCategory(r, categoryId);
    GetOrderedSpec(r, categoryId);
    assert forall k :: k in out <==> k in roomIds by {
      forall k | k in roomIds
        ensures k in out
      {
        var i :| 0 <= i < |roomIds| && roomIds[i] == k;
      }
    }
    assert |out| == |roomIds| by {
      SameElementsSameMultiset(out, roomIds);
      assert |multiset(out)| == |multiset(roomIds)|;
    }
    PositionsOfListed(r, categoryId, roomIds, out);
    SortedPositionsAreIndices(r.rooms, out, roomIds);
  }

  /**
   * Rooms read back in non-decreasing order, each at the position its order
   * names, and as many as positions: the i-th read back is the i-th listed.
   */
  lemma {:induction false} SortedPositionsAreIndices(rooms: map<string, Placement>, out: seq<string>, roomIds: seq<string>)
    requires |out| == |roomIds| && Distinct(out)
    requires forall i :: 0 <= i < |out| ==>
      out[i] in rooms && 0 <= rooms[out[i]].order < |roomIds| && roomIds[rooms[out[i]].order] == out[i]
    requires forall i, j :: 0 <= i < j < |out| ==> out[i] in rooms && out[j] in rooms && rooms[out[i]].order <= rooms[out[j]].order
    ensures out == roomIds
  {
    var ks := seq(|out|, i requires 0 <= i < |out| => rooms[out[i]].order);
    forall i, j | 0 <= i < j < |ks|
      ensures ks[i] < ks[j]
    {
      assert ks[i] <= ks[j];
      assert out[i] != out[j];
    }
    StrictRanksAreIndices(ks);
    assert forall i :: 0 <= i < |out| ==> out[i] == roomIds[ks[i]];
  }

  /** Every listed room sits at the position its order names. */
  lemma {:induction false} PositionsOfListed(r: SpaceLayout, categoryId: string, roomIds: seq<string>, out: seq<string>)
    requires Distinct(roomIds)
    requires forall i :: 0 <= i < |roomIds| ==> roomIds[i] in r.rooms && r.rooms[roomIds[i]] == Placement(categoryId, i)
    requires forall k :: k in out ==> k in roomIds
    ensures forall i :: 0 <= i < |out| ==>
      out[i] in r.rooms && 0 <= r.rooms[out[i]].order < |roomIds| && roomIds[r.rooms[out[i]].order] == out[i]
  {
    forall i | 0 <= i < |out|
      ensures out[i] in r.rooms && 0 <= r.rooms[out[i]].order < |roomIds| && roomIds[r.rooms[out[i]].order] == out[i]
    {
      assert out[i] in roomIds;
      var j :| 0 <= j < |roomIds| && roomIds[j] == out[i];
    }
  }

  /** Rewriting rooms that are already placed keeps the key list as it is. */
  lemma {:induction false} WithRoomOrderSameKeys(l: SpaceLayout, categoryId: string, roomIds: seq<string>)
    requires forall k :: k in roomIds ==> k in l.rooms
    ensures WithRoomOrder(l, categoryId, roomIds).roomKeys == l.roomKeys
  {
    if roomIds != [] {
      var n := |roomIds|;
      WithRoomOrderSameKeys(l, categoryId, roomIds[..n - 1]);
      WithRoomOrderKeys(l, categoryId, roomIds[..n - 1]);
    }
  }

  /** Two room maps that agree on a category's members and their orders give it the same entries. */
  lemma {:induction false} CategoryEntriesAgree(keys: seq<string>, a: map<string, Placement>, b: map<string, Placement>, categoryId: string)
    requires forall k :: k in keys ==> ((k in a && a[k].categoryId == categoryId) <==> (k in b && b[k].categoryId == categoryId))
    requires forall k :: k in keys && k in a && a[k].categoryId == categoryId ==> k in b && b[k].order == a[k].order
    ensures CategoryEntries(keys, a, categoryId) == CategoryEntries(keys, b, categoryId)
  {
    if keys != [] {
      CategoryEntriesAgree(keys[1..], a, b, categoryId);
    }
  }

  /**
   * Writing the order of one category leaves the order of every other category
   * as it was, when the listed rooms are already placed and none of them is in
   * that other category.
   */
  lemma {:induction false} OtherCategoryUnchanged(l: SpaceLayout, categoryId: string, roomIds: seq<string>, other: string)
    requires other != categoryId && Distinct(roomIds)
    requires forall k :: k in roomIds ==> k in l.rooms && l.rooms[k].categoryId != other
    ensures GetOrderedRoomIdsByCategory(WithRoomOrder(l, categoryId, roomIds), other) == GetOrderedRoomIdsByCategory(l, other)
  {
    var r := WithRoomOrder(l, categoryId, roomIds);
    WithRoomOrderSameKeys(l, categoryId, roomIds);
    WithRoomOrderKeys(l, categoryId, roomIds);
    WithRoomOrderPlacements(l, categoryId, roomIds);
    forall k | k in roomIds
      ensures k in r.rooms && r.rooms[k].categoryId == categoryId
    {
      var i :| 0 <= i < |roomIds| && roomIds[i] == k;
    }
    CategoryEntriesAgree(l.roomKeys, l.rooms, r.rooms, other);
  }

  /**
   * A category whose rooms are the listed ones, the i-th with order i, apart
   * from rooms about to be moved elsewhere, reads back as that list once the
   * others are written into another category.
   */
  lemma {:induction false} ReadBackAfterMovingOut(l: SpaceLayout, categoryId: string, roomIds: seq<string>, other: string, moved: seq<string>)
    requires WellKeyed(l) && Distinct(roomIds) && Distinct(moved) && other != categoryId
    requires forall i :: 0 <= i < |roomIds| ==> roomIds[i] in l.rooms && l.rooms[roomIds[i]] == Placement(categoryId, i)
    requires forall k :: k in l.rooms && l.rooms[k].categoryId == categoryId ==> k in roomIds || k in moved
    requires forall k :: k in moved ==> k !in roomIds
    ensures var r := WithRoomOrder(l, other, moved);
      && GetOrderedRoomIdsByCategory(r, categoryId) == roomIds
      && forall i :: 0 <= i < |roomIds| ==> roomIds[i] in r.rooms && r.rooms[roomIds[i]] == Placement(categoryId, i)
  {
    var r := WithRoomOrder(l, other, moved);
    WithRoomOrderKeys(l, other, moved);
    WithRoomOrderPlacements(l, other, moved);
    forall k | k in moved
      ensures k in r.rooms && r.rooms[k].categoryId != categoryId
    {
      var i :| 0 <= i < |moved| && moved[i] == k;
    }
    forall i | 0 <= i < |roomIds|
      ensures roomIds[i] in r.rooms && r.rooms[roomIds[i]] == Placement(categoryId, i)
    {
      assert roomIds[i] !in moved;
    }
    forall k | k in r.rooms && r.rooms[k].categoryId == categoryId
      ensures k in roomIds
    {
      assert k !in moved;
    }
    OrderedReadBack(r, categoryId, roomIds);
  }

  /**
   * The first step of moving a room out of its category: the category's order
   * without it (`filter`), written back with `setRoomOrderForCategory`. The
   * room itself keeps its old placement until it is written elsewhere.
   */
  function WithoutRoom(l: SpaceLayout, roomId: string): SpaceLayout
    requires roomId in l.rooms
  {
    var from := l.rooms[roomId].categoryId;
    WithRoomOrder(l, from, Remove(GetOrderedRoomIdsByCategory(l, from), roomId))
  }

  /**
   * Taking a room out of its category's order: the remaining rooms get orders
   * `0..m-1`, the room itself keeps its old placement for now, and nothing
   * else changes.
   */
  lemma {:induction false} WithoutRoomSpec(l: SpaceLayout, roomId: string)
    requires WellKeyed(l) && roomId in l.rooms
    ensures var from := l.rooms[roomId].categoryId;
      var rest := Remove(GetOrderedRoomIdsByCategory(l, from), roomId);
      var l1 := WithoutRoom(l, roomId);
      && Distinct(rest) && roomId !in rest
      && (forall k :: k in rest <==> k in l.rooms && l.rooms[k].categoryId == from && k != roomId)
      && WellKeyed(l1) && l1.roomKeys == l.roomKeys && l1.categories == l.categories
      && (forall k :: k in l1.rooms <==> k in l.rooms)
      && (forall k :: k in l.rooms && k !in rest ==> l1.rooms[k] == l.rooms[k])
      && (forall i :: 0 <= i < |rest| ==> rest[i] in l1.rooms && l1.rooms[rest[i]] == Placement(from, i))
      && (forall k :: k in l1.rooms && l1.rooms[k].categoryId == from ==> k in rest || k == roomId)
  {
    var from := l.rooms[roomId].categoryId;
    var current := GetOrderedRoomIdsByCategory(l, from);
    var rest := Remove(current, roomId);
    GetOrderedSpec(l, from);
    RemoveKeepsDistinct(current, roomId);
    WithRoomOrderKeys(l, from, rest);
    WithRoomOrderSameKeys(l, from, rest);
    WithRoomOrderPlacements(l, from, rest);
  }

  /**
   * Reading a category whose listed rooms have orders `0..m-1` and which also
   * holds one stale room, then dropping that room, gives the list back.
   */
  lemma {:induction false} ReadBackWithoutStale(l: SpaceLayout, categoryId: string, roomIds: seq<string>, stale: string)
    requires WellKeyed(l) && Distinct(roomIds) && stale !in roomIds
    requires stale in l.rooms && l.rooms[stale].categoryId == categoryId
    requires forall i :: 0 <= i < |roomIds| ==> roomIds[i] in l.rooms && l.rooms[roomIds[i]] == Placement(categoryId, i)
    requires forall k :: k in l.rooms && l.rooms[k].categoryId == categoryId ==> k in roomIds || k == stale
    ensures Remove(GetOrderedRoomIdsByCategory(l, categoryId), stale) == roomIds
  {
    var out := GetOrderedRoomIdsByCategory(l, categoryId);
    GetOrderedSpec(l, categoryId);
    RemoveKeepsSorted(l.rooms, out, stale);
    var rem := Remove(out, stale);
    assert forall k :: k in rem <==> k in roomIds by {
      forall k | k in roomIds
        ensures k in rem
      {
        var i :| 0 <= i < |roomIds| && roomIds[i] == k;
      }
    }
    assert |rem| == |roomIds| by {
      SameElementsSameMultiset(rem, roomIds);
      assert |multiset(rem)| == |multiset(roomIds)|;
    }
    PositionsOfListed(l, categoryId, roomIds, rem);
    SortedPositionsAreIndices(l.rooms, rem, roomIds);
  }

  /** Dropping one room from a list sorted by order leaves it sorted and free of repetitions. */
  lemma {:induction false} RemoveKeepsSorted(rooms: map<string, Placement>, out: seq<string>, x: string)
    requires Distinct(out) && x in out
    requires forall i, j :: 0 <= i < j < |out| ==> out[i] in rooms && out[j] in rooms && rooms[out[i]].order <= rooms[out[j]].order
    ensures var rem := Remove(out, x);
      && Distinct(rem)
      && forall i, j :: 0 <= i < j < |rem| ==> rem[i] in rooms && rem[j] in rooms && rooms[rem[i]].order <= rooms[rem[j]].order
  {
    var p := IndexOf(out, x);
    RemoveFromDistinct(out, x);
    RemoveKeepsDistinct(out, x);
    var rem := Remove(out, x);
    forall i, j | 0 <= i < j < |rem|
      ensures rem[i] in rooms && rem[j] in rooms && rooms[rem[i]].order <= rooms[rem[j]].order
    {
      var i', j' := if i < p then i else i + 1, if j < p then j else j + 1;
      assert rem[i] == out[i'] && rem[j] == out[j'];
      assert 0 <= i' < j' < |out|;
    }
  }

  /** `delete layout.rooms[roomId]`: the key leaves both the map and the enumeration order. */
  function Unassign(l: SpaceLayout, roomId: string): SpaceLayout
  {
    l.(roomKeys := Remove(l.roomKeys, roomId), rooms := l.rooms - {roomId})
  }

  /** Deleting a placement keeps the layout well keyed and touches no other room. */
  lemma {:induction false} UnassignSpec(l: SpaceLayout, roomId: string)
    requires WellKeyed(l)
    ensures var r := Unassign(l, roomId);
      && WellKeyed(r) && r.categories == l.categories
      && roomId !in r.rooms
      && (forall k :: k in r.rooms <==> k in l.rooms && k != roomId)
      && (forall k :: k in r.rooms ==> r.rooms[k] == l.rooms[k])
  {
    RemoveKeepsDistinct(l.roomKeys, roomId);
  }

  /** Deleting a room that has no placement changes nothing. */
  lemma {:induction false} UnassignAbsent(l: SpaceLayout, roomId: string)
    requires WellKeyed(l) && roomId !in l.rooms
    ensures Unassign(l, roomId) == l
  {
    RemoveAbsent(l.roomKeys, roomId);
  }
}
