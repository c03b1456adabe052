/**
 * The layout each category and channel action of the rooms slice computes from
 * the hydrated layout of the current space (`createCategory`, `deleteCategory`,
 * `moveCategoryByStep`, `reorderCategory`, `moveRoomByStep`,
 * `moveRoomToCategory`, `reorderRoom`). `None` stands for the early `return`s
 * that leave everything as it was.
 */
module LayoutActions {
  import opened Wrappers
  import opened Text
  import opened Sorting
  import opened Layout
  import opened RoomOrder
  import opened MoveItems

  datatype Direction = Up | Down

  /** The neighbouring index in the given direction. */
  function Step(index: int, d: Direction): int
  {
    if d == Up then index - 1 else index + 1
  }

  /** `categories.findIndex((category) => category.id === id)`. */
  function CategoryIndex(cats: seq<LayoutCategory>, id: string): int
  {
    IndexOf(Ids(cats), id)
  }

  /** Category records and room ids are objects and non-empty strings: `moveItem` never sees a falsy item. */
  predicate NeverFalsy<T>(x: T)
  {
    false
  }

  /** Room ids are falsy exactly when empty. */
  predicate IsEmptyId(id: string)
  {
    id == []
  }

  // ---------------------------------------------------------------------------
  // createCategory
  // ---------------------------------------------------------------------------

  /**
   * The id tried for the given suffix: the slug itself for the first attempt,
   * then `${slug}-2`, `${slug}-3`, ….
   */
  function CandidateCategoryId(baseId: string, suffix: nat): string
  {
    if suffix <= 1 then baseId else baseId + "-" + NatToString(suffix)
  }

  /** Different suffixes give different candidate ids, so the search never repeats itself. */
  lemma {:induction false} CandidatesDiffer(baseId: string, a: nat, b: nat)
    requires 1 <= a && 1 <= b && a != b
    ensures CandidateCategoryId(baseId, a) != CandidateCategoryId(baseId, b)
  {
    if a > 1 && b > 1 {
      var x, y := CandidateCategoryId(baseId, a), CandidateCategoryId(baseId, b);
      if x == y {
        var p := |baseId| + 1;
        assert x[p..] == NatToString(a) && y[p..] == NatToString(b);
        NatToStringInjective(a, b);
      }
    }
  }

  /** `normalizeLayoutCategories([...categories, { id, name, order: categories.length }])`. */
  function WithNewCategory(cats: seq<LayoutCategory>, id: string, name: string): seq<LayoutCategory>
  {
    NormalizeLayoutCategories(cats + [LayoutCategory(id, name, Finite(|cats|))])
  }

  /**
   * Adding a category with a fresh non-empty id and a normalised name to
   * normalised categories appends it, with the next order, and changes nothing else.
   */
  lemma {:induction false} WithNewCategoryAppends(cats: seq<LayoutCategory>, id: string, name: string)
    requires NormalizedCategories(cats)
    requires id != [] && id !in Ids(cats) && IsCategoryName(name)
    ensures WithNewCategory(cats, id, name) == cats + [LayoutCategory(id, name, Finite(|cats|))]
  {
    var ext := cats + [LayoutCategory(id, name, Finite(|cats|))];
    AppendedIds(cats, LayoutCategory(id, name, Finite(|cats|)));
    AppendedOrdersAndNames(cats, LayoutCategory(id, name, Finite(|cats|)));
    assert NormalizedCategories(ext);
    NormalizeLayoutCategoriesIdempotent(ext);
  }

  lemma {:induction false} AppendedIds(cats: seq<LayoutCategory>, c: LayoutCategory)
    requires Distinct(Ids(cats)) && [] !in Ids(cats) && DefaultCategoryId in Ids(cats)
    requires c.id != [] && c.id !in Ids(cats)
    ensures var ext := cats + [c];
      Distinct(Ids(ext)) && [] !in Ids(ext) && DefaultCategoryId in Ids(ext)
  {
    var ext := cats + [c];
    assert Ids(ext) == Ids(cats) + [c.id] by {
      forall i | 0 <= i < |ext|
        ensures Ids(ext)[i] == (Ids(cats) + [c.id])[i]
      {
        if i < |cats| {
          assert ext[i] == cats[i];
        }
      }
    }
    DistinctConcat(Ids(cats), [c.id]);
  }

  lemma {:induction false} AppendedOrdersAndNames(cats: seq<LayoutCategory>, c: LayoutCategory)
    requires forall i :: 0 <= i < |cats| ==> cats[i].order == Finite(i) && IsCategoryName(cats[i].name)
    requires c.order == Finite(|cats|) && IsCategoryName(c.name)
    ensures var ext := cats + [c];
      forall i :: 0 <= i < |ext| ==> ext[i].order == Finite(i) && IsCategoryName(ext[i].name)
  {
    var ext := cats + [c];
    forall i | 0 <= i < |ext|
      ensures ext[i].order == Finite(i) && IsCategoryName(ext[i].name)
    {
      if i < |cats| {
        assert ext[i] == cats[i];
      }
    }
  }

  // ---------------------------------------------------------------------------
  // deleteCategory
  // ---------------------------------------------------------------------------

  /** `categories.filter((category) => category.id !== id)`. */
  function WithoutCategory(cats: seq<LayoutCategory>, id: string): (r: seq<LayoutCategory>)
    ensures forall x :: x in Ids(r) <==> x in Ids(cats) && x != id
  {
    if cats == [] then []
    else if cats[0].id == id then WithoutCategory(cats[1..], id)
    else [cats[0]] + WithoutCategory(cats[1..], id)
  }

  /**
   * `deleteCategory` on the base layout: the category is dropped and its rooms,
   * in their order, are appended to `"channels"`.
   */
  function DeleteCategoryLayout(base: SpaceLayout, categoryId: string): SpaceLayout
  {
    var next := base.(categories := NormalizeLayoutCategories(WithoutCategory(base.categories, categoryId)));
    var moved := GetOrderedRoomIdsByCategory(next, categoryId);
    var defaults := GetOrderedRoomIdsByCategory(next, DefaultCategoryId);
    WithRoomOrder(next, DefaultCategoryId, defaults + moved)
  }

  /**
   * After deleting a category other than `"channels"`, the categories are
   * normalised and are the old ones without it (with `"channels"`).
   */
  lemma {:induction false} DeleteCategoryCategories(base: SpaceLayout, categoryId: string)
    requires categoryId != DefaultCategoryId
    ensures var r := DeleteCategoryLayout(base, categoryId);
      && NormalizedCategories(r.categories)
      && categoryId !in Ids(r.categories)
      && (forall x :: x in Ids(r.categories) <==> x == DefaultCategoryId || (x != [] && x != categoryId && x in Ids(base.categories)))
  {
    var cats := WithoutCategory(base.categories, categoryId);
    NormalizeLayoutCategoriesSpec(cats);
    WithRoomOrderKeys(base.(categories := NormalizeLayoutCategories(cats)), DefaultCategoryId,
      GetOrderedRoomIdsByCategory(base, DefaultCategoryId) + GetOrderedRoomIdsByCategory(base, categoryId));
  }

  /**
   * After deleting a category, `"channels"` lists its old rooms followed by the
   * deleted category's rooms, each group in its old order; the deleted category
   * is left with no rooms; rooms of other categories keep their placement.
   */
  lemma {:induction false} DeleteCategoryRooms(base: SpaceLayout, categoryId: string)
    requires WellKeyed(base) && categoryId != DefaultCategoryId
    ensures var r := DeleteCategoryLayout(base, categoryId);
      && WellKeyed(r)
      && GetOrderedRoomIdsByCategory(r, DefaultCategoryId)
           == GetOrderedRoomIdsByCategory(base, DefaultCategoryId) + GetOrderedRoomIdsByCategory(base, categoryId)
      && GetOrderedRoomIdsByCategory(r, categoryId) == []
      && (forall k :: k in r.rooms <==> k in base.rooms)
      && (forall k :: k in base.rooms && base.rooms[k].categoryId != categoryId && base.rooms[k].categoryId != DefaultCategoryId ==>
            r.rooms[k] == base.rooms[k])
  {
    var next := base.(categories := NormalizeLayoutCategories(WithoutCategory(base.categories, categoryId)));
    var moved := GetOrderedRoomIdsByCategory(base, categoryId);
    var defaults := GetOrderedRoomIdsByCategory(base, DefaultCategoryId);
    assert GetOrderedRoomIdsByCategory(next, categoryId) == moved;
    assert GetOrderedRoomIdsByCategory(next, DefaultCategoryId) == defaults;
    GetOrderedSpec(base, categoryId);
    GetOrderedSpec(base, DefaultCategoryId);
    var ids := defaults + moved;
    DistinctConcat(defaults, moved);
    var r := WithRoomOrder(next, DefaultCategoryId, ids);
    WithRoomOrderKeys(next, DefaultCategoryId, ids);
    WithRoomOrderRoundTrip(next, DefaultCategoryId, ids);
    DeletedCategoryEmpty(next, categoryId, ids);
  }

  /** Once every room of a category is written into another one, it reads back empty. */
  lemma {:induction false} DeletedCategoryEmpty(l: SpaceLayout, categoryId: string, ids: seq<string>)
    requires WellKeyed(l) && categoryId != DefaultCategoryId && Distinct(ids)
    requires forall k :: k in l.rooms && l.rooms[k].categoryId == categoryId ==> k in ids
    ensures GetOrderedRoomIdsByCategory(WithRoomOrder(l, DefaultCategoryId, ids), categoryId) == []
  {
    var r := WithRoomOrder(l, DefaultCategoryId, ids);
    WithRoomOrderKeys(l, DefaultCategoryId, ids);
    WithRoomOrderPlacements(l, DefaultCategoryId, ids);
    GetOrderedSpec(r, categoryId);
    forall k | k in ids
      ensures r.rooms[k].categoryId == DefaultCategoryId
    {
      var i :| 0 <= i < |ids| && ids[i] == k;
    }
    var out := GetOrderedRoomIdsByCategory(r, categoryId);
    assert forall k :: k !in out;
  }

  // ---------------------------------------------------------------------------
  // moveCategoryByStep and reorderCategory
  // ---------------------------------------------------------------------------

  /** `moveItem(categories, source, target).map((category, index) => ({ ...category, order: index }))`, normalised. */
  function MovedCategories(cats: seq<LayoutCategory>, source: int, target: int): seq<LayoutCategory>
  {
    NormalizeLayoutCategories(Reindexed(MoveItem(cats, source, target, NeverFalsy), 0))
  }

  /**
   * The category step of `moveCategoryByStep`, on the normalised category
   * list: no change for `"channels"`, for an unknown category, at either end,
   * or when the neighbour is `"channels"`; otherwise the category trades places
   * with its neighbour.
   */
  function MoveCategoryByStep(cats: seq<LayoutCategory>, categoryId: string, d: Direction): Option<seq<LayoutCategory>>
  {
    if categoryId == DefaultCategoryId then None
    else
      var s := CategoryIndex(cats, categoryId);
      if s < 0 then None
      else
        var t := Step(s, d);
        if t < 0 || t >= |cats| then None
        else if cats[t].id == DefaultCategoryId then None
        else Some(MovedCategories(cats, s, t))
  }

  /** `moveCategoryByStep` on the base layout: only the categories change. */
  function MoveCategoryByStepLayout(base: SpaceLayout, categoryId: string, d: Direction): Option<SpaceLayout>
  {
    match MoveCategoryByStep(NormalizeLayoutCategories(base.categories), categoryId, d)
    case None => None
    case Some(cats) => Some(base.(categories := cats))
  }

  /**
   * The category step of `reorderCategory`: no change when source and target
   * are the same, either is `"channels"`, or either is unknown; otherwise the
   * source category is moved to the target's index.
   */
  function ReorderCategory(cats: seq<LayoutCategory>, sourceId: string, targetId: string): Option<seq<LayoutCategory>>
  {
    if sourceId == targetId || sourceId == DefaultCategoryId || targetId == DefaultCategoryId then None
    else
      var s := CategoryIndex(cats, sourceId);
      var t := CategoryIndex(cats, targetId);
      if s < 0 || t < 0 then None
      else Some(MovedCategories(cats, s, t))
  }

  /** `reorderCategory` on the base layout: only the categories change. */
  function ReorderCategoryLayout(base: SpaceLayout, sourceId: string, targetId: string): Option<SpaceLayout>
  {
    match ReorderCategory(NormalizeLayoutCategories(base.categories), sourceId, targetId)
    case None => None
    case Some(cats) => Some(base.(categories := cats))
  }

  /** `r` is `m` with the orders `0..n-1`. */
  predicate RenumberedAs(r: seq<LayoutCategory>, m: seq<LayoutCategory>)
  {
    |r| == |m| && forall i :: 0 <= i < |m| ==> r[i] == LayoutCategory(m[i].id, m[i].name, Finite(i))
  }

  /**
   * Moving a category of a normalised list and renumbering gives a normalised
   * list again, which the final normalisation leaves alone: the categories are
   * the moved ones, numbered `0..n-1`.
   */
  lemma {:induction false} MovedCategoriesSpec(cats: seq<LayoutCategory>, source: int, target: int)
    requires NormalizedCategories(cats)
    ensures NormalizedCategories(MovedCategories(cats, source, target))
    ensures RenumberedAs(MovedCategories(cats, source, target), MoveItem(cats, source, target, NeverFalsy))
  {
    var m := MoveItem(cats, source, target, NeverFalsy);
    MoveItemPermutes(cats, source, target, NeverFalsy);
    PermutationRenumbered(cats, m);
  }

  /** A permutation of a normalised list, renumbered from 0, is normalised and normalising leaves it alone. */
  lemma {:induction false} PermutationRenumbered(cats: seq<LayoutCategory>, m: seq<LayoutCategory>)
    requires NormalizedCategories(cats)
    requires multiset(m) == multiset(cats)
    ensures NormalizedCategories(Reindexed(m, 0))
    ensures NormalizeLayoutCategories(Reindexed(m, 0)) == Reindexed(m, 0)
  {
    var w := Reindexed(m, 0);
    PermutedCategories(cats, m);
    ReindexedIds(m, 0);
    forall i | 0 <= i < |m|
      ensures IsCategoryName(m[i].name)
    {
      assert m[i] in cats;
      var j :| 0 <= j < |cats| && cats[j] == m[i];
    }
    ReindexedNames(m);
    assert NormalizedCategories(w);
    NormalizeLayoutCategoriesIdempotent(w);
  }

  /** `moveCategoryByStep` changes nothing exactly in its four no-op cases. */
  lemma {:induction false} MoveCategoryByStepNoop(cats: seq<LayoutCategory>, categoryId: string, d: Direction)
    ensures var s := CategoryIndex(cats, categoryId);
      MoveCategoryByStep(cats, categoryId, d).None? <==>
        categoryId == DefaultCategoryId || s < 0 || Step(s, d) < 0 || Step(s, d) >= |cats| || cats[Step(s, d)].id == DefaultCategoryId
  {
  }

  /** The list with the entries at `s` and `t` exchanged. */
  function Swapped(cats: seq<LayoutCategory>, s: nat, t: nat): seq<LayoutCategory>
    requires s < |cats| && t < |cats|
  {
    cats[s := cats[t]][t := cats[s]]
  }

  /**
   * When `moveCategoryByStep` acts on a normalised list, the category and its
   * neighbour trade places and the list stays normalised (orders `0..n-1`).
   */
  lemma {:induction false} MoveCategoryByStepSwaps(cats: seq<LayoutCategory>, categoryId: string, d: Direction)
    requires NormalizedCategories(cats)
    requires MoveCategoryByStep(cats, categoryId, d).Some?
    ensures var s := CategoryIndex(cats, categoryId);
      var t := Step(s, d);
      && 0 <= s < |cats| && 0 <= t < |cats|
      && NormalizedCategories(MoveCategoryByStep(cats, categoryId, d).value)
      && RenumberedAs(MoveCategoryByStep(cats, categoryId, d).value, Swapped(cats, s, t))
  {
    var s := CategoryIndex(cats, categoryId);
    var t := Step(s, d);
    assert MoveCategoryByStep(cats, categoryId, d).value == MovedCategories(cats, s, t);
    MovedCategoriesSpec(cats, s, t);
    assert !NeverFalsy(cats[s]);
    MoveItemAdjacentSwaps(cats, s, t, NeverFalsy);
  }

  /** `reorderCategory` changes nothing exactly in its no-op cases. */
  lemma {:induction false} ReorderCategoryNoop(cats: seq<LayoutCategory>, sourceId: string, targetId: string)
    ensures ReorderCategory(cats, sourceId, targetId).None? <==>
      || sourceId == targetId || sourceId == DefaultCategoryId || targetId == DefaultCategoryId
      || sourceId !in Ids(cats) || targetId !in Ids(cats)
  {
  }

  /**
   * When `reorderCategory` acts on a normalised list, the source category lands
   * at the target's index, the others shift as `moveItem` shifts them, and the
   * list stays normalised (orders `0..n-1`).
   */
  lemma {:induction false} ReorderCategoryMoves(cats: seq<LayoutCategory>, sourceId: string, targetId: string)
    requires NormalizedCategories(cats)
    requires ReorderCategory(cats, sourceId, targetId).Some?
    ensures var s := CategoryIndex(cats, sourceId);
      var t := CategoryIndex(cats, targetId);
      var r := ReorderCategory(cats, sourceId, targetId).value;
      && Moves(cats, s, t, NeverFalsy)
      && |r| == |cats|
      && NormalizedCategories(r)
      && r[t].id == sourceId
      && RenumberedAs(r, MoveItem(cats, s, t, NeverFalsy))
  {
    var s := CategoryIndex(cats, sourceId);
    var t := CategoryIndex(cats, targetId);
    assert ReorderCategory(cats, sourceId, targetId).value == MovedCategories(cats, s, t);
    assert Ids(cats)[s] == sourceId;
    MovedCategoryLands(cats, s, t);
  }

  /** Moving category `s` of a normalised list to index `t` puts it there and keeps the list normalised. */
  lemma {:induction false} MovedCategoryLands(cats: seq<LayoutCategory>, s: int, t: int)
    requires NormalizedCategories(cats)
    requires Moves(cats, s, t, NeverFalsy)
    ensures var r := MovedCategories(cats, s, t);
      && |r| == |cats|
      && NormalizedCategories(r)
      && r[t].id == cats[s].id
      && RenumberedAs(r, MoveItem(cats, s, t, NeverFalsy))
  {
    MovedCategoriesSpec(cats, s, t);
    MoveItemLands(cats, s, t, NeverFalsy);
  }

  // ---------------------------------------------------------------------------
  // moveRoomByStep and moveRoomToCategory
  // ---------------------------------------------------------------------------

  /**
   * The layout step of `moveRoomByStep` on the hydrated layout: no change for
   * an unplaced room or at either end of its category; otherwise the room
   * trades places with its neighbour and the category is renumbered.
   */
  function MoveRoomByStepLayout(base: SpaceLayout, roomId: string, d: Direction): Option<SpaceLayout>
  {
    if roomId !in base.rooms then None
    else
      var categoryId := base.rooms[roomId].categoryId;
      var ids := GetOrderedRoomIdsByCategory(base, categoryId);
      var s := IndexOf(ids, roomId);
      if s < 0 then None
      else
        var t := Step(s, d);
        if t < 0 || t >= |ids| then None
        else Some(WithRoomOrder(base, categoryId, MoveItem(ids, s, t, IsEmptyId)))
  }

  /** On a well-keyed layout `moveRoomByStep` changes nothing exactly for an unplaced room or a room at the end it moves towards. */
  lemma {:induction false} MoveRoomByStepNoop(base: SpaceLayout, roomId: string, d: Direction)
    requires WellKeyed(base)
    ensures MoveRoomByStepLayout(base, roomId, d).None? <==>
      || roomId !in base.rooms
      || var ids := GetOrderedRoomIdsByCategory(base, base.rooms[roomId].categoryId);
         var t := Step(IndexOf(ids, roomId), d);
         t < 0 || t >= |ids|
  {
    if roomId in base.rooms {
      GetOrderedSpec(base, base.rooms[roomId].categoryId);
    }
  }

  /** A permutation of a list of distinct room ids has them all, once each. */
  lemma {:induction false} PermutedRoomIds(ids: seq<string>, m: seq<string>)
    requires Distinct(ids) && multiset(m) == multiset(ids)
    ensures Distinct(m) && forall k :: k in m <==> k in ids
  {
    PermutationKeepsDistinct(ids, m);
    forall k
      ensures k in m <==> k in ids
    {
      assert k in m <==> k in multiset(m);
      assert k in ids <==> k in multiset(ids);
    }
  }

  /**
   * When `moveRoomByStep` acts, the room and its neighbour trade places in the
   * room's category (an empty room id, which `moveItem` treats as falsy, leaves
   * the order as it was), every other category reads back as before, and no
   * room is added.
   */
  lemma {:induction false} MoveRoomByStepSwaps(base: SpaceLayout, roomId: string, d: Direction)
    requires WellKeyed(base)
    requires MoveRoomByStepLayout(base, roomId, d).Some?
    ensures var categoryId := base.rooms[roomId].categoryId;
      var ids := GetOrderedRoomIdsByCategory(base, categoryId);
      var s := IndexOf(ids, roomId);
      var t := Step(s, d);
      var r := MoveRoomByStepLayout(base, roomId, d).value;
      && 0 <= s < |ids| && 0 <= t < |ids|
      && WellKeyed(r) && r.categories == base.categories && r.roomKeys == base.roomKeys
      && GetOrderedRoomIdsByCategory(r, categoryId) == (if roomId == [] then ids else ids[s := ids[t]][t := ids[s]])
      && forall other :: other != categoryId ==>
           GetOrderedRoomIdsByCategory(r, other) == GetOrderedRoomIdsByCategory(base, other)
  {
    var categoryId := base.rooms[roomId].categoryId;
    var ids := GetOrderedRoomIdsByCategory(base, categoryId);
    var s := IndexOf(ids, roomId);
    var t := Step(s, d);
    var m := MoveItem(ids, s, t, IsEmptyId);
    GetOrderedSpec(base, categoryId);
    MoveItemPermutes(ids, s, t, IsEmptyId);
    PermutedRoomIds(ids, m);
    WithRoomOrderKeys(base, categoryId, m);
    WithRoomOrderSameKeys(base, categoryId, m);
    WithRoomOrderRoundTrip(base, categoryId, m);
    if roomId != [] {
      assert !IsEmptyId(ids[s]);
      MoveItemAdjacentSwaps(ids, s, t, IsEmptyId);
    }
    forall other | other != categoryId
      ensures GetOrderedRoomIdsByCategory(WithRoomOrder(base, categoryId, m), other) == GetOrderedRoomIdsByCategory(base, other)
    {
      OtherCategoryUnchanged(base, categoryId, m, other);
    }
  }

  /**
   * The layout step of `moveRoomToCategory` on the hydrated layout: no change
   * for an unplaced room, an unknown category or the room's own category;
   * otherwise the room leaves its category, which is renumbered, and is
   * appended to the target category.
   */
  function MoveRoomToCategoryLayout(base: SpaceLayout, roomId: string, categoryId: string): Option<SpaceLayout>
  {
    if roomId !in base.rooms then None
    else if categoryId !in Ids(base.categories) then None
    else
      var from := base.rooms[roomId].categoryId;
      if from == categoryId then None
      else
        var sourceIds := Remove(GetOrderedRoomIdsByCategory(base, from), roomId);
        var targetIds := GetOrderedRoomIdsByCategory(base, categoryId);
        var l1 := WithRoomOrder(base, from, sourceIds);
        Some(WithRoomOrder(l1, categoryId, targetIds + [roomId]))
  }

  /** `moveRoomToCategory` changes nothing exactly for an unplaced room, an unknown category or the room's own category. */
  lemma {:induction false} MoveRoomToCategoryNoop(base: SpaceLayout, roomId: string, categoryId: string)
    ensures MoveRoomToCategoryLayout(base, roomId, categoryId).None? <==>
      roomId !in base.rooms || categoryId !in Ids(base.categories) || base.rooms[roomId].categoryId == categoryId
  {
  }

  /**
   * The source category after `moveRoomToCategory` reads back as before
   * without the room, renumbered from 0.
   */
  lemma {:induction false} MoveRoomToCategorySource(base: SpaceLayout, roomId: string, categoryId: string)
    requires WellKeyed(base)
    requires MoveRoomToCategoryLayout(base, roomId, categoryId).Some?
    ensures var from := base.rooms[roomId].categoryId;
      var sourceIds := Remove(GetOrderedRoomIdsByCategory(base, from), roomId);
      var r := MoveRoomToCategoryLayout(base, roomId, categoryId).value;
      && GetOrderedRoomIdsByCategory(r, from) == sourceIds
      && forall i :: 0 <= i < |sourceIds| ==> sourceIds[i] in r.rooms && r.rooms[sourceIds[i]] == Placement(from, i)
  {
    var from := base.rooms[roomId].categoryId;
    var current := GetOrderedRoomIdsByCategory(base, from);
    var sourceIds := Remove(current, roomId);
    var targetIds := GetOrderedRoomIdsByCategory(base, categoryId);
    var l1 := WithRoomOrder(base, from, sourceIds);
    var moved := targetIds + [roomId];
    WithoutRoomSpec(base, roomId);
    GetOrderedSpec(base, categoryId);
    assert roomId !in targetIds;
    DistinctConcat(targetIds, [roomId]);
    ReadBackAfterMovingOut(l1, from, sourceIds, categoryId, moved);
  }

  /**
   * The target category after `moveRoomToCategory` reads back as before with
   * the room appended; every category other than the two reads back as before.
   */
  lemma {:induction false} MoveRoomToCategoryTarget(base: SpaceLayout, roomId: string, categoryId: string)
    requires WellKeyed(base)
    requires MoveRoomToCategoryLayout(base, roomId, categoryId).Some?
    ensures var from := base.rooms[roomId].categoryId;
      var r := MoveRoomToCategoryLayout(base, roomId, categoryId).value;
      && WellKeyed(r) && r.categories == base.categories && r.roomKeys == base.roomKeys
      && GetOrderedRoomIdsByCategory(r, categoryId) == GetOrderedRoomIdsByCategory(base, categoryId) + [roomId]
      && forall other :: other != from && other != categoryId ==>
           GetOrderedRoomIdsByCategory(r, other) == GetOrderedRoomIdsByCategory(base, other)
  {
    var from := base.rooms[roomId].categoryId;
    var current := GetOrderedRoomIdsByCategory(base, from);
    var sourceIds := Remove(current, roomId);
    var targetIds := GetOrderedRoomIdsByCategory(base, categoryId);
    var l1 := WithRoomOrder(base, from, sourceIds);
    var moved := targetIds + [roomId];
    GetOrderedSpec(base, from);
    GetOrderedSpec(base, categoryId);
    RemoveKeepsDistinct(current, roomId);
    WithRoomOrderKeys(base, from, sourceIds);
    WithRoomOrderSameKeys(base, from, sourceIds);
    OtherCategoryUnchanged(base, from, sourceIds, categoryId);
    GetOrderedSpec(l1, categoryId);
    DistinctConcat(targetIds, [roomId]);
    WithRoomOrderKeys(l1, categoryId, moved);
    WithRoomOrderSameKeys(l1, categoryId, moved);
    WithRoomOrderRoundTrip(l1, categoryId, moved);
    forall other | other != from && other != categoryId
      ensures GetOrderedRoomIdsByCategory(WithRoomOrder(l1, categoryId, moved), other) == GetOrderedRoomIdsByCategory(base, other)
    {
      OtherCategoryUnchanged(base, from, sourceIds, other);
      OtherCategoryUnchanged(l1, categoryId, moved, other);
    }
  }

  // ---------------------------------------------------------------------------
  // reorderRoom
  // ---------------------------------------------------------------------------

  /**
   * `[...ids.slice(0, insertIndex), roomId, ...ids.slice(insertIndex)]`: the
   * room goes in front of the target, or last when the target is not listed.
   */
  function InsertBefore(ids: seq<string>, roomId: string, targetId: string): seq<string>
  {
    var ti := IndexOf(ids, targetId);
    var at := if ti >= 0 then ti else |ids|;
    ids[..at] + [roomId] + ids[at..]
  }

  /**
   * Inserting a new room keeps the list free of repetitions; the room lands
   * immediately in front of the target when the target is listed, and at the
   * end otherwise, with the other rooms in their old order.
   */
  lemma {:induction false} InsertBeforeSpec(ids: seq<string>, roomId: string, targetId: string)
    requires Distinct(ids) && roomId !in ids
    ensures var r := InsertBefore(ids, roomId, targetId);
      var ti := IndexOf(ids, targetId);
      && Distinct(r)
      && (forall k :: k in r <==> k in ids || k == roomId)
      && (ti >= 0 ==> r == ids[..ti] + [roomId] + ids[ti..] && r[ti] == roomId && r[ti + 1] == targetId)
      && (ti < 0 ==> r == ids + [roomId])
  {
    var ti := IndexOf(ids, targetId);
    var at := if ti >= 0 then ti else |ids|;
    var r := InsertBefore(ids, roomId, targetId);
    DistinctInsertAt(ids, roomId, at);
    assert ids == ids[..at] + ids[at..];
    assert forall k :: k in r <==> k in ids[..at] || k == roomId || k in ids[at..];
    if ti < 0 {
      assert ids[at..] == [];
    } else {
      assert r[ti + 1] == ids[ti];
    }
  }

  /**
   * The guards of `reorderRoom`: the destination category (the one given, or
   * the target room's), or nothing when source and target are the same room,
   * either room is unplaced, or the destination is not a category.
   */
  function ReorderRoomDestination(base: SpaceLayout, sourceId: string, targetId: string, targetCategoryId: Option<string>): (r: Option<string>)
    ensures r.Some? ==>
      sourceId != targetId && sourceId in base.rooms && targetId in base.rooms && r.value in Ids(base.categories)
    ensures r.None? <==>
      || sourceId == targetId || sourceId !in base.rooms || targetId !in base.rooms
      || targetCategoryId.GetOr(base.rooms[targetId].categoryId) !in Ids(base.categories)
  {
    if sourceId == targetId || sourceId !in base.rooms || targetId !in base.rooms then None
    else
      var dest := targetCategoryId.GetOr(base.rooms[targetId].categoryId);
      if dest in Ids(base.categories) then Some(dest) else None
  }

  /**
   * `reorderRoom` as written: the source room is filtered out of its
   * category's order, then inserted in front of the target in the
   * destination's order read afresh, and repeats are dropped keeping the first
   * appearance. Within one category the fresh read still holds the source
   * room at its old place, so that stale copy is the one kept.
   */
  function ReorderRoomAsWritten(base: SpaceLayout, sourceId: string, targetId: string, targetCategoryId: Option<string>): Option<SpaceLayout>
  {
    match ReorderRoomDestination(base, sourceId, targetId, targetCategoryId)
    case None => None
    case Some(dest) =>
      var l1 := WithoutRoom(base, sourceId);
      var ids := GetOrderedRoomIdsByCategory(l1, dest);
      Some(WithRoomOrder(l1, dest, FirstAppearances(InsertBefore(ids, sourceId, targetId))))
  }

  /**
   * `reorderRoom` as intended: the source room is dropped from the
   * destination's order before it is inserted in front of the target.
   */
  function ReorderRoomLayout(base: SpaceLayout, sourceId: string, targetId: string, targetCategoryId: Option<string>): Option<SpaceLayout>
  {
    match ReorderRoomDestination(base, sourceId, targetId, targetCategoryId)
    case None => None
    case Some(dest) =>
      var l1 := WithoutRoom(base, sourceId);
      var ids := GetOrderedRoomIdsByCategory(l1, dest);
      Some(WithRoomOrder(l1, dest, InsertBefore(Remove(ids, sourceId), sourceId, targetId)))
  }

  /** What the destination holds once the source room is taken out: its old order, less the source room. */
  function ReorderRoomRest(base: SpaceLayout, sourceId: string, dest: string): seq<string>
    requires sourceId in base.rooms
  {
    if dest == base.rooms[sourceId].categoryId then Remove(GetOrderedRoomIdsByCategory(base, dest), sourceId)
    else GetOrderedRoomIdsByCategory(base, dest)
  }

  /** After the source room is taken out, the destination reads back as its old order less the source room. */
  lemma {:induction false} DestinationAfterRemoval(base: SpaceLayout, sourceId: string, dest: string)
    requires WellKeyed(base) && sourceId in base.rooms
    ensures var ids := GetOrderedRoomIdsByCategory(WithoutRoom(base, sourceId), dest);
      var rest := ReorderRoomRest(base, sourceId, dest);
      && Remove(ids, sourceId) == rest
      && Distinct(rest) && sourceId !in rest
      && (forall k :: k in rest <==> k in base.rooms && base.rooms[k].categoryId == dest && k != sourceId)
      && (dest != base.rooms[sourceId].categoryId ==> ids == rest)
  {
    var from := base.rooms[sourceId].categoryId;
    var rest0 := Remove(GetOrderedRoomIdsByCategory(base, from), sourceId);
    var l1 := WithoutRoom(base, sourceId);
    WithoutRoomSpec(base, sourceId);
    GetOrderedSpec(base, dest);
    if dest == from {
      ReadBackWithoutStale(l1, from, rest0, sourceId);
    } else {
      OtherCategoryUnchanged(base, from, rest0, dest);
      RemoveAbsent(GetOrderedRoomIdsByCategory(base, dest), sourceId);
    }
  }

  /**
   * `reorderRoom` puts the source room in front of the target in the
   * destination category, whose other rooms keep their old order (the
   * `InsertBefore` partner lemma says where that is); no room is added.
   */
  lemma {:induction false} ReorderRoomPlacesBefore(base: SpaceLayout, sourceId: string, targetId: string, targetCategoryId: Option<string>)
    requires WellKeyed(base)
    requires ReorderRoomLayout(base, sourceId, targetId, targetCategoryId).Some?
    ensures var dest := ReorderRoomDestination(base, sourceId, targetId, targetCategoryId).value;
      var rest := ReorderRoomRest(base, sourceId, dest);
      var r := ReorderRoomLayout(base, sourceId, targetId, targetCategoryId).value;
      && WellKeyed(r) && r.categories == base.categories && r.roomKeys == base.roomKeys
      && Distinct(rest) && sourceId !in rest
      && GetOrderedRoomIdsByCategory(r, dest) == InsertBefore(rest, sourceId, targetId)
  {
    var dest := ReorderRoomDestination(base, sourceId, targetId, targetCategoryId).value;
    var from := base.rooms[sourceId].categoryId;
    var rest := ReorderRoomRest(base, sourceId, dest);
    var l1 := WithoutRoom(base, sourceId);
    var written := InsertBefore(rest, sourceId, targetId);
    WithoutRoomSpec(base, sourceId);
    DestinationAfterRemoval(base, sourceId, dest);
    InsertBeforeSpec(rest, sourceId, targetId);
    GetOrderedSpec(l1, dest);
    forall k | k in l1.rooms && l1.rooms[k].categoryId == dest
      ensures k in written
    {
      if k != sourceId && dest != from {
        assert k in GetOrderedRoomIdsByCategory(l1, dest);
      }
    }
    WithRoomOrderKeys(l1, dest, written);
    WithRoomOrderSameKeys(l1, dest, written);
    WithRoomOrderRoundTrip(l1, dest, written);
  }

  /**
   * Moving a room into another category leaves its old category in its old
   * order without it, renumbered from 0.
   */
  lemma {:induction false} ReorderRoomSourceCategory(base: SpaceLayout, sourceId: string, targetId: string, targetCategoryId: Option<string>)
    requires WellKeyed(base)
    requires ReorderRoomLayout(base, sourceId, targetId, targetCategoryId).Some?
    requires ReorderRoomDestination(base, sourceId, targetId, targetCategoryId).value != base.rooms[sourceId].categoryId
    ensures var from := base.rooms[sourceId].categoryId;
      var rest := Remove(GetOrderedRoomIdsByCategory(base, from), sourceId);
      var r := ReorderRoomLayout(base, sourceId, targetId, targetCategoryId).value;
      && GetOrderedRoomIdsByCategory(r, from) == rest
      && forall i :: 0 <= i < |rest| ==> rest[i] in r.rooms && r.rooms[rest[i]] == Placement(from, i)
  {
    var dest := ReorderRoomDestination(base, sourceId, targetId, targetCategoryId).value;
    var from := base.rooms[sourceId].categoryId;
    var rest := Remove(GetOrderedRoomIdsByCategory(base, from), sourceId);
    var destRest := ReorderRoomRest(base, sourceId, dest);
    var l1 := WithoutRoom(base, sourceId);
    var written := InsertBefore(destRest, sourceId, targetId);
    WithoutRoomSpec(base, sourceId);
    DestinationAfterRemoval(base, sourceId, dest);
    InsertBeforeSpec(destRest, sourceId, targetId);
    forall k | k in written
      ensures k !in rest
    {
    }
    ReadBackAfterMovingOut(l1, from, rest, dest, written);
  }

  /** Across categories the code as written and the intended one agree: the filter has nothing to drop. */
  lemma {:induction false} ReorderRoomAgreesAcrossCategories(base: SpaceLayout, sourceId: string, targetId: string, targetCategoryId: Option<string>)
    requires WellKeyed(base)
    requires ReorderRoomLayout(base, sourceId, targetId, targetCategoryId).Some?
    requires ReorderRoomDestination(base, sourceId, targetId, targetCategoryId).value != base.rooms[sourceId].categoryId
    ensures ReorderRoomAsWritten(base, sourceId, targetId, targetCategoryId) == ReorderRoomLayout(base, sourceId, targetId, targetCategoryId)
  {
    var dest := ReorderRoomDestination(base, sourceId, targetId, targetCategoryId).value;
    var l1 := WithoutRoom(base, sourceId);
    var ids := GetOrderedRoomIdsByCategory(l1, dest);
    DestinationAfterRemoval(base, sourceId, dest);
    InsertBeforeSpec(ids, sourceId, targetId);
    FirstAppearancesOfDistinct(InsertBefore(ids, sourceId, targetId));
  }

  /** Three rooms `a`, `b`, `c` in `"channels"`, in that order. */
  function ThreeRooms(a: string, b: string, c: string): SpaceLayout
  {
    SpaceLayout(
      [LayoutCategory(DefaultCategoryId, DefaultCategoryName, Finite(0))],
      [a, b, c],
      map[a := Placement(DefaultCategoryId, 0), b := Placement(DefaultCategoryId, 1), c := Placement(DefaultCategoryId, 2)])
  }

  /** `ThreeRooms` once `a` is filtered out of the order: `b` and `c` renumbered, `a` still at 0. */
  function ThreeRoomsWithoutFirst(a: string, b: string, c: string): SpaceLayout
  {
    SpaceLayout(
      [LayoutCategory(DefaultCategoryId, DefaultCategoryName, Finite(0))],
      [a, b, c],
      map[a := Placement(DefaultCategoryId, 0), b := Placement(DefaultCategoryId, 0), c := Placement(DefaultCategoryId, 1)])
  }

  lemma {:induction false} ThreeRoomsOrder(a: string, b: string, c: string)
    requires a != b && b != c && a != c
    ensures WellKeyed(ThreeRooms(a, b, c))
    ensures GetOrderedRoomIdsByCategory(ThreeRooms(a, b, c), DefaultCategoryId) == [a, b, c]
  {
    var base := ThreeRooms(a, b, c);
    assert WellKeyed(base);
    OrderedReadBack(base, DefaultCategoryId, [a, b, c]);
  }

  lemma {:induction false} ThreeRoomsRenumbered(a: string, b: string, c: string)
    requires a != b && b != c && a != c
    ensures WithRoomOrder(ThreeRooms(a, b, c), DefaultCategoryId, [b, c]) == ThreeRoomsWithoutFirst(a, b, c)
  {
    var base := ThreeRooms(a, b, c);
    var p0 := Placement(DefaultCategoryId, 0);
    var p1 := Placement(DefaultCategoryId, 1);
    assert [b][..0] == [] && [b, c][..1] == [b];
    assert WithRoomOrder(base, DefaultCategoryId, []) == base;
    var lb := WithRoomOrder(base, DefaultCategoryId, [b]);
    assert lb == Assign(base, b, p0);
    assert lb.roomKeys == [a, b, c] && lb.rooms == base.rooms[b := p0];
    var lc := WithRoomOrder(base, DefaultCategoryId, [b, c]);
    assert lc == Assign(lb, c, p1);
    assert lc.rooms == base.rooms[b := p0][c := p1];
    assert base.rooms[b := p0][c := p1] == map[a := p0, b := p0, c := p1];
  }

  lemma {:induction false} ThreeRoomsRemoval(a: string, b: string, c: string)
    requires a != b && b != c && a != c
    ensures WithoutRoom(ThreeRooms(a, b, c), a) == ThreeRoomsWithoutFirst(a, b, c)
  {
    ThreeRoomsOrder(a, b, c);
    assert [a, b, c][1..] == [b, c] && [b, c][1..] == [c] && [c][1..] == [];
    assert Remove([c], a) == [c];
    assert Remove([b, c], a) == [b, c];
    assert Remove([a, b, c], a) == [b, c];
    ThreeRoomsRenumbered(a, b, c);
  }

  lemma {:induction false} StaleEntries(a: string, b: string, c: string)
    requires a != b && b != c && a != c
    ensures var l1 := ThreeRoomsWithoutFirst(a, b, c);
      CategoryEntries(l1.roomKeys, l1.rooms, DefaultCategoryId) == [Entry(a, 0), Entry(b, 0), Entry(c, 1)]
  {
    var l1 := ThreeRoomsWithoutFirst(a, b, c);
    var rooms := l1.rooms;
    assert rooms[a] == Placement(DefaultCategoryId, 0) && rooms[b] == Placement(DefaultCategoryId, 0);
    assert rooms[c] == Placement(DefaultCategoryId, 1);
    assert [a, b, c][1..] == [b, c] && [b, c][1..] == [c] && [c][1..] == [];
    assert CategoryEntries([c], rooms, DefaultCategoryId) == [Entry(c, 1)];
    assert CategoryEntries([b, c], rooms, DefaultCategoryId) == [Entry(b, 0), Entry(c, 1)];
  }

  lemma {:induction false} StaleEntriesSorted(a: string, b: string, c: string)
    ensures var es := [Entry(a, 0), Entry(b, 0), Entry(c, 1)];
      SortByKey(es, EntryOrder) == es
  {
    var es := [Entry(a, 0), Entry(b, 0), Entry(c, 1)];
    assert SortedByKey(es, EntryOrder);
    SortSortedIsIdentity(es, EntryOrder);
  }

  lemma {:induction false} StaleEntryIds(a: string, b: string, c: string)
    ensures EntryIds([Entry(a, 0), Entry(b, 0), Entry(c, 1)]) == [a, b, c]
  {
  }

  lemma {:induction false} StaleOrder(a: string, b: string, c: string)
    requires a != b && b != c && a != c
    ensures GetOrderedRoomIdsByCategory(ThreeRoomsWithoutFirst(a, b, c), DefaultCategoryId) == [a, b, c]
  {
    var l1 := ThreeRoomsWithoutFirst(a, b, c);
    StaleEntries(a, b, c);
    StaleEntriesSorted(a, b, c);
    StaleEntryIds(a, b, c);
  }

  lemma {:induction false} StaleInsertDeduplicated(a: string, b: string, c: string)
    requires a != b && b != c && a != c
    ensures FirstAppearances(InsertBefore([a, b, c], a, c)) == [a, b, c]
  {
    StaleInsert(a, b, c);
    StaleDeduplicated(a, b, c);
  }

  lemma {:induction false} StaleInsert(a: string, b: string, c: string)
    requires a != b && b != c && a != c
    ensures InsertBefore([a, b, c], a, c) == [a, b, a, c]
  {
    var abc := [a, b, c];
    assert IndexOf(abc, c) == 2 by {
      assert abc[1..] == [b, c] && abc[1..][1..] == [c];
    }
    assert abc[..2] == [a, b] && abc[2..] == [c];
  }

  lemma {:induction false} StaleDeduplicated(a: string, b: string, c: string)
    requires a != b && b != c && a != c
    ensures FirstAppearances([a, b, a, c]) == [a, b, c]
  {
    StaleRepeat(a, b);
    FirstAppearancesSnoc([a, b, a], c);
    assert [a, b, a] + [c] == [a, b, a, c];
  }

  lemma {:induction false} StaleRepeat(a: string, b: string)
    requires a != b
    ensures FirstAppearances([a, b, a]) == [a, b]
  {
    FirstAppearancesOfDistinct([a, b]);
    FirstAppearancesSnoc([a, b], a);
    assert [a, b] + [a] == [a, b, a];
  }

  /** The intended `reorderRoom` moves the first of three rooms in front of the third. */
  lemma {:induction false} ReorderRoomWithinCategoryIntended(a: string, b: string, c: string)
    requires a != b && b != c && a != c
    ensures GetOrderedRoomIdsByCategory(ReorderRoomLayout(ThreeRooms(a, b, c), a, c, None).value, DefaultCategoryId) == [b, a, c]
  {
    var base := ThreeRooms(a, b, c);
    ThreeRoomsOrder(a, b, c);
    assert Ids(base.categories) == [DefaultCategoryId];
    assert ReorderRoomDestination(base, a, c, None) == Some(DefaultCategoryId);
    ReorderRoomPlacesBefore(base, a, c, None);
    ThreeRoomsRest(a, b, c);
    InsertInFrontOfSecond(a, b, c);
  }

  lemma {:induction false} InsertInFrontOfSecond(a: string, b: string, c: string)
    requires a != b && b != c && a != c
    ensures InsertBefore([b, c], a, c) == [b, a, c]
  {
    assert [b, c][1..] == [c];
    assert IndexOf([b, c], c) == 1;
    assert [b, c][..1] == [b];
  }

  lemma {:induction false} ThreeRoomsRest(a: string, b: string, c: string)
    requires a != b && b != c && a != c
    ensures ReorderRoomRest(ThreeRooms(a, b, c), a, DefaultCategoryId) == [b, c]
  {
    ThreeRoomsOrder(a, b, c);
    assert [a, b, c][1..] == [b, c] && [b, c][1..] == [c] && [c][1..] == [];
    assert Remove([c], a) == [c];
    assert Remove([b, c], a) == [b, c];
    assert Remove([a, b, c], a) == [b, c];
  }

  /** The code as written: the first room keeps order 0 next to the second, so the fresh read is still `a, b, c`. */
  lemma {:induction false} ReorderRoomWithinCategoryAsWritten(a: string, b: string, c: string)
    requires a != b && b != c && a != c
    ensures GetOrderedRoomIdsByCategory(ReorderRoomAsWritten(ThreeRooms(a, b, c), a, c, None).value, DefaultCategoryId) == [a, b, c]
  {
    var base := ThreeRooms(a, b, c);
    assert Ids(base.categories) == [DefaultCategoryId];
    assert ReorderRoomDestination(base, a, c, None) == Some(DefaultCategoryId);
    ThreeRoomsRemoval(a, b, c);
    StaleOrder(a, b, c);
    StaleInsertDeduplicated(a, b, c);
    var l1 := ThreeRoomsWithoutFirst(a, b, c);
    assert WellKeyed(l1);
    WithRoomOrderRoundTrip(l1, DefaultCategoryId, [a, b, c]);
  }

  /**
   * Dragging the first of three rooms onto the third within `"channels"`: the
   * code as written leaves the order `a, b, c` unchanged, where the intended
   * result is `b, a, c`.
   */
  lemma {:induction false} ReorderRoomWithinCategoryIsNoop(a: string, b: string, c: string)
    requires a != b && b != c && a != c
    ensures var base := ThreeRooms(a, b, c);
      && GetOrderedRoomIdsByCategory(base, DefaultCategoryId) == [a, b, c]
      && GetOrderedRoomIdsByCategory(ReorderRoomAsWritten(base, a, c, None).value, DefaultCategoryId) == [a, b, c]
      && GetOrderedRoomIdsByCategory(ReorderRoomLayout(base, a, c, None).value, DefaultCategoryId) == [b, a, c]
  {
    ThreeRoomsOrder(a, b, c);
    ReorderRoomWithinCategoryIntended(a, b, c);
    ReorderRoomWithinCategoryAsWritten(a, b, c);
  }
}
