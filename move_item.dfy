/** `moveItem`: take one element out of a list and splice it back in at another index. */
module MoveItems {
  /**
   * `moveItem(items, sourceIndex, targetIndex)`. `isFalsy` says which elements
   * JavaScript treats as false (`if (!item) return items`); the target index is
   * clamped to the shortened list, as `splice` does.
   */
  function MoveItem<T>(items: seq<T>, source: int, target: int, isFalsy: T -> bool): seq<T>
  {
    if source < 0 || target < 0 || source == target then items
    else if source >= |items| || isFalsy(items[source]) then items
    else
      var rest := items[..source] + items[source + 1..];
      var t := if target <= |rest| then target else |rest|;
      rest[..t] + [items[source]] + rest[t..]
  }

  /** The indices `moveItem` acts on: both in range, different, and a truthy element. */
  predicate Moves<T>(items: seq<T>, source: int, target: int, isFalsy: T -> bool)
  {
    0 <= source < |items| && 0 <= target < |items| && source != target && !isFalsy(items[source])
  }

  /** Moving rearranges the list and nothing more: the result is a permutation. */
  lemma {:induction false} MoveItemPermutes<T>(items: seq<T>, source: int, target: int, isFalsy: T -> bool)
    ensures multiset(MoveItem(items, source, target, isFalsy)) == multiset(items)
  {
    if !(source < 0 || target < 0 || source == target) && !(source >= |items| || isFalsy(items[source])) {
      var rest := items[..source] + items[source + 1..];
      var t := if target <= |rest| then target else |rest|;
      assert items == items[..source] + [items[source]] + items[source + 1..];
      assert rest == rest[..t] + rest[t..];
      calc {
        multiset(rest[..t] + [items[source]] + rest[t..]);
        multiset(rest[..t]) + multiset{items[source]} + multiset(rest[t..]);
        multiset(rest) + multiset{items[source]};
        multiset(items);
      }
    }
  }

  /**
   * When it moves, the element lands at the target index, the elements between
   * the two indices shift by one towards the source, and the rest stay put.
   */
  lemma {:induction false} MoveItemSpec<T>(items: seq<T>, source: int, target: int, isFalsy: T -> bool)
    requires Moves(items, source, target, isFalsy)
    ensures var r := MoveItem(items, source, target, isFalsy);
      && |r| == |items|
      && r[target] == items[source]
      && (forall k :: 0 <= k < |items| && (k < source || target < k) && (k < target || source < k) ==> r[k] == items[k])
      && (forall k :: source <= k < target ==> r[k] == items[k + 1])
      && (forall k :: target < k <= source ==> r[k] == items[k - 1])
  {
  }

  /** When it moves, the length is kept and the element lands at the target index. */
  lemma {:induction false} MoveItemLands<T>(items: seq<T>, source: int, target: int, isFalsy: T -> bool)
    requires Moves(items, source, target, isFalsy)
    ensures |MoveItem(items, source, target, isFalsy)| == |items|
    ensures MoveItem(items, source, target, isFalsy)[target] == items[source]
  {
    MoveItemSpec(items, source, target, isFalsy);
  }

  /** Moving to a neighbouring index swaps the two elements. */
  lemma {:induction false} MoveItemAdjacentSwaps<T>(items: seq<T>, source: int, target: int, isFalsy: T -> bool)
    requires Moves(items, source, target, isFalsy)
    requires target == source + 1 || target == source - 1
    ensures MoveItem(items, source, target, isFalsy) == items[source := items[target]][target := items[source]]
  {
    MoveItemSpec(items, source, target, isFalsy);
  }
}
