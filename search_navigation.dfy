/**
 * The search navigation hook of src/app/useSearchNavigation.ts: the active
 * result index and the focused message, held as React state. The result ids
 * are `buildSearchResultIds` of the current room's messages
 * (`MessagePresentation.BuildSearchResultIds`); each method receives them.
 */
module SearchNavigation {
  import opened Wrappers

  /** JavaScript `a % n` for `n > 0`: the remainder takes the sign of `a`. */
  function JsRem(a: int, n: int): (r: int)
    requires n > 0
    ensures a >= 0 ==> 0 <= r < n
    ensures a < 0 ==> -n < r <= 0
  {
    if a >= 0 then a % n else -((-a) % n)
  }

  lemma {:induction false} SmallRem(a: int, n: int)
    requires 0 <= a < n
    ensures a % n == a
  {
  }

  lemma {:induction false} ShiftedRem(a: int, n: int)
    requires n <= a < 2 * n
    ensures a % n == a - n
  {
  }

  /** The remainder of a number between `-n` and `n` is the number itself. */
  lemma {:induction false} JsRemSmall(a: int, n: int)
    requires n > 0 && -n < a < n
    ensures JsRem(a, n) == a
  {
    if a >= 0 {
      SmallRem(a, n);
    } else {
      SmallRem(-a, n);
    }
  }

  /** The remainder of a number in `[0, 2n]` is the number brought back into `[0, n)`. */
  lemma {:induction false} JsRemUpToTwice(a: int, n: int)
    requires n > 0 && 0 <= a <= 2 * n
    ensures JsRem(a, n) == if a < n then a else if a < 2 * n then a - n else 0
  {
    if a < n {
      SmallRem(a, n);
    } else if a < 2 * n {
      ShiftedRem(a, n);
    }
  }

  /** `((i % n) + n) % n`. */
  function NormalizedIndex(i: int, n: int): int
    requires n > 0
  {
    JsRem(JsRem(i, n) + n, n)
  }

  /**
   * The normalised index is always a valid position and is the index itself
   * when that is already valid; a negative index counts back from the end.
   */
  lemma {:induction false} NormalizedIndexSpec(i: int, n: int)
    requires n > 0
    ensures 0 <= NormalizedIndex(i, n) < n
    ensures 0 <= i < n ==> NormalizedIndex(i, n) == i
    ensures -n < i < 0 ==> NormalizedIndex(i, n) == i + n
  {
    var a := JsRem(i, n);
    JsRemUpToTwice(a + n, n);
    if -n < i < n {
      JsRemSmall(i, n);
    }
  }

  /** `activeSearchResultId`. */
  function ActiveSearchResultId(results: seq<string>, index: int): (r: Option<string>)
    ensures r.None? <==> results == []
    ensures r.Some? ==> r.value in results
  {
    if |results| > 0 then
      NormalizedIndexSpec(index, |results|);
      Some(results[NormalizedIndex(index, |results|)])
    else None
  }

  /** The index `navigateSearch` moves to. */
  function NextIndex(current: int, n: int, forward: bool): int
    requires n > 0
  {
    JsRem(current + (if forward then 1 else -1) + n, n)
  }

  /**
   * From a valid index, "next" moves one on and wraps from the last result to
   * the first, "prev" moves one back and wraps from the first to the last, and
   * either lands on a valid index.
   */
  lemma {:induction false} NextIndexSpec(current: int, n: int)
    requires n > 0 && 0 <= current < n
    ensures 0 <= NextIndex(current, n, true) < n && 0 <= NextIndex(current, n, false) < n
    ensures NextIndex(current, n, true) == (if current == n - 1 then 0 else current + 1)
    ensures NextIndex(current, n, false) == (if current == 0 then n - 1 else current - 1)
  {
    JsRemUpToTwice(current + 1 + n, n);
    JsRemUpToTwice(current - 1 + n, n);
  }

  /** "prev" undoes "next" and "next" undoes "prev". */
  lemma {:induction false} NextThenPrev(current: int, n: int)
    requires n > 0 && 0 <= current < n
    ensures NextIndex(NextIndex(current, n, true), n, false) == current
    ensures NextIndex(NextIndex(current, n, false), n, true) == current
  {
    NextIndexSpec(current, n);
    NextIndexSpec(NextIndex(current, n, true), n);
    NextIndexSpec(NextIndex(current, n, false), n);
  }

  /** The hook's state. */
  class SearchNavigator {
    var activeIndex: int
    var focusMessageId: Option<string>

    /** The index is never negative: it starts at 0 and is only set to 0 or a remainder. */
    predicate Valid()
      reads this
    {
      activeIndex >= 0
    }

    constructor()
      ensures Valid()
      ensures activeIndex == 0 && focusMessageId == None
    {
      activeIndex := 0;
      focusMessageId := None;
    }

    /** The effect run when the query, the filter or the room changes. */
    method ResetIndex()
      modifies this
      ensures Valid()
      ensures activeIndex == 0 && focusMessageId == old(focusMessageId)
    {
      activeIndex := 0;
    }

    /** The effect that resets an index past the end of a non-empty result list. */
    method ClampIndex(results: seq<string>)
      requires Valid()
      modifies this
      ensures Valid()
      ensures results != [] && old(activeIndex) >= |results| ==> activeIndex == 0
      ensures results == [] || old(activeIndex) < |results| ==> activeIndex == old(activeIndex)
      ensures results != [] ==> activeIndex < |results|
      ensures focusMessageId == old(focusMessageId)
    {
      if |results| == 0 {
        return;
      }
      if activeIndex < |results| {
        return;
      }
      activeIndex := 0;
    }

    /** The effect that focuses the active result when there is a non-empty one. */
    method FollowActive(results: seq<string>)
      modifies this
      ensures activeIndex == old(activeIndex)
      ensures var id := ActiveSearchResultId(results, activeIndex);
        focusMessageId == (if id.Some? && id.value != "" then id else old(focusMessageId))
    {
      var id := ActiveSearchResultId(results, activeIndex);
      if id.None? || id.value == "" {
        return;
      }
      focusMessageId := id;
    }

    /** `navigateSearch(direction)`: a no-op without results, else the wrapped step and a focus on its result. */
    method NavigateSearch(results: seq<string>, forward: bool)
      requires Valid()
      modifies this
      ensures Valid()
      ensures results == [] ==> activeIndex == old(activeIndex) && focusMessageId == old(focusMessageId)
      ensures results != [] ==>
        activeIndex == NextIndex(old(activeIndex), |results|, forward) &&
        0 <= activeIndex < |results| &&
        focusMessageId == Some(results[activeIndex])
    {
      if |results| == 0 {
        return;
      }
      var nextIndex := NextIndex(activeIndex, |results|, forward);
      focusMessageId := Some(results[nextIndex]);
      activeIndex := nextIndex;
    }
  }
}
