/**
 * Combining a room's loaded messages with a fresh timeline
 * (src/internal/store/legacy/shared.ts): `mergeMessagesById` keeps one message
 * per id, the later copy winning, and sorts by timestamp then id;
 * `filterMessagesByIds` drops the messages whose id is listed.
 */
module TimelineMerge {
  import opened Text
  import opened Sorting
  import opened Entities

  /** The ids of a list of messages. */
  function Ids(ms: seq<Message>): seq<string>
  {
    seq(|ms|, i requires 0 <= i < |ms| => ms[i].id)
  }

  /** The `Map` filled by `merged.set(message.id, message)` for each message in turn. */
  function ById(ms: seq<Message>): map<string, Message>
  {
    if ms == [] then map[]
    else ById(ms[..|ms| - 1])[ms[|ms| - 1].id := ms[|ms| - 1]]
  }

  /** The map has an entry for exactly the ids of the list. */
  lemma {:induction false} ByIdDomain(ms: seq<Message>)
    ensures forall k :: k in ById(ms) <==> k in Ids(ms)
  {
    if ms != [] {
      var init := ms[..|ms| - 1];
      ByIdDomain(init);
      assert Ids(ms) == Ids(init) + [ms[|ms| - 1].id];
    }
  }

  /** The position of the message the map holds for `k`: the last one with that id. */
  lemma {:induction false} LastWithId(ms: seq<Message>, k: string) returns (i: nat)
    requires k in ById(ms)
    ensures i < |ms| && ms[i] == ById(ms)[k] && ms[i].id == k
    ensures forall j :: i < j < |ms| ==> ms[j].id != k
  {
    var init := ms[..|ms| - 1];
    if ms[|ms| - 1].id == k {
      i := |ms| - 1;
    } else {
      i := LastWithId(init, k);
      assert ms[i] == init[i];
    }
  }

  /**
   * The map has an entry for exactly the ids of the list, and the entry for an
   * id is the last message in the list with that id.
   */
  lemma {:induction false} ByIdSpec(ms: seq<Message>)
    ensures forall k :: k in ById(ms) <==> k in Ids(ms)
    ensures forall k :: k in ById(ms) ==> ById(ms)[k].id == k
    ensures forall k :: k in ById(ms) ==>
      exists i :: 0 <= i < |ms| && ms[i] == ById(ms)[k] && forall j :: i < j < |ms| ==> ms[j].id != k
  {
    ByIdDomain(ms);
    forall k | k in ById(ms)
      ensures ById(ms)[k].id == k
      ensures exists i :: 0 <= i < |ms| && ms[i] == ById(ms)[k] && forall j :: i < j < |ms| ==> ms[j].id != k
    {
      var i := LastWithId(ms, k);
    }
  }

  /** Filling the map from two lists in turn: the second list's entries win. */
  lemma {:induction false} ByIdConcat(a: seq<Message>, b: seq<Message>)
    ensures ById(a + b) == ById(a) + ById(b)
  {
    if b != [] {
      var init := b[..|b| - 1];
      ByIdConcat(a, init);
      assert (a + b)[..|a + b| - 1] == a + init;
    } else {
      assert a + b == a;
    }
  }

  /** `Array.from(merged.values())`: one message per id, in the order the ids first appeared. */
  function MergedValues(existing: seq<Message>, timeline: seq<Message>): seq<Message>
  {
    var all := existing + timeline;
    var ids := FirstAppearances(Ids(all));
    ByIdSpec(all);
    seq(|ids|, i requires 0 <= i < |ids| => ById(all)[ids[i]])
  }

  /** The comparator of `mergeMessagesById`: by timestamp, then by id. */
  predicate MessageBefore(l: Message, r: Message)
  {
    l.timestamp < r.timestamp || (l.timestamp == r.timestamp && CodeUnitLess(l.id, r.id))
  }

  /** The comparator is consistent: never both ways, and "not after" is transitive. */
  lemma {:induction false} MessageBeforeOrder()
    ensures Preorder(MessageBefore)
  {
    forall a: Message, b: Message
      ensures MessageBefore(a, b) ==> !MessageBefore(b, a)
    {
      CodeUnitLessOrder(a.id, b.id, a.id);
    }
    forall a: Message, b: Message, c: Message
      ensures !MessageBefore(b, a) && !MessageBefore(c, b) ==> !MessageBefore(c, a)
    {
      CodeUnitLessOrder(a.id, b.id, c.id);
      CodeUnitLessOrder(b.id, c.id, a.id);
      CodeUnitLessOrder(c.id, a.id, b.id);
    }
  }

  /** `mergeMessagesById(existingMessages, timelineMessages)`. */
  function MergeMessagesById(existing: seq<Message>, timeline: seq<Message>): seq<Message>
  {
    MessageBeforeOrder();
    SortBy(MergedValues(existing, timeline), MessageBefore)
  }

  /** The merged values are exactly the map's entries, with pairwise different ids. */
  lemma {:induction false} MergedValuesSpec(existing: seq<Message>, timeline: seq<Message>)
    ensures var all := existing + timeline;
      var vs := MergedValues(existing, timeline);
      (forall m :: m in vs <==> m.id in ById(all) && ById(all)[m.id] == m) &&
      (forall i, j :: 0 <= i < j < |vs| ==> vs[i].id != vs[j].id)
  {
    var all := existing + timeline;
    var ids := FirstAppearances(Ids(all));
    var vs := MergedValues(existing, timeline);
    ByIdSpec(all);
    assert forall i :: 0 <= i < |vs| ==> vs[i].id == ids[i];
    forall m: Message | m.id in ById(all) && ById(all)[m.id] == m
      ensures m in vs
    {
      assert m.id in Ids(all);
      var i :| 0 <= i < |ids| && ids[i] == m.id;
      assert vs[i] == m;
    }
  }

  /** No two merged messages share an id. */
  lemma {:induction false} MergeIdsUnique(existing: seq<Message>, timeline: seq<Message>)
    ensures var r := MergeMessagesById(existing, timeline);
      forall i, j :: 0 <= i < j < |r| ==> r[i].id != r[j].id
  {
    MergedValuesSpec(existing, timeline);
    PermutationKeepsDistinctKeys(MergedValues(existing, timeline), MergeMessagesById(existing, timeline), (m: Message) => m.id);
  }

  /** Every message of a list has its id in the map. */
  lemma {:induction false} ByIdHasEveryId(ms: seq<Message>)
    ensures forall m :: m in ms ==> m.id in ById(ms)
  {
    if ms != [] {
      var init := ms[..|ms| - 1];
      ByIdHasEveryId(init);
      assert ms == init + [ms[|ms| - 1]];
    }
  }

  /** The merge holds the same messages as the map's values, only sorted. */
  lemma {:induction false} MergeSameElements(existing: seq<Message>, timeline: seq<Message>)
    ensures forall m :: m in MergeMessagesById(existing, timeline) <==> m in MergedValues(existing, timeline)
  {
    var r := MergeMessagesById(existing, timeline);
    forall m: Message
      ensures m in r <==> m in MergedValues(existing, timeline)
    {
      assert m in r <==> m in multiset(r);
    }
  }

  /** For every id of the timeline, the merge holds the timeline's last message with that id. */
  lemma {:induction false} MergeKeepsTimelineCopies(existing: seq<Message>, timeline: seq<Message>)
    ensures forall t :: t in timeline ==>
      t.id in ById(timeline) && ById(timeline)[t.id] in MergeMessagesById(existing, timeline)
  {
    MergedValuesSpec(existing, timeline);
    MergeSameElements(existing, timeline);
    ByIdConcat(existing, timeline);
    ByIdHasEveryId(timeline);
    ByIdSpec(timeline);
  }

  /** For every id only the loaded list has, the merge holds its last message with that id. */
  lemma {:induction false} MergeKeepsExistingCopies(existing: seq<Message>, timeline: seq<Message>)
    ensures forall e :: e in existing && e.id !in ById(timeline) ==>
      e.id in ById(existing) && ById(existing)[e.id] in MergeMessagesById(existing, timeline)
  {
    MergedValuesSpec(existing, timeline);
    MergeSameElements(existing, timeline);
    ByIdConcat(existing, timeline);
    ByIdHasEveryId(existing);
    ByIdSpec(existing);
  }

  /** Every merged message is the timeline's copy for its id, or the loaded one when the timeline has none. */
  lemma {:induction false} MergeHoldsNothingElse(existing: seq<Message>, timeline: seq<Message>)
    ensures forall m :: m in MergeMessagesById(existing, timeline) ==>
      (m.id in ById(timeline) && ById(timeline)[m.id] == m) ||
      (m.id !in ById(timeline) && m.id in ById(existing) && ById(existing)[m.id] == m)
  {
    MergedValuesSpec(existing, timeline);
    MergeSameElements(existing, timeline);
    ByIdConcat(existing, timeline);
  }

  /** The merge is strictly ordered by timestamp, then by id. */
  lemma {:induction false} MergeSorted(existing: seq<Message>, timeline: seq<Message>)
    ensures var r := MergeMessagesById(existing, timeline);
      forall i, j :: 0 <= i < j < |r| ==>
        r[i].timestamp < r[j].timestamp || (r[i].timestamp == r[j].timestamp && CodeUnitLess(r[i].id, r[j].id))
  {
    var r := MergeMessagesById(existing, timeline);
    MergeIdsUnique(existing, timeline);
    forall i, j | 0 <= i < j < |r|
      ensures MessageBefore(r[i], r[j])
    {
      assert !MessageBefore(r[j], r[i]);
      CodeUnitLessOrder(r[i].id, r[j].id, r[i].id);
    }
  }

  /** `blocked.has(id)`: the id is listed and not empty. */
  predicate Blocked(removeIds: seq<string>, id: string)
  {
    id != "" && id in removeIds
  }

  /** `messages.filter((message) => !blocked.has(message.id))`. */
  function WithoutBlocked(ms: seq<Message>, removeIds: seq<string>): (r: seq<Message>)
    ensures forall m :: m in r <==> m in ms && !Blocked(removeIds, m.id)
  {
    if ms == [] then []
    else (if Blocked(removeIds, ms[0].id) then [] else [ms[0]]) + WithoutBlocked(ms[1..], removeIds)
  }

  /** `filterMessagesByIds(messages, removeIds)`: the list itself when no non-empty id is listed. */
  function FilterMessagesByIds(ms: seq<Message>, removeIds: seq<string>): seq<Message>
  {
    if removeIds == [] then ms
    else if forall id :: id in removeIds ==> id == "" then ms
    else WithoutBlocked(ms, removeIds)
  }

  /** `rel` holds between every message and each later one. */
  predicate Pairwise(ms: seq<Message>, rel: (Message, Message) -> bool)
  {
    forall i, j :: 0 <= i < j < |ms| ==> rel(ms[i], ms[j])
  }

  /** A message related to every later one, in front of a pairwise related list, keeps it pairwise related. */
  lemma {:induction false} ConsPairwise(x: Message, rest: seq<Message>, rel: (Message, Message) -> bool)
    requires Pairwise(rest, rel)
    requires forall y :: y in rest ==> rel(x, y)
    ensures Pairwise([x] + rest, rel)
  {
    var r := [x] + rest;
    forall i, j | 0 <= i < j < |r|
      ensures rel(r[i], r[j])
    {
      assert r[j] == rest[j - 1];
      if i > 0 {
        assert r[i] == rest[i - 1];
      }
    }
  }

  /** In a pairwise related list, the head is related to everything behind it. */
  lemma {:induction false} HeadRelatesAll(ms: seq<Message>, rel: (Message, Message) -> bool)
    requires ms != [] && Pairwise(ms, rel)
    ensures Pairwise(ms[1..], rel)
    ensures forall y :: y in ms[1..] ==> rel(ms[0], y)
  {
    forall y | y in ms[1..]
      ensures rel(ms[0], y)
    {
      var k :| 0 <= k < |ms[1..]| && ms[1..][k] == y;
      assert ms[k + 1] == y;
    }
    forall i, j | 0 <= i < j < |ms[1..]|
      ensures rel(ms[1..][i], ms[1..][j])
    {
      assert ms[1..][i] == ms[i + 1] && ms[1..][j] == ms[j + 1];
    }
  }

  /** Filtering keeps every relation that held between earlier and later messages. */
  lemma {:induction false} WithoutBlockedKeepsPairs(ms: seq<Message>, removeIds: seq<string>, rel: (Message, Message) -> bool)
    requires Pairwise(ms, rel)
    ensures Pairwise(WithoutBlocked(ms, removeIds), rel)
  {
    if ms != [] {
      HeadRelatesAll(ms, rel);
      WithoutBlockedKeepsPairs(ms[1..], removeIds, rel);
      if !Blocked(removeIds, ms[0].id) {
        ConsPairwise(ms[0], WithoutBlocked(ms[1..], removeIds), rel);
      }
    }
  }

  /**
   * The filter removes exactly the messages whose id is a listed non-empty id,
   * and returns the list itself when no non-empty id is listed.
   */
  lemma {:induction false} FilterMessagesByIdsSpec(ms: seq<Message>, removeIds: seq<string>)
    ensures var r := FilterMessagesByIds(ms, removeIds);
      (forall m :: m in r <==> m in ms && !Blocked(removeIds, m.id)) &&
      ((forall id :: id in removeIds ==> id == "") ==> r == ms)
  {
  }

  /** The filter keeps the order of the messages it keeps. */
  lemma {:induction false} FilterMessagesByIdsKeepsOrder(ms: seq<Message>, removeIds: seq<string>, rel: (Message, Message) -> bool)
    requires Pairwise(ms, rel)
    ensures Pairwise(FilterMessagesByIds(ms, removeIds), rel)
  {
    WithoutBlockedKeepsPairs(ms, removeIds, rel);
  }

  /** `resolveTimelineMessages`: merge, then drop the listed ids. */
  function ResolveTimelineMessages(existing: seq<Message>, timeline: seq<Message>, removeIds: seq<string>): seq<Message>
  {
    FilterMessagesByIds(MergeMessagesById(existing, timeline), removeIds)
  }

  /** The relation `MergeSorted` and `MergeIdsUnique` state between earlier and later messages. */
  predicate StrictlyBefore(l: Message, r: Message)
  {
    l.id != r.id && (l.timestamp < r.timestamp || (l.timestamp == r.timestamp && CodeUnitLess(l.id, r.id)))
  }

  /**
   * The resolved timeline is strictly ordered by timestamp then id, has one
   * message per id, and holds exactly the merged messages whose id is not listed.
   */
  lemma {:induction false} ResolveTimelineMessagesSpec(existing: seq<Message>, timeline: seq<Message>, removeIds: seq<string>)
    ensures var merged := MergeMessagesById(existing, timeline);
      var r := ResolveTimelineMessages(existing, timeline, removeIds);
      Pairwise(r, StrictlyBefore) &&
      (forall m :: m in r <==> m in merged && !Blocked(removeIds, m.id))
  {
    MergeSorted(existing, timeline);
    MergeIdsUnique(existing, timeline);
    FilterMessagesByIdsSpec(MergeMessagesById(existing, timeline), removeIds);
    FilterMessagesByIdsKeepsOrder(MergeMessagesById(existing, timeline), removeIds, StrictlyBefore);
  }
}
