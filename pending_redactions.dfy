/**
 * Pruning of the queue of pending redactions (src/internal/store/legacy/shared.ts):
 * intents older than a day are dropped, the rest are taken newest first, one per
 * `roomId::transactionId` key, and at most 200 are kept. The clock is the
 * parameter `now`.
 */
module PendingRedactions {
  import opened Sorting

  /** `PendingRedactionIntent`. */
  datatype RedactionIntent = RedactionIntent(roomId: string, transactionId: string, sourceMessageId: string, queuedAt: int)

  /** `PENDING_REDACTION_TTL_MS`: one day. */
  const PendingRedactionTtlMs := 24 * 60 * 60 * 1000
  /** `PENDING_REDACTION_MAX_ITEMS`. */
  const PendingRedactionMaxItems := 200

  /** The dedupe key `${roomId}::${transactionId}`. */
  function IntentKey(intent: RedactionIntent): string
  {
    intent.roomId + "::" + intent.transactionId
  }

  /** `intents.filter((intent) => intent.queuedAt >= cutoff)`. */
  function QueuedSince(intents: seq<RedactionIntent>, cutoff: int): (r: seq<RedactionIntent>)
    ensures forall x :: x in r <==> x in intents && x.queuedAt >= cutoff
  {
    if intents == [] then []
    else (if intents[0].queuedAt >= cutoff then [intents[0]] else []) + QueuedSince(intents[1..], cutoff)
  }

  /** The sort key of `(left, right) => right.queuedAt - left.queuedAt`: ascending in it is newest first. */
  function NewestFirstKey(intent: RedactionIntent): int
  {
    -intent.queuedAt
  }

  /** The keys of a list of intents. */
  function KeysOf(s: seq<RedactionIntent>): set<string>
  {
    set x | x in s :: IntentKey(x)
  }

  /** The values of the dedupe map, in insertion order: the first intent seen for each key. */
  function FirstPerKey(s: seq<RedactionIntent>): seq<RedactionIntent>
  {
    if s == [] then []
    else
      var prev := FirstPerKey(s[..|s| - 1]);
      if IntentKey(s[|s| - 1]) in KeysOf(prev) then prev else prev + [s[|s| - 1]]
  }

  /** Pairwise different keys. */
  predicate DistinctKeys(s: seq<RedactionIntent>)
  {
    forall i, j :: 0 <= i < j < |s| ==> IntentKey(s[i]) != IntentKey(s[j])
  }

  /**
   * The dedupe keeps only intents of its input, one for every key of the input,
   * with pairwise different keys.
   */
  lemma {:induction false} FirstPerKeySpec(s: seq<RedactionIntent>)
    ensures forall x :: x in FirstPerKey(s) ==> x in s
    ensures KeysOf(FirstPerKey(s)) == KeysOf(s)
    ensures DistinctKeys(FirstPerKey(s))
  {
    if s != [] {
      var init := s[..|s| - 1];
      var last := s[|s| - 1];
      assert s == init + [last];
      FirstPerKeySpec(init);
      var prev := FirstPerKey(init);
      if IntentKey(last) !in KeysOf(prev) {
        var r := prev + [last];
        assert KeysOf(r) == KeysOf(prev) + {IntentKey(last)};
        forall i, j | 0 <= i < j < |r|
          ensures IntentKey(r[i]) != IntentKey(r[j])
        {
          if j == |r| - 1 {
            assert r[i] in prev;
          }
        }
      }
      assert KeysOf(s) == KeysOf(init) + {IntentKey(last)};
    }
  }

  /** The dedupe keeps the order of its input. */
  lemma {:induction false} FirstPerKeySorted(s: seq<RedactionIntent>)
    requires SortedByKey(s, NewestFirstKey)
    ensures SortedByKey(FirstPerKey(s), NewestFirstKey)
  {
    if s != [] {
      var init := s[..|s| - 1];
      var last := s[|s| - 1];
      SortedSlice(s, 0, |s| - 1, NewestFirstKey);
      FirstPerKeySorted(init);
      FirstPerKeySpec(init);
      var prev := FirstPerKey(init);
      var r := prev + [last];
      forall i, j | 0 <= i < j < |r|
        ensures NewestFirstKey(r[i]) <= NewestFirstKey(r[j])
      {
        if j == |r| - 1 {
          assert r[i] in init;
          var k :| 0 <= k < |init| && init[k] == r[i];
          assert s[k] == r[i];
        }
      }
    }
  }

  /** On a list sorted newest first, the intent kept for a key is at least as new as every intent with that key. */
  lemma {:induction false} FirstPerKeyNewest(s: seq<RedactionIntent>, x: RedactionIntent, y: RedactionIntent)
    requires SortedByKey(s, NewestFirstKey)
    requires x in FirstPerKey(s) && y in s && IntentKey(x) == IntentKey(y)
    ensures y.queuedAt <= x.queuedAt
  {
    var init := s[..|s| - 1];
    assert s == init + [s[|s| - 1]];
    FirstPerKeySpec(init);
    if x in FirstPerKey(init) {
      SortedSlice(s, 0, |s| - 1, NewestFirstKey);
      if y in init {
        FirstPerKeyNewest(init, x, y);
      } else {
        var k :| 0 <= k < |init| && init[k] == x;
        assert s[k] == x;
      }
    } else if y in init {
      assert false;
    }
  }

  /** `Array.from(dedupe.values()).slice(0, PENDING_REDACTION_MAX_ITEMS)`. */
  function Capped(s: seq<RedactionIntent>): (r: seq<RedactionIntent>)
  {
    if |s| <= PendingRedactionMaxItems then s else s[..PendingRedactionMaxItems]
  }

  /** The intents sorted newest first, ties in their original order. */
  function NewestFirst(intents: seq<RedactionIntent>): (r: seq<RedactionIntent>)
    ensures multiset(r) == multiset(intents)
    ensures SortedByKey(r, NewestFirstKey)
  {
    SortByKey(intents, NewestFirstKey)
  }

  /** The result of `prunePendingRedactionIntents` at time `now`, before the cap. */
  function Deduped(intents: seq<RedactionIntent>, now: int): seq<RedactionIntent>
  {
    FirstPerKey(NewestFirst(QueuedSince(intents, now - PendingRedactionTtlMs)))
  }

  /** The result of `prunePendingRedactionIntents` at time `now`. */
  function Pruned(intents: seq<RedactionIntent>, now: int): seq<RedactionIntent>
  {
    Capped(Deduped(intents, now))
  }

  /** The `forEach` that fills the dedupe map: `seen` is the map's key set, `kept` its values in insertion order. */
  method DedupeByKey(sorted: seq<RedactionIntent>) returns (kept: seq<RedactionIntent>)
    ensures kept == FirstPerKey(sorted)
  {
    var seen: set<string> := {};
    kept := [];
    var i := 0;
    while i < |sorted|
      invariant 0 <= i <= |sorted|
      invariant kept == FirstPerKey(sorted[..i])
      invariant seen == KeysOf(kept)
    {
      var key := IntentKey(sorted[i]);
      assert sorted[..i + 1][..i] == sorted[..i];
      if key !in seen {
        kept := kept + [sorted[i]];
        seen := seen + {key};
      }
      i := i + 1;
    }
    assert sorted[..|sorted|] == sorted;
  }

  /** `prunePendingRedactionIntents(intents)` with `Date.now()` equal to `now`. */
  method PrunePendingRedactionIntents(intents: seq<RedactionIntent>, now: int) returns (r: seq<RedactionIntent>)
    ensures r == Pruned(intents, now)
    ensures |r| <= PendingRedactionMaxItems
  {
    var cutoff := now - PendingRedactionTtlMs;
    var sorted := NewestFirst(QueuedSince(intents, cutoff));
    var kept := DedupeByKey(sorted);
    r := Capped(kept);
  }

  /** Facts about the list before the cap: recent intents of the input, newest first, keys distinct and complete. */
  lemma {:induction false} DedupedSpec(intents: seq<RedactionIntent>, now: int)
    ensures var d := Deduped(intents, now);
      (forall x :: x in d ==> x in intents && x.queuedAt >= now - PendingRedactionTtlMs) &&
      SortedByKey(d, NewestFirstKey) &&
      DistinctKeys(d) &&
      KeysOf(d) == KeysOf(QueuedSince(intents, now - PendingRedactionTtlMs))
  {
    var sorted := NewestFirst(QueuedSince(intents, now - PendingRedactionTtlMs));
    FirstPerKeySpec(sorted);
    FirstPerKeySorted(sorted);
    forall x | x in sorted
      ensures x in QueuedSince(intents, now - PendingRedactionTtlMs)
    {
      assert x in multiset(sorted);
    }
    assert KeysOf(sorted) == KeysOf(QueuedSince(intents, now - PendingRedactionTtlMs)) by {
      forall x | x in QueuedSince(intents, now - PendingRedactionTtlMs)
        ensures x in sorted
      {
        assert x in multiset(QueuedSince(intents, now - PendingRedactionTtlMs));
      }
    }
  }

  /**
   * Every kept intent comes from the input and was queued within the last day;
   * the result has at most 200 intents, newest first, and never two with the
   * same key.
   */
  lemma {:induction false} PrunedSpec(intents: seq<RedactionIntent>, now: int)
    ensures var r := Pruned(intents, now);
      |r| <= PendingRedactionMaxItems &&
      (forall x :: x in r ==> x in intents && x.queuedAt >= now - PendingRedactionTtlMs) &&
      (forall i, j :: 0 <= i < j < |r| ==> r[i].queuedAt >= r[j].queuedAt) &&
      DistinctKeys(r)
  {
    var d := Deduped(intents, now);
    DedupedSpec(intents, now);
    var r := Pruned(intents, now);
    assert forall i :: 0 <= i < |r| ==> r[i] == d[i];
    forall i, j | 0 <= i < j < |r|
      ensures r[i].queuedAt >= r[j].queuedAt
    {
      assert NewestFirstKey(d[i]) <= NewestFirstKey(d[j]);
    }
  }

  /** The intent kept for a key is at least as new as every recent intent of the input with that key. */
  lemma {:induction false} PrunedKeepsNewest(intents: seq<RedactionIntent>, now: int, x: RedactionIntent, y: RedactionIntent)
    requires x in Pruned(intents, now)
    requires y in intents && y.queuedAt >= now - PendingRedactionTtlMs && IntentKey(y) == IntentKey(x)
    ensures y.queuedAt <= x.queuedAt
  {
    DedupedKeepsNewest(intents, now, x, y);
  }

  /**
   * A recent key is missing from the result only when the result is full, and
   * then every kept intent is at least as new as the missing one.
   */
  lemma {:induction false} PrunedDropsOnlyWhenFull(intents: seq<RedactionIntent>, now: int, y: RedactionIntent)
    requires y in intents && y.queuedAt >= now - PendingRedactionTtlMs
    requires IntentKey(y) !in KeysOf(Pruned(intents, now))
    ensures |Pruned(intents, now)| == PendingRedactionMaxItems
    ensures forall x :: x in Pruned(intents, now) ==> x.queuedAt >= y.queuedAt
  {
    var d := Deduped(intents, now);
    var r := Pruned(intents, now);
    DedupedSpec(intents, now);
    var recent := QueuedSince(intents, now - PendingRedactionTtlMs);
    assert IntentKey(y) in KeysOf(recent);
    var z :| z in d && IntentKey(z) == IntentKey(y);
    var k :| 0 <= k < |d| && d[k] == z;
    DedupedKeepsNewest(intents, now, z, y);
    if k < PendingRedactionMaxItems {
      assert false;
    }
    forall x | x in r
      ensures x.queuedAt >= y.queuedAt
    {
      var i :| 0 <= i < |r| && r[i] == x;
      assert d[i] == x;
      assert NewestFirstKey(d[i]) <= NewestFirstKey(d[k]);
    }
  }

  /** `PrunedKeepsNewest` before the cap. */
  lemma {:induction false} DedupedKeepsNewest(intents: seq<RedactionIntent>, now: int, x: RedactionIntent, y: RedactionIntent)
    requires x in Deduped(intents, now)
    requires y in intents && y.queuedAt >= now - PendingRedactionTtlMs && IntentKey(y) == IntentKey(x)
    ensures y.queuedAt <= x.queuedAt
  {
    var recent := QueuedSince(intents, now - PendingRedactionTtlMs);
    assert y in multiset(recent);
    FirstPerKeyNewest(NewestFirst(recent), x, y);
  }
}
