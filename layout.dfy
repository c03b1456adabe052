/**
 * The channel layout of a space: an ordered list of categories and, for every
 * non-DM room, a placement (category and order). This module holds the pure
 * layout functions; the in-place edits of a layout draft are in `LayoutDraft`.
 */
module Layout {
  import opened Wrappers
  import opened Text
  import opened Sorting
  import opened Entities
  import Slug

  const DefaultCategoryId: string := "channels"
  const DefaultCategoryName: string := "Channels"

  /** A JavaScript number as far as `Number.isFinite` is concerned. */
  datatype Order = Finite(value: int) | NonFinite

  datatype LayoutCategory = LayoutCategory(id: string, name: string, order: Order)

  datatype Placement = Placement(categoryId: string, order: int)

  /**
   * A `SpaceLayout`. The record `rooms` is a map plus `roomKeys`, the order in which
   * JavaScript enumerates its keys (insertion order; reassigning a key keeps its place).
   */
  datatype SpaceLayout = SpaceLayout(categories: seq<LayoutCategory>, roomKeys: seq<string>, rooms: map<string, Placement>)

  /** The key list enumerates exactly the keys of the map, each once. */
  ghost predicate WellKeyed(l: SpaceLayout)
  {
    Distinct(l.roomKeys) && forall k :: k in l.rooms <==> k in l.roomKeys
  }

  function Ids(cats: seq<LayoutCategory>): (r: seq<string>)
    ensures |r| == |cats| && forall i :: 0 <= i < |cats| ==> r[i] == cats[i].id
  {
    if cats == [] then [] else [cats[0].id] + Ids(cats[1..])
  }

  // ---------------------------------------------------------------------------
  // Names and ids
  // ---------------------------------------------------------------------------

  /** `normalizeCategoryName`: the trimmed name, or `"Channels"` when it is blank. */
  function NormalizeCategoryName(value: string): string
  {
    if TrimJs(value) != [] then TrimJs(value) else DefaultCategoryName
  }

  /** A name `normalizeCategoryName` returns: non-empty, without whitespace at either end. */
  predicate IsCategoryName(name: string)
  {
    name != [] && !IsJsSpace(name[0]) && !IsJsSpace(name[|name| - 1])
  }

  /** A normalised name is never blank, is the trimmed input when that is not blank, and is a fixed point. */
  lemma {:induction false} NormalizeCategoryNameSpec(value: string)
    ensures var r := NormalizeCategoryName(value);
      IsCategoryName(r) && NormalizeCategoryName(r) == r && (!IsBlankJs(value) ==> r == TrimJs(value))
  {
    TrimSpec(value, IsJsSpace);
    CategoryNameIsFixed(NormalizeCategoryName(value));
  }

  /** Normalising a category name leaves it as it is. */
  lemma {:induction false} CategoryNameIsFixed(name: string)
    requires IsCategoryName(name)
    ensures NormalizeCategoryName(name) == name
  {
    assert TrimStart(name, IsJsSpace) == name;
    assert TrimEnd(name, IsJsSpace) == name;
  }

  /**
   * `toCategoryId`: the slug of the name or, when the slug is empty, the fresh id
   * `uid("cat")` supplied by the caller. One `freshId` stands for every call: where
   * `createCategory` calls `toCategoryId` again on each pass of its suffix search, a
   * name without a slug draws a new random id each time, which the model does not.
   */
  function ToCategoryId(value: string, freshId: string): string
  {
    var slug := Slug.Slugify(value);
    if slug != [] then slug else freshId
  }

  /** The id is a non-empty slug when the name has a letter or digit, and the fresh id otherwise. */
  lemma {:induction false} ToCategoryIdSpec(value: string, freshId: string)
    ensures var r := ToCategoryId(value, freshId);
      if Slug.HasSlugChar(Lower(TrimJs(value))) then r != [] && Slug.IsSlug(r) else r == freshId
  {
    Slug.SlugifySpec(value);
  }

  // ---------------------------------------------------------------------------
  // normalizeLayoutCategories
  // ---------------------------------------------------------------------------

  /** `filter((category) => Boolean(category.id))`. */
  function WithIds(cats: seq<LayoutCategory>): (r: seq<LayoutCategory>)
    ensures forall x :: x in Ids(r) <==> x != [] && x in Ids(cats)
  {
    if cats == [] then []
    else if cats[0].id != [] then [cats[0]] + WithIds(cats[1..])
    else WithIds(cats[1..])
  }

  /** The filter with a `seen` set: the first category of every id, in order. */
  function FirstPerId(cats: seq<LayoutCategory>, seen: set<string>): (r: seq<LayoutCategory>)
    ensures forall x :: x in Ids(r) <==> x in Ids(cats) && x !in seen
    ensures Distinct(Ids(r))
  {
    if cats == [] then []
    else if cats[0].id in seen then FirstPerId(cats[1..], seen)
    else [cats[0]] + FirstPerId(cats[1..], seen + {cats[0].id})
  }

  /** `map((category, index) => …)`: normalised name, and the index when the order is not finite. */
  function Prepared(cats: seq<LayoutCategory>, start: int): (r: seq<LayoutCategory>)
    ensures Ids(r) == Ids(cats)
    ensures forall i :: 0 <= i < |r| ==> r[i].order.Finite? && IsCategoryName(r[i].name)
  {
    if cats == [] then []
    else
      var c := cats[0];
      NormalizeCategoryNameSpec(c.name);
      [LayoutCategory(c.id, NormalizeCategoryName(c.name), if c.order.Finite? then c.order else Finite(start))]
        + Prepared(cats[1..], start + 1)
  }

  /** The sort key `category.order` (finite after `Prepared`). */
  function OrderKey(c: LayoutCategory): int
  {
    if c.order.Finite? then c.order.value else 0
  }

  /** `map((category, index) => ({ ...category, order: index }))`. */
  function Reindexed(cats: seq<LayoutCategory>, start: int): (r: seq<LayoutCategory>)
    ensures |r| == |cats|
    ensures forall i :: 0 <= i < |r| ==> r[i] == LayoutCategory(cats[i].id, cats[i].name, Finite(start + i))
  {
    if cats == [] then [] else [cats[0].(order := Finite(start))] + Reindexed(cats[1..], start + 1)
  }

  function DefaultCategory(): LayoutCategory
  {
    LayoutCategory(DefaultCategoryId, DefaultCategoryName, Finite(-1))
  }

  /** What every normalised category list satisfies. */
  predicate NormalizedCategories(cats: seq<LayoutCategory>)
  {
    && Distinct(Ids(cats))
    && [] !in Ids(cats)
    && DefaultCategoryId in Ids(cats)
    && (forall i :: 0 <= i < |cats| ==> cats[i].order == Finite(i) && IsCategoryName(cats[i].name))
  }

  /** A permutation of a category list has the same ids and the same members. */
  lemma {:induction false} PermutedCategories(s: seq<LayoutCategory>, r: seq<LayoutCategory>)
    requires multiset(r) == multiset(s)
    ensures forall c :: c in r <==> c in s
    ensures forall x :: x in Ids(r) <==> x in Ids(s)
    ensures Distinct(Ids(s)) ==> Distinct(Ids(r))
  {
    assert forall c :: c in r <==> c in s by {
      forall c
        ensures c in r <==> c in s
      {
        assert c in r <==> c in multiset(r);
        assert c in s <==> c in multiset(s);
      }
    }
    SameMembersSameIds(s, r);
    SameMembersSameIds(r, s);
    if Distinct(Ids(s)) {
      PermutedDistinctIds(s, r);
    }
  }

  lemma {:induction false} SameMembersSameIds(s: seq<LayoutCategory>, r: seq<LayoutCategory>)
    requires forall c :: c in r <==> c in s
    ensures forall x :: x in Ids(s) ==> x in Ids(r)
  {
    forall x | x in Ids(s)
      ensures x in Ids(r)
    {
      var j :| 0 <= j < |s| && Ids(s)[j] == x;
      assert s[j] in r;
      var i :| 0 <= i < |r| && r[i] == s[j];
      assert Ids(r)[i] == x;
    }
  }

  lemma {:induction false} PermutedDistinctIds(s: seq<LayoutCategory>, r: seq<LayoutCategory>)
    requires multiset(r) == multiset(s)
    requires forall c :: c in r <==> c in s
    requires Distinct(Ids(s))
    ensures Distinct(Ids(r))
  {
    assert Distinct(s) by {
      forall a, b | 0 <= a < b < |s|
        ensures s[a] != s[b]
      {
        assert Ids(s)[a] != Ids(s)[b];
      }
    }
    PermutationKeepsDistinct(s, r);
    forall a, b | 0 <= a < b < |r|
      ensures Ids(r)[a] != Ids(r)[b]
    {
      assert r[a] in s && r[b] in s;
      var i :| 0 <= i < |s| && s[i] == r[a];
      var j :| 0 <= j < |s| && s[j] == r[b];
      assert i != j;
      assert Ids(s)[i] != Ids(s)[j];
    }
  }

  /** The categories before `"channels"` is added: deduplicated, with non-empty ids and normalised names. */
  function Deduped(cats: seq<LayoutCategory>): seq<LayoutCategory>
  {
    SortByKey(Prepared(FirstPerId(WithIds(cats), {}), 0), OrderKey)
  }

  /** `normalizeLayoutCategories`. */
  function NormalizeLayoutCategories(cats: seq<LayoutCategory>): seq<LayoutCategory>
  {
    var deduped := Deduped(cats);
    var withDefault := if DefaultCategoryId in Ids(deduped) then deduped else [DefaultCategory()] + deduped;
    Reindexed(withDefault, 0)
  }

  lemma {:induction false} DedupedSpec(cats: seq<LayoutCategory>)
    ensures var d := Deduped(cats);
      && Distinct(Ids(d))
      && (forall x :: x in Ids(d) <==> x != [] && x in Ids(cats))
      && (forall i :: 0 <= i < |d| ==> IsCategoryName(d[i].name))
  {
    DedupedIds(cats);
    DedupedNames(cats);
  }

  lemma {:induction false} DedupedIds(cats: seq<LayoutCategory>)
    ensures var d := Deduped(cats);
      Distinct(Ids(d)) && forall x :: x in Ids(d) <==> x != [] && x in Ids(cats)
  {
    var first := FirstPerId(WithIds(cats), {});
    var prepared := Prepared(first, 0);
    assert Ids(prepared) == Ids(first);
    PermutedCategories(prepared, SortByKey(prepared, OrderKey));
  }

  lemma {:induction false} DedupedNames(cats: seq<LayoutCategory>)
    ensures var d := Deduped(cats);
      forall i :: 0 <= i < |d| ==> IsCategoryName(d[i].name)
  {
    var prepared := Prepared(FirstPerId(WithIds(cats), {}), 0);
    var d := SortByKey(prepared, OrderKey);
    forall i | 0 <= i < |d|
      ensures IsCategoryName(d[i].name)
    {
      assert d[i] in multiset(prepared) by {
        assert d[i] in multiset(d);
      }
      var j :| 0 <= j < |prepared| && prepared[j] == d[i];
    }
  }

  lemma {:induction false} WithDefaultSpec(d: seq<LayoutCategory>, w: seq<LayoutCategory>)
    requires Distinct(Ids(d)) && [] !in Ids(d)
    requires forall i :: 0 <= i < |d| ==> IsCategoryName(d[i].name)
    requires w == if DefaultCategoryId in Ids(d) then d else [DefaultCategory()] + d
    ensures Distinct(Ids(w)) && [] !in Ids(w) && DefaultCategoryId in Ids(w)
    ensures forall i :: 0 <= i < |w| ==> IsCategoryName(w[i].name)
    ensures forall x :: x in Ids(w) <==> x == DefaultCategoryId || x in Ids(d)
    ensures DefaultCategoryId !in Ids(d) ==> w[0] == DefaultCategory()
  {
    if DefaultCategoryId !in Ids(d) {
      PrependedDefault(d);
    }
  }

  /** Putting `"channels"` in front of a list without it keeps the ids distinct and the names normalised. */
  lemma {:induction false} PrependedDefault(d: seq<LayoutCategory>)
    requires Distinct(Ids(d)) && [] !in Ids(d) && DefaultCategoryId !in Ids(d)
    requires forall i :: 0 <= i < |d| ==> IsCategoryName(d[i].name)
    ensures var w := [DefaultCategory()] + d;
      && Ids(w) == [DefaultCategoryId] + Ids(d)
      && Distinct(Ids(w)) && [] !in Ids(w)
      && forall i :: 0 <= i < |w| ==> IsCategoryName(w[i].name)
  {
    var w := [DefaultCategory()] + d;
    assert Ids(w) == [DefaultCategoryId] + Ids(d) by {
      assert w[1..] == d;
    }
    NormalizeCategoryNameSpec(DefaultCategoryName);
    forall i | 0 <= i < |w|
      ensures IsCategoryName(w[i].name)
    {
      if i > 0 {
        assert w[i] == d[i - 1];
      }
    }
    forall i, j | 0 <= i < j < |w|
      ensures Ids(w)[i] != Ids(w)[j]
    {
      assert Ids(w)[j] == Ids(d)[j - 1];
      if i > 0 {
        assert Ids(w)[i] == Ids(d)[i - 1];
      }
    }
  }

  /** Renumbering keeps the ids. */
  lemma {:induction false} ReindexedIds(w: seq<LayoutCategory>, start: int)
    ensures Ids(Reindexed(w, start)) == Ids(w)
  {
    var r := Reindexed(w, start);
    forall i | 0 <= i < |r|
      ensures Ids(r)[i] == Ids(w)[i]
    {
    }
  }

  /** Renumbering from 0 keeps the names and sets every order to its index. */
  lemma {:induction false} ReindexedNames(w: seq<LayoutCategory>)
    requires forall i :: 0 <= i < |w| ==> IsCategoryName(w[i].name)
    ensures var r := Reindexed(w, 0);
      forall i :: 0 <= i < |r| ==> r[i].order == Finite(i) && IsCategoryName(r[i].name)
  {
    var r := Reindexed(w, 0);
    forall i | 0 <= i < |r|
      ensures r[i].order == Finite(i) && IsCategoryName(r[i].name)
    {
      assert r[i].name == w[i].name;
    }
  }

  /**
   * `normalizeLayoutCategories` yields distinct non-empty ids including `"channels"`,
   * orders `0..n-1` and normalised names; its ids are the non-empty input ids plus
   * `"channels"`, and a missing `"channels"` is inserted first.
   */
  lemma {:induction false} NormalizeLayoutCategoriesSpec(cats: seq<LayoutCategory>)
    ensures var r := NormalizeLayoutCategories(cats);
      && NormalizedCategories(r)
      && (forall x :: x in Ids(r) <==> x == DefaultCategoryId || (x != [] && x in Ids(cats)))
      && (DefaultCategoryId !in Ids(cats) ==> r[0] == LayoutCategory(DefaultCategoryId, DefaultCategoryName, Finite(0)))
  {
    var d := Deduped(cats);
    DedupedSpec(cats);
    var w := if DefaultCategoryId in Ids(d) then d else [DefaultCategory()] + d;
    WithDefaultSpec(d, w);
    var r := Reindexed(w, 0);
    assert NormalizeLayoutCategories(cats) == r;
    ReindexedNormalized(w);
    if DefaultCategoryId !in Ids(cats) {
      assert DefaultCategoryId !in Ids(d);
      assert r[0] == w[0].(order := Finite(0));
    }
  }

  /** The first category of the list with the id, as the `seen` filter keeps it. */
  function FirstWithId(cats: seq<LayoutCategory>, id: string): (r: Option<LayoutCategory>)
    ensures r.Some? <==> id in Ids(cats)
    ensures r.Some? ==> r.value in cats && r.value.id == id
  {
    if cats == [] then None
    else if cats[0].id == id then Some(cats[0])
    else
      var r := FirstWithId(cats[1..], id);
      assert Ids(cats) == [cats[0].id] + Ids(cats[1..]);
      r
  }

  /** Dropping the categories without an id does not change which category comes first for an id. */
  lemma {:induction false} WithIdsFirst(cats: seq<LayoutCategory>, id: string)
    requires id != []
    ensures FirstWithId(WithIds(cats), id) == FirstWithId(cats, id)
  {
    if cats != [] {
      WithIdsFirst(cats[1..], id);
    }
  }

  /** Every category the `seen` filter keeps is the first of the list with its id. */
  lemma {:induction false} FirstPerIdFirst(cats: seq<LayoutCategory>, seen: set<string>, c: LayoutCategory)
    requires c in FirstPerId(cats, seen)
    ensures FirstWithId(cats, c.id) == Some(c)
  {
    assert c.id in Ids(FirstPerId(cats, seen)) by {
      var r := FirstPerId(cats, seen);
      var k :| 0 <= k < |r| && r[k] == c;
      assert Ids(r)[k] == c.id;
    }
    if cats[0].id in seen {
      FirstPerIdFirst(cats[1..], seen, c);
    } else if c != cats[0] {
      FirstPerIdFirst(cats[1..], seen + {cats[0].id}, c);
    }
  }

  /** `Prepared` keeps each category's id and normalises its name. */
  lemma {:induction false} PreparedAt(cats: seq<LayoutCategory>, start: int, k: nat)
    requires k < |cats|
    ensures |Prepared(cats, start)| == |cats|
    ensures Prepared(cats, start)[k].id == cats[k].id
    ensures Prepared(cats, start)[k].name == NormalizeCategoryName(cats[k].name)
  {
    if k > 0 {
      PreparedAt(cats[1..], start + 1, k - 1);
    }
  }

  /** A category of `Deduped` carries the normalised name of the first input category with its id. */
  lemma {:induction false} DedupedNameOf(cats: seq<LayoutCategory>, x: LayoutCategory)
    requires x in Deduped(cats)
    ensures x.id in Ids(cats) && x.id != []
    ensures FirstWithId(cats, x.id).Some? && x.name == NormalizeCategoryName(FirstWithId(cats, x.id).value.name)
  {
    var first := FirstPerId(WithIds(cats), {});
    var prepared := Prepared(first, 0);
    var d := Deduped(cats);
    DedupedIds(cats);
    assert x in multiset(prepared) by {
      assert x in multiset(d);
    }
    var k :| 0 <= k < |prepared| && prepared[k] == x;
    assert |prepared| == |first| by {
      assert Ids(prepared) == Ids(first);
    }
    PreparedAt(first, 0, k);
    FirstPerIdFirst(WithIds(cats), {}, first[k]);
    assert x.id in Ids(d) by {
      var m :| 0 <= m < |d| && d[m] == x;
      assert Ids(d)[m] == x.id;
    }
    WithIdsFirst(cats, x.id);
  }

  /**
   * Every category `normalizeLayoutCategories` keeps carries the normalised name of the
   * first input category with its id; the inserted `"channels"` carries its default name.
   */
  lemma {:induction false} NormalizeLayoutCategoriesNames(cats: seq<LayoutCategory>)
    ensures var r := NormalizeLayoutCategories(cats);
      forall i :: 0 <= i < |r| ==>
        if r[i].id in Ids(cats) then
          FirstWithId(cats, r[i].id).Some? && r[i].name == NormalizeCategoryName(FirstWithId(cats, r[i].id).value.name)
        else r[i].id == DefaultCategoryId && r[i].name == DefaultCategoryName
  {
    var d := Deduped(cats);
    var w := if DefaultCategoryId in Ids(d) then d else [DefaultCategory()] + d;
    var r := Reindexed(w, 0);
    assert NormalizeLayoutCategories(cats) == r;
    forall i | 0 <= i < |r|
      ensures if r[i].id in Ids(cats) then
          FirstWithId(cats, r[i].id).Some? && r[i].name == NormalizeCategoryName(FirstWithId(cats, r[i].id).value.name)
        else r[i].id == DefaultCategoryId && r[i].name == DefaultCategoryName
    {
      assert r[i].id == w[i].id && r[i].name == w[i].name;
      if DefaultCategoryId !in Ids(d) && i == 0 {
        DedupedIds(cats);
      } else {
        assert w[i] in d by {
          if DefaultCategoryId !in Ids(d) {
            assert w[i] == d[i - 1];
          }
        }
        DedupedNameOf(cats, w[i]);
      }
    }
  }

  /** Renumbering a list with distinct non-empty ids, `"channels"` among them, and normalised names normalises it. */
  lemma {:induction false} ReindexedNormalized(w: seq<LayoutCategory>)
    requires Distinct(Ids(w)) && [] !in Ids(w) && DefaultCategoryId in Ids(w)
    requires forall i :: 0 <= i < |w| ==> IsCategoryName(w[i].name)
    ensures NormalizedCategories(Reindexed(w, 0)) && Ids(Reindexed(w, 0)) == Ids(w)
  {
    ReindexedIds(w, 0);
    ReindexedNames(w);
  }

  /** Normalising a normalised list changes nothing: `normalizeLayoutCategories` is idempotent. */
  lemma {:induction false} NormalizeLayoutCategoriesIdempotent(cats: seq<LayoutCategory>)
    requires NormalizedCategories(cats)
    ensures NormalizeLayoutCategories(cats) == cats
  {
    DedupedOfNormalized(cats);
    assert Reindexed(cats, 0) == cats;
  }

  lemma {:induction false} DedupedOfNormalized(cats: seq<LayoutCategory>)
    requires NormalizedCategories(cats)
    ensures Deduped(cats) == cats
  {
    assert Prepared(FirstPerId(WithIds(cats), {}), 0) == cats by {
      NormalizedSurvivesFilters(cats);
    }
    assert SortByKey(cats, OrderKey) == cats by {
      assert SortedByKey(cats, OrderKey);
      SortSortedIsIdentity(cats, OrderKey);
    }
  }

  lemma {:induction false} NormalizedSurvivesFilters(cats: seq<LayoutCategory>)
    requires NormalizedCategories(cats)
    ensures Prepared(FirstPerId(WithIds(cats), {}), 0) == cats
  {
    assert WithIds(cats) == cats by {
      WithIdsKeepsNamed(cats);
    }
    assert FirstPerId(cats, {}) == cats by {
      FirstPerIdKeepsDistinct(cats, {});
    }
    PreparedKeepsNormal(cats, 0);
  }

  lemma {:induction false} WithIdsKeepsNamed(cats: seq<LayoutCategory>)
    requires forall i :: 0 <= i < |cats| ==> cats[i].id != []
    ensures WithIds(cats) == cats
  {
    if cats != [] {
      WithIdsKeepsNamed(cats[1..]);
    }
  }

  lemma {:induction false} FirstPerIdKeepsDistinct(cats: seq<LayoutCategory>, seen: set<string>)
    requires Distinct(Ids(cats))
    requires forall i :: 0 <= i < |cats| ==> cats[i].id !in seen
    ensures FirstPerId(cats, seen) == cats
  {
    if cats != [] {
      var rest := cats[1..];
      assert Distinct(Ids(rest)) by {
        forall i, j | 0 <= i < j < |rest|
          ensures Ids(rest)[i] != Ids(rest)[j]
        {
          assert Ids(cats)[i + 1] != Ids(cats)[j + 1];
        }
      }
      forall i | 0 <= i < |rest|
        ensures rest[i].id !in seen + {cats[0].id}
      {
        assert Ids(cats)[0] != Ids(cats)[i + 1];
      }
      FirstPerIdKeepsDistinct(rest, seen + {cats[0].id});
    }
  }

  lemma {:induction false} PreparedKeepsNormal(cats: seq<LayoutCategory>, start: int)
    requires forall i :: 0 <= i < |cats| ==> cats[i].order.Finite? && IsCategoryName(cats[i].name)
    ensures Prepared(cats, start) == cats
  {
    if cats != [] {
      PreparedKeepsNormal(cats[1..], start + 1);
    }
  }
}
