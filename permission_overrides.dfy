/**
 * The permission overrides a space stores: per category and per room, the
 * actions set to `allow` or `deny`. Stored values are read back through a
 * normaliser that drops anything else, and the admin actions edit one rule at
 * a time.
 */
module PermissionOverrides {
  import opened Wrappers
  import Json
  import opened PermissionActions

  /** `SpacePermissionOverrides` (its `version` is always 1). */
  datatype Overrides = Overrides(categories: map<string, RuleSet>, rooms: map<string, RuleSet>)

  /** `createDefaultPermissionOverrides()`. */
  const DefaultOverrides: Overrides := Overrides(map[], map[])

  /** A stored rule set: not empty, and only `allow` and `deny` rules. */
  predicate CompactRuleSet(rs: RuleSet)
  {
    rs != map[] && forall a :: a in rs ==> rs[a] != Inherit
  }

  /** Overrides as the normaliser leaves them: every entry a compact rule set. */
  predicate WellFormed(o: Overrides)
  {
    && (forall k :: k in o.categories ==> CompactRuleSet(o.categories[k]))
    && (forall k :: k in o.rooms ==> CompactRuleSet(o.rooms[k]))
  }

  /** `normalizePermissionRule`: one of the three spellings, else nothing. */
  function NormalizePermissionRule(v: Option<Json.Value>): (r: Option<Rule>)
    ensures r.Some? ==> v == Some(Json.Str(RuleName(r.value)))
  {
    match v
    case Some(Str(s)) =>
      if s == "inherit" then Some(Inherit)
      else if s == "allow" then Some(Allow)
      else if s == "deny" then Some(Deny)
      else None
    case _ => None
  }

  /** Every rule reads back from its own spelling. */
  lemma {:induction false} NormalizePermissionRuleRoundTrip(r: Rule)
    ensures NormalizePermissionRule(Some(Json.Str(RuleName(r)))) == Some(r)
  {
    assert "inherit"[0] == 'i' && "allow"[0] == 'a' && "deny"[0] == 'd';
  }

  /** The rule of an action in a raw rule set, if it is one of the three spellings. */
  function RawRule(v: Json.Value, a: PermissionAction): Option<Rule>
  {
    NormalizePermissionRule(Json.Get(v, ActionName(a)))
  }

  /** `normalizePermissionRuleSet`: the actions whose value is a rule (none for a non-object). */
  function NormalizePermissionRuleSet(v: Json.Value): map<PermissionAction, Rule>
  {
    if !Json.IsObjectLike(v) then map[]
    else map a | a in AllActions && RawRule(v, a).Some? :: RawRule(v, a).value
  }

  /** `compactPermissionRuleSet`: keeps the `allow` and `deny` rules. */
  function CompactPermissionRuleSet(rs: map<PermissionAction, Rule>): RuleSet
  {
    map a | a in rs && rs[a] != Inherit :: rs[a]
  }

  /** The stored rule set read from one raw entry. */
  function RuleSetOf(v: Json.Value): RuleSet
  {
    CompactPermissionRuleSet(NormalizePermissionRuleSet(v))
  }

  /** The entries of a raw `categories` or `rooms` record whose rule set is not empty. */
  function NormalizeEntries(raw: map<string, Json.Value>): map<string, RuleSet>
  {
    map k | k in raw && RuleSetOf(raw[k]) != map[] :: RuleSetOf(raw[k])
  }

  /** `input.categories && typeof input.categories === "object" ? input.categories : {}`, as entries. */
  function MemberEntries(v: Json.Value, key: string): map<string, Json.Value>
  {
    match Json.Get(v, key)
    case Some(member) => Json.Entries(member)
    case None => map[]
  }

  /** `normalizePermissionOverrides(value)`. */
  function NormalizePermissionOverrides(v: Json.Value): Overrides
  {
    if !Json.IsObjectLike(v) then DefaultOverrides
    else Overrides(NormalizeEntries(MemberEntries(v, "categories")), NormalizeEntries(MemberEntries(v, "rooms")))
  }

  /** The raw value sets `allow` or `deny`. */
  predicate Decisive(r: Option<Rule>)
  {
    r == Some(Allow) || r == Some(Deny)
  }

  /** A raw entry keeps exactly its `allow` and `deny` rules. */
  lemma {:induction false} RuleSetOfSpec(v: Json.Value)
    ensures forall a :: a in RuleSetOf(v) <==> Decisive(RawRule(v, a)) && Json.IsObjectLike(v)
    ensures forall a :: a in RuleSetOf(v) ==> Some(RuleSetOf(v)[a]) == RawRule(v, a)
  {
    forall a | Decisive(RawRule(v, a)) && Json.IsObjectLike(v)
      ensures a in RuleSetOf(v)
    {
      AllActionsComplete(a);
    }
  }

  /**
   * An entry survives exactly when it sets some action to `allow` or `deny`,
   * and then keeps exactly those rules; every surviving rule set is compact.
   */
  lemma {:induction false} NormalizeEntriesSpec(raw: map<string, Json.Value>)
    ensures var r := NormalizeEntries(raw);
      && (forall k :: k in r ==> CompactRuleSet(r[k]))
      && (forall k :: k in r <==> k in raw && Json.IsObjectLike(raw[k]) && exists a :: Decisive(RawRule(raw[k], a)))
      && (forall k, a :: k in r ==> (a in r[k] <==> Decisive(RawRule(raw[k], a))))
  {
    forall k | k in raw
      ensures RuleSetOf(raw[k]) != map[] <==> Json.IsObjectLike(raw[k]) && exists a :: Decisive(RawRule(raw[k], a))
    {
      RuleSetOfSpec(raw[k]);
      if RuleSetOf(raw[k]) != map[] {
        var a :| a in RuleSetOf(raw[k]);
      }
      if Json.IsObjectLike(raw[k]) && exists a :: Decisive(RawRule(raw[k], a)) {
        var a :| Decisive(RawRule(raw[k], a));
        assert a in RuleSetOf(raw[k]);
      }
    }
    forall k | k in NormalizeEntries(raw)
      ensures forall a :: a in RuleSetOf(raw[k]) <==> Decisive(RawRule(raw[k], a))
    {
      RuleSetOfSpec(raw[k]);
    }
  }

  /** A non-object gives the empty overrides, and the result is always well formed. */
  lemma {:induction false} NormalizePermissionOverridesSpec(v: Json.Value)
    ensures var r := NormalizePermissionOverrides(v);
      && WellFormed(r)
      && (!Json.IsObjectLike(v) ==> r == DefaultOverrides)
      && (Json.IsObjectLike(v) ==> r == Overrides(NormalizeEntries(MemberEntries(v, "categories")), NormalizeEntries(MemberEntries(v, "rooms"))))
  {
    NormalizeEntriesSpec(MemberEntries(v, "categories"));
    NormalizeEntriesSpec(MemberEntries(v, "rooms"));
  }

  /** The JSON object of a rule set, keyed by action name. */
  function EncodeRuleSet(rs: RuleSet): Json.Value
  {
    Json.Obj(map a | a in rs :: ActionName(a) := Json.Str(RuleName(rs[a])))
  }

  function EncodeEntries(entries: map<string, RuleSet>): Json.Value
  {
    Json.Obj(map k | k in entries :: EncodeRuleSet(entries[k]))
  }

  /** The state event content the admin actions send: `{ version: 1, categories, rooms }`. */
  function EncodeOverrides(o: Overrides): Json.Value
  {
    Json.Obj(map["version" := Json.Num(1), "categories" := EncodeEntries(o.categories), "rooms" := EncodeEntries(o.rooms)])
  }

  /** Each action of an encoded rule set reads back as the rule stored for it. */
  lemma {:induction false} RawRuleOfEncoded(rs: RuleSet, a: PermissionAction)
    ensures RawRule(EncodeRuleSet(rs), a) == (if a in rs then Some(rs[a]) else None)
  {
    var v := EncodeRuleSet(rs);
    if a in rs {
      NormalizePermissionRuleRoundTrip(rs[a]);
    } else if ActionName(a) in v.fields {
      var b :| b in rs && ActionName(b) == ActionName(a);
      ActionNameInjective(a, b);
    }
  }

  /** A compact rule set reads back as itself. */
  lemma {:induction false} RuleSetRoundTrip(rs: RuleSet)
    requires forall a :: a in rs ==> rs[a] != Inherit
    ensures RuleSetOf(EncodeRuleSet(rs)) == rs
  {
    var v := EncodeRuleSet(rs);
    forall a | a in AllActions
      ensures RawRule(v, a) == (if a in rs then Some(rs[a]) else None)
    {
      RawRuleOfEncoded(rs, a);
    }
    forall a | a in rs
      ensures a in AllActions
    {
      AllActionsComplete(a);
    }
  }

  lemma {:induction false} EntriesRoundTrip(entries: map<string, RuleSet>)
    requires forall k :: k in entries ==> CompactRuleSet(entries[k])
    ensures NormalizeEntries(Json.Entries(EncodeEntries(entries))) == entries
  {
    var raw := Json.Entries(EncodeEntries(entries));
    forall k | k in entries
      ensures k in raw && RuleSetOf(raw[k]) == entries[k]
    {
      RuleSetRoundTrip(entries[k]);
    }
    NormalizeEntriesOf(raw, entries);
  }

  /** Raw entries that each read back as a non-empty rule set of `entries`, and no others, normalise to `entries`. */
  lemma {:induction false} NormalizeEntriesOf(raw: map<string, Json.Value>, entries: map<string, RuleSet>)
    requires forall k :: k in raw ==> k in entries
    requires forall k :: k in entries ==> k in raw && RuleSetOf(raw[k]) == entries[k] && entries[k] != map[]
    ensures NormalizeEntries(raw) == entries
  {
  }

  /** Well-formed overrides survive being sent as a state event and read back. */
  lemma {:induction false} OverridesRoundTrip(o: Overrides)
    requires WellFormed(o)
    ensures NormalizePermissionOverrides(EncodeOverrides(o)) == o
  {
    var v := EncodeOverrides(o);
    assert "categories" != "rooms";
    assert MemberEntries(v, "categories") == Json.Entries(EncodeEntries(o.categories));
    assert MemberEntries(v, "rooms") == Json.Entries(EncodeEntries(o.rooms));
    EntriesRoundTrip(o.categories);
    EntriesRoundTrip(o.rooms);
  }

  /** Normalising is idempotent: normalised overrides read back unchanged. */
  lemma {:induction false} NormalizePermissionOverridesIdempotent(v: Json.Value)
    ensures var r := NormalizePermissionOverrides(v);
      NormalizePermissionOverrides(EncodeOverrides(r)) == r
  {
    NormalizePermissionOverridesSpec(v);
    OverridesRoundTrip(NormalizePermissionOverrides(v));
  }

  /** The rule set after setting `action`: `inherit` deletes the key, `allow` and `deny` set it. */
  function WithRule(rules: RuleSet, action: PermissionAction, rule: Rule): RuleSet
  {
    if rule == Inherit then rules - {action} else rules[action := rule]
  }

  /** A rule set is stored under its id when it is not empty, and the id is deleted otherwise. */
  function WithEntry(entries: map<string, RuleSet>, id: string, rules: RuleSet): map<string, RuleSet>
  {
    if rules != map[] then entries[id := rules] else entries - {id}
  }

  /** `nextOverrides.categories[categoryId] ?? {}` with the rule applied, written back. */
  function WithCategoryRule(o: Overrides, categoryId: string, action: PermissionAction, rule: Rule): Overrides
  {
    var current := if categoryId in o.categories then o.categories[categoryId] else map[];
    o.(categories := WithEntry(o.categories, categoryId, WithRule(current, action, rule)))
  }

  function WithRoomRule(o: Overrides, roomId: string, action: PermissionAction, rule: Rule): Overrides
  {
    var current := if roomId in o.rooms then o.rooms[roomId] else map[];
    o.(rooms := WithEntry(o.rooms, roomId, WithRule(current, action, rule)))
  }

  /**
   * Setting one action of a rule set: `inherit` removes it and `allow`/`deny`
   * set it; the other actions are unchanged; the set becomes empty exactly
   * when `inherit` removes its only action; a compact set stays compact
   * unless it became empty.
   */
  lemma {:induction false} WithRuleSpec(current: RuleSet, action: PermissionAction, rule: Rule)
    ensures var next := WithRule(current, action, rule);
      && (action in next <==> rule != Inherit)
      && (rule != Inherit ==> next[action] == rule)
      && (forall a :: a != action ==> (a in next <==> a in current) && (a in current ==> next[a] == current[a]))
      && (next == map[] <==> rule == Inherit && forall a :: a in current ==> a == action)
      && (CompactRuleSet(current) && next != map[] ==> CompactRuleSet(next))
  {
    var next := WithRule(current, action, rule);
    if rule != Inherit {
      assert action in next;
    } else if next == map[] {
      forall a | a in current
        ensures a == action
      {
        assert a !in next;
      }
    } else {
      var b :| b in next;
    }
  }

  /**
   * Writing a rule into a record of rule sets: `inherit` removes the action and
   * `allow`/`deny` set it; the entry's other actions and the other entries are
   * unchanged; an entry left without rules is removed; compact entries stay
   * compact.
   */
  lemma {:induction false} WithEntryRuleSpec(entries: map<string, RuleSet>, id: string, action: PermissionAction, rule: Rule)
    ensures var current := if id in entries then entries[id] else map[];
      var r := WithEntry(entries, id, WithRule(current, action, rule));
      && (forall k :: k != id ==> (k in r <==> k in entries) && (k in r ==> r[k] == entries[k]))
      && (rule == Inherit ==> id !in r || action !in r[id])
      && (rule != Inherit ==> id in r && action in r[id] && r[id][action] == rule)
      && (id in r ==> forall a :: a != action ==> (a in r[id] <==> a in current) && (a in current ==> r[id][a] == current[a]))
      && (id !in r <==> rule == Inherit && forall a :: a in current ==> a == action)
      && ((forall k :: k in entries ==> CompactRuleSet(entries[k])) ==> forall k :: k in r ==> CompactRuleSet(r[k]))
  {
    var current := if id in entries then entries[id] else map[];
    WithRuleSpec(current, action, rule);
  }

  /**
   * Setting a category rule changes only that category's entry, as
   * `WithEntryRuleSpec` says, leaves the room rules alone and keeps the
   * overrides well formed.
   */
  lemma {:induction false} WithCategoryRuleSpec(o: Overrides, categoryId: string, action: PermissionAction, rule: Rule)
    ensures var r := WithCategoryRule(o, categoryId, action, rule);
      var current := if categoryId in o.categories then o.categories[categoryId] else map[];
      && r.rooms == o.rooms
      && r.categories == WithEntry(o.categories, categoryId, WithRule(current, action, rule))
      && (rule != Inherit ==> categoryId in r.categories && r.categories[categoryId][action] == rule)
      && (rule == Inherit ==> categoryId !in r.categories || action !in r.categories[categoryId])
      && (WellFormed(o) ==> WellFormed(r))
  {
    WithEntryRuleSpec(o.categories, categoryId, action, rule);
  }

  /** The same for a room rule. */
  lemma {:induction false} WithRoomRuleSpec(o: Overrides, roomId: string, action: PermissionAction, rule: Rule)
    ensures var r := WithRoomRule(o, roomId, action, rule);
      var current := if roomId in o.rooms then o.rooms[roomId] else map[];
      && r.categories == o.categories
      && r.rooms == WithEntry(o.rooms, roomId, WithRule(current, action, rule))
      && (rule != Inherit ==> roomId in r.rooms && r.rooms[roomId][action] == rule)
      && (rule == Inherit ==> roomId !in r.rooms || action !in r.rooms[roomId])
      && (WellFormed(o) ==> WellFormed(r))
  {
    WithEntryRuleSpec(o.rooms, roomId, action, rule);
  }
}
