/**
 * The server settings a space stores (overview, roles, invites, moderation):
 * the normaliser that reads them from untyped input, and the custom roles they
 * put on the member list.
 */
module ServerConfig {
  import opened Wrappers
  import opened Text
  import opened Sorting
  import Json
  import opened Entities
  import opened PermissionActions

  datatype SafetyLevel = SafetyOff | MembersOnly | Strict

  /** `ServerRoleDefinition`: a custom role; `permissions` holds the actions given a boolean. */
  datatype RoleDefinition = RoleDefinition(
    id: string,
    name: string,
    color: string,
    powerLevel: int,
    permissions: map<PermissionAction, bool>)

  datatype RoleSettings = RoleSettings(
    adminLevel: int,
    moderatorLevel: int,
    defaultLevel: int,
    definitions: seq<RoleDefinition>,
    memberRoleIds: map<string, seq<string>>)

  datatype OverviewSettings = OverviewSettings(description: string, guidelines: string)

  datatype InviteSettings = InviteSettings(linkExpiryHours: int, requireApproval: bool, allowGuestInvites: bool)

  datatype ModerationSettings = ModerationSettings(safetyLevel: SafetyLevel, blockUnknownMedia: bool, auditLogRetentionDays: int)

  /** `ServerSettings` (its `version` is always 1). */
  datatype ServerSettings = ServerSettings(
    overview: OverviewSettings,
    roles: RoleSettings,
    invites: InviteSettings,
    moderation: ModerationSettings)

  const DefaultRoleColor: string := "#8b93a7"
  const DefaultRoleName: string := "Role"

  /** `createDefaultServerSettings()`. */
  const DefaultServerSettings: ServerSettings := ServerSettings(
    OverviewSettings("", ""),
    RoleSettings(100, 50, 0, [], map[]),
    InviteSettings(24, false, true),
    ModerationSettings(MembersOnly, false, 30))

  /** `clampNumber(value, min, max)`: `Math.min(max, Math.max(min, value))`. */
  function Clamp(value: int, min: int, max: int): (r: int)
    ensures min <= max ==> min <= r <= max
    ensures min <= value <= max ==> r == value
    ensures min <= max && value < min ==> r == min
    ensures min <= max && value > max ==> r == max
  {
    var low := if value < min then min else value;
    if max < low then max else low
  }

  /**
   * `typeof v === "number" ? v : fallback`, clamped. An infinite number is a
   * number, so it clamps to the bound on its side; `NaN` is left to the fallback.
   */
  function ClampedNumber(v: Option<Json.Value>, fallback: int, min: int, max: int): (r: int)
    ensures min <= max ==> min <= r <= max
    ensures v.Some? && v.value.Num? && min <= v.value.n <= max ==> r == v.value.n
    ensures v.Some? && v.value.Num? && min <= max && v.value.n < min ==> r == min
    ensures v.Some? && v.value.Num? && min <= max && v.value.n > max ==> r == max
    ensures v == Some(Json.Infinity(false)) ==> r == max
    ensures v == Some(Json.Infinity(true)) && min <= max ==> r == min
    ensures !(v.Some? && (v.value.Num? || v.value.Infinity?)) && min <= fallback <= max ==> r == fallback
  {
    match v
    case Some(Num(n)) => Clamp(n, min, max)
    case Some(Infinity(negative)) => if negative then Clamp(min, min, max) else max
    case _ => Clamp(fallback, min, max)
  }

  /** `typeof v === "boolean" ? v : fallback`. */
  function BoolOr(v: Option<Json.Value>, fallback: bool): bool
  {
    match v
    case Some(Bool(b)) => b
    case _ => fallback
  }

  /** `typeof v === "string" ? v : fallback`. */
  function StringOr(v: Option<Json.Value>, fallback: string): string
  {
    match v
    case Some(Str(s)) => s
    case _ => fallback
  }

  /** `input.key ?? {}`: a missing member reads as an empty object. */
  function Section(v: Json.Value, key: string): Json.Value
  {
    Json.Get(v, key).GetOr(Json.EmptyObject)
  }

  predicate IsHexDigit(c: char)
  {
    ('0' <= c <= '9') || ('a' <= c <= 'f') || ('A' <= c <= 'F')
  }

  /** `/^#[0-9a-fA-F]{6}$/.test(s)`. */
  predicate IsHexColor(s: string)
  {
    |s| == 7 && s[0] == '#' && forall i :: 1 <= i < 7 ==> IsHexDigit(s[i])
  }

  /** `normalizeRolePermissions`: the actions whose value is a boolean. */
  function NormalizeRolePermissions(v: Option<Json.Value>): map<PermissionAction, bool>
  {
    match v
    case Some(p) =>
      if !Json.IsObjectLike(p) then map[]
      else (map a | a in AllActions && Json.Get(p, ActionName(a)).Some? && Json.Get(p, ActionName(a)).value.Bool? ::
        Json.Get(p, ActionName(a)).value.b)
    case None => map[]
  }

  /** A trimmed non-blank string member, else the fallback. */
  function TrimmedOr(v: Option<Json.Value>, fallback: string): string
  {
    match v
    case Some(Str(s)) => if IsBlankJs(s) then fallback else TrimJs(s)
    case _ => fallback
  }

  /**
   * One role read from an object item; `freshId` stands for the `uid("role")`
   * the item gets when it has no usable id.
   */
  function RoleFromItem(item: Json.Value, freshId: string): RoleDefinition
  {
    var color := match Json.Get(item, "color")
      case Some(Str(c)) => if IsHexColor(c) then c else DefaultRoleColor
      case _ => DefaultRoleColor;
    var powerLevel := match Json.Get(item, "powerLevel")
      case Some(Num(n)) => Clamp(n, 0, 100)
      case _ => 0;
    RoleDefinition(TrimmedOr(Json.Get(item, "id"), freshId), TrimmedOr(Json.Get(item, "name"), DefaultRoleName),
      color, powerLevel, NormalizeRolePermissions(Json.Get(item, "permissions")))
  }

  /** `value.filter((item) => item && typeof item === "object")`. */
  function ObjectItems(items: seq<Json.Value>): (r: seq<Json.Value>)
    ensures forall x :: x in r ==> Json.IsObjectLike(x)
  {
    if items == [] then []
    else if Json.IsObjectLike(items[0]) then [items[0]] + ObjectItems(items[1..])
    else ObjectItems(items[1..])
  }

  /** The roles of the object items, the `i`-th item getting `freshId(i)` when it needs one. */
  function RoleCandidates(items: seq<Json.Value>, freshId: nat -> string): (r: seq<RoleDefinition>)
    ensures |r| == |items|
    ensures forall i :: 0 <= i < |items| ==> r[i] == RoleFromItem(items[i], freshId(i))
  {
    seq(|items|, i requires 0 <= i < |items| => RoleFromItem(items[i], freshId(i)))
  }

  /** The roles whose id has not appeared before: the first role of each id. */
  function FirstPerId(roles: seq<RoleDefinition>, seen: set<string>): (r: seq<RoleDefinition>)
  {
    if roles == [] then []
    else if roles[0].id in seen then FirstPerId(roles[1..], seen)
    else [roles[0]] + FirstPerId(roles[1..], seen + {roles[0].id})
  }

  /** The kept roles come from the input, and none has an id in `seen`. */
  lemma {:induction false} FirstPerIdMembers(roles: seq<RoleDefinition>, seen: set<string>)
    ensures forall x :: x in FirstPerId(roles, seen) ==> x in roles && x.id !in seen
  {
    if roles != [] {
      var x := roles[0];
      if x.id in seen {
        FirstPerIdMembers(roles[1..], seen);
      } else {
        FirstPerIdMembers(roles[1..], seen + {x.id});
      }
    }
  }

  /** No two roles share an id. */
  predicate DistinctIds(roles: seq<RoleDefinition>)
  {
    forall i, j :: 0 <= i < j < |roles| ==> roles[i].id != roles[j].id
  }

  /** The kept roles have distinct ids. */
  lemma {:induction false} FirstPerIdDistinct(roles: seq<RoleDefinition>, seen: set<string>)
    ensures DistinctIds(FirstPerId(roles, seen))
  {
    if roles != [] {
      var x := roles[0];
      if x.id in seen {
        FirstPerIdDistinct(roles[1..], seen);
        assert FirstPerId(roles, seen) == FirstPerId(roles[1..], seen);
      } else {
        var t := FirstPerId(roles[1..], seen + {x.id});
        FirstPerIdDistinct(roles[1..], seen + {x.id});
        FirstPerIdMembers(roles[1..], seen + {x.id});
        var r := [x] + t;
        assert FirstPerId(roles, seen) == r;
        forall i, j | 0 <= i < j < |r|
          ensures r[i].id != r[j].id
        {
          assert r[j] == t[j - 1];
          if i > 0 {
            assert r[i] == t[i - 1];
          } else {
            assert r[0] == x;
            assert t[j - 1] in t;
          }
        }
      }
    }
  }

  /** Some role of `roles` has the id. */
  predicate HasId(roles: seq<RoleDefinition>, id: string)
  {
    exists j :: 0 <= j < |roles| && roles[j].id == id
  }

  /** Every id of the input outside `seen` is kept. */
  lemma {:induction false} FirstPerIdCovers(roles: seq<RoleDefinition>, seen: set<string>)
    ensures forall i :: 0 <= i < |roles| && roles[i].id !in seen ==> HasId(FirstPerId(roles, seen), roles[i].id)
  {
    if roles != [] {
      var x := roles[0];
      var rest := roles[1..];
      var seen' := if x.id in seen then seen else seen + {x.id};
      FirstPerIdCovers(rest, seen');
      var r := FirstPerId(roles, seen);
      var t := FirstPerId(rest, seen');
      assert r == if x.id in seen then t else [x] + t;
      forall i | 0 <= i < |roles| && roles[i].id !in seen
        ensures HasId(r, roles[i].id)
      {
        if roles[i].id == x.id {
          assert r[0] == x;
        } else {
          assert rest[i - 1] == roles[i];
          assert rest[i - 1].id !in seen';
          var j :| 0 <= j < |t| && t[j].id == roles[i].id;
          if x.id in seen {
            assert r[j] == t[j];
          } else {
            assert r[j + 1] == t[j];
          }
        }
      }
    }
  }

  /** Each kept role is the first of the input with its id. */
  lemma {:induction false} FirstPerIdFirst(roles: seq<RoleDefinition>, seen: set<string>)
    ensures forall x :: x in FirstPerId(roles, seen) ==>
      exists i :: 0 <= i < |roles| && roles[i] == x && forall k :: 0 <= k < i ==> roles[k].id != x.id
  {
    if roles != [] {
      var x := roles[0];
      var rest := roles[1..];
      var seen' := if x.id in seen then seen else seen + {x.id};
      FirstPerIdFirst(rest, seen');
      FirstPerIdMembers(rest, seen');
      var r := FirstPerId(roles, seen);
      var t := FirstPerId(rest, seen');
      assert r == if x.id in seen then t else [x] + t;
      forall y | y in r
        ensures exists i :: 0 <= i < |roles| && roles[i] == y && forall k :: 0 <= k < i ==> roles[k].id != y.id
      {
        if x.id !in seen && y == x {
          assert roles[0] == y;
        } else {
          assert y in t;
          assert y.id != x.id;
          var i :| 0 <= i < |rest| && rest[i] == y && forall k :: 0 <= k < i ==> rest[k].id != y.id;
          assert roles[i + 1] == y;
          forall k | 0 <= k < i + 1
            ensures roles[k].id != y.id
          {
            if k > 0 {
              assert roles[k] == rest[k - 1];
            }
          }
        }
      }
    }
  }

  /**
   * The kept roles come from the input, have distinct ids outside `seen`, and
   * every id of the input outside `seen` is kept once, by its first role.
   */
  lemma {:induction false} FirstPerIdSpec(roles: seq<RoleDefinition>, seen: set<string>)
    ensures var r := FirstPerId(roles, seen);
      && (forall x :: x in r ==> x in roles && x.id !in seen)
      && DistinctIds(r)
      && (forall i :: 0 <= i < |roles| && roles[i].id !in seen ==> HasId(r, roles[i].id))
      && (forall x :: x in r ==> exists i :: 0 <= i < |roles| && roles[i] == x && forall k :: 0 <= k < i ==> roles[k].id != x.id)
  {
    FirstPerIdMembers(roles, seen);
    FirstPerIdDistinct(roles, seen);
    FirstPerIdCovers(roles, seen);
    FirstPerIdFirst(roles, seen);
  }

  /**
   * The `seen`-set filter of `normalizeRoleDefinitions`, run as a loop:
   * a role whose id was already seen is dropped, otherwise kept and its id
   * recorded.
   */
  method KeepFirstPerId(roles: seq<RoleDefinition>) returns (kept: seq<RoleDefinition>)
    ensures kept == FirstPerId(roles, {})
  {
    var seen: set<string> := {};
    kept := [];
    var i := 0;
    while i < |roles|
      invariant 0 <= i <= |roles|
      invariant kept + FirstPerId(roles[i..], seen) == FirstPerId(roles, {})
    {
      assert roles[i..][1..] == roles[i + 1..];
      if roles[i].id !in seen {
        kept := kept + [roles[i]];
        seen := seen + {roles[i].id};
      }
      i := i + 1;
    }
  }

  /** `normalizeRoleDefinitions(value)`: `[]` unless an array, then the first role of each id. */
  function NormalizeRoleDefinitions(value: Option<Json.Value>, freshId: nat -> string): seq<RoleDefinition>
  {
    match value
    case Some(Arr(items)) => FirstPerId(RoleCandidates(ObjectItems(items), freshId), {})
    case _ => []
  }

  /**
   * The normalised roles have distinct ids, hex colours and power levels in
   * 0..100, and every object item's id is represented.
   */
  lemma {:induction false} NormalizeRoleDefinitionsSpec(value: Option<Json.Value>, freshId: nat -> string)
    ensures var r := NormalizeRoleDefinitions(value, freshId);
      && DistinctIds(r)
      && (forall x :: x in r ==> IsHexColor(x.color) || x.color == DefaultRoleColor)
      && (forall x :: x in r ==> 0 <= x.powerLevel <= 100)
      && (value.Some? && value.value.Arr? ==>
            var candidates := RoleCandidates(ObjectItems(value.value.items), freshId);
            forall i :: 0 <= i < |candidates| ==> HasId(r, candidates[i].id))
  {
    if value.Some? && value.value.Arr? {
      FirstPerIdSpec(RoleCandidates(ObjectItems(value.value.items), freshId), {});
    }
  }

  /** The strings of an array, in order. */
  function Strings(items: seq<Json.Value>): (r: seq<string>)
    ensures forall x :: x in r <==> Json.Str(x) in items
  {
    if items == [] then []
    else if items[0].Str? then [items[0].s] + Strings(items[1..])
    else Strings(items[1..])
  }

  /** The ids of a sequence that belong to a set, in order. */
  function KeepIn(ids: seq<string>, valid: set<string>): (r: seq<string>)
    ensures forall x :: x in r <==> x in ids && x in valid
  {
    if ids == [] then []
    else if ids[0] in valid then [ids[0]] + KeepIn(ids[1..], valid)
    else KeepIn(ids[1..], valid)
  }

  lemma {:induction false} KeepInDistinct(ids: seq<string>, valid: set<string>)
    requires Distinct(ids)
    ensures Distinct(KeepIn(ids, valid))
  {
    if ids != [] {
      DistinctTail(ids);
      KeepInDistinct(ids[1..], valid);
      if ids[0] in valid {
        assert ids[0] !in ids[1..];
        DistinctCons(ids[0], KeepIn(ids[1..], valid));
      }
    }
  }

  /** The role ids kept for one user: the strings of an array, once each, known ids only. */
  function AssignedIds(raw: Json.Value, valid: set<string>): seq<string>
  {
    if raw.Arr? then KeepIn(FirstAppearances(Strings(raw.items)), valid) else []
  }

  /** `normalizeRoleAssignments(value, validRoleIds)`: users left without roles are dropped. */
  function NormalizeRoleAssignments(value: Option<Json.Value>, valid: set<string>): map<string, seq<string>>
  {
    var entries := if value.Some? then Json.Entries(value.value) else map[];
    map k | k in entries && AssignedIds(entries[k], valid) != [] :: AssignedIds(entries[k], valid)
  }

  /**
   * Every kept user has a non-empty list of known role ids without repeats,
   * holding exactly the known string ids of the input.
   */
  lemma {:induction false} NormalizeRoleAssignmentsSpec(value: Option<Json.Value>, valid: set<string>)
    ensures var r := NormalizeRoleAssignments(value, valid);
      forall k :: k in r ==>
        && r[k] != [] && Distinct(r[k]) && (forall x :: x in r[k] ==> x in valid)
        && (forall x :: x in r[k] <==> x in valid && Json.Str(x) in Json.Entries(value.value)[k].items)
  {
    var r := NormalizeRoleAssignments(value, valid);
    forall k | k in r
      ensures Distinct(r[k])
    {
      var raw := Json.Entries(value.value)[k];
      KeepInDistinct(FirstAppearances(Strings(raw.items)), valid);
    }
  }

  /** `normalizeServerSettings(settings)`; `Null` stands for `null`/`undefined`. */
  function NormalizeServerSettings(settings: Json.Value, freshId: nat -> string): ServerSettings
  {
    var d := DefaultServerSettings;
    var roles := Section(settings, "roles");
    var invites := Section(settings, "invites");
    var moderation := Section(settings, "moderation");
    var overview := Section(settings, "overview");
    var safety := match Json.GetString(moderation, "safetyLevel")
      case Some(s) => if s == "off" then SafetyOff else if s == "strict" then Strict else MembersOnly
      case None => d.moderation.safetyLevel;
    var definitions := NormalizeRoleDefinitions(Json.Get(roles, "definitions"), freshId);
    var validRoleIds := set x | x in definitions :: x.id;
    ServerSettings(
      OverviewSettings(
        StringOr(Json.Get(overview, "description"), d.overview.description),
        StringOr(Json.Get(overview, "guidelines"), d.overview.guidelines)),
      RoleSettings(
        ClampedNumber(Json.Get(roles, "adminLevel"), d.roles.adminLevel, 0, 100),
        ClampedNumber(Json.Get(roles, "moderatorLevel"), d.roles.moderatorLevel, 0, 100),
        ClampedNumber(Json.Get(roles, "defaultLevel"), d.roles.defaultLevel, 0, 100),
        definitions,
        NormalizeRoleAssignments(Json.Get(roles, "memberRoleIds"), validRoleIds)),
      InviteSettings(
        ClampedNumber(Json.Get(invites, "linkExpiryHours"), d.invites.linkExpiryHours, 1, 168),
        BoolOr(Json.Get(invites, "requireApproval"), d.invites.requireApproval),
        BoolOr(Json.Get(invites, "allowGuestInvites"), d.invites.allowGuestInvites)),
      ModerationSettings(
        safety,
        BoolOr(Json.Get(moderation, "blockUnknownMedia"), d.moderation.blockUnknownMedia),
        ClampedNumber(Json.Get(moderation, "auditLogRetentionDays"), d.moderation.auditLogRetentionDays, 7, 365)))
  }

  /** Normalised settings: the ranges, the role ids and the assignments the rest of the app relies on. */
  predicate Normalized(s: ServerSettings)
  {
    && 0 <= s.roles.adminLevel <= 100 && 0 <= s.roles.moderatorLevel <= 100 && 0 <= s.roles.defaultLevel <= 100
    && 1 <= s.invites.linkExpiryHours <= 168
    && 7 <= s.moderation.auditLogRetentionDays <= 365
    && DistinctIds(s.roles.definitions)
    && (forall u :: u in s.roles.memberRoleIds ==>
          s.roles.memberRoleIds[u] != [] && Distinct(s.roles.memberRoleIds[u]) &&
          forall x :: x in s.roles.memberRoleIds[u] ==> exists r :: r in s.roles.definitions && r.id == x)
  }

  /**
   * The levels are clamped to 0..100, link expiry to 1..168 hours and audit
   * retention to 7..365 days; role ids are unique; assignments name only
   * defined roles, once each, and users without roles are dropped; an unknown
   * safety level reads as `members_only`.
   */
  lemma {:induction false} NormalizeServerSettingsSpec(settings: Json.Value, freshId: nat -> string)
    ensures var r := NormalizeServerSettings(settings, freshId);
      && Normalized(r)
      && (var level := Json.GetString(Section(settings, "moderation"), "safetyLevel");
          (level.None? || level.value !in {"off", "members_only", "strict"}) ==> r.moderation.safetyLevel == MembersOnly)
  {
    var roles := Section(settings, "roles");
    NormalizeRoleDefinitionsSpec(Json.Get(roles, "definitions"), freshId);
    var definitions := NormalizeRoleDefinitions(Json.Get(roles, "definitions"), freshId);
    var validRoleIds := set x | x in definitions :: x.id;
    NormalizeRoleAssignmentsSpec(Json.Get(roles, "memberRoleIds"), validRoleIds);
  }

  /** The last role with the id, as `new Map(definitions.map((role) => [role.id, role])).get(id)` finds it. */
  function RoleById(definitions: seq<RoleDefinition>, id: string): (r: Option<RoleDefinition>)
    ensures r.Some? ==> r.value in definitions && r.value.id == id
    ensures r.None? ==> forall x :: x in definitions ==> x.id != id
  {
    if definitions == [] then None
    else if definitions[|definitions| - 1].id == id then Some(definitions[|definitions| - 1])
    else
      var r := RoleById(definitions[..|definitions| - 1], id);
      assert forall x :: x in definitions ==> x in definitions[..|definitions| - 1] || x == definitions[|definitions| - 1] by {
        assert definitions == definitions[..|definitions| - 1] + [definitions[|definitions| - 1]];
      }
      r
  }

  /** The defined roles among the granted ids, in assignment order. */
  function AssignedRoles(definitions: seq<RoleDefinition>, ids: seq<string>): (r: seq<RoleDefinition>)
    ensures forall x :: x in r ==> x in definitions
  {
    if ids == [] then []
    else match RoleById(definitions, ids[0])
      case Some(role) => [role] + AssignedRoles(definitions, ids[1..])
      case None => AssignedRoles(definitions, ids[1..])
  }

  lemma {:induction false} NoRolesGranted(ids: seq<string>)
    ensures AssignedRoles([], ids) == []
  {
    if ids != [] {
      NoRolesGranted(ids[1..]);
    }
  }

  /** The non-empty names of the granted roles. */
  function CustomRoleNames(roles: seq<RoleDefinition>): (r: seq<string>)
    ensures forall x :: x in r ==> exists role :: role in roles && role.name == x
  {
    if roles == [] then []
    else if roles[0].name != "" then [roles[0].name] + CustomRoleNames(roles[1..])
    else CustomRoleNames(roles[1..])
  }

  /**
   * `roles.sort((l, r) => r.powerLevel - l.powerLevel)[0]`: with a stable
   * sort, the first role of the highest power level.
   */
  function HighestRole(roles: seq<RoleDefinition>): (r: Option<RoleDefinition>)
    ensures r.Some? <==> roles != []
  {
    if roles == [] then None
    else
      var rest := HighestRole(roles[1..]);
      if rest.None? || roles[0].powerLevel >= rest.value.powerLevel then Some(roles[0]) else rest
  }

  /** The highest role is one of the roles, none is higher, and none before it is as high. */
  lemma {:induction false} HighestRoleSpec(roles: seq<RoleDefinition>)
    requires roles != []
    ensures var h := HighestRole(roles).value;
      exists i :: 0 <= i < |roles| && roles[i] == h
        && (forall j :: 0 <= j < |roles| ==> roles[j].powerLevel <= h.powerLevel)
        && (forall j :: 0 <= j < i ==> roles[j].powerLevel < h.powerLevel)
  {
    var h := HighestRole(roles).value;
    if |roles| == 1 {
      assert roles[0] == h;
    } else {
      var rest := roles[1..];
      HighestRoleSpec(rest);
      var g := HighestRole(rest).value;
      var i :| 0 <= i < |rest| && rest[i] == g
        && (forall j :: 0 <= j < |rest| ==> rest[j].powerLevel <= g.powerLevel)
        && (forall j :: 0 <= j < i ==> rest[j].powerLevel < g.powerLevel);
      if roles[0].powerLevel >= g.powerLevel {
        assert roles[0] == h;
        forall j | 0 <= j < |roles|
          ensures roles[j].powerLevel <= h.powerLevel
        {
          if j > 0 {
            assert roles[j] == rest[j - 1];
          }
        }
      } else {
        assert roles[i + 1] == h;
        forall j | 0 <= j < |roles|
          ensures roles[j].powerLevel <= h.powerLevel
          ensures j < i + 1 ==> roles[j].powerLevel < h.powerLevel
        {
          if j > 0 {
            assert roles[j] == rest[j - 1];
          }
        }
      }
    }
  }

  /** The defined roles granted to a user. */
  function UserRoles(user: User, settings: ServerSettings): (r: seq<RoleDefinition>)
    ensures forall x :: x in r ==> x in settings.roles.definitions
  {
    var ids := if user.id in settings.roles.memberRoleIds then settings.roles.memberRoleIds[user.id] else [];
    AssignedRoles(settings.roles.definitions, ids)
  }

  /** The role names a user has, with the granted custom names added once, and the highest role's colour. */
  function ApplyServerRolesToUser(user: User, settings: ServerSettings): User
  {
    var granted := UserRoles(user, settings);
    var highest := HighestRole(granted);
    user.(roles := FirstAppearances(user.roles + CustomRoleNames(granted)),
          roleColor := if highest.Some? then Some(highest.value.color) else None)
  }

  /** `applyServerRolesToUsers(users, settings)`. */
  function ApplyServerRolesToUsers(users: seq<User>, settings: ServerSettings): (r: seq<User>)
    ensures |r| == |users|
    ensures forall i :: 0 <= i < |users| ==> r[i] == ApplyServerRolesToUser(users[i], settings)
  {
    seq(|users|, i requires 0 <= i < |users| => ApplyServerRolesToUser(users[i], settings))
  }

  /** The names of all defined roles. */
  function DefinedNames(settings: ServerSettings): set<string>
  {
    set x | x in settings.roles.definitions :: x.name
  }

  /** The names of a user's role list that are not custom role names, in order. */
  function WithoutNames(roles: seq<string>, names: set<string>): (r: seq<string>)
    ensures forall x :: x in r <==> x in roles && x !in names
  {
    if roles == [] then []
    else if roles[0] in names then WithoutNames(roles[1..], names)
    else [roles[0]] + WithoutNames(roles[1..], names)
  }

  /** Custom role names removed and the colour cleared; without custom roles only the colour is cleared. */
  function StripServerRolesFromUser(user: User, settings: ServerSettings): User
  {
    if settings.roles.definitions == [] then user.(roleColor := None)
    else user.(roles := WithoutNames(user.roles, DefinedNames(settings)), roleColor := None)
  }

  /** `stripServerRolesFromUsers(users, settings)`. */
  function StripServerRolesFromUsers(users: seq<User>, settings: ServerSettings): (r: seq<User>)
    ensures |r| == |users|
    ensures forall i :: 0 <= i < |users| ==> r[i] == StripServerRolesFromUser(users[i], settings)
  {
    seq(|users|, i requires 0 <= i < |users| => StripServerRolesFromUser(users[i], settings))
  }

  /** `withAppliedServerRoles(users, settings)`. */
  function WithAppliedServerRoles(users: seq<User>, settings: ServerSettings): seq<User>
  {
    ApplyServerRolesToUsers(StripServerRolesFromUsers(users, settings), settings)
  }

  lemma {:induction false} WithoutNamesAppend(a: seq<string>, b: seq<string>, names: set<string>)
    ensures WithoutNames(a + b, names) == WithoutNames(a, names) + WithoutNames(b, names)
  {
    if a == [] {
      assert a + b == b;
    } else {
      assert (a + b)[1..] == a[1..] + b;
      WithoutNamesAppend(a[1..], b, names);
    }
  }

  lemma {:induction false} WithoutNamesNone(a: seq<string>, names: set<string>)
    requires forall x :: x in a ==> x !in names
    ensures WithoutNames(a, names) == a
  {
    if a != [] {
      WithoutNamesNone(a[1..], names);
    }
  }

  lemma {:induction false} WithoutNamesAll(a: seq<string>, names: set<string>)
    requires forall x :: x in a ==> x in names
    ensures WithoutNames(a, names) == []
  {
    if a != [] {
      WithoutNamesAll(a[1..], names);
    }
  }

  /** Removing names and keeping first appearances can be done in either order. */
  lemma {:induction false} WithoutNamesFirstAppearances(a: seq<string>, names: set<string>)
    ensures WithoutNames(FirstAppearances(a), names) == FirstAppearances(WithoutNames(a, names))
  {
    if a != [] {
      var init := a[..|a| - 1];
      var y := a[|a| - 1];
      assert a == init + [y];
      WithoutNamesFirstAppearances(init, names);
      WithoutNamesAppend(init, [y], names);
      var prev := FirstAppearances(init);
      var kept := WithoutNames(init, names);
      assert FirstAppearances(a) == if y in prev then prev else prev + [y];
      if y in names {
        assert WithoutNames([y], names) == [];
        assert WithoutNames(a, names) == kept by {
          assert kept + [] == kept;
        }
        if y !in prev {
          WithoutNamesAppend(prev, [y], names);
          assert WithoutNames(prev, names) + [] == WithoutNames(prev, names);
        }
      } else {
        assert WithoutNames([y], names) == [y];
        var w := kept + [y];
        assert WithoutNames(a, names) == w;
        assert w[..|w| - 1] == kept;
        assert FirstAppearances(w) == if y in FirstAppearances(kept) then FirstAppearances(kept) else FirstAppearances(kept) + [y];
        assert y in FirstAppearances(kept) <==> y in prev;
        if y !in prev {
          WithoutNamesAppend(prev, [y], names);
        }
      }
    }
  }

  /** Keeping first appearances of a prefix first changes nothing. */
  lemma {:induction false} FirstAppearancesOfPrefix(a: seq<string>, b: seq<string>)
    ensures FirstAppearances(FirstAppearances(a) + b) == FirstAppearances(a + b)
  {
    if b == [] {
      assert a + b == a;
      assert FirstAppearances(a) + b == FirstAppearances(a);
      FirstAppearancesOfDistinct(FirstAppearances(a));
    } else {
      var init := b[..|b| - 1];
      var y := b[|b| - 1];
      FirstAppearancesOfPrefix(a, init);
      assert FirstAppearances(a) + b == (FirstAppearances(a) + init) + [y];
      assert a + b == (a + init) + [y];
      FirstAppearancesSnoc(FirstAppearances(a) + init, y);
      FirstAppearancesSnoc(a + init, y);
    }
  }

  /** Applying the custom roles to one user a second time changes nothing. */
  lemma {:induction false} WithAppliedServerRolesToUserIdempotent(u: User, settings: ServerSettings)
    ensures var once := ApplyServerRolesToUser(StripServerRolesFromUser(u, settings), settings);
      ApplyServerRolesToUser(StripServerRolesFromUser(once, settings), settings) == once
  {
    var names := DefinedNames(settings);
    var granted := UserRoles(u, settings);
    var custom := CustomRoleNames(granted);
    if settings.roles.definitions == [] {
      NoRolesGranted(if u.id in settings.roles.memberRoleIds then settings.roles.memberRoleIds[u.id] else []);
      assert u.roles + custom == u.roles;
      FirstAppearancesOfDistinct(FirstAppearances(u.roles));
      assert FirstAppearances(u.roles) + custom == FirstAppearances(u.roles);
    } else {
      var kept := WithoutNames(u.roles, names);
      forall x | x in custom
        ensures x in names
      {
        var role :| role in granted && role.name == x;
      }
      WithoutNamesFirstAppearances(kept + custom, names);
      WithoutNamesAppend(kept, custom, names);
      WithoutNamesNone(kept, names);
      WithoutNamesAll(custom, names);
      assert kept + [] == kept;
      FirstAppearancesOfPrefix(kept, custom);
    }
  }

  /**
   * `withAppliedServerRoles` is idempotent: saving the same settings again
   * neither duplicates nor drops a role name, and keeps the colours.
   */
  lemma {:induction false} WithAppliedServerRolesIdempotent(users: seq<User>, settings: ServerSettings)
    ensures WithAppliedServerRoles(WithAppliedServerRoles(users, settings), settings) == WithAppliedServerRoles(users, settings)
  {
    var once := WithAppliedServerRoles(users, settings);
    forall i | 0 <= i < |users|
      ensures WithAppliedServerRoles(once, settings)[i] == once[i]
    {
      WithAppliedServerRolesToUserIdempotent(users[i], settings);
    }
  }

  /**
   * Each user keeps their id, name and status; their roles are their own
   * non-custom names followed by the names of the custom roles granted to
   * them, each once; and their colour is that of their highest granted role.
   */
  lemma {:induction false} WithAppliedServerRolesSpec(users: seq<User>, settings: ServerSettings)
    ensures var r := WithAppliedServerRoles(users, settings);
      && |r| == |users|
      && forall i :: 0 <= i < |users| ==>
        var granted := UserRoles(users[i], settings);
        && r[i].id == users[i].id && r[i].name == users[i].name && r[i].status == users[i].status
        && Distinct(r[i].roles)
        && (forall x :: x in r[i].roles <==> (x in users[i].roles && x !in DefinedNames(settings)) || x in CustomRoleNames(granted))
        && (granted == [] <==> r[i].roleColor.None?)
  {
    if settings.roles.definitions == [] {
      forall i | 0 <= i < |users|
        ensures UserRoles(users[i], settings) == []
      {
        var u := users[i];
        NoRolesGranted(if u.id in settings.roles.memberRoleIds then settings.roles.memberRoleIds[u.id] else []);
      }
    }
  }
}
