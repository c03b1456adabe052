/**
 * The form logic of the server settings modal
 * (src/components/ServerSettingsModal.tsx): integer fields, role ids, the
 * role editor's state updates, the settings the form saves and the uptime
 * label. Number inputs are whole numbers; `Math.random` in `createRoleId` is a
 * fresh suffix given by the caller.
 */
module SettingsModal {
  import opened Wrappers
  import opened Text
  import opened Sorting
  import opened Slug
  import opened PermissionActions
  import opened ServerConfig
  import opened LayoutActions
  import opened RoomsSlices

  // ---------------------------------------------------------------------------
  // parseInteger
  // ---------------------------------------------------------------------------

  function DigitValue(c: char): nat
    requires IsDigit(c)
  {
    c as int - '0' as int
  }

  predicate AllDigits(s: string)
  {
    forall i :: 0 <= i < |s| ==> IsDigit(s[i])
  }

  /** The number a string of decimal digits denotes. */
  function DigitsValue(ds: string): nat
    requires AllDigits(ds)
    decreases |ds|
  {
    if ds == [] then 0 else DigitsValue(ds[..|ds| - 1]) * 10 + DigitValue(ds[|ds| - 1])
  }

  /** The longest prefix made of decimal digits. */
  function LeadingDigits(s: string): (r: string)
    ensures AllDigits(r) && StartsWith(s, r)
    ensures |r| < |s| ==> !IsDigit(s[|r|])
  {
    if s == [] || !IsDigit(s[0]) then [] else [s[0]] + LeadingDigits(s[1..])
  }

  /**
   * `Number.parseInt(value, 10)`: leading white space, an optional sign, then
   * the longest run of digits; `None` (NaN) when there is no digit.
   */
  function ParseInt(value: string): Option<int>
  {
    var t := TrimStart(value, IsJsSpace);
    var signed := t != [] && (t[0] == '-' || t[0] == '+');
    var digits := LeadingDigits(if signed then t[1..] else t);
    if digits == [] then None
    else if signed && t[0] == '-' then var v: int := DigitsValue(digits); Some(-v)
    else Some(DigitsValue(digits))
  }

  /** `parseInteger`: the fallback as it is for a non-number, else the number clamped. */
  function ParseInteger(value: string, fallback: int, min: int, max: int): int
  {
    match ParseInt(value)
    case None => fallback
    case Some(n) => Clamp(n, min, max)
  }

  /**
   * A non-numeric field gives the fallback, unclamped; a numeric one gives a
   * value inside the range, the number itself when it already was.
   */
  lemma {:induction false} ParseIntegerSpec(value: string, fallback: int, min: int, max: int)
    requires min <= max
    ensures ParseInt(value).None? ==> ParseInteger(value, fallback, min, max) == fallback
    ensures ParseInt(value).Some? ==> min <= ParseInteger(value, fallback, min, max) <= max
    ensures ParseInt(value).Some? && min <= ParseInt(value).value <= max ==>
      ParseInteger(value, fallback, min, max) == ParseInt(value).value
  {
  }

  /** The digits of a rendered number read back as that number. */
  lemma {:induction false} DigitsOfNat(n: nat)
    ensures DigitsValue(NatToString(n)) == n
    decreases n
  {
    var s := NatToString(n);
    if n >= 10 {
      DigitsOfNat(n / 10);
      assert s[..|s| - 1] == NatToString(n / 10);
    }
  }

  /** Digit scanning stops exactly at the end of a digit run. */
  lemma {:induction false} LeadingDigitsOf(ds: string, rest: string)
    requires AllDigits(ds)
    requires rest == [] || !IsDigit(rest[0])
    ensures LeadingDigits(ds + rest) == ds
    decreases |ds|
  {
    if ds == [] {
      assert ds + rest == rest;
    } else {
      assert (ds + rest)[1..] == ds[1..] + rest;
      LeadingDigitsOf(ds[1..], rest);
      assert [ds[0]] + ds[1..] == ds;
    }
  }

  /** Unsigned digits followed by a non-digit parse as their value. */
  lemma {:induction false} ParseIntOfDigits(digits: string, rest: string)
    requires digits != [] && AllDigits(digits)
    requires rest == [] || !IsDigit(rest[0])
    ensures ParseInt(digits + rest) == Some(DigitsValue(digits) as int)
  {
    LeadingDigitsOf(digits, rest);
    var s := digits + rest;
    assert s[0] == digits[0];
    assert TrimStart(s, IsJsSpace) == s;
  }

  /** A minus sign, digits and a non-digit parse as the negated value. */
  lemma {:induction false} ParseIntOfNegated(digits: string, rest: string)
    requires digits != [] && AllDigits(digits)
    requires rest == [] || !IsDigit(rest[0])
    ensures ParseInt("-" + digits + rest) == Some(-(DigitsValue(digits) as int))
  {
    LeadingDigitsOf(digits, rest);
    var s := "-" + digits + rest;
    assert s == ['-'] + (digits + rest);
    assert !IsJsSpace(s[0]);
    assert TrimStart(s, IsJsSpace) == s;
    assert s[1..] == digits + rest;
    assert LeadingDigits(s[1..]) == digits;
  }

  /** A rendered integer followed by anything that does not start with a digit parses back to that integer. */
  lemma {:induction false} ParseIntOfRendered(n: int, rest: string)
    requires rest == [] || !IsDigit(rest[0])
    ensures ParseInt(IntToString(n) + rest) == Some(n)
  {
    if n < 0 {
      DigitsOfNat(-n);
      ParseIntOfNegated(NatToString(-n), rest);
    } else {
      DigitsOfNat(n);
      ParseIntOfDigits(NatToString(n), rest);
    }
  }

  // ---------------------------------------------------------------------------
  // createRoleId and createRole
  // ---------------------------------------------------------------------------

  /** `createRoleId`: the slug of the name, or `role-` and a fresh suffix when the slug is empty. */
  function CreateRoleId(name: string, freshSuffix: string): (r: string)
  {
    var slug := Slugify(name);
    if slug != [] then slug else "role-" + freshSuffix
  }

  /** A role id is never empty, and is a slug whenever the name has a letter or a digit. */
  lemma {:induction false} CreateRoleIdSpec(name: string, freshSuffix: string)
    ensures CreateRoleId(name, freshSuffix) != []
    ensures HasSlugChar(Lower(TrimJs(name))) ==> CreateRoleId(name, freshSuffix) == Slugify(name) && IsSlug(Slugify(name))
    ensures !HasSlugChar(Lower(TrimJs(name))) ==> CreateRoleId(name, freshSuffix) == "role-" + freshSuffix
  {
    SlugifySpec(name);
  }

  function RoleIds(roles: seq<RoleDefinition>): (r: seq<string>)
    ensures |r| == |roles| && forall i :: 0 <= i < |roles| ==> r[i] == roles[i].id
  {
    seq(|roles|, i requires 0 <= i < |roles| => roles[i].id)
  }

  /** The role `createRole` appends: its colour if that is `#RRGGBB`, and a power level clamped to 0..100. */
  function NewRole(id: string, trimmedName: string, powerLevelText: string, color: string, defaultLevel: int): RoleDefinition
  {
    RoleDefinition(
      id := id,
      name := trimmedName,
      color := if IsHexColor(color) then color else DefaultRoleColor,
      powerLevel := ParseInteger(powerLevelText, defaultLevel, 0, 100),
      permissions := map[])
  }

  /** The new role has a valid colour, a level in 0..100 whenever the default is, and no permissions. */
  lemma {:induction false} NewRoleSpec(id: string, trimmedName: string, powerLevelText: string, color: string, defaultLevel: int)
    ensures var r := NewRole(id, trimmedName, powerLevelText, color, defaultLevel);
      IsHexColor(r.color) &&
      (IsHexColor(color) <==> r.color == color) &&
      (0 <= defaultLevel <= 100 ==> 0 <= r.powerLevel <= 100) &&
      (ParseInt(powerLevelText).Some? ==> 0 <= r.powerLevel <= 100) &&
      r.permissions == map[]
  {
    var d := DefaultRoleColor;
    assert d[0] == '#' && |d| == 7;
    assert IsHexDigit(d[1]) && IsHexDigit(d[2]) && IsHexDigit(d[3]);
    assert IsHexDigit(d[4]) && IsHexDigit(d[5]) && IsHexDigit(d[6]);
  }

  /** Appending a role whose id is not taken keeps role ids unique. */
  lemma {:induction false} AppendKeepsDistinctIds(roles: seq<RoleDefinition>, role: RoleDefinition)
    requires DistinctIds(roles)
    requires role.id !in RoleIds(roles)
    ensures DistinctIds(roles + [role])
  {
    var r := roles + [role];
    forall i, j | 0 <= i < j < |r|
      ensures r[i].id != r[j].id
    {
      if j == |roles| {
        assert RoleIds(roles)[i] == r[i].id;
      }
    }
  }

  // ---------------------------------------------------------------------------
  // The role editor's updaters
  // ---------------------------------------------------------------------------

  /** `customRoles.filter((role) => role.id !== roleId)`. */
  function RolesWithout(roles: seq<RoleDefinition>, roleId: string): (r: seq<RoleDefinition>)
    ensures forall x :: x in r <==> x in roles && x.id != roleId
    ensures |r| <= |roles|
  {
    if roles == [] then []
    else if roles[0].id == roleId then RolesWithout(roles[1..], roleId)
    else [roles[0]] + RolesWithout(roles[1..], roleId)
  }

  /** The `setMemberRoleIds` updater of `deleteRole`. */
  function AssignmentsWithout(assignments: map<string, seq<string>>, roleId: string): map<string, seq<string>>
  {
    map u | u in assignments && WithoutNames(assignments[u], {roleId}) != [] :: WithoutNames(assignments[u], {roleId})
  }

  /**
   * After deleting a role no member holds it, members keep their other roles in
   * order, and exactly the members left without roles are dropped.
   */
  lemma {:induction false} AssignmentsWithoutSpec(assignments: map<string, seq<string>>, roleId: string)
    ensures var r := AssignmentsWithout(assignments, roleId);
      (forall u :: u in r ==> r[u] != [] && roleId !in r[u] && r[u] == WithoutNames(assignments[u], {roleId})) &&
      (forall u :: u in r <==> u in assignments && exists x :: x in assignments[u] && x != roleId)
  {
    var r := AssignmentsWithout(assignments, roleId);
    forall u | u in assignments
      ensures u in r <==> exists x :: x in assignments[u] && x != roleId
    {
      var w := WithoutNames(assignments[u], {roleId});
      if w != [] {
        assert w[0] in w;
      }
    }
  }

  /** The selected role after a deletion: the first remaining role when the deleted one was selected. */
  function SelectedAfterDelete(selected: string, remaining: seq<RoleDefinition>, roleId: string): string
  {
    if selected != roleId then selected
    else if remaining != [] then remaining[0].id
    else ""
  }

  /** The role ids of one member, `[]` when the member has none. */
  function AssignedTo(assignments: map<string, seq<string>>, userId: string): seq<string>
  {
    if userId in assignments then assignments[userId] else []
  }

  /** The `setMemberRoleIds` updater of `toggleRoleAssignment`. */
  function ToggleRoleAssignment(assignments: map<string, seq<string>>, userId: string, roleId: string): map<string, seq<string>>
  {
    var existing := AssignedTo(assignments, userId);
    var next := if roleId in existing then WithoutNames(existing, {roleId}) else existing + [roleId];
    if next != [] then assignments[userId := next] else assignments - {userId}
  }

  /**
   * The toggle flips whether the member holds the role, keeps the member's other
   * roles, removes the member when no role is left and leaves every other member
   * alone.
   */
  lemma {:induction false} ToggleRoleAssignmentSpec(assignments: map<string, seq<string>>, userId: string, roleId: string)
    ensures var r := ToggleRoleAssignment(assignments, userId, roleId);
      (roleId in AssignedTo(r, userId) <==> roleId !in AssignedTo(assignments, userId)) &&
      (forall x :: x != roleId ==> (x in AssignedTo(r, userId) <==> x in AssignedTo(assignments, userId))) &&
      (userId in r <==> AssignedTo(r, userId) != []) &&
      (forall u :: u != userId ==> (u in r <==> u in assignments) && (u in r ==> r[u] == assignments[u]))
  {
  }

  /** Giving a member a role and toggling it again restores the assignments. */
  lemma {:induction false} ToggleTwice(assignments: map<string, seq<string>>, userId: string, roleId: string)
    requires roleId !in AssignedTo(assignments, userId)
    requires userId in assignments ==> assignments[userId] != []
    ensures ToggleRoleAssignment(ToggleRoleAssignment(assignments, userId, roleId), userId, roleId) == assignments
  {
    var existing := AssignedTo(assignments, userId);
    var once := ToggleRoleAssignment(assignments, userId, roleId);
    assert once[userId] == existing + [roleId];
    WithoutNamesAppend(existing, [roleId], {roleId});
    WithoutNamesNone(existing, {roleId});
    assert WithoutNames([roleId], {roleId}) == [];
    assert existing + [] == existing;
  }

  /** A role's permissions with `action` enabled (`true`) or removed. */
  function WithPermission(permissions: map<PermissionAction, bool>, action: PermissionAction, enabled: bool): map<PermissionAction, bool>
  {
    if enabled then permissions[action := true] else permissions - {action}
  }

  /** The `setCustomRoles` updater of `setRolePermissionEnabled`. */
  function SetRolePermissionEnabled(roles: seq<RoleDefinition>, roleId: string, action: PermissionAction, enabled: bool): seq<RoleDefinition>
  {
    seq(|roles|, i requires 0 <= i < |roles| =>
      if roles[i].id != roleId then roles[i]
      else roles[i].(permissions := WithPermission(roles[i].permissions, action, enabled)))
  }

  /**
   * Only the roles with that id change, and in them only the one action: it is
   * present, as `true`, exactly when enabled.
   */
  lemma {:induction false} SetRolePermissionEnabledSpec(roles: seq<RoleDefinition>, roleId: string, action: PermissionAction, enabled: bool)
    ensures var r := SetRolePermissionEnabled(roles, roleId, action, enabled);
      |r| == |roles| &&
      (forall i :: 0 <= i < |roles| && roles[i].id != roleId ==> r[i] == roles[i]) &&
      (forall i :: 0 <= i < |roles| && roles[i].id == roleId ==>
        r[i].(permissions := roles[i].permissions) == roles[i] &&
        (action in r[i].permissions <==> enabled) &&
        (enabled ==> r[i].permissions[action]) &&
        (forall a :: a != action ==> ((a in r[i].permissions <==> a in roles[i].permissions) &&
          (a in r[i].permissions ==> r[i].permissions[a] == roles[i].permissions[a]))))
  {
  }

  /** The role editor's React state. */
  class RoleEditor {
    var customRoles: seq<RoleDefinition>
    var memberRoleIds: map<string, seq<string>>
    var selectedRoleId: string
    var newRoleName: string

    /** Role ids stay unique and no member is listed without roles. */
    predicate Valid()
      reads this
    {
      DistinctIds(customRoles) && forall u :: u in memberRoleIds ==> memberRoleIds[u] != []
    }

    /** The editor opened on the space's settings. */
    constructor(settings: ServerSettings)
      requires Normalized(settings)
      ensures Valid()
      ensures customRoles == settings.roles.definitions && memberRoleIds == settings.roles.memberRoleIds
      ensures selectedRoleId == (if customRoles != [] then customRoles[0].id else "") && newRoleName == ""
    {
      customRoles := settings.roles.definitions;
      memberRoleIds := settings.roles.memberRoleIds;
      selectedRoleId := if settings.roles.definitions != [] then settings.roles.definitions[0].id else "";
      newRoleName := "";
    }

    /**
     * `createRole`: nothing for a blank name; otherwise a role with an id not yet
     * taken (the slug, then `-2`, `-3`, …) is appended and selected.
     */
    method CreateRole(powerLevelText: string, color: string, defaultLevel: int, freshSuffix: string)
      requires Valid()
      modifies this
      ensures Valid()
      ensures IsBlankJs(old(newRoleName)) ==>
        customRoles == old(customRoles) && selectedRoleId == old(selectedRoleId) && newRoleName == old(newRoleName)
      ensures !IsBlankJs(old(newRoleName)) ==>
        && |customRoles| == |old(customRoles)| + 1
        && customRoles[..|old(customRoles)|] == old(customRoles)
        && var role := customRoles[|old(customRoles)|];
           && role.id !in RoleIds(old(customRoles))
           && (exists suffix :: LeastFreeSuffix(RoleIds(old(customRoles)), CreateRoleId(TrimJs(old(newRoleName)), freshSuffix), suffix)
                && role.id == CandidateCategoryId(CreateRoleId(TrimJs(old(newRoleName)), freshSuffix), suffix))
           && role == NewRole(role.id, TrimJs(old(newRoleName)), powerLevelText, color, defaultLevel)
           && selectedRoleId == role.id
           && newRoleName == ""
      ensures memberRoleIds == old(memberRoleIds)
    {
      var trimmed := TrimJs(newRoleName);
      if trimmed == [] {
        return;
      }
      var baseRoleId := CreateRoleId(trimmed, freshSuffix);
      var roleId, suffix := FreshCategoryId(RoleIds(customRoles), baseRoleId);
      var role := NewRole(roleId, trimmed, powerLevelText, color, defaultLevel);
      AppendKeepsDistinctIds(customRoles, role);
      customRoles := customRoles + [role];
      selectedRoleId := roleId;
      newRoleName := "";
    }

    /** `deleteRole`: the role goes, no member keeps it, and the selection moves on if it was selected. */
    method DeleteRole(roleId: string)
      requires Valid()
      modifies this
      ensures Valid()
      ensures customRoles == RolesWithout(old(customRoles), roleId)
      ensures selectedRoleId == SelectedAfterDelete(old(selectedRoleId), customRoles, roleId)
      ensures memberRoleIds == AssignmentsWithout(old(memberRoleIds), roleId)
      ensures forall u :: u in memberRoleIds ==> roleId !in memberRoleIds[u]
      ensures newRoleName == old(newRoleName)
    {
      var remaining := RolesWithout(customRoles, roleId);
      assert DistinctIds(remaining) by {
        RolesWithoutKeepsDistinct(customRoles, roleId);
      }
      customRoles := remaining;
      if selectedRoleId == roleId {
        selectedRoleId := if remaining != [] then remaining[0].id else "";
      }
      AssignmentsWithoutSpec(memberRoleIds, roleId);
      memberRoleIds := AssignmentsWithout(memberRoleIds, roleId);
    }

    /** `toggleRoleAssignment`. */
    method ToggleAssignment(userId: string, roleId: string)
      requires Valid()
      modifies this
      ensures Valid()
      ensures memberRoleIds == ToggleRoleAssignment(old(memberRoleIds), userId, roleId)
      ensures customRoles == old(customRoles) && selectedRoleId == old(selectedRoleId) && newRoleName == old(newRoleName)
    {
      ToggleRoleAssignmentSpec(memberRoleIds, userId, roleId);
      memberRoleIds := ToggleRoleAssignment(memberRoleIds, userId, roleId);
    }

    /** `setRolePermissionEnabled`. */
    method SetPermissionEnabled(roleId: string, action: PermissionAction, enabled: bool)
      requires Valid()
      modifies this
      ensures Valid()
      ensures customRoles == SetRolePermissionEnabled(old(customRoles), roleId, action, enabled)
      ensures memberRoleIds == old(memberRoleIds) && selectedRoleId == old(selectedRoleId) && newRoleName == old(newRoleName)
    {
      var next := SetRolePermissionEnabled(customRoles, roleId, action, enabled);
      assert forall i :: 0 <= i < |next| ==> next[i].id == customRoles[i].id;
      customRoles := next;
    }
  }

  /** Filtering roles out keeps the remaining ids unique. */
  lemma {:induction false} RolesWithoutKeepsDistinct(roles: seq<RoleDefinition>, roleId: string)
    requires DistinctIds(roles)
    ensures DistinctIds(RolesWithout(roles, roleId))
    decreases |roles|
  {
    if roles != [] {
      assert DistinctIds(roles[1..]);
      RolesWithoutKeepsDistinct(roles[1..], roleId);
      var rest := RolesWithout(roles[1..], roleId);
      if roles[0].id != roleId {
        var r := [roles[0]] + rest;
        forall i, j | 0 <= i < j < |r|
          ensures r[i].id != r[j].id
        {
          if i == 0 {
            assert r[j] in rest;
            assert r[j] in roles[1..];
            var k :| 0 <= k < |roles[1..]| && roles[1..][k] == r[j];
            assert roles[k + 1] == r[j];
          }
        }
      }
    }
  }

  // ---------------------------------------------------------------------------
  // The settings the form saves
  // ---------------------------------------------------------------------------

  /** The form's fields as typed, with the role editor's state. */
  datatype SettingsForm = SettingsForm(
    description: string,
    guidelines: string,
    adminLevel: string,
    moderatorLevel: string,
    defaultLevel: string,
    customRoles: seq<RoleDefinition>,
    memberRoleIds: map<string, seq<string>>,
    linkExpiryHours: string,
    requireApproval: bool,
    allowGuestInvites: bool,
    safetyLevel: SafetyLevel,
    blockUnknownMedia: bool,
    auditLogRetentionDays: string)

  /** `nextSettings`: each number parsed with the saved value as fallback and clamped to its range. */
  function NextSettings(form: SettingsForm, active: ServerSettings): ServerSettings
  {
    ServerSettings(
      OverviewSettings(TrimJs(form.description), TrimJs(form.guidelines)),
      RoleSettings(
        ParseInteger(form.adminLevel, active.roles.adminLevel, 0, 100),
        ParseInteger(form.moderatorLevel, active.roles.moderatorLevel, 0, 100),
        ParseInteger(form.defaultLevel, active.roles.defaultLevel, 0, 100),
        form.customRoles,
        form.memberRoleIds),
      InviteSettings(ParseInteger(form.linkExpiryHours, active.invites.linkExpiryHours, 1, 168), form.requireApproval, form.allowGuestInvites),
      ModerationSettings(form.safetyLevel, form.blockUnknownMedia,
        ParseInteger(form.auditLogRetentionDays, active.moderation.auditLogRetentionDays, 7, 365)))
  }

  /**
   * Starting from normalised settings, the saved levels stay in 0..100, the
   * invite expiry in 1..168 hours and the audit retention in 7..365 days,
   * whatever was typed.
   */
  lemma {:induction false} NextSettingsRanges(form: SettingsForm, active: ServerSettings)
    requires Normalized(active)
    ensures var s := NextSettings(form, active);
      && 0 <= s.roles.adminLevel <= 100 && 0 <= s.roles.moderatorLevel <= 100 && 0 <= s.roles.defaultLevel <= 100
      && 1 <= s.invites.linkExpiryHours <= 168
      && 7 <= s.moderation.auditLogRetentionDays <= 365
  {
    ParseIntegerSpec(form.adminLevel, active.roles.adminLevel, 0, 100);
    ParseIntegerSpec(form.moderatorLevel, active.roles.moderatorLevel, 0, 100);
    ParseIntegerSpec(form.defaultLevel, active.roles.defaultLevel, 0, 100);
    ParseIntegerSpec(form.linkExpiryHours, active.invites.linkExpiryHours, 1, 168);
    ParseIntegerSpec(form.auditLogRetentionDays, active.moderation.auditLogRetentionDays, 7, 365);
  }

  // ---------------------------------------------------------------------------
  // formatUptime
  // ---------------------------------------------------------------------------

  /** Whole days, the hours of the last day and the minutes of the last hour. */
  datatype UptimeParts = UptimeParts(days: nat, hours: nat, minutes: nat)

  function SplitUptime(seconds: nat): UptimeParts
  {
    UptimeParts(seconds / 86400, (seconds % 86400) / 3600, (seconds % 3600) / 60)
  }

  /** The parts add up to the uptime, less than a minute short, with hours below 24 and minutes below 60. */
  lemma {:induction false} SplitUptimeSpec(seconds: nat)
    ensures var p := SplitUptime(seconds);
      p.hours < 24 && p.minutes < 60 &&
      p.days * 86400 + p.hours * 3600 + p.minutes * 60 <= seconds < p.days * 86400 + p.hours * 3600 + p.minutes * 60 + 60
  {
    var d := seconds / 86400;
    var rd := seconds % 86400;
    var h := rd / 3600;
    var rh := rd % 3600;
    assert seconds == (d * 24 + h) * 3600 + rh;
    HourRemainder(seconds, d * 24 + h, rh);
  }

  /** A number written as `q * 3600 + r` with `0 <= r < 3600` leaves remainder `r`. */
  lemma {:induction false} HourRemainder(x: int, q: int, r: int)
    requires 0 <= r < 3600 && x == q * 3600 + r
    ensures x % 3600 == r
  {
  }

  /** `formatUptime` for whole seconds. */
  function FormatUptime(seconds: int): string
  {
    if seconds < 0 then "n/a"
    else
      var p := SplitUptime(seconds);
      if p.days > 0 then NatToString(p.days) + "d " + NatToString(p.hours) + "h " + NatToString(p.minutes) + "m"
      else if p.hours > 0 then NatToString(p.hours) + "h " + NatToString(p.minutes) + "m"
      else NatToString(p.minutes) + "m"
  }

  /**
   * `"n/a"` exactly for a negative uptime; otherwise the label ends in minutes and
   * starts with the largest non-zero unit.
   */
  lemma {:induction false} FormatUptimeSpec(seconds: int)
    ensures FormatUptime(seconds) == "n/a" <==> seconds < 0
    ensures seconds >= 0 ==> FormatUptime(seconds)[|FormatUptime(seconds)| - 1] == 'm'
    ensures seconds >= 86400 ==> StartsWith(FormatUptime(seconds), NatToString(seconds / 86400) + "d ")
    ensures 0 <= seconds < 60 ==> FormatUptime(seconds) == "0m"
  {
    if seconds >= 0 {
      var r := FormatUptime(seconds);
      assert r[|r| - 1] == 'm';
      if seconds >= 86400 {
        var prefix := NatToString(seconds / 86400) + "d ";
        assert r == prefix + (NatToString(SplitUptime(seconds).hours) + "h " + NatToString(SplitUptime(seconds).minutes) + "m");
      }
      if seconds < 60 {
        assert SplitUptime(seconds) == UptimeParts(0, 0, 0);
        assert NatToString(0) == "0";
      }
    }
  }
}
