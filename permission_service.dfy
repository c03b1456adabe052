/**
 * What a user may do in a room: their Matrix power level against the level
 * each action requires, their membership, and the category and room rules
 * that can take an action away.
 */
module PermissionService {
  import opened Wrappers
  import Json
  import opened PermissionActions
  import opened ServerConfig

  datatype Role = Owner | Moderator | Member | Guest

  datatype Membership = Join | Invite | Leave | Ban | Knock | Unknown

  /** `MatrixPowerLevels`: the content of an `m.room.power_levels` event. */
  datatype PowerLevels = PowerLevels(
    users: map<string, int>,
    usersDefault: int,
    events: map<string, int>,
    eventsDefault: int,
    stateDefault: int,
    invite: int,
    redact: int)

  /** `PermissionSnapshot`. */
  datatype Snapshot = Snapshot(role: Role, membership: Membership, powerLevel: int, actions: map<PermissionAction, bool>)

  const DefaultPowerLevels: PowerLevels := PowerLevels(map[], 0, map[], 0, 50, 0, 50)

  const MessageEvent: string := "m.room.message"
  const ReactionEvent: string := "m.reaction"
  const PinnedEventsEvent: string := "m.room.pinned_events"

  /** `normalizeNumberRecord(value)`: the number-valued members of an object. */
  function NormalizeNumberRecord(value: Option<Json.Value>): (r: map<string, int>)
    ensures value.None? || !Json.IsObjectLike(value.value) ==> r == map[]
    ensures value.Some? ==> forall k :: k in r <==> k in Json.Entries(value.value) && Json.Entries(value.value)[k].Num?
    ensures value.Some? ==> forall k :: k in r ==> Json.Entries(value.value)[k] == Json.Num(r[k])
  {
    var entries := if value.Some? then Json.Entries(value.value) else map[];
    map k | k in entries && entries[k].Num? :: entries[k].n
  }

  /** `toValidNumber(value, fallback)`. */
  function ToValidNumber(value: Option<Json.Value>, fallback: int): (r: int)
    ensures (value.Some? && value.value.Num?) ==> r == value.value.n
    ensures !(value.Some? && value.value.Num?) ==> r == fallback
  {
    match value
    case Some(Num(n)) => n
    case _ => fallback
  }

  /** `parsePowerLevels(content)`. */
  function ParsePowerLevels(content: Json.Value): PowerLevels
  {
    if !Json.IsObjectLike(content) then DefaultPowerLevels
    else
      var d := DefaultPowerLevels;
      PowerLevels(
        NormalizeNumberRecord(Json.Get(content, "users")),
        ToValidNumber(Json.Get(content, "users_default"), d.usersDefault),
        NormalizeNumberRecord(Json.Get(content, "events")),
        ToValidNumber(Json.Get(content, "events_default"), d.eventsDefault),
        ToValidNumber(Json.Get(content, "state_default"), d.stateDefault),
        ToValidNumber(Json.Get(content, "invite"), d.invite),
        ToValidNumber(Json.Get(content, "redact"), d.redact))
  }

  /**
   * Non-object content gives the defaults; a field that is not a number
   * falls back to its default; the user and event tables keep exactly their
   * numeric entries.
   */
  lemma {:induction false} ParsePowerLevelsSpec(content: Json.Value)
    ensures var r := ParsePowerLevels(content);
      && (!Json.IsObjectLike(content) ==> r == DefaultPowerLevels)
      && (Json.Get(content, "redact").None? ==> r.redact == 50)
      && (Json.Get(content, "state_default").None? ==> r.stateDefault == 50)
      && (forall u :: u in r.users <==>
            (Json.Get(content, "users").Some? &&
             u in Json.Entries(Json.Get(content, "users").value) && Json.Entries(Json.Get(content, "users").value)[u].Num?))
      && (forall e :: e in r.events <==>
            (Json.Get(content, "events").Some? &&
             e in Json.Entries(Json.Get(content, "events").value) && Json.Entries(Json.Get(content, "events").value)[e].Num?))
  {
  }

  /** `getUserPowerLevel(powerLevels, userId)`. */
  function UserPowerLevel(powerLevels: PowerLevels, userId: string): (r: int)
    ensures userId in powerLevels.users ==> r == powerLevels.users[userId]
    ensures userId !in powerLevels.users ==> r == powerLevels.usersDefault
  {
    if userId in powerLevels.users then powerLevels.users[userId] else powerLevels.usersDefault
  }

  /**
   * A user's level read from raw power-levels content: a number listed for
   * them under `users` wins, else a number under `users_default`, else 0.
   */
  lemma {:induction false} ParsedUserPowerLevel(content: Json.Value, userId: string)
    ensures var r := UserPowerLevel(ParsePowerLevels(content), userId);
      var users := Json.Get(content, "users");
      var fallback := Json.Get(content, "users_default");
      if users.Some? && userId in Json.Entries(users.value) && Json.Entries(users.value)[userId].Num? then
        r == Json.Entries(users.value)[userId].n
      else if fallback.Some? && fallback.value.Num? then
        r == fallback.value.n
      else
        r == 0
  {
  }

  /** An event type's level, else the given default. */
  function EventLevel(powerLevels: PowerLevels, eventType: string, fallback: int): int
  {
    if eventType in powerLevels.events then powerLevels.events[eventType] else fallback
  }

  /** `getRequiredLevelForAction(action, powerLevels)`. */
  function RequiredLevel(action: PermissionAction, powerLevels: PowerLevels): int
  {
    match action
    case Send => EventLevel(powerLevels, MessageEvent, powerLevels.eventsDefault)
    case React => EventLevel(powerLevels, ReactionEvent, powerLevels.eventsDefault)
    case Pin => EventLevel(powerLevels, PinnedEventsEvent, powerLevels.stateDefault)
    case Redact => powerLevels.redact
    case Invite => powerLevels.invite
    case ManageChannels => powerLevels.stateDefault
  }

  /** `deriveRole(membership, powerLevel, roleSettings)`. */
  function DeriveRole(membership: Membership, powerLevel: int, roleSettings: RoleSettings): (r: Role)
    ensures r == Guest <==> membership != Join
    ensures r == Owner ==> powerLevel >= roleSettings.adminLevel
    ensures r == Moderator ==> roleSettings.moderatorLevel <= powerLevel < roleSettings.adminLevel
    ensures r == Member ==> powerLevel < roleSettings.moderatorLevel && powerLevel < roleSettings.adminLevel
  {
    if membership != Join then Guest
    else if powerLevel >= roleSettings.adminLevel then Owner
    else if powerLevel >= roleSettings.moderatorLevel then Moderator
    else Member
  }

  /** Roles in increasing order of standing. */
  function Rank(role: Role): nat
  {
    match role
    case Guest => 0
    case Member => 1
    case Moderator => 2
    case Owner => 3
  }

  /** A joined user with a higher power level never gets a lower role. */
  lemma {:induction false} DeriveRoleMonotone(low: int, high: int, roleSettings: RoleSettings)
    requires low <= high
    ensures Rank(DeriveRole(Join, low, roleSettings)) <= Rank(DeriveRole(Join, high, roleSettings))
  {
  }

  /** A rule that decides an action: `allow` or `deny`. */
  predicate Decides(rules: RuleSet, action: PermissionAction)
  {
    action in rules && rules[action] != Inherit
  }

  /** `resolveRule(action, categoryRules, roomRules)`; a missing rule set is `map[]`. */
  function ResolveRule(action: PermissionAction, categoryRules: RuleSet, roomRules: RuleSet): (r: Rule)
  {
    if Decides(roomRules, action) then roomRules[action]
    else if Decides(categoryRules, action) then categoryRules[action]
    else Inherit
  }

  /**
   * A deciding room rule wins; otherwise a deciding category rule; otherwise
   * the action inherits.
   */
  lemma {:induction false} ResolveRuleSpec(action: PermissionAction, categoryRules: RuleSet, roomRules: RuleSet)
    ensures var r := ResolveRule(action, categoryRules, roomRules);
      && (r == Inherit <==> !Decides(roomRules, action) && !Decides(categoryRules, action))
      && (Decides(roomRules, action) ==> r == roomRules[action])
      && (r == Deny <==> (action in roomRules && roomRules[action] == Deny) ||
                         (!Decides(roomRules, action) && action in categoryRules && categoryRules[action] == Deny))
  {
  }

  /** `applyRule(base, rule)`: `deny` takes the action away, nothing grants it. */
  function ApplyRule(base: bool, rule: Rule): (r: bool)
    ensures r <==> base && rule != Deny
  {
    if rule == Deny then false else base
  }

  /** Whether the base permission holds: joined, with enough power. */
  predicate BasePermitted(membership: Membership, powerLevel: int, action: PermissionAction, powerLevels: PowerLevels)
  {
    membership == Join && powerLevel >= RequiredLevel(action, powerLevels)
  }

  /** `buildPermissionSnapshot(input)`; missing rule sets are `map[]`. */
  function BuildPermissionSnapshot(
    userId: string, membership: Membership, powerLevels: PowerLevels, roleSettings: RoleSettings,
    categoryRules: RuleSet, roomRules: RuleSet): Snapshot
  {
    var powerLevel := UserPowerLevel(powerLevels, userId);
    Snapshot(
      DeriveRole(membership, powerLevel, roleSettings),
      membership,
      powerLevel,
      map a | a in AllActions ::
        ApplyRule(BasePermitted(membership, powerLevel, a, powerLevels), ResolveRule(a, categoryRules, roomRules)))
  }

  /**
   * The snapshot has an entry for every action, and an action is permitted
   * exactly when the user has joined, their power level reaches the action's
   * level, and the resolved rule is not `deny`.
   */
  lemma {:induction false} BuildPermissionSnapshotSpec(
    userId: string, membership: Membership, powerLevels: PowerLevels, roleSettings: RoleSettings,
    categoryRules: RuleSet, roomRules: RuleSet)
    ensures var s := BuildPermissionSnapshot(userId, membership, powerLevels, roleSettings, categoryRules, roomRules);
      && s.powerLevel == UserPowerLevel(powerLevels, userId)
      && s.membership == membership
      && (forall a :: a in s.actions)
      && (forall a :: s.actions[a] <==>
            membership == Join && s.powerLevel >= RequiredLevel(a, powerLevels) && ResolveRule(a, categoryRules, roomRules) != Deny)
  {
    var s := BuildPermissionSnapshot(userId, membership, powerLevels, roleSettings, categoryRules, roomRules);
    forall a
      ensures a in s.actions
      ensures s.actions[a] <==>
        membership == Join && s.powerLevel >= RequiredLevel(a, powerLevels) && ResolveRule(a, categoryRules, roomRules) != Deny
    {
      AllActionsComplete(a);
      var base := BasePermitted(membership, s.powerLevel, a, powerLevels);
      assert s.actions[a] == ApplyRule(base, ResolveRule(a, categoryRules, roomRules));
    }
  }

  /** A user who has not joined may do nothing and is a guest. */
  lemma {:induction false} NotJoinedMayDoNothing(
    userId: string, membership: Membership, powerLevels: PowerLevels, roleSettings: RoleSettings,
    categoryRules: RuleSet, roomRules: RuleSet, a: PermissionAction)
    requires membership != Join
    ensures var s := BuildPermissionSnapshot(userId, membership, powerLevels, roleSettings, categoryRules, roomRules);
      a in s.actions && !s.actions[a] && s.role == Guest
  {
    AllActionsComplete(a);
  }

  /**
   * Rules only take permissions away: whatever the category and room rules
   * say, an action permitted with them is permitted without them.
   */
  lemma {:induction false} RulesOnlyRestrict(
    userId: string, membership: Membership, powerLevels: PowerLevels, roleSettings: RoleSettings,
    categoryRules: RuleSet, roomRules: RuleSet, a: PermissionAction)
    ensures var withRules := BuildPermissionSnapshot(userId, membership, powerLevels, roleSettings, categoryRules, roomRules);
      var plain := BuildPermissionSnapshot(userId, membership, powerLevels, roleSettings, map[], map[]);
      && a in withRules.actions && a in plain.actions
      && (withRules.actions[a] ==> plain.actions[a])
      && (!Decides(roomRules, a) && !Decides(categoryRules, a) ==> withRules.actions[a] == plain.actions[a])
  {
    AllActionsComplete(a);
  }

  /** `canRedactMessage(snapshot, messageAuthorId, currentUserId)`; a missing action reads as false. */
  function CanRedactMessage(snapshot: Snapshot, messageAuthorId: string, currentUserId: string): bool
  {
    if snapshot.membership != Join then false
    else if Redact in snapshot.actions && snapshot.actions[Redact] && (snapshot.role == Owner || snapshot.role == Moderator) then true
    else messageAuthorId == currentUserId
  }

  /**
   * Nobody who has not joined may redact; a joined user may always redact
   * their own messages; someone else's message needs an owner or moderator
   * holding the redact action.
   */
  lemma {:induction false} CanRedactMessageSpec(snapshot: Snapshot, messageAuthorId: string, currentUserId: string)
    ensures snapshot.membership != Join ==> !CanRedactMessage(snapshot, messageAuthorId, currentUserId)
    ensures snapshot.membership == Join && messageAuthorId == currentUserId ==> CanRedactMessage(snapshot, messageAuthorId, currentUserId)
    ensures messageAuthorId != currentUserId ==>
      (CanRedactMessage(snapshot, messageAuthorId, currentUserId) <==>
        snapshot.membership == Join && Redact in snapshot.actions && snapshot.actions[Redact] &&
        snapshot.role in {Owner, Moderator})
  {
  }

  /**
   * For a snapshot the service built, redacting another user's message needs
   * a power level at the redact level and at least the moderator or admin
   * level, and no `deny` rule on redaction.
   */
  lemma {:induction false} RedactOthersNeedsPower(
    userId: string, membership: Membership, powerLevels: PowerLevels, roleSettings: RoleSettings,
    categoryRules: RuleSet, roomRules: RuleSet, messageAuthorId: string)
    requires messageAuthorId != userId
    requires CanRedactMessage(
      BuildPermissionSnapshot(userId, membership, powerLevels, roleSettings, categoryRules, roomRules), messageAuthorId, userId)
    ensures var level := UserPowerLevel(powerLevels, userId);
      && membership == Join
      && level >= powerLevels.redact
      && (level >= roleSettings.moderatorLevel || level >= roleSettings.adminLevel)
      && ResolveRule(Redact, categoryRules, roomRules) != Deny
  {
    var s := BuildPermissionSnapshot(userId, membership, powerLevels, roleSettings, categoryRules, roomRules);
    assert s.actions[Redact];
  }

  /**
   * The owner, moderator, member and guest of a room whose power levels give
   * 100, 50 and 0 to the first three, 50 to pinning, redaction and state, and
   * 0 to messages, reactions and invites; with admin level 100 and moderator
   * level 50.
   */
  lemma {:induction false} RolesFromPowerLevelsExample(owner: string, moderator: string, member: string, guest: string)
    requires owner != moderator && owner != member && moderator != member
    ensures var levels := PowerLevels(map[owner := 100, moderator := 50, member := 0], 0,
                                      map[PinnedEventsEvent := 50, ReactionEvent := 0, MessageEvent := 0], 0, 50, 0, 50);
      var settings := RoleSettings(100, 50, 0, [], map[]);
      var o := BuildPermissionSnapshot(owner, Join, levels, settings, map[], map[]);
      var m := BuildPermissionSnapshot(member, Join, levels, settings, map[], map[]);
      var g := BuildPermissionSnapshot(guest, Leave, levels, settings, map[], map[]);
      var overridden := BuildPermissionSnapshot(moderator, Join, levels, settings, map[Send := Allow, Pin := Allow], map[Pin := Deny]);
      && o.role == Owner && (forall a :: a in o.actions && o.actions[a])
      && m.role == Member && m.actions[Send] && m.actions[React] && !m.actions[Pin] && !m.actions[Redact] && !m.actions[ManageChannels]
      && g.role == Guest && !g.actions[Send] && !g.actions[PermissionAction.Invite]
      && overridden.role == Moderator && overridden.actions[Send] && !overridden.actions[Pin]
  {
    var levels := PowerLevels(map[owner := 100, moderator := 50, member := 0], 0,
                              map[PinnedEventsEvent := 50, ReactionEvent := 0, MessageEvent := 0], 0, 50, 0, 50);
    var settings := RoleSettings(100, 50, 0, [], map[]);
    var o := BuildPermissionSnapshot(owner, Join, levels, settings, map[], map[]);
    forall a
      ensures a in o.actions && o.actions[a]
    {
      AllActionsComplete(a);
    }
  }
}
