/**
 * The admin slice of the store: each space's server settings, permission
 * overrides and moderation audit log, with `saveServerSettings`,
 * `setCategoryPermissionRule` and `setRoomPermissionRule`.
 *
 * Each action works on the current space's state host room. When a Matrix
 * client is connected the new value is first sent as a state event; a
 * rejected send pushes a notification and changes nothing else.
 */
module AdminSlices {
  import opened Wrappers
  import opened Entities
  import Json
  import opened PermissionActions
  import opened PermissionOverrides
  import opened ServerConfig
  import opened ApplyLayout
  import opened RoomsSlices
  import opened SessionSlices
  import opened UiSlices

  /** The moderation audit log keeps this many events, newest first. */
  const AuditLimit: nat := 250

  const FailedToSaveServerSettings: string := "Failed to save server settings"
  const FailedToUpdateCategoryPermissions: string := "Failed to update category permissions"
  const FailedToUpdateRoomPermissions: string := "Failed to update room permissions"
  const CategoryRuleAuditAction: string := "permission.category.update"
  const RoomRuleAuditAction: string := "permission.room.update"

  /** Whether a rule change is about a category or a room. */
  datatype Scope = CategoryScope | RoomScope

  /** `events.slice(0, 250)`. */
  function CappedAudit(events: seq<AuditEvent>): (r: seq<AuditEvent>)
    ensures |r| == if |events| < AuditLimit then |events| else AuditLimit
    ensures r == events[..|r|]
  {
    if |events| <= AuditLimit then events else events[..AuditLimit]
  }

  /** The audit target of a rule change: `${id}:${action}:${rule}`. */
  function RuleTarget(id: string, action: PermissionAction, rule: Rule): string
  {
    id + ":" + ActionName(action) + ":" + RuleName(rule)
  }

  /** The host room of a space's state events, when there is a non-empty one. */
  function SpaceHost(rooms: RoomsState, spaceId: string): (r: Option<string>)
    ensures r.Some? ==> spaceId != [] && r.value != []
  {
    if spaceId == [] then None
    else
      var host := ResolveSpaceStateHostRoomId(rooms.currentRoomId, rooms.rooms, rooms.spaceStateHostRoomIdBySpaceId, spaceId);
      if Truthy(host) then host else None
  }

  /** `normalizePermissionOverrides(state.permissionOverridesBySpaceId[spaceId] ?? null)`. */
  function StoredOverrides(stored: map<string, Overrides>, spaceId: string): Overrides
  {
    NormalizePermissionOverrides(if spaceId in stored then EncodeOverrides(stored[spaceId]) else Json.Null)
  }

  /**
   * What the actions start from is well formed: the defaults for a space
   * without overrides, and the stored overrides themselves when they are well
   * formed.
   */
  lemma {:induction false} StoredOverridesSpec(stored: map<string, Overrides>, spaceId: string)
    ensures WellFormed(StoredOverrides(stored, spaceId))
    ensures spaceId !in stored ==> StoredOverrides(stored, spaceId) == DefaultOverrides
    ensures spaceId in stored && WellFormed(stored[spaceId]) ==> StoredOverrides(stored, spaceId) == stored[spaceId]
  {
    NormalizePermissionOverridesSpec(if spaceId in stored then EncodeOverrides(stored[spaceId]) else Json.Null);
    if spaceId in stored && WellFormed(stored[spaceId]) {
      OverridesRoundTrip(stored[spaceId]);
    }
  }

  function WithScopedRule(o: Overrides, scope: Scope, id: string, action: PermissionAction, rule: Rule): Overrides
  {
    match scope
    case CategoryScope => WithCategoryRule(o, id, action, rule)
    case RoomScope => WithRoomRule(o, id, action, rule)
  }

  function AuditAction(scope: Scope): string
  {
    match scope
    case CategoryScope => CategoryRuleAuditAction
    case RoomScope => RoomRuleAuditAction
  }

  function FailureTitle(scope: Scope): string
  {
    match scope
    case CategoryScope => FailedToUpdateCategoryPermissions
    case RoomScope => FailedToUpdateRoomPermissions
  }

  /** `users.find((user) => user.id === id)`. */
  function FindUser(users: seq<User>, id: string): (r: Option<User>)
    ensures r.Some? ==> r.value in users && r.value.id == id
    ensures r.None? ==> forall u :: u in users ==> u.id != id
  {
    if users == [] then None
    else if users[0].id == id then Some(users[0])
    else FindUser(users[1..], id)
  }

  /** The members after saving settings: roles re-applied for the current space, and `me` taken from the list. */
  function SessionAfterSave(s: SessionState, settings: ServerSettings, applyRoles: bool): SessionState
  {
    var users := if applyRoles then WithAppliedServerRoles(s.users, settings) else s.users;
    SessionState(FindUser(users, s.me.id).GetOr(s.me), users)
  }

  /**
   * Saving the same settings twice gives what saving once gives: no role name
   * is added twice and `me` stays the same user.
   */
  lemma {:induction false} SessionAfterSaveIdempotent(s: SessionState, settings: ServerSettings, applyRoles: bool)
    ensures var once := SessionAfterSave(s, settings, applyRoles);
      SessionAfterSave(once, settings, applyRoles) == once
  {
    var once := SessionAfterSave(s, settings, applyRoles);
    if applyRoles {
      WithAppliedServerRolesIdempotent(s.users, settings);
    }
    assert once.me.id == s.me.id;
  }

  /** The fields of the admin slice, as one value. */
  datatype AdminState = AdminState(
    serverSettingsBySpaceId: map<string, ServerSettings>,
    permissionOverridesBySpaceId: map<string, Overrides>,
    moderationAuditBySpaceId: map<string, seq<AuditEvent>>)

  /** Every known space starts with the default settings, no overrides and an empty audit log. */
  function InitialAdminState(spaceIds: set<string>): AdminState
  {
    AdminState(
      map id | id in spaceIds :: DefaultServerSettings,
      map id | id in spaceIds :: DefaultOverrides,
      map id | id in spaceIds :: [])
  }

  /** Stored overrides are well formed and audit logs are capped. */
  predicate Valid(s: AdminState)
  {
    && (forall id :: id in s.permissionOverridesBySpaceId ==> WellFormed(s.permissionOverridesBySpaceId[id]))
    && (forall id :: id in s.moderationAuditBySpaceId ==> |s.moderationAuditBySpaceId[id]| <= AuditLimit)
  }

  lemma {:induction false} InitialAdminStateValid(spaceIds: set<string>)
    ensures Valid(InitialAdminState(spaceIds))
  {
  }

  /** The audit log of a space, empty when it has none. */
  function AuditOf(s: AdminState, spaceId: string): seq<AuditEvent>
  {
    if spaceId in s.moderationAuditBySpaceId then s.moderationAuditBySpaceId[spaceId] else []
  }

  /** The admin state after a rule change went through. */
  function RuleChanged(s: AdminState, spaceId: string, scope: Scope, id: string, action: PermissionAction, rule: Rule, entry: AuditEvent): AdminState
  {
    var next := WithScopedRule(StoredOverrides(s.permissionOverridesBySpaceId, spaceId), scope, id, action, rule);
    s.(permissionOverridesBySpaceId := s.permissionOverridesBySpaceId[spaceId := next],
       moderationAuditBySpaceId := s.moderationAuditBySpaceId[spaceId := CappedAudit([entry] + AuditOf(s, spaceId))])
  }

  /**
   * A rule change stores well-formed overrides in which the rule is set (or,
   * for `inherit`, gone), and leaves the overrides of every other space and
   * all server settings as they were.
   */
  lemma {:induction false} RuleChangedOverrides(s: AdminState, spaceId: string, scope: Scope, id: string, action: PermissionAction, rule: Rule, entry: AuditEvent)
    ensures var r := RuleChanged(s, spaceId, scope, id, action, rule, entry);
      var o := r.permissionOverridesBySpaceId[spaceId];
      var entries := if scope.CategoryScope? then o.categories else o.rooms;
      && WellFormed(o)
      && (rule != Inherit ==> id in entries && entries[id][action] == rule)
      && (rule == Inherit ==> id !in entries || action !in entries[id])
      && r.serverSettingsBySpaceId == s.serverSettingsBySpaceId
      && (forall k :: k != spaceId ==>
            (k in r.permissionOverridesBySpaceId <==> k in s.permissionOverridesBySpaceId) &&
            (k in s.permissionOverridesBySpaceId ==> r.permissionOverridesBySpaceId[k] == s.permissionOverridesBySpaceId[k]))
  {
    var base := StoredOverrides(s.permissionOverridesBySpaceId, spaceId);
    StoredOverridesSpec(s.permissionOverridesBySpaceId, spaceId);
    match scope
    case CategoryScope => WithCategoryRuleSpec(base, id, action, rule);
    case RoomScope => WithRoomRuleSpec(base, id, action, rule);
  }

  /**
   * A rule change prepends exactly one audit entry to the space's log, keeps
   * the previous entries in order, keeps at most 250, and leaves the logs of
   * other spaces alone.
   */
  lemma {:induction false} RuleChangedAudit(s: AdminState, spaceId: string, scope: Scope, id: string, action: PermissionAction, rule: Rule, entry: AuditEvent)
    ensures var r := RuleChanged(s, spaceId, scope, id, action, rule, entry);
      var audit := r.moderationAuditBySpaceId[spaceId];
      && 1 <= |audit| <= AuditLimit && audit[0] == entry
      && audit[1..] == AuditOf(s, spaceId)[..|audit| - 1]
      && (forall k :: k != spaceId ==> AuditOf(r, k) == AuditOf(s, k))
  {
    var full := [entry] + AuditOf(s, spaceId);
    var audit := CappedAudit(full);
    assert audit[1..] == full[1..|audit|];
  }

  /** A rule change keeps the slice valid. */
  lemma {:induction false} RuleChangedValid(s: AdminState, spaceId: string, scope: Scope, id: string, action: PermissionAction, rule: Rule, entry: AuditEvent)
    requires Valid(s)
    ensures Valid(RuleChanged(s, spaceId, scope, id, action, rule, entry))
  {
    RuleChangedOverrides(s, spaceId, scope, id, action, rule, entry);
    RuleChangedAudit(s, spaceId, scope, id, action, rule, entry);
  }

  /** Writing the same action twice keeps the later rule. */
  lemma {:induction false} WithRuleTwice(rules: RuleSet, action: PermissionAction, first: Rule, second: Rule)
    ensures WithRule(WithRule(rules, action, first), action, second) == WithRule(rules, action, second)
  {
    var twice := WithRule(WithRule(rules, action, first), action, second);
    var once := WithRule(rules, action, second);
    assert forall a :: a in twice <==> a in once;
  }

  /** Storing under the same id twice keeps the later rule set. */
  lemma {:induction false} WithEntryTwice(entries: map<string, RuleSet>, id: string, first: RuleSet, second: RuleSet)
    ensures WithEntry(WithEntry(entries, id, first), id, second) == WithEntry(entries, id, second)
  {
    var twice := WithEntry(WithEntry(entries, id, first), id, second);
    var once := WithEntry(entries, id, second);
    assert forall k :: k in twice <==> k in once;
  }

  /** The rule of one id and action written twice in a map of rule sets: the later one wins. */
  lemma {:induction false} EntryRuleTwice(entries: map<string, RuleSet>, id: string, action: PermissionAction, first: Rule, second: Rule)
    ensures var current := if id in entries then entries[id] else map[];
      var mid := WithEntry(entries, id, WithRule(current, action, first));
      var now := if id in mid then mid[id] else map[];
      WithEntry(mid, id, WithRule(now, action, second)) == WithEntry(entries, id, WithRule(current, action, second))
  {
    var current := if id in entries then entries[id] else map[];
    var once := WithRule(current, action, first);
    var mid := WithEntry(entries, id, once);
    var now := if id in mid then mid[id] else map[];
    assert now == once;
    WithRuleTwice(current, action, first, second);
    WithEntryTwice(entries, id, once, WithRule(once, action, second));
  }

  /** Writing a rule after another on the same action is writing it alone. */
  lemma {:induction false} LaterRuleWinsOn(o: Overrides, scope: Scope, id: string, action: PermissionAction, first: Rule, second: Rule)
    ensures WithScopedRule(WithScopedRule(o, scope, id, action, first), scope, id, action, second)
      == WithScopedRule(o, scope, id, action, second)
  {
    match scope
    case CategoryScope =>
      EntryRuleTwice(o.categories, id, action, first, second);
    case RoomScope =>
      EntryRuleTwice(o.rooms, id, action, first, second);
  }

  /**
   * Two changes to the same action in a row: for the stored overrides, the
   * later one wins as if the earlier one had not happened.
   */
  lemma {:induction false} LaterRuleWins(s: AdminState, spaceId: string, scope: Scope, id: string, action: PermissionAction, first: Rule, second: Rule, e1: AuditEvent, e2: AuditEvent)
    ensures RuleChanged(RuleChanged(s, spaceId, scope, id, action, first, e1), spaceId, scope, id, action, second, e2).permissionOverridesBySpaceId
      == RuleChanged(s, spaceId, scope, id, action, second, e2).permissionOverridesBySpaceId
  {
    var base := StoredOverrides(s.permissionOverridesBySpaceId, spaceId);
    var s1 := RuleChanged(s, spaceId, scope, id, action, first, e1);
    var mid := WithScopedRule(base, scope, id, action, first);
    RuleChangedOverrides(s, spaceId, scope, id, action, first, e1);
    StoredOverridesSpec(s1.permissionOverridesBySpaceId, spaceId);
    assert StoredOverrides(s1.permissionOverridesBySpaceId, spaceId) == mid;
    LaterRuleWinsOn(base, scope, id, action, first, second);
  }

  class AdminSlice {
    var serverSettingsBySpaceId: map<string, ServerSettings>
    var permissionOverridesBySpaceId: map<string, Overrides>
    var moderationAuditBySpaceId: map<string, seq<AuditEvent>>

    function State(): AdminState
      reads this
    {
      AdminState(serverSettingsBySpaceId, permissionOverridesBySpaceId, moderationAuditBySpaceId)
    }

    /** The slice for the given spaces, each with the defaults. */
    constructor (spaceIds: set<string>)
      ensures State() == InitialAdminState(spaceIds)
    {
      var initial := InitialAdminState(spaceIds);
      serverSettingsBySpaceId := initial.serverSettingsBySpaceId;
      permissionOverridesBySpaceId := initial.permissionOverridesBySpaceId;
      moderationAuditBySpaceId := initial.moderationAuditBySpaceId;
    }

    method SetState(t: AdminState)
      modifies this
      ensures State() == t
    {
      serverSettingsBySpaceId := t.serverSettingsBySpaceId;
      permissionOverridesBySpaceId := t.permissionOverridesBySpaceId;
      moderationAuditBySpaceId := t.moderationAuditBySpaceId;
    }

    /**
     * `saveServerSettings(spaceId, settings)`: nothing without a space or a
     * host room; a notification when sending fails; otherwise the normalised
     * settings are stored, the host room remembered, and the custom roles
     * re-applied to the members when the space is the current one.
     * `freshId(i)` is the id a role read from the `i`-th object item gets when
     * it has none.
     */
    method SaveServerSettings(spaceId: string, settings: Json.Value, freshId: nat -> string, sync: Sync, stamp: Stamp,
                              rooms: RoomsSlice, session: SessionSlice, ui: UiSlice)
      modifies this, rooms, session, ui
      ensures var host := SpaceHost(old(rooms.State()), spaceId);
        var normalized := NormalizeServerSettings(settings, freshId);
        if host.None? || sync.SendFailed? then
          && State() == old(State()) && rooms.State() == old(rooms.State()) && session.State() == old(session.State())
          && ui.notifications == (if host.Some? then [Note(FailedToSaveServerSettings, sync.message, stamp)] else []) + old(ui.notifications)
        else
          && State() == old(State()).(serverSettingsBySpaceId := old(serverSettingsBySpaceId)[spaceId := normalized])
          && rooms.State() == old(rooms.State()).(spaceStateHostRoomIdBySpaceId := old(rooms.spaceStateHostRoomIdBySpaceId)[spaceId := host.value])
          && session.State() == SessionAfterSave(old(session.State()), normalized, old(rooms.currentSpaceId) == spaceId)
          && ui.notifications == old(ui.notifications)
      ensures ui.Flags() == old(ui.Flags())
    {
      var host := SpaceHost(rooms.State(), spaceId);
      if host.None? {
        return;
      }
      if sync.SendFailed? {
        ui.PushNotification(FailedToSaveServerSettings, sync.message, stamp.id, stamp.timestamp);
        return;
      }
      var normalized := NormalizeServerSettings(settings, freshId);
      var nextSession := SessionAfterSave(session.State(), normalized, rooms.currentSpaceId == spaceId);
      var roomsState := rooms.State();
      session.SetState(nextSession);
      rooms.SetState(roomsState.(spaceStateHostRoomIdBySpaceId := roomsState.spaceStateHostRoomIdBySpaceId[spaceId := host.value]));
      serverSettingsBySpaceId := serverSettingsBySpaceId[spaceId := normalized];
    }

    /**
     * The shared body of the two rule setters: nothing without a current space
     * or host room; a notification when sending the overrides fails;
     * otherwise the rule is written and an audit entry by the signed-in user
     * prepended. `auditId` and `now` are the entry's `uid("audit")` and
     * `Date.now()`.
     */
    method SetPermissionRule(scope: Scope, id: string, action: PermissionAction, rule: Rule, sync: Sync, stamp: Stamp,
                             auditId: string, now: int, rooms: RoomsSlice, session: SessionSlice, ui: UiSlice)
      modifies this, ui
      ensures var spaceId := rooms.currentSpaceId;
        var host := SpaceHost(rooms.State(), spaceId);
        var entry := AuditEvent(auditId, AuditAction(scope), session.me.id, RuleTarget(id, action, rule), now, None);
        if host.None? || sync.SendFailed? then
          && State() == old(State())
          && ui.notifications == (if host.Some? then [Note(FailureTitle(scope), sync.message, stamp)] else []) + old(ui.notifications)
        else
          && State() == RuleChanged(old(State()), spaceId, scope, id, action, rule, entry)
          && ui.notifications == old(ui.notifications)
      ensures ui.Flags() == old(ui.Flags())
    {
      var spaceId := rooms.currentSpaceId;
      var host := SpaceHost(rooms.State(), spaceId);
      if host.None? {
        return;
      }
      if sync.SendFailed? {
        ui.PushNotification(FailureTitle(scope), sync.message, stamp.id, stamp.timestamp);
        return;
      }
      var entry := AuditEvent(auditId, AuditAction(scope), session.me.id, RuleTarget(id, action, rule), now, None);
      SetState(RuleChanged(State(), spaceId, scope, id, action, rule, entry));
    }

    /** `setCategoryPermissionRule(categoryId, action, rule)`. */
    method SetCategoryPermissionRule(categoryId: string, action: PermissionAction, rule: Rule, sync: Sync, stamp: Stamp,
                                     auditId: string, now: int, rooms: RoomsSlice, session: SessionSlice, ui: UiSlice)
      modifies this, ui
      ensures var host := SpaceHost(rooms.State(), rooms.currentSpaceId);
        var entry := AuditEvent(auditId, CategoryRuleAuditAction, session.me.id, RuleTarget(categoryId, action, rule), now, None);
        if host.None? || sync.SendFailed? then
          && State() == old(State())
          && ui.notifications == (if host.Some? then [Note(FailedToUpdateCategoryPermissions, sync.message, stamp)] else []) + old(ui.notifications)
        else
          && State() == RuleChanged(old(State()), rooms.currentSpaceId, CategoryScope, categoryId, action, rule, entry)
          && ui.notifications == old(ui.notifications)
      ensures ui.Flags() == old(ui.Flags())
    {
      SetPermissionRule(CategoryScope, categoryId, action, rule, sync, stamp, auditId, now, rooms, session, ui);
    }

    /** `setRoomPermissionRule(roomId, action, rule)`. */
    method SetRoomPermissionRule(roomId: string, action: PermissionAction, rule: Rule, sync: Sync, stamp: Stamp,
                                 auditId: string, now: int, rooms: RoomsSlice, session: SessionSlice, ui: UiSlice)
      modifies this, ui
      ensures var host := SpaceHost(rooms.State(), rooms.currentSpaceId);
        var entry := AuditEvent(auditId, RoomRuleAuditAction, session.me.id, RuleTarget(roomId, action, rule), now, None);
        if host.None? || sync.SendFailed? then
          && State() == old(State())
          && ui.notifications == (if host.Some? then [Note(FailedToUpdateRoomPermissions, sync.message, stamp)] else []) + old(ui.notifications)
        else
          && State() == RuleChanged(old(State()), rooms.currentSpaceId, RoomScope, roomId, action, rule, entry)
          && ui.notifications == old(ui.notifications)
      ensures ui.Flags() == old(ui.Flags())
    {
      SetPermissionRule(RoomScope, roomId, action, rule, sync, stamp, auditId, now, rooms, session, ui);
    }
  }
}
