/**
 * The six actions a space's permission rules speak about, and the rules
 * (`inherit`, `allow`, `deny`) a category or room can set for each.
 */
module PermissionActions {
  datatype PermissionAction = Send | React | Pin | Redact | Invite | ManageChannels

  /** `PERMISSION_ACTIONS`. */
  const AllActions: set<PermissionAction> := {Send, React, Pin, Redact, Invite, ManageChannels}

  /** Every action is one of the six. */
  lemma {:induction false} AllActionsComplete(a: PermissionAction)
    ensures a in AllActions
  {
  }

  /** The key of the action in a rule set or a role's permission map. */
  function ActionName(a: PermissionAction): string
  {
    match a
    case Send => "send"
    case React => "react"
    case Pin => "pin"
    case Redact => "redact"
    case Invite => "invite"
    case ManageChannels => "manageChannels"
  }

  /** Different actions have different keys. */
  lemma {:induction false} ActionNameInjective(a: PermissionAction, b: PermissionAction)
    requires ActionName(a) == ActionName(b)
    ensures a == b
  {
    assert "send"[0] == 's' && "react"[0] == 'r' && "pin"[0] == 'p' && "redact"[0] == 'r';
    assert "invite"[0] == 'i' && "manageChannels"[0] == 'm' && "react"[2] != "redact"[2];
  }

  datatype Rule = Inherit | Allow | Deny

  /** The JSON spelling of a rule. */
  function RuleName(r: Rule): string
  {
    match r
    case Inherit => "inherit"
    case Allow => "allow"
    case Deny => "deny"
  }

  /** `PermissionRuleSet`: the rules a category or a room sets, by action. */
  type RuleSet = map<PermissionAction, Rule>
}
