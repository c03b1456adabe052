/**
 * The part of the session slice the other slices write: the signed-in user and
 * the member list. Signing in and the Matrix event subscriptions are not part
 * of this model.
 */
module SessionSlices {
  import opened Entities

  datatype SessionState = SessionState(me: User, users: seq<User>)

  class SessionSlice {
    var me: User
    var users: seq<User>

    function State(): SessionState
      reads this
    {
      SessionState(me, users)
    }

    constructor (initialMe: User, initialUsers: seq<User>)
      ensures State() == SessionState(initialMe, initialUsers)
    {
      me := initialMe;
      users := initialUsers;
    }

    /** Replaces both fields, as the store's `set` does. */
    method SetState(t: SessionState)
      modifies this
      ensures State() == t
    {
      me := t.me;
      users := t.users;
    }
  }
}
