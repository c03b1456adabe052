/**
 * The UI slice of the store: member list and server settings visibility, the
 * search query, the online flag and the notification tray.
 */
module UiSlices {
  import opened Wrappers
  import opened Entities

  /** The tab `openServerSettings` falls back to. */
  const OverviewTab: string := "overview"

  /** Everything in the UI slice except the notification tray. */
  datatype UiFlags = UiFlags(
    showMembers: bool,
    showServerSettings: bool,
    serverSettingsTab: string,
    searchQuery: string,
    isOnline: bool)

  /** `notifications.filter((notification) => notification.id !== id)`. */
  function Dismissed(ns: seq<Notification>, id: string): (r: seq<Notification>)
    ensures |r| <= |ns|
  {
    if ns == [] then []
    else if ns[0].id == id then Dismissed(ns[1..], id)
    else [ns[0]] + Dismissed(ns[1..], id)
  }

  /** Dismissing keeps exactly the notifications with another id. */
  lemma {:induction false} DismissedMembers(ns: seq<Notification>, id: string)
    ensures forall x :: x in Dismissed(ns, id) <==> x in ns && x.id != id
  {
    if ns != [] {
      DismissedMembers(ns[1..], id);
      assert forall x :: x in ns <==> x == ns[0] || x in ns[1..];
    }
  }

  /** Dismissing works piece by piece, so the kept notifications stay in their order. */
  lemma {:induction false} DismissedConcat(a: seq<Notification>, b: seq<Notification>, id: string)
    ensures Dismissed(a + b, id) == Dismissed(a, id) + Dismissed(b, id)
  {
    if a == [] {
      assert a + b == b;
    } else {
      assert (a + b)[0] == a[0] && (a + b)[1..] == a[1..] + b;
      DismissedConcat(a[1..], b, id);
      if a[0].id == id {
        assert Dismissed(a + b, id) == Dismissed(a[1..] + b, id);
        assert Dismissed(a, id) == Dismissed(a[1..], id);
      } else {
        assert Dismissed(a + b, id) == [a[0]] + Dismissed(a[1..] + b, id);
        assert Dismissed(a, id) == [a[0]] + Dismissed(a[1..], id);
        assert [a[0]] + (Dismissed(a[1..], id) + Dismissed(b, id)) == ([a[0]] + Dismissed(a[1..], id)) + Dismissed(b, id);
      }
    }
  }

  /** Dismissing an id no notification has changes nothing, and dismissing twice is dismissing once. */
  lemma {:induction false} DismissedAbsent(ns: seq<Notification>, id: string)
    requires forall i :: 0 <= i < |ns| ==> ns[i].id != id
    ensures Dismissed(ns, id) == ns
  {
    if ns != [] {
      DismissedAbsent(ns[1..], id);
    }
  }

  lemma {:induction false} DismissedIdempotent(ns: seq<Notification>, id: string)
    ensures Dismissed(Dismissed(ns, id), id) == Dismissed(ns, id)
  {
    var r := Dismissed(ns, id);
    DismissedMembers(ns, id);
    forall i | 0 <= i < |r|
      ensures r[i].id != id
    {
      assert r[i] in r;
    }
    DismissedAbsent(r, id);
  }

  /** The value after `n` calls of `toggleMembers`. */
  function Toggled(b: bool, n: nat): bool
  {
    if n == 0 then b else !Toggled(b, n - 1)
  }

  /** An even number of toggles restores the value, an odd number negates it. */
  lemma {:induction false} ToggledParity(b: bool, n: nat)
    ensures Toggled(b, n) == (if n % 2 == 0 then b else !b)
  {
    if n > 0 {
      ToggledParity(b, n - 1);
    }
  }

  class UiSlice {
    var showMembers: bool
    var showServerSettings: bool
    var serverSettingsTab: string
    var searchQuery: string
    var isOnline: bool
    /** Newest first. */
    var notifications: seq<Notification>

    function Flags(): UiFlags
      reads this
    {
      UiFlags(showMembers, showServerSettings, serverSettingsTab, searchQuery, isOnline)
    }

    /** The initial UI state: members shown, settings closed on the overview tab, online, no notifications. */
    constructor ()
      ensures Flags() == UiFlags(true, false, OverviewTab, "", true)
      ensures notifications == []
    {
      showMembers := true;
      showServerSettings := false;
      serverSettingsTab := OverviewTab;
      searchQuery := "";
      isOnline := true;
      notifications := [];
    }

    method ToggleMembers()
      modifies this
      ensures Flags() == old(Flags()).(showMembers := !old(showMembers))
      ensures notifications == old(notifications)
    {
      showMembers := !showMembers;
    }

    /** `openServerSettings(tab = "overview")`. */
    method OpenServerSettings(tab: Option<string>)
      modifies this
      ensures Flags() == old(Flags()).(showServerSettings := true, serverSettingsTab := tab.GetOr(OverviewTab))
      ensures notifications == old(notifications)
    {
      showServerSettings := true;
      serverSettingsTab := tab.GetOr(OverviewTab);
    }

    /** Closing keeps the selected tab. */
    method CloseServerSettings()
      modifies this
      ensures Flags() == old(Flags()).(showServerSettings := false)
      ensures notifications == old(notifications)
    {
      showServerSettings := false;
    }

    method SetServerSettingsTab(tab: string)
      modifies this
      ensures Flags() == old(Flags()).(serverSettingsTab := tab)
      ensures notifications == old(notifications)
    {
      serverSettingsTab := tab;
    }

    method SetSearchQuery(value: string)
      modifies this
      ensures Flags() == old(Flags()).(searchQuery := value)
      ensures notifications == old(notifications)
    {
      searchQuery := value;
    }

    method SetOnline(value: bool)
      modifies this
      ensures Flags() == old(Flags()).(isOnline := value)
      ensures notifications == old(notifications)
    {
      isOnline := value;
    }

    /** Removes every notification with the id and keeps the others in order. */
    method DismissNotification(id: string)
      modifies this
      ensures notifications == Dismissed(old(notifications), id)
      ensures Flags() == old(Flags())
    {
      notifications := Dismissed(notifications, id);
    }

    /**
     * `pushNotification(title, body)`: the new notification goes in front. Its
     * id (`uid("n")`) and timestamp (`Date.now()`) are given by the caller. The
     * optional `options.action` button is not modelled: no modelled caller passes one.
     */
    method PushNotification(title: string, body: string, id: string, timestamp: int)
      modifies this
      ensures notifications == [Notification(id, title, body, timestamp)] + old(notifications)
      ensures Flags() == old(Flags())
    {
      notifications := [Notification(id, title, body, timestamp)] + notifications;
    }
  }
}
