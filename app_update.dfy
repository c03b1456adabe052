/**
 * The refresh shortcut and the desktop refresh path of
 * src/services/appUpdateService.ts. The Tauri updater calls (`isTauri`,
 * `check`, `downloadAndInstall`, `relaunch`) are oracles: their outcomes are
 * parameters, and `reload` and `notify` are recorded as effects.
 */
module AppUpdate {
  import opened Wrappers
  import opened Text

  /** The modifier and key fields of a keyboard event. */
  datatype ShortcutEvent = ShortcutEvent(metaKey: bool, ctrlKey: bool, shiftKey: bool, altKey: bool, key: string)

  /** `isRefreshShortcut`. */
  predicate IsRefreshShortcut(e: ShortcutEvent)
  {
    (e.metaKey || e.ctrlKey) && !e.shiftKey && !e.altKey && Lower(e.key) == "r"
  }

  /** `toLowerCase() === "r"` holds for exactly `"r"` and `"R"`. */
  lemma {:induction false} LowerIsR(key: string)
    ensures Lower(key) == "r" <==> key == "r" || key == "R"
  {
    LowerSpec(key);
    if Lower(key) == "r" {
      assert |key| == 1;
      assert LowerChar(key[0]) == 'r';
      assert key == [key[0]];
    }
  }

  /**
   * The shortcut needs Meta or Ctrl, neither Shift nor Alt, and the key `r` in
   * either case.
   */
  lemma {:induction false} RefreshShortcutSpec(e: ShortcutEvent)
    ensures IsRefreshShortcut(e) <==>
      (e.metaKey || e.ctrlKey) && !e.shiftKey && !e.altKey && (e.key == "r" || e.key == "R")
  {
    LowerIsR(e.key);
  }

  /** What an awaited updater call did: finished, or threw (with the message of an `Error`, `None` otherwise). */
  datatype Step = Done | Threw(message: Option<string>)

  /** What `check()` produced. */
  datatype CheckResult = CheckThrew(message: Option<string>) | NoUpdate | UpdateFound(version: string)

  datatype Refreshed = Updated | Reloaded

  /** A `notify(title, body)` call. */
  datatype Notice = Notice(title: string, body: string)

  /** The observable effects of one refresh: the result, the `reload()` calls and the notices. */
  datatype RefreshRun = RefreshRun(result: Refreshed, reloads: nat, notices: seq<Notice>)

  const UnknownUpdaterError := "Unknown updater error"
  const CheckFailedTitle := "Update check failed"

  /** The notice of the `catch` block. */
  function FailureNotice(message: Option<string>): Notice
  {
    Notice(CheckFailedTitle, message.GetOr(UnknownUpdaterError) + ". Refreshing app instead.")
  }

  /** The notices that are only sent when `notify` was given. */
  function IfNotify(hasNotify: bool, ns: seq<Notice>): seq<Notice>
  {
    if hasNotify then ns else []
  }

  /** `refreshWithDesktopUpdate`, as a decision tree over the updater outcomes. */
  function RefreshWithDesktopUpdate(isTauri: bool, check: CheckResult, install: Step, relaunch: Step,
                                    hasNotify: bool): RefreshRun
  {
    if !isTauri then RefreshRun(Reloaded, 1, [])
    else match check
      case CheckThrew(message) => RefreshRun(Reloaded, 1, IfNotify(hasNotify, [FailureNotice(message)]))
      case NoUpdate => RefreshRun(Reloaded, 1, [])
      case UpdateFound(version) =>
        var installing := Notice("Installing update", "Downloading Fray " + version + "...");
        if install.Threw? then
          RefreshRun(Reloaded, 1, IfNotify(hasNotify, [installing, FailureNotice(install.message)]))
        else
          var installed := Notice("Update installed", "Restarting Fray...");
          if relaunch.Threw? then
            RefreshRun(Reloaded, 1, IfNotify(hasNotify, [installing, installed, FailureNotice(relaunch.message)]))
          else RefreshRun(Updated, 0, IfNotify(hasNotify, [installing, installed]))
  }

  /**
   * The refresh reports `"updated"` only under Tauri with an update whose install
   * and relaunch both finished; on every other path it reloads exactly once and
   * reports `"reloaded"`. A failure is reported last, and without `notify`
   * nothing is reported.
   */
  lemma {:induction false} RefreshSpec(isTauri: bool, check: CheckResult, install: Step, relaunch: Step, hasNotify: bool)
    ensures var run := RefreshWithDesktopUpdate(isTauri, check, install, relaunch, hasNotify);
      (run.result == Updated <==> isTauri && check.UpdateFound? && install.Done? && relaunch.Done?) &&
      (run.result == Updated ==> run.reloads == 0) &&
      (run.result == Reloaded ==> run.reloads == 1) &&
      (!hasNotify ==> run.notices == []) &&
      (run.notices != [] && run.result == Reloaded ==> run.notices[|run.notices| - 1].title == CheckFailedTitle)
  {
  }

  /** The refresh path with the oracles' answers, recording the effects it performs. */
  method Refresh(isTauri: bool, check: CheckResult, install: Step, relaunch: Step, hasNotify: bool)
    returns (result: Refreshed, reloads: nat, notices: seq<Notice>)
    ensures RefreshRun(result, reloads, notices) == RefreshWithDesktopUpdate(isTauri, check, install, relaunch, hasNotify)
    ensures result == Updated <==> isTauri && check.UpdateFound? && install.Done? && relaunch.Done?
    ensures reloads == (if result == Reloaded then 1 else 0)
  {
    RefreshSpec(isTauri, check, install, relaunch, hasNotify);
    reloads := 0;
    notices := [];
    if !isTauri {
      reloads := reloads + 1;
      return Reloaded, reloads, notices;
    }
    var failure: Option<Option<string>> := None;
    match check {
      case CheckThrew(message) =>
        failure := Some(message);
      case NoUpdate =>
        reloads := reloads + 1;
        return Reloaded, reloads, notices;
      case UpdateFound(version) =>
        notices := notices + IfNotify(hasNotify, [Notice("Installing update", "Downloading Fray " + version + "...")]);
        if install.Threw? {
          failure := Some(install.message);
        } else {
          notices := notices + IfNotify(hasNotify, [Notice("Update installed", "Restarting Fray...")]);
          if relaunch.Threw? {
            failure := Some(relaunch.message);
          } else {
            return Updated, reloads, notices;
          }
        }
    }
    notices := notices + IfNotify(hasNotify, [FailureNotice(failure.value)]);
    reloads := reloads + 1;
    result := Reloaded;
  }
}
