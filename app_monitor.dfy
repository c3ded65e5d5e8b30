/**
 * The application whitelist gate (src/core/app_monitor.py): which foreground
 * application may receive expansions, and the deduplicated list of running
 * applications offered when editing the whitelist. The platform lookups
 * (win32gui, psutil, AppKit) are not modelled; their outcome is a `Probe`.
 */
module AppGate {
  import opened Wrappers
  import opened Text
  import opened Seqs

  /** `{'process_name': ..., 'window_title': ...}` */
  datatype AppInfo = AppInfo(processName: string, windowTitle: string)

  /** A whitelist entry: either key may be missing (`None`) or empty. */
  datatype WhitelistEntry = WhitelistEntry(processName: Option<string>, windowTitle: Option<string>)

  /** What the platform lookup of the foreground window produced. */
  datatype Probe =
    | NoBackend                                        // not Windows/macOS, or its modules are missing
    | LookupFailed                                     // the platform call raised
    | Found(processName: string, windowTitle: string)  // raw process name and title

  /** The sentinel returned when nothing better is known. */
  const Unknown := AppInfo("unknown", "unknown")

  /**
   * `get_active_app_info`: the sentinel when no backend is available or the
   * lookup fails; otherwise the lower-cased process name ("unknown" when it
   * is empty) and the title as found.
   */
  function ActiveAppInfo(probe: Probe): (info: AppInfo)
    ensures !probe.Found? ==> info == Unknown
    ensures probe.Found? ==> info.windowTitle == probe.windowTitle
    ensures probe.Found? && probe.processName != "" ==> info.processName == Lower(probe.processName)
    ensures probe.Found? && probe.processName == "" ==> info.processName == "unknown"
    ensures Lower(info.processName) == info.processName
  {
    match probe
    case Found(name, title) => AppInfo(if name != "" then Lower(name) else "unknown", title)
    case _ => Unknown
  }

  /**
   * The process-name check: the lower-cased entry name and the app's process
   * name (not lower-cased again here) contain one another, in either direction.
   */
  predicate ProcessMatches(entry: WhitelistEntry, app: AppInfo) {
    Truthy(entry.processName) ==>
      var name := Lower(entry.processName.value);
      Contains(app.processName, name) || Contains(name, app.processName)
  }

  /** The window-title check: the entry's title occurs in the app's title, ignoring case; one direction only. */
  predicate TitleMatches(entry: WhitelistEntry, app: AppInfo) {
    Truthy(entry.windowTitle) ==>
      Contains(Lower(app.windowTitle), Lower(entry.windowTitle.value))
  }

  /** An entry matches when every populated field of it matches. */
  predicate EntryMatches(entry: WhitelistEntry, app: AppInfo) {
    ProcessMatches(entry, app) && TitleMatches(entry, app)
  }

  /** The gate: disabled or empty whitelist allows everything, otherwise some entry must match. */
  predicate Allowed(entries: seq<WhitelistEntry>, enabled: bool, app: AppInfo) {
    !enabled || entries == [] || exists i :: 0 <= i < |entries| && EntryMatches(entries[i], app)
  }

  /**
   * `is_app_whitelisted`. The foreground app is looked up only once the
   * whitelist is known to be enabled and non-empty.
   */
  method IsAppWhitelisted(whitelistApps: seq<WhitelistEntry>, whitelistEnabled: bool, probe: Probe)
    returns (allowed: bool)
    ensures !whitelistEnabled || whitelistApps == [] ==> allowed
    ensures allowed <==> Allowed(whitelistApps, whitelistEnabled, ActiveAppInfo(probe))
  {
    if !whitelistEnabled || whitelistApps == [] {
      return true;
    }
    var app := ActiveAppInfo(probe);
    var i := 0;
    while i < |whitelistApps|
      invariant 0 <= i <= |whitelistApps|
      invariant forall k :: 0 <= k < i ==> !EntryMatches(whitelistApps[k], app)
    {
      var entry := whitelistApps[i];
      var matched := true;
      if entry.processName.Some? && entry.processName.value != "" {
        var entryProcess := Lower(entry.processName.value);
        var appProcess := app.processName;
        if !Contains(appProcess, entryProcess) && !Contains(entryProcess, appProcess) {
          matched := false;
        }
      }
      if entry.windowTitle.Some? && entry.windowTitle.value != "" {
        var entryTitle := Lower(entry.windowTitle.value);
        var appTitle := Lower(app.windowTitle);
        if !Contains(appTitle, entryTitle) {
          matched := false;
        }
      }
      if matched {
        return true;
      }
      i := i + 1;
    }
    return false;
  }

  /** An entry with no populated field matches every application. */
  lemma BlankEntryMatchesEverything(entry: WhitelistEntry, app: AppInfo)
    requires !Truthy(entry.processName) && !Truthy(entry.windowTitle)
    ensures EntryMatches(entry, app)
  {
  }

  /** Process names match by containment in either direction: "chrome" admits "chrome.exe" and the reverse. */
  lemma ProcessNameMatchesBothWays(title: string)
    ensures EntryMatches(WhitelistEntry(Some("Chrome"), None), AppInfo("chrome.exe", title))
    ensures EntryMatches(WhitelistEntry(Some("Chrome.exe"), None), AppInfo("chrome", title))
  {
    assert Lower("Chrome") == "chrome";
    assert StartsWith("chrome.exe"[0..], "chrome");
    assert Lower("Chrome.exe") == "chrome.exe";
  }

  /** Window titles match in one direction only: a longer entry title never matches a shorter app title. */
  lemma WindowTitleMatchesOneWay(process: string, entryTitle: string, appTitle: string)
    requires entryTitle != "" && |appTitle| < |entryTitle|
    ensures !EntryMatches(WhitelistEntry(None, Some(entryTitle)), AppInfo(process, appTitle))
  {
    if Contains(Lower(appTitle), Lower(entryTitle)) {
      ContainsNoLonger(Lower(appTitle), Lower(entryTitle));
    }
  }

  /**
   * `get_running_apps`: the listed applications without repeats of the same
   * (process name, window title) pair, first occurrences in input order.
   * `listed` is what the platform enumeration returned ([] without a backend).
   */
  method GetRunningApps(listed: seq<AppInfo>) returns (unique: seq<AppInfo>)
    ensures unique == Unique(listed)
    ensures NoDuplicates(unique)
    ensures forall a :: a in unique ==> a in listed
    ensures forall a :: a in listed ==> a in unique
    ensures forall i, j :: 0 <= i < j < |unique| ==> IndexOf(listed, unique[i]) < IndexOf(listed, unique[j])
    ensures forall i, k :: 0 <= i < |unique| && 0 <= k < IndexOf(listed, unique[i]) ==> listed[k] != unique[i]
  {
    var seen: set<AppInfo> := {};
    unique := [];
    var i := 0;
    while i < |listed|
      invariant 0 <= i <= |listed|
      invariant forall a :: a in seen <==> a in listed[..i]
      invariant unique == Unique(listed[..i])
    {
      var app := listed[i];
      assert listed[..i + 1][..i] == listed[..i];
      if app !in seen {
        seen := seen + {app};
        unique := unique + [app];
      }
      i := i + 1;
    }
    assert listed[..|listed|] == listed;
    UniqueSameElements(listed);
    UniqueKeepsFirstOccurrences(listed);
    forall i | 0 <= i < |unique|
      ensures forall k :: 0 <= k < IndexOf(listed, unique[i]) ==> listed[k] != unique[i]
    {
      IndexOfIsFirst(listed, unique[i]);
    }
  }
}
