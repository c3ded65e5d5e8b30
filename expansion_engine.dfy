/**
 * The expansion engine (src/core/expansion_engine.py): a Running/Stopped
 * machine that keeps the key-buffer matcher fed with the data store's
 * expansions and, when a prefix fires, gates it by the application whitelist
 * and substitutes it. The keystrokes sent through pynput's controller and the
 * clipboard write are recorded as an output trace of `Action`s; whether the
 * clipboard write succeeded and what the foreground-window lookup found are
 * parameters.
 */
module Engine {
  import opened Wrappers
  import opened DataStore
  import opened AppGate
  import KeyMatcher

  /** A key the controller presses or releases. */
  datatype OutKey = BackspaceKey | CtrlKey | Letter(c: char)

  /** One observable effect of a substitution. */
  datatype Action = KeyDown(key: OutKey) | KeyUp(key: OutKey) | ClipboardWrite(text: string)

  /** `n` backspace taps, each a press followed by a release. */
  function Backspaces(n: nat): (t: seq<Action>)
    ensures |t| == 2 * n
    ensures forall k :: 0 <= k < n ==> t[2 * k] == KeyDown(BackspaceKey) && t[2 * k + 1] == KeyUp(BackspaceKey)
    ensures forall a :: a in t ==> a == KeyDown(BackspaceKey) || a == KeyUp(BackspaceKey)
  {
    if n == 0 then [] else Backspaces(n - 1) + [KeyDown(BackspaceKey), KeyUp(BackspaceKey)]
  }

  /** Ctrl+V: press ctrl, press v, release v, release ctrl. */
  const PasteCombo := [KeyDown(CtrlKey), KeyDown(Letter('v')), KeyUp(Letter('v')), KeyUp(CtrlKey)]

  /**
   * The trace of `_perform_expansion`: erase the prefix, put the text on the
   * clipboard, and paste it when the clipboard accepted it.
   */
  function SubstitutionTrace(prefix: string, text: string, clipboardOk: bool): seq<Action> {
    Backspaces(|prefix|) + [ClipboardWrite(text)] + (if clipboardOk then PasteCombo else [])
  }

  /**
   * The shape of a substitution: exactly `|prefix|` backspace press/release
   * pairs, then the single clipboard write, then the paste combo iff the
   * write succeeded, and nothing else.
   */
  lemma SubstitutionShape(prefix: string, text: string, clipboardOk: bool)
    ensures var t := SubstitutionTrace(prefix, text, clipboardOk);
      && |t| == 2 * |prefix| + 1 + (if clipboardOk then |PasteCombo| else 0)
      && t[2 * |prefix|] == ClipboardWrite(text)
      && (forall k :: 0 <= k < |prefix| ==> t[2 * k] == KeyDown(BackspaceKey) && t[2 * k + 1] == KeyUp(BackspaceKey))
      && (forall k :: 0 <= k < |t| && t[k].ClipboardWrite? ==> k == 2 * |prefix| && t[k].text == text)
      && (clipboardOk <==> |t| > 2 * |prefix| + 1)
      && (clipboardOk ==> t[2 * |prefix| + 1..] == PasteCombo)
      && (forall k :: 0 <= k < |t| && t[k] == KeyDown(CtrlKey) ==> clipboardOk)
  {
    var t := SubstitutionTrace(prefix, text, clipboardOk);
    var n := |prefix|;
    forall k | 0 <= k < |t| && k != 2 * n
      ensures (!t[k].ClipboardWrite? && t[k] != KeyDown(CtrlKey)) || (clipboardOk && k > 2 * n && !t[k].ClipboardWrite?)
    {
      if k < 2 * n {
        assert t[k] in Backspaces(n);
      }
    }
  }

  /** Whether the whitelist lets the current application through; absent settings keys mean disabled / empty. */
  predicate Admits(settings: Settings, probe: Probe) {
    Allowed(settings.whitelistApps.GetOr([]), settings.whitelistEnabled.GetOr(false), ActiveAppInfo(probe))
  }

  /** The effects of `_on_expansion_detected`: the substitution if the gate admits the application, otherwise nothing. */
  function Reaction(settings: Settings, probe: Probe, prefix: string, text: string, clipboardOk: bool): seq<Action> {
    if Admits(settings, probe) then SubstitutionTrace(prefix, text, clipboardOk) else []
  }

  /**
   * A trigger has an effect iff the gate admits the application: a rejected
   * one emits no keystroke and no clipboard write, an admitted one always
   * writes the text to the clipboard.
   */
  lemma ReactionIsGated(settings: Settings, probe: Probe, prefix: string, text: string, clipboardOk: bool)
    ensures Reaction(settings, probe, prefix, text, clipboardOk) != [] <==> Admits(settings, probe)
    ensures ClipboardWrite(text) in Reaction(settings, probe, prefix, text, clipboardOk) <==> Admits(settings, probe)
  {
    if Admits(settings, probe) {
      assert SubstitutionTrace(prefix, text, clipboardOk)[2 * |prefix|] == ClipboardWrite(text);
    }
  }

  /**
   * Settings whose whitelist flag is missing or false, or whose whitelist is
   * missing or empty, admit every application.
   */
  lemma MissingWhitelistAdmitsAll(settings: Settings, probe: Probe)
    requires settings.whitelistEnabled != Some(true) || settings.whitelistApps.GetOr([]) == []
    ensures Admits(settings, probe)
    ensures forall prefix, text, ok :: Reaction(settings, probe, prefix, text, ok) == SubstitutionTrace(prefix, text, ok)
  {
  }

  class ExpansionEngine {
    const dataManager: DataManager
    const keyboardMonitor: KeyMatcher.KeyboardMonitor
    var isRunning: bool
    /** Whether `on_status_changed` is set. */
    var statusListener: bool
    /** The values passed to `on_status_changed`, in order. */
    var notifications: seq<bool>
    /** Every keystroke and clipboard write the engine has made, in order. */
    var actions: seq<Action>

    /** The matcher is consistent and listens exactly while the engine runs. */
    ghost predicate Valid()
      reads this, keyboardMonitor
    {
      keyboardMonitor.Valid() && (isRunning <==> keyboardMonitor.isMonitoring)
    }

    /** `__init__`: a stopped engine whose matcher already holds the current expansions. */
    constructor (dm: DataManager)
      ensures Valid()
      ensures dataManager == dm && fresh(keyboardMonitor)
      ensures !isRunning && !statusListener && notifications == [] && actions == []
      ensures keyboardMonitor.expansionsMap == KeyMatcher.PrefixMap(Flatten(dm.groups))
      ensures keyboardMonitor.buffer == "" && keyboardMonitor.timers == []
    {
      dataManager := dm;
      var monitor := new KeyMatcher.KeyboardMonitor();
      var expansions := dm.GetAllExpansions();
      monitor.UpdateExpansions(expansions);
      keyboardMonitor := monitor;
      isRunning := false;
      statusListener := false;
      notifications := [];
      actions := [];
    }

    /** `_update_expansions`: the matcher's map is rebuilt from a fresh `get_all_expansions` snapshot. */
    method UpdateExpansions()
      requires keyboardMonitor.Valid()
      modifies keyboardMonitor`expansionsMap
      ensures keyboardMonitor.Valid()
      ensures keyboardMonitor.expansionsMap == KeyMatcher.PrefixMap(Flatten(dataManager.groups))
    {
      var expansions := dataManager.GetAllExpansions();
      keyboardMonitor.UpdateExpansions(expansions);
    }

    /** `refresh_expansions`, running or not. */
    method RefreshExpansions()
      requires Valid()
      modifies keyboardMonitor`expansionsMap
      ensures Valid()
      ensures keyboardMonitor.expansionsMap == KeyMatcher.PrefixMap(Flatten(dataManager.groups))
    {
      UpdateExpansions();
    }

    /**
     * `start`: no effect while running. Otherwise runs, reloads the
     * expansions, starts the matcher and notifies `true` once.
     */
    method Start()
      requires Valid()
      modifies this`isRunning, this`notifications, keyboardMonitor`expansionsMap,
        keyboardMonitor`isMonitoring, keyboardMonitor`hasListener
      ensures Valid() && isRunning
      ensures old(isRunning) ==> notifications == old(notifications) && unchanged(keyboardMonitor)
      ensures !old(isRunning) ==>
        && keyboardMonitor.expansionsMap == KeyMatcher.PrefixMap(Flatten(dataManager.groups))
        && notifications == old(notifications) + (if statusListener then [true] else [])
    {
      if isRunning {
        return;
      }
      isRunning := true;
      UpdateExpansions();
      keyboardMonitor.Start();
      if statusListener {
        notifications := notifications + [true];
      }
    }

    /**
     * `stop`: no effect while stopped. Otherwise stops, stops the matcher
     * (which empties its buffer) and notifies `false` once. Pending delayed
     * triggers are not cancelled.
     */
    method Stop()
      requires Valid()
      modifies this`isRunning, this`notifications, keyboardMonitor`isMonitoring,
        keyboardMonitor`hasListener, keyboardMonitor`buffer
      ensures Valid() && !isRunning
      ensures !old(isRunning) ==> notifications == old(notifications) && unchanged(keyboardMonitor)
      ensures old(isRunning) ==>
        && keyboardMonitor.buffer == ""
        && notifications == old(notifications) + (if statusListener then [false] else [])
    {
      if !isRunning {
        return;
      }
      isRunning := false;
      keyboardMonitor.Stop();
      if statusListener {
        notifications := notifications + [false];
      }
    }

    /** `get_status`: the running flag, which is also whether the matcher listens. */
    method GetStatus() returns (running: bool)
      requires Valid()
      ensures running == isRunning
      ensures running == keyboardMonitor.isMonitoring
    {
      return isRunning;
    }

    /** `_on_expansion_detected`: gate the trigger by the whitelist, then substitute. */
    method OnExpansionDetected(prefix: string, text: string, probe: Probe, clipboardOk: bool)
      modifies this`actions
      ensures actions == old(actions) + Reaction(dataManager.settings, probe, prefix, text, clipboardOk)
    {
      var settings := dataManager.settings;
      var whitelistEnabled := settings.whitelistEnabled.GetOr(false);
      var whitelistApps := settings.whitelistApps.GetOr([]);
      var allowed := IsAppWhitelisted(whitelistApps, whitelistEnabled, probe);
      if !allowed {
        return;
      }
      PerformExpansion(prefix, text, clipboardOk);
    }

    /** `_perform_expansion`: one backspace tap per prefix character, the clipboard write, and Ctrl+V if it succeeded. */
    method PerformExpansion(prefix: string, text: string, clipboardOk: bool)
      modifies this`actions
      ensures actions == old(actions) + SubstitutionTrace(prefix, text, clipboardOk)
    {
      for i := 0 to |prefix|
        invariant actions == old(actions) + Backspaces(i)
      {
        actions := actions + [KeyDown(BackspaceKey), KeyUp(BackspaceKey)];
      }
      actions := actions + [ClipboardWrite(text)];
      if clipboardOk {
        actions := actions + PasteCombo;
      }
    }

    /**
     * A key event reaching the listener: the matcher handles it, and a
     * trigger it fires at once (`call`) goes through the gate and is
     * substituted.
     */
    method OnKeyPress(key: KeyMatcher.Key, probe: Probe, clipboardOk: bool) returns (call: Option<KeyMatcher.Callback>)
      requires Valid()
      modifies keyboardMonitor`buffer, keyboardMonitor`timers, this`actions
      ensures Valid()
      ensures !isRunning ==> unchanged(keyboardMonitor) && call.None?
      ensures isRunning ==>
        var o := KeyMatcher.Press(old(keyboardMonitor.buffer), keyboardMonitor.expansionsMap, key);
        var d := KeyMatcher.Dispatch(o.fired, old(keyboardMonitor.timers));
        keyboardMonitor.buffer == o.buffer && keyboardMonitor.timers == d.0 && call == d.1
      ensures call.None? ==> actions == old(actions)
      ensures call.Some? ==>
        actions == old(actions) + Reaction(dataManager.settings, probe, call.value.prefix, call.value.text, clipboardOk)
    {
      call := keyboardMonitor.OnPress(key);
      if call.Some? {
        OnExpansionDetected(call.value.prefix, call.value.text, probe, clipboardOk);
      }
    }

    /**
     * A delayed trigger's timer elapses: it leaves the pending list and its
     * expansion goes through the gate, whether or not the engine still runs.
     */
    method TimerElapsed(i: nat, probe: Probe, clipboardOk: bool)
      requires Valid() && i < |keyboardMonitor.timers|
      modifies keyboardMonitor`timers, this`actions
      ensures Valid()
      ensures keyboardMonitor.timers == old(keyboardMonitor.timers[..i] + keyboardMonitor.timers[i + 1..])
      ensures var t := old(keyboardMonitor.timers[i]);
        actions == old(actions) + Reaction(dataManager.settings, probe, t.prefix, t.text, clipboardOk)
    {
      var call := keyboardMonitor.TimerFired(i);
      OnExpansionDetected(call.prefix, call.text, probe, clipboardOk);
    }
  }
}
