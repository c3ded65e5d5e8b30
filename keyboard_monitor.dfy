/**
 * The key-buffer matcher (src/core/keyboard_monitor.py): a rolling buffer of
 * the last typed characters, a prefix -> expansion map, and the decision, after
 * every typed character, whether a prefix fired. The pynput listener is an
 * opaque handle (`hasListener`); a `threading.Timer` started for a delayed
 * trigger is recorded in `timers` rather than run.
 */
module KeyMatcher {
  import opened Wrappers
  import opened Text
  import opened DataStore

  /** `max_buffer_size` */
  const MaxBufferSize := 100

  /**
   * A key event as pynput reports it. `KeyCode(char)` is a key with a `char`
   * attribute; "" stands for a `char` that is `None` or empty. `Special` is any
   * other named key (arrows, function keys, modifiers, ...).
   */
  datatype Key = Backspace | Space | Enter | KeyCode(ch: string) | Special

  /** The text a key appends to the buffer, or `None` for a key that clears it (backspace aside). */
  function TypedText(key: Key): (t: Option<string>)
    ensures t.Some? ==> t.value != ""
    ensures t.None? <==> key.Backspace? || key.Special? || (key.KeyCode? && key.ch == "")
  {
    match key
    case Space => Some(" ")
    case Enter => Some("\n")
    case KeyCode(c) => if c != "" then Some(c) else None
    case _ => None
  }

  /** Append to the buffer, keeping only the last `MaxBufferSize` characters. */
  function Append(buffer: string, text: string): (r: string)
    ensures |r| == if |buffer + text| > MaxBufferSize then MaxBufferSize else |buffer + text|
  {
    var b := buffer + text;
    if |b| > MaxBufferSize then b[|b| - MaxBufferSize..] else b
  }

  /** An append that overflows keeps exactly the last `MaxBufferSize` characters; one that fits keeps everything. */
  lemma AppendKeepsLast(buffer: string, text: string)
    ensures EndsWith(buffer + text, Append(buffer, text))
    ensures |buffer + text| <= MaxBufferSize ==> Append(buffer, text) == buffer + text
  {
  }

  /** What `_check_prefixes` hands on when a prefix fires. */
  datatype Firing = Firing(prefix: string, text: string, delayMs: int)

  /** A started `threading.Timer`: after `delayMs` it calls back with the prefix and text. */
  datatype Timer = Timer(delayMs: int, prefix: string, text: string)

  /** A synchronous call of `on_expansion_triggered(prefix, text)`. */
  datatype Callback = Callback(prefix: string, text: string)

  /** The delay of an expansion: none when immediate, otherwise its configured delay. */
  function DelayOf(e: Expansion): int {
    if e.triggerImmediate then 0 else e.triggerDelayMs
  }

  /**
   * How a firing is dispatched: a positive delay starts a timer, anything else
   * calls back at once.
   */
  function Dispatch(fired: Option<Firing>, timers: seq<Timer>): (r: (seq<Timer>, Option<Callback>))
    ensures fired.None? ==> r == (timers, None)
    ensures fired.Some? && fired.value.delayMs > 0 ==>
      r.0 == timers + [Timer(fired.value.delayMs, fired.value.prefix, fired.value.text)] && r.1.None?
    ensures fired.Some? && fired.value.delayMs <= 0 ==>
      r.0 == timers && r.1 == Some(Callback(fired.value.prefix, fired.value.text))
  {
    match fired
    case None => (timers, None)
    case Some(f) =>
      if f.delayMs > 0 then (timers + [Timer(f.delayMs, f.prefix, f.text)], None)
      else (timers, Some(Callback(f.prefix, f.text)))
  }

  /**
   * The prefix map `update_expansions` builds: every entry with a non-empty
   * prefix, a later entry replacing an earlier one with the same prefix.
   */
  function PrefixMap(entries: seq<Tagged>): map<string, Tagged> {
    if entries == [] then map[]
    else
      var m := PrefixMap(entries[..|entries| - 1]);
      var e := entries[|entries| - 1];
      if e.exp.prefix != "" then m[e.exp.prefix := e] else m
  }

  /** The keys are exactly the non-empty prefixes, and each maps to an entry with that prefix. */
  lemma {:induction false} PrefixMapKeys(entries: seq<Tagged>)
    ensures forall p :: p in PrefixMap(entries) ==> p != "" && PrefixMap(entries)[p].exp.prefix == p
    ensures forall p :: p in PrefixMap(entries) ==> PrefixMap(entries)[p] in entries
    ensures forall e :: e in entries && e.exp.prefix != "" ==> e.exp.prefix in PrefixMap(entries)
  {
    if entries != [] {
      var init := entries[..|entries| - 1];
      assert entries == init + [entries[|entries| - 1]];
      PrefixMapKeys(init);
    }
  }

  /** Of several entries with one prefix, the last one wins. */
  lemma {:induction false} PrefixMapLastWins(entries: seq<Tagged>, j: nat)
    requires j < |entries| && entries[j].exp.prefix != ""
    requires forall k :: j < k < |entries| ==> entries[k].exp.prefix != entries[j].exp.prefix
    ensures entries[j].exp.prefix in PrefixMap(entries)
    ensures PrefixMap(entries)[entries[j].exp.prefix] == entries[j]
  {
    var init := entries[..|entries| - 1];
    if j < |entries| - 1 {
      PrefixMapLastWins(init, j);
    }
  }

  /** The longest of the first `n + 1` suffix lengths (from `n` down to 0) of `buffer` that is a key. */
  function LongestFrom(buffer: string, keys: set<string>, n: nat): (r: Option<string>)
    requires n <= |buffer|
    ensures r.Some? ==> r.value in keys
    decreases n
  {
    if buffer[|buffer| - n..] in keys then Some(buffer[|buffer| - n..])
    else if n == 0 then None
    else LongestFrom(buffer, keys, n - 1)
  }

  /** `LongestFrom` finds a key the buffer ends with, of length at most `n`, and none longer. */
  lemma {:induction false} LongestFromIsLongest(buffer: string, keys: set<string>, n: nat)
    requires n <= |buffer|
    ensures var r := LongestFrom(buffer, keys, n);
      && (r.Some? ==> r.value in keys && EndsWith(buffer, r.value) && |r.value| <= n)
      && (forall k :: k in keys && EndsWith(buffer, k) && |k| <= n ==> r.Some? && |k| <= |r.value|)
    decreases n
  {
    if buffer[|buffer| - n..] !in keys && n > 0 {
      LongestFromIsLongest(buffer, keys, n - 1);
    }
  }

  /**
   * The reference match: the longest key the buffer ends with. Two keys the
   * buffer ends with and of equal length are equal, so it is unique.
   */
  function LongestSuffixIn(buffer: string, keys: set<string>): (r: Option<string>)
    ensures r.Some? ==> r.value in keys
  {
    LongestFrom(buffer, keys, |buffer|)
  }

  /** The reference match is a key the buffer ends with, no key the buffer ends with is longer, and it is absent only when no key matches. */
  lemma LongestSuffixInIsLongest(buffer: string, keys: set<string>)
    ensures var r := LongestSuffixIn(buffer, keys);
      && (r.Some? ==> r.value in keys && EndsWith(buffer, r.value))
      && (r.None? <==> forall k :: k in keys ==> !EndsWith(buffer, k))
      && (r.Some? ==> forall k :: k in keys && EndsWith(buffer, k) ==> |k| <= |r.value|)
  {
    LongestFromIsLongest(buffer, keys, |buffer|);
  }

  /** Any candidate that matches and is at least as long as every match is the reference match. */
  lemma LongestIsUnique(buffer: string, keys: set<string>, best: Option<string>)
    requires best.Some? ==> best.value in keys && EndsWith(buffer, best.value)
    requires forall k :: k in keys && EndsWith(buffer, k) ==> best.Some? && |k| <= |best.value|
    ensures best == LongestSuffixIn(buffer, keys)
  {
    var r := LongestSuffixIn(buffer, keys);
    LongestSuffixInIsLongest(buffer, keys);
    if best.Some? {
      assert r.Some? && |r.value| == |best.value|;
      SuffixOfSuffix(buffer, r.value, best.value);
    }
  }

  /**
   * The scan of `_check_prefixes` over the prefixes: the longest one the
   * buffer ends with. (The source sorts the prefixes by decreasing length and
   * stops at the first hit; keeping the longest hit seen gives the same prefix.)
   */
  method FindLongestPrefix(buffer: string, keys: set<string>) returns (best: Option<string>)
    ensures best == LongestSuffixIn(buffer, keys)
  {
    var pending := keys;
    best := None;
    while pending != {}
      invariant pending <= keys
      invariant best.Some? ==> best.value in keys && EndsWith(buffer, best.value)
      invariant forall k :: k in keys && k !in pending && EndsWith(buffer, k) ==> best.Some? && |k| <= |best.value|
      decreases pending
    {
      var prefix :| prefix in pending;
      pending := pending - {prefix};
      if EndsWith(buffer, prefix) && (best.None? || |prefix| > |best.value|) {
        best := Some(prefix);
      }
    }
    LongestIsUnique(buffer, keys, best);
  }

  /** The buffer and the firing after a prefix check of `buffer`. */
  datatype Outcome = Outcome(buffer: string, fired: Option<Firing>)

  /** `_check_prefixes`: fire the longest matching prefix and clear the buffer, or leave both alone. */
  function Check(buffer: string, m: map<string, Tagged>): Outcome {
    match LongestSuffixIn(buffer, m.Keys)
    case None => Outcome(buffer, None)
    case Some(p) => Outcome("", Some(Firing(p, m[p].exp.text, DelayOf(m[p].exp))))
  }

  /** `_on_press` while monitoring. */
  function Press(buffer: string, m: map<string, Tagged>, key: Key): Outcome {
    if key.Backspace? then Outcome(if buffer == "" then "" else buffer[..|buffer| - 1], None)
    else match TypedText(key)
      case None => Outcome("", None)
      case Some(t) => Check(Append(buffer, t), m)
  }

  /** After any key the buffer holds at most `MaxBufferSize` characters. */
  lemma PressBounded(buffer: string, m: map<string, Tagged>, key: Key)
    requires |buffer| <= MaxBufferSize
    ensures |Press(buffer, m, key).buffer| <= MaxBufferSize
  {
  }

  /** Backspace removes exactly one trailing character (none from an empty buffer) and never fires. */
  lemma BackspacePopsOne(buffer: string, m: map<string, Tagged>)
    ensures Press(buffer, m, Backspace).fired.None?
    ensures buffer != "" ==> Press(buffer, m, Backspace).buffer + [buffer[|buffer| - 1]] == buffer
    ensures buffer == "" ==> Press(buffer, m, Backspace).buffer == ""
  {
  }

  /** A key that is neither backspace, space, enter nor a key with a character clears the buffer and never fires. */
  lemma OtherKeyClears(buffer: string, m: map<string, Tagged>, key: Key)
    requires key.Special? || key == KeyCode("")
    ensures Press(buffer, m, key) == Outcome("", None)
  {
  }

  /**
   * A typed character fires iff the new buffer ends with some prefix of the
   * map; the prefix fired is the longest such, it carries that expansion's
   * text and delay, and the buffer is empty afterwards. Without a match the
   * buffer is the appended one.
   */
  lemma TypedKeyFiresLongestPrefix(buffer: string, m: map<string, Tagged>, key: Key)
    requires TypedText(key).Some?
    ensures var b := Append(buffer, TypedText(key).value);
      var o := Press(buffer, m, key);
      && (o.fired.Some? <==> exists p :: p in m && EndsWith(b, p))
      && (o.fired.Some? ==>
            && o.buffer == ""
            && o.fired.value.prefix in m
            && EndsWith(b, o.fired.value.prefix)
            && (forall p :: p in m && EndsWith(b, p) ==> |p| <= |o.fired.value.prefix|)
            && o.fired.value.text == m[o.fired.value.prefix].exp.text
            && o.fired.value.delayMs == DelayOf(m[o.fired.value.prefix].exp))
      && (o.fired.None? ==> o.buffer == b)
  {
    LongestSuffixInIsLongest(Append(buffer, TypedText(key).value), m.Keys);
  }

  /**
   * Longest-match tie-break: when the buffer ends with two configured
   * prefixes (as "/in" and "/info" once "/info" is typed), the check fires
   * and clears the buffer, and the shorter one is not what fires; what fires
   * is at least as long as the longer one.
   */
  lemma LongerPrefixWins(buffer: string, m: map<string, Tagged>, short: string, long: string)
    requires short in m && long in m && |short| < |long|
    requires EndsWith(buffer, long)
    ensures Check(buffer, m).buffer == ""
    ensures Check(buffer, m).fired.Some?
    ensures Check(buffer, m).fired.value.prefix != short
    ensures |Check(buffer, m).fired.value.prefix| >= |long|
  {
    LongestSuffixInIsLongest(buffer, m.Keys);
  }

  class KeyboardMonitor {
    var buffer: string
    var expansionsMap: map<string, Tagged>
    var isMonitoring: bool
    var hasListener: bool
    var timers: seq<Timer>

    /** The buffer is bounded, only non-empty prefixes are keys, and a listener exists exactly while monitoring. */
    ghost predicate Valid()
      reads this
    {
      && |buffer| <= MaxBufferSize
      && "" !in expansionsMap
      && (isMonitoring <==> hasListener)
    }

    constructor ()
      ensures Valid()
      ensures buffer == "" && expansionsMap == map[] && !isMonitoring && !hasListener && timers == []
    {
      buffer := "";
      expansionsMap := map[];
      isMonitoring := false;
      hasListener := false;
      timers := [];
    }

    /** `update_expansions`: rebuilds the prefix map from the given list. */
    method UpdateExpansions(expansions: seq<Tagged>)
      requires Valid()
      modifies this`expansionsMap
      ensures Valid()
      ensures expansionsMap == PrefixMap(expansions)
    {
      expansionsMap := map[];
      var i := 0;
      while i < |expansions|
        invariant 0 <= i <= |expansions|
        invariant expansionsMap == PrefixMap(expansions[..i])
        invariant "" !in expansionsMap
      {
        assert expansions[..i + 1][..i] == expansions[..i];
        var prefix := expansions[i].exp.prefix;
        if prefix != "" {
          expansionsMap := expansionsMap[prefix := expansions[i]];
        }
        i := i + 1;
      }
      assert expansions[..|expansions|] == expansions;
    }

    /**
     * `_check_prefixes`: scans the prefixes for the longest one the buffer ends
     * with. When one fires, a positive delay starts a timer and anything else
     * returns the callback to make at once; the buffer is then cleared.
     */
    method CheckPrefixes() returns (call: Option<Callback>)
      requires Valid()
      modifies this`buffer, this`timers
      ensures Valid()
      ensures var o := Check(old(buffer), expansionsMap);
        buffer == o.buffer && (timers, call) == Dispatch(o.fired, old(timers))
    {
      var best := FindLongestPrefix(buffer, expansionsMap.Keys);
      call := None;
      if best.Some? {
        var prefix := best.value;
        var expansion := expansionsMap[prefix].exp;
        var delayMs := if expansion.triggerImmediate then 0 else expansion.triggerDelayMs;
        if delayMs > 0 {
          timers := timers + [Timer(delayMs, prefix, expansion.text)];
        } else {
          call := Some(Callback(prefix, expansion.text));
        }
        buffer := "";
      }
    }

    /**
     * `_on_press`: nothing happens while not monitoring; backspace pops a
     * character, a typed character is appended and checked, any other key
     * clears the buffer.
     */
    method OnPress(key: Key) returns (call: Option<Callback>)
      requires Valid()
      modifies this`buffer, this`timers
      ensures Valid()
      ensures !isMonitoring ==> buffer == old(buffer) && timers == old(timers) && call.None?
      ensures isMonitoring ==> var o := Press(old(buffer), expansionsMap, key);
        buffer == o.buffer && (timers, call) == Dispatch(o.fired, old(timers))
    {
      if !isMonitoring {
        return None;
      }
      if key.Backspace? {
        if buffer != "" {
          buffer := buffer[..|buffer| - 1];
        }
        return None;
      }
      var typed := TypedText(key);
      if typed.None? {
        buffer := "";
        return None;
      }
      call := AddText(typed.value);
    }

    /** The typed-character path of `_on_press`: append, truncate to the last `MaxBufferSize` characters, check. */
    method AddText(text: string) returns (call: Option<Callback>)
      requires Valid()
      modifies this`buffer, this`timers
      ensures Valid()
      ensures var o := Check(Append(old(buffer), text), expansionsMap);
        buffer == o.buffer && (timers, call) == Dispatch(o.fired, old(timers))
    {
      buffer := buffer + text;
      if |buffer| > MaxBufferSize {
        buffer := buffer[|buffer| - MaxBufferSize..];
      }
      assert buffer == Append(old(buffer), text);
      call := CheckPrefixes();
    }

    /** `start`: a no-op while monitoring; otherwise starts monitoring with a new listener. */
    method Start()
      requires Valid()
      modifies this`isMonitoring, this`hasListener
      ensures Valid()
      ensures isMonitoring && hasListener
      ensures old(isMonitoring) ==> unchanged(this)
    {
      if isMonitoring {
        return;
      }
      isMonitoring := true;
      hasListener := true;
    }

    /** `stop`: stops monitoring, drops the listener and empties the buffer; pending timers are not cancelled. */
    method Stop()
      requires Valid()
      modifies this`isMonitoring, this`hasListener, this`buffer
      ensures Valid()
      ensures !isMonitoring && !hasListener && buffer == ""
    {
      isMonitoring := false;
      hasListener := false;
      buffer := "";
    }

    /**
     * The started `threading.Timer` number `i` elapses: it is no longer
     * pending, and it calls back with its prefix and text. Stopping the
     * monitor does not cancel it.
     */
    method TimerFired(i: nat) returns (call: Callback)
      requires Valid() && i < |timers|
      modifies this`timers
      ensures Valid()
      ensures timers == old(timers[..i] + timers[i + 1..])
      ensures call == Callback(old(timers[i]).prefix, old(timers[i]).text)
    {
      var t := timers[i];
      timers := timers[..i] + timers[i + 1..];
      call := Callback(t.prefix, t.text);
    }

    /** `clear_buffer` */
    method ClearBuffer()
      requires Valid()
      modifies this`buffer
      ensures Valid()
      ensures buffer == ""
    {
      buffer := "";
    }
  }
}
