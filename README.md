# Simple Text Expander — a verified model of the expansion pipeline

Simple Text Expander watches the keyboard and replaces a typed prefix (say
`/sig`) with its expansion text. The buffer of recent keystrokes is checked
against the configured prefixes. When the buffer ends with one, the matcher
fires the longest such prefix. Depending on the expansion, it fires at once or
after a delay. The engine then checks the application whitelist. If the
foreground application passes, the engine erases the prefix with backspaces,
puts the text on the clipboard and pastes it with Ctrl+V. The expansions live
in a data store of groups. The update checker picks a download asset from the
latest release.

This Dafny project models that pipeline. It proves what each step promises.

| file | module | models |
|---|---|---|
| `keyboard_monitor.dfy` | `KeyMatcher` | the key-buffer matcher: class `KeyboardMonitor`, with the pure `Press`/`Check` step it is proved against |
| `app_monitor.dfy` | `AppGate` | the whitelist gate, the `unknown` sentinel and the running-apps dedup loop |
| `expansion_engine.dfy` | `Engine` | class `ExpansionEngine`: start/stop, refreshing the matcher, the whitelist gate, and the substitution as an output trace of `Action`s |
| `data_manager.dfy` | `DataStore` | class `DataManager`: settings and groups of expansions. Each operation's new state is given by a reference function (or written out in its contract), with lemmas about those functions; the loops are proved equal to them |
| `update_checker.dfy` | `Updates` | tag `v`-stripping, the platform download-asset scan, and the two result paths of `is_update_available` |
| `text.dfy`, `seqs.dfy`, `wrappers.dfy` | `Text`, `Seqs`, `Wrappers` | `endswith`, `in` on strings, ASCII `lower()`, first-index scans, order-preserving dedup, `Option` |

How the environment enters the model:

- **Key events** are the datatype `Key`.
- **The pynput listener** is the flag `hasListener`.
- **A started `threading.Timer`** is a `Timer` record in the monitor's `timers` list. `TimerFired` and `TimerElapsed` model the moment it elapses.
- **The foreground-window lookup** is a `Probe`: no backend, a failed call, or the raw name and title found.
- **The platform's running-apps list** is a parameter.
- **A clipboard write** is represented by its success flag, `clipboardOk`.
- **`save()`** is represented by its result, `saveOk`.
- **`uuid4()` ids** are supplied as parameters.
- **The HTTP release lookup** is represented by its parsed result, or `None`.
- **The `packaging` version comparison** is a function parameter, `isNewer`.

Every key the engine presses and every clipboard write it makes is appended to `actions`.

Two behaviours of the code are worth knowing. Neither is reported as a defect:

- **Whitelist matching is asymmetric.** Process names match by containment in either direction. Window titles match in one direction only (`ProcessNameMatchesBothWays`, `WindowTitleMatchesOneWay`).
- **A preferred asset without a URL ends the asset scan.** The download URL then falls back to the first asset. A usable second-choice asset is passed over (`PreferredWithoutUrlFallsBack`).

## Model

| member | source | states |
|---|---|---|
| KeyMatcher.TypedText | src/core/keyboard_monitor.py:57-67 | Space, Enter and a key with a non-empty `char` give non-empty text to append. Backspace, every other key and a key without `char` give none. |
| KeyMatcher.Append | src/core/keyboard_monitor.py:69-74 | The appended buffer has length `min(100, len(buffer + text))`. |
| KeyMatcher.AppendKeepsLast | src/core/keyboard_monitor.py:69-74 | An overflowing append keeps a suffix of `buffer + text`, which is exactly the last 100 characters. An append that fits keeps everything. |
| KeyMatcher.Dispatch | src/core/keyboard_monitor.py:95-106 | Nothing fired: no timer and no callback. A positive delay starts one timer with that delay, prefix and text, and makes no synchronous call. Otherwise the callback is made at once and no timer is started. |
| KeyMatcher.DelayOf | src/core/keyboard_monitor.py:95-99 | Reference definition: an immediate expansion has no delay, any other has its configured delay. `Dispatch` and `TypedKeyFiresLongestPrefix` state what it decides. |
| KeyMatcher.PrefixMap | src/core/keyboard_monitor.py:37-42 | Reference definition of the map `update_expansions` builds: entries in order, skipping an empty prefix, a later entry overwriting. Its properties are `PrefixMapKeys` and `PrefixMapLastWins`. |
| KeyMatcher.PrefixMapKeys | src/core/keyboard_monitor.py:37-42 | The map's keys are exactly the non-empty prefixes of the input. Each key maps to an input entry with that prefix. |
| KeyMatcher.PrefixMapLastWins | src/core/keyboard_monitor.py:39-42 | Of several entries with one prefix, the map keeps the last one. |
| KeyMatcher.LongestFromIsLongest | src/core/keyboard_monitor.py:88-92 | Over suffix lengths up to `n`, the search returns a key the buffer ends with, and no matching key of length up to `n` is longer. |
| KeyMatcher.LongestSuffixInIsLongest | src/core/keyboard_monitor.py:88-92 | The reference match is a key the buffer ends with. No matching key is longer. It is absent iff no key is a suffix of the buffer. |
| KeyMatcher.LongestIsUnique | src/core/keyboard_monitor.py:88-92 | A matching key at least as long as every match is the reference match, so the longest-first scan has one possible answer. |
| KeyMatcher.LongestSuffixIn | src/core/keyboard_monitor.py:88-92 | Reference definition of the longest-first scan: the longest key the buffer ends with, if any. It is always a key. See `LongestSuffixInIsLongest`. |
| KeyMatcher.FindLongestPrefix | src/core/keyboard_monitor.py:88-92 | The scan over the prefix set returns exactly the longest prefix the buffer ends with, or none. |
| KeyMatcher.Check | src/core/keyboard_monitor.py:82-111 | Reference definition of `_check_prefixes`: the longest prefix the buffer ends with fires, with its text and delay, and the buffer is emptied; with no match nothing changes. Its properties are `TypedKeyFiresLongestPrefix` and `LongerPrefixWins`. |
| KeyMatcher.Press | src/core/keyboard_monitor.py:44-80 | Reference definition of `_on_press` while monitoring: backspace pops, a typed key appends then checks, any other key clears. Its properties are `PressBounded`, `BackspacePopsOne`, `OtherKeyClears` and `TypedKeyFiresLongestPrefix`. |
| KeyMatcher.PressBounded | src/core/keyboard_monitor.py:44-80 | After any key, a buffer of at most 100 characters still holds at most 100. |
| KeyMatcher.BackspacePopsOne | src/core/keyboard_monitor.py:51-55 | Backspace removes exactly the last character, leaves an empty buffer empty, and never fires. |
| KeyMatcher.OtherKeyClears | src/core/keyboard_monitor.py:63-67 | A key that is not backspace, space or enter and has no `char` clears the buffer and fires nothing. |
| KeyMatcher.TypedKeyFiresLongestPrefix | src/core/keyboard_monitor.py:69-111 | After a typed key, a prefix fires iff the new buffer ends with some configured prefix. What fires is the longest such prefix, with its expansion's text and delay, and the buffer is then empty. Without a match the buffer is the appended one. |
| KeyMatcher.LongerPrefixWins | src/core/keyboard_monitor.py:88-93 | When the buffer ends with two configured prefixes, the check fires, clears the buffer and does not fire the shorter one. What fires is at least as long as the longer one. |
| KeyMatcher.KeyboardMonitor.constructor | src/core/keyboard_monitor.py:14-28 | A new monitor is not monitoring, has no listener, an empty buffer, an empty map and no timers. |
| KeyMatcher.KeyboardMonitor.UpdateExpansions | src/core/keyboard_monitor.py:30-42 | The map is replaced wholesale by the prefix map of the given list. |
| KeyMatcher.KeyboardMonitor.CheckPrefixes | src/core/keyboard_monitor.py:82-111 | The new buffer, the timers and the synchronous callback are exactly what `Check` followed by `Dispatch` give for the old buffer. |
| KeyMatcher.KeyboardMonitor.OnPress | src/core/keyboard_monitor.py:44-80 | While not monitoring, nothing changes and there is no callback. Otherwise the buffer, the timers and the callback follow `Press` and `Dispatch`, and the buffer stays within 100 characters. |
| KeyMatcher.KeyboardMonitor.AddText | src/core/keyboard_monitor.py:69-77 | Appending and truncating, then checking, gives `Check` of `Append(old buffer, text)`, dispatched. |
| KeyMatcher.KeyboardMonitor.Start | src/core/keyboard_monitor.py:113-120 | Afterwards the monitor is monitoring with a listener. While already monitoring, nothing changes. |
| KeyMatcher.KeyboardMonitor.Stop | src/core/keyboard_monitor.py:122-129 | Afterwards the monitor is not monitoring, has no listener and an empty buffer. Pending timers are kept. |
| KeyMatcher.KeyboardMonitor.TimerFired | src/core/keyboard_monitor.py:103-104 | An elapsed timer leaves the pending list, which otherwise keeps its order, and calls back with its own prefix and text. |
| KeyMatcher.KeyboardMonitor.ClearBuffer | src/core/keyboard_monitor.py:131-134 | The buffer is empty afterwards. |
| AppGate.ActiveAppInfo | src/core/app_monitor.py:33-85 | With no backend or a failed lookup, the app is the `unknown`/`unknown` sentinel. Otherwise a non-empty process name is lower-cased, an empty one becomes `unknown`, and the title is kept. The process name is always already lower-case. |
| AppGate.ProcessMatches | src/core/app_monitor.py:110-114 | Reference definition: a populated entry name, lower-cased, and the app's process name contain one another in either direction; an unpopulated name always passes. See `ProcessNameMatchesBothWays`. |
| Text.ContainsAt | src/core/app_monitor.py:112 | A match of the needle at any index makes `needle in hay` hold. |
| Text.ContainsHasIndex | src/core/app_monitor.py:112 | If `needle in hay` holds, the needle occurs at some index. With `ContainsAt`, the recursive definition agrees with the index form. |
| AppGate.TitleMatches | src/core/app_monitor.py:117-121 | Reference definition: a populated entry title, lower-cased, occurs in the lower-cased app title; an unpopulated title always passes. See `WindowTitleMatchesOneWay`. |
| AppGate.EntryMatches | src/core/app_monitor.py:107-125 | Reference definition: an entry matches when both field checks pass. See `BlankEntryMatchesEverything`. |
| AppGate.Allowed | src/core/app_monitor.py:99-128 | Reference definition of the gate: disabled, or an empty list, or some entry matching. `IsAppWhitelisted` is proved equal to it. |
| AppGate.IsAppWhitelisted | src/core/app_monitor.py:87-128 | A disabled or empty whitelist allows everything. Otherwise the app is allowed iff some entry has every populated field matching. |
| AppGate.BlankEntryMatchesEverything | src/core/app_monitor.py:107-125 | An entry whose process name and title are both missing or empty matches every app. |
| AppGate.ProcessNameMatchesBothWays | src/core/app_monitor.py:110-114 | A process-name entry matches by containment in either direction, ignoring the entry's case: `Chrome` admits `chrome.exe`, and `Chrome.exe` admits `chrome`. |
| AppGate.WindowTitleMatchesOneWay | src/core/app_monitor.py:117-121 | A window-title entry longer than the app's title never matches: title containment runs one way only. |
| AppGate.GetRunningApps | src/core/app_monitor.py:130-153 | The result is the input without repeats. Every input app is in it, it has nothing else, and the kept copies are ordered by the position of their first occurrence, which no earlier input item equals. |
| Seqs.UniqueSameElements | src/core/app_monitor.py:144-153 | Deduplication loses no app and invents none. |
| Seqs.UniqueKeepsFirstOccurrences | src/core/app_monitor.py:144-153 | The deduplicated list has no repeats and is ordered by first occurrence in the input. |
| Seqs.Unique | src/core/app_monitor.py:144-153 | Reference definition of the seen-set loop: keep each item the first time it appears. See `UniqueSameElements`, `UniqueKeepsFirstOccurrences` and `AppGate.GetRunningApps`. |
| Engine.Backspaces | src/core/expansion_engine.py:70-72 | `n` backspace taps are `2n` actions, alternating press and release of backspace, and nothing else. |
| Engine.SubstitutionTrace | src/core/expansion_engine.py:60-84 | Reference definition of `_perform_expansion`'s effects. `SubstitutionShape` states its shape and `PerformExpansion` is proved to emit it. |
| Engine.Admits | src/core/expansion_engine.py:49-55 | Reference definition of the gate as the engine consults it: a missing flag reads as false and a missing list as empty. See `MissingWhitelistAdmitsAll`. |
| Engine.Reaction | src/core/expansion_engine.py:41-58 | Reference definition of `_on_expansion_detected`'s effects: the substitution if admitted, else nothing. See `ReactionIsGated`. |
| Engine.SubstitutionShape | src/core/expansion_engine.py:60-84 | A substitution is exactly `len(prefix)` backspace press/release pairs, then one clipboard write of the text, then Ctrl+V iff the write succeeded. No clipboard write appears anywhere else, and no Ctrl press appears without a successful write. |
| Engine.ReactionIsGated | src/core/expansion_engine.py:49-58 | A detected trigger has an effect iff the whitelist admits the app. A rejected one emits no keystroke and no clipboard write. An admitted one always writes the text to the clipboard. |
| Engine.MissingWhitelistAdmitsAll | src/core/expansion_engine.py:50-55 | Settings with a missing or false `whitelist_enabled`, or with a missing or empty `whitelist_apps`, admit every app, and every trigger is substituted. |
| Engine.ExpansionEngine.constructor | src/core/expansion_engine.py:19-34 | A new engine is stopped, with no status listener, no actions, and a fresh matcher already loaded with the store's current expansions. |
| Engine.ExpansionEngine.UpdateExpansions | src/core/expansion_engine.py:36-39 | The matcher's map becomes the prefix map of `get_all_expansions`. |
| Engine.ExpansionEngine.RefreshExpansions | src/core/expansion_engine.py:109-111 | Whether running or stopped, the matcher's map afterwards reflects the store's current expansions. |
| Engine.ExpansionEngine.Start | src/core/expansion_engine.py:86-96 | Starting a running engine changes nothing and notifies nobody. Otherwise the engine runs, reloads the expansions into the matcher, starts it, and notifies `True` once. |
| Engine.ExpansionEngine.Stop | src/core/expansion_engine.py:98-107 | Stopping a stopped engine changes nothing and notifies nobody. Otherwise the engine stops and stops the matcher, which empties its buffer, and notifies `False` once. |
| Engine.ExpansionEngine.GetStatus | src/core/expansion_engine.py:113-115 | Returns the running flag. The flag is also whether the matcher listens. |
| Engine.ExpansionEngine.OnExpansionDetected | src/core/expansion_engine.py:41-58 | Appends the gated reaction: the substitution trace if the whitelist admits the app (absent settings keys mean disabled or empty), otherwise nothing. |
| Engine.ExpansionEngine.PerformExpansion | src/core/expansion_engine.py:60-84 | Appends exactly the substitution trace for the prefix, the text and the clipboard result. |
| Engine.ExpansionEngine.OnKeyPress | src/core/expansion_engine.py:28 | A key reaching the engine's matcher updates the buffer and the timers as `Press` and `Dispatch` say. A trigger fired at once goes through the gate. A stopped engine's matcher ignores the key. |
| Engine.ExpansionEngine.TimerElapsed | src/core/keyboard_monitor.py:103-104 | A delayed trigger that elapses leaves the pending list. Its expansion goes through the gate whether or not the engine still runs. |
| DataStore.MergeSettings | src/core/data_manager.py:62-65 | Each key present in the update overrides, and each absent key keeps its old value. |
| DataStore.MergeSettingsIdempotent | src/core/data_manager.py:62-65 | Applying the same update twice equals applying it once. |
| DataStore.MergeSettingsCompose | src/core/data_manager.py:62-65 | Two updates in a row equal one update by their merge. An update with no keys changes nothing. |
| DataStore.Locate | src/core/data_manager.py:131-134 | Finds the first group with the id that holds the expansion id, and the first such expansion in it. It is absent iff no group qualifies. |
| DataStore.WithoutGroup | src/core/data_manager.py:93-95 | Reference definition of the `delete_group` comprehension. Its properties are `WithoutGroupRemovesExactly` and `WithoutGroupKeepsOrder`. |
| DataStore.WithoutGroupRemovesExactly | src/core/data_manager.py:91-96 | Deleting removes every group with the id and keeps every other group. With no such group, the list is unchanged. |
| DataStore.WithoutGroupKeepsOrder | src/core/data_manager.py:91-96 | Filtering distributes over concatenation, so the kept groups stay in their original order. |
| DataStore.WithoutExpansion | src/core/data_manager.py:147-149 | The kept expansions are exactly those whose id differs. |
| DataStore.WithoutExpansionKeepsOrder | src/core/data_manager.py:147-149 | The filter distributes over concatenation, so kept expansions keep their order and every copy. |
| DataStore.WithoutExpansionSingle | src/core/data_manager.py:147-149 | On one expansion, the filter drops it iff it has the id. |
| DataStore.TagAll | src/core/data_manager.py:157-162 | One tagged item per expansion of the group, in order, each carrying the group's id and name. |
| DataStore.Flatten | src/core/data_manager.py:153-163 | Reference definition of `get_all_expansions`: each group's tagged expansions, in group order. Its properties are `FlattenAppend` and `FlattenContents`. |
| DataStore.FlattenAppend | src/core/data_manager.py:153-163 | Flattening keeps group order: the flattening of concatenated lists is the concatenation of their flattenings. |
| DataStore.FlattenContents | src/core/data_manager.py:153-163 | The flattened list has one item per expansion. Every item is an expansion of some group, tagged with that group. Every expansion of every group appears. |
| DataStore.Renumbered | src/core/data_manager.py:186-190 | A renumbered group keeps its name and its expansions except for their ids. The group takes the id at supply position `next`, and expansion `j` the id at position `next + 1 + j`. |
| DataStore.NewGroups | src/core/data_manager.py:183-185 | Reference definition: the imported groups whose name was not present before the import, in import order. |
| DataStore.GroupNames | src/core/data_manager.py:183 | Reference definition: the set of existing group names that a merge skips. |
| DataStore.IdsUsed | src/core/data_manager.py:186-190 | Reference definition: how many fresh ids the renumbering draws for the imported groups whose names are not in `names` (one per group and one per expansion). See `IdsUsedByNewGroups`. |
| DataStore.Merged | src/core/data_manager.py:181-191 | Reference definition of what a merge appends: the new-named groups, renumbered in turn. See `MergedIsNewGroupsRenumbered`. |
| DataStore.IdsUsedByNewGroups | src/core/data_manager.py:186-190 | The merge draws exactly one id per new group and one per expansion in it. |
| DataStore.MergedIsNewGroupsRenumbered | src/core/data_manager.py:181-191 | A merge appends exactly the imported groups whose name was not present before the import, in import order. Appended group `k` is new-named group `k` renumbered from the supply position after those of the groups before it, so no id position is drawn twice. |
| DataStore.DataManager.constructor | src/config.py:25-32 | A new store holds the default data: whitelist disabled, no whitelist entries, no groups. |
| DataStore.DataManager.UpdateSettings | src/core/data_manager.py:62-65 | The settings become the old settings merged with the update. Returns the save result. |
| DataStore.DataManager.AddGroup | src/core/data_manager.py:71-81 | Appends exactly one group with the fresh id, the name and no expansions. Returns the id. |
| DataStore.DataManager.UpdateGroup | src/core/data_manager.py:83-89 | Renames only the first group with the id. Without one, returns false and changes nothing. |
| DataStore.DataManager.DeleteGroup | src/core/data_manager.py:91-96 | The groups become the old groups without those that have the id. |
| DataStore.DataManager.GetGroup | src/core/data_manager.py:98-103 | Returns the first group with the id, and none iff no group has it. |
| DataStore.DataManager.AddExpansion | src/core/data_manager.py:105-124 | Appends one expansion, under the fresh id, to the first group with the id, and returns the id. Without such a group, returns "" and changes nothing. |
| DataStore.DataManager.UpdateExpansion | src/core/data_manager.py:126-141 | Overwrites every field but the id of the located expansion and touches nothing else. Without a match, returns false and changes nothing. |
| DataStore.DataManager.DeleteExpansion | src/core/data_manager.py:143-151 | Filters the id out of the first group with the group id only. Without such a group, returns false and changes nothing. |
| DataStore.DataManager.GetAllExpansions | src/core/data_manager.py:153-163 | Returns the flattening of the groups: group order, then expansion order, each item tagged with its group. |
| DataStore.DataManager.IsPrefixUnique | src/core/data_manager.py:206-217 | True iff no expansion has exactly the prefix, ignoring groups with the excluded group id and expansions with the excluded expansion id. An exclusion of `None` or "" excludes nothing. |
| DataStore.Excludes | src/core/data_manager.py:210-214 | Reference definition: an optional exclusion applies only when it is truthy and equal to the id. |
| DataStore.Clashes | src/core/data_manager.py:209-216 | Reference definition: expansion `j` of group `i` has the prefix, and neither its group nor the expansion is excluded. `IsPrefixUnique` returns true iff no pair clashes. |
| DataStore.DataManager.ImportJson | src/core/data_manager.py:175-204 | An unreadable file changes nothing and returns false. A merge keeps the settings and the existing groups and appends the renumbered new-named groups. A replace takes the file's settings and groups, filling in defaults for missing keys. |
| Updates.StripV | src/utils/update_checker.py:41-43 | A tag starting with `v` loses exactly that `v`. Any other tag is kept as it is. |
| Updates.StripVOnce | src/utils/update_checker.py:41-43 | Only one leading `v` is removed: `vv2` becomes `v2`. |
| Updates.FirstPreferred | src/utils/update_checker.py:49-66 | The first installer (Windows) or disk image (macOS) among the assets, and none iff there is none. |
| Wrappers.Truthy | src/utils/update_checker.py:69 | Reference definition of Python truthiness for an optional string: present and non-empty. Whitelist fields, exclusion ids and download URLs all use it. |
| Updates.Preferred | src/utils/update_checker.py:52-62 | Reference definition: on Windows an asset whose lower-cased name contains "setup.exe" or "installer.exe"; on macOS one containing ".dmg"; on any other platform none. |
| Updates.SecondChoice | src/utils/update_checker.py:56-65 | Reference definition: on Windows a name containing "portable.exe"; on macOS one containing ".zip"; on any other platform none. |
| Updates.UsableSecondChoice | src/utils/update_checker.py:56-66 | Reference definition: a second-choice asset, not preferred, with a truthy URL, the only kind that sets the URL while none is set. |
| Updates.FirstSecondChoice | src/utils/update_checker.py:49-66 | The first non-preferred portable build (Windows) or archive (macOS) with a usable URL, and none iff there is none. |
| Updates.Chosen | src/utils/update_checker.py:49-66 | Reference definition of the platform scan: the first preferred asset's URL, whatever it is; without one, the first usable second choice's; else none. |
| Updates.DownloadUrl | src/utils/update_checker.py:45-70 | Reference definition of the selected URL: the platform's choice if truthy, else the first asset's URL if there is an asset. Its properties are the five lemmas below, and `SelectDownloadUrl` is proved equal to it. |
| Updates.DownloadUrlFromAssets | src/utils/update_checker.py:45-70 | Without assets there is no URL. Otherwise the URL is the URL of one of the assets. |
| Updates.PreferredWins | src/utils/update_checker.py:51-57 | The first preferred asset with a usable URL is chosen, over every second choice before or after it. |
| Updates.SecondChoiceWhenNoPreferred | src/utils/update_checker.py:53-57 | Without a preferred asset, the first second choice with a usable URL is chosen. |
| Updates.OtherPlatformTakesFirst | src/utils/update_checker.py:68-70 | On other platforms, the first asset's URL is used, and none without assets. |
| Updates.PreferredWithoutUrlFallsBack | src/utils/update_checker.py:49-70 | A first preferred asset with no usable URL still ends the scan, and the first asset's URL is taken. |
| Updates.SelectDownloadUrl | src/utils/update_checker.py:45-70 | The scan with its `break` and its `not download_url` guard returns exactly `DownloadUrl`. |
| Updates.GetLatestVersion | src/utils/update_checker.py:27-81 | A failed lookup gives none. Otherwise the result is the tag without its `v`, the selected URL, and the notes. |
| Updates.IsUpdateAvailable | src/utils/update_checker.py:83-103 | A failed lookup, or a version that does not parse, gives `(False, None, None, None)`. Otherwise the result is the comparison, the version, the URL and the notes. An available update always has a version. |

## Left out

- Threads and locks are not modelled. Every operation runs to completion before the next one starts.
- `time.sleep` pacing is not modelled.
- Real timer delays are not modelled. A delayed trigger elapses when `TimerElapsed` is called, in any order.
- Engine.ExpansionEngine.OnKeyPress handles one key event. The listener would also see the keystrokes the engine injects through the controller (the backspaces and Ctrl+V), and that is not modelled.
- The pynput listener and controller objects are not modelled. They appear only as the `hasListener` flag and the `actions` trace.
- Exceptions are caught and printed in `_on_press` and `_perform_expansion`. A trace cut short by such an exception is not modelled.
- Python errors on malformed records are not modelled. Examples are a `KeyError` on a group without `id` or `expansions`, or `None` where a string is expected. Records always carry every field.
- KeyMatcher.DelayOf treats `trigger_immediate` and `trigger_delay_ms` as always present. The `.get` defaults (True and 0) for records missing those keys are not modelled.
- The platform lookups are not modelled: win32gui, psutil and AppKit (src/core/app_monitor.py:47-85 and 155-197). Their outcome is the `Probe`, or the list passed to `GetRunningApps`.
- The clipboard is not modelled (src/utils/clipboard.py is not part of this model). Its write is the `clipboardOk` flag.
- `str.lower()` is modelled for ASCII letters only. Unicode case mapping is not modelled.
- The JSON file is not modelled: `load`, `save`, `export_json` and the data directory. `save()` is the `saveOk` result.
- `uuid4` ids are not generated. They are supplied as parameters.
- The data's `version` key is not modelled.
- Settings keys other than `whitelist_enabled` and `whitelist_apps` are not modelled.
- The shallow-copy aliasing of `DEFAULT_DATA.copy()` is not modelled.
- In a merge import, the imported group records are mutated in place and shared. The model builds new values instead.
- The HTTP request and JSON decoding are left out. Their outcome is `Option<Release>`.
- A release with `null` names, tags or body is not modelled; the release notes are always a string.
- `download_update` is left out.
- The `packaging` version comparison is a parameter, not a model.
- The GUI panels and dialogs, `main.py` and the other constants of `config.py` are not part of this model.
