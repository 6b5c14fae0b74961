# Smart-home text-command interpreter, in Dafny

A model of the logic of the voice-controlled smart-home panel. Four on/off
appliances make up the fixed device table: Light, Fan, AC and Heater. Each has a
display id and a list of synonyms. The panel keeps one card per device, and each
card holds an on/off state. A transcribed command is interpreted in these steps:

1. The text is lowercased.
2. Actions are found in two tiers:
   - tier one is a verb, whitespace and a direction, as a regular expression
     search;
   - tier two is bare substrings, consulted only when tier one found nothing.
3. Devices are found by whole-word synonym matches.
4. The group keyword (`all` or `everything`, as substrings) replaces the device
   list with every device.
5. A second look for an action follows: `on`, then `off`, as substrings.
6. Devices are found by their lowercased ids as substrings, when no device was
   found yet.
7. Finally, either every mentioned device is switched to the state of the first
   action, one notification each, or the fixed "not recognized" message is
   emitted.

Files:

- `text.dfy` (module `Text`): the text operations the interpreter uses, each
  stated twice, with a lemma that the two agree:
  - as the function that is evaluated, a scan character by character;
  - as a reference definition, with slices and quantifiers.

  The operations are ASCII `str.lower`, `pat in s`, the whole-word search with
  `\b`, and the unanchored search for `(verbs)\s+(directions)`.
- `devices.dfy` (module `Devices`): the device table, its iteration order, ids
  and synonyms.
- `interpreter.dfy` (module `Interpreter`): the interpreter as specification
  functions (`Actions`, `Mentioned`, `Interpret`) and what they mean.
- `home.dfy` (module `Home`): the panel as a class `SmartHome`. It holds the map
  from devices to states and the log of notifications. `SetState` and `Toggle`
  state the new map and log directly. `ProcessCommand` runs the passes as loops
  and is proved equal to `Interpret`. The loops are `SwitchAll`, a method of the
  class, and the module-level methods `FindNamed`, `NamedBySynonym` and
  `FindById`.
- `examples.dfy` (module `Examples`): concrete commands and their outcomes,
  including the surprising ones that follow from the substring tests.

Consequences of the code as written, which the model reproduces:

- "air conditioner" alone switches the AC on. No verb is needed, because tier
  two is a substring test and finds `on` inside "conditioner"
  (`Examples.AirConditionerSwitchesAcOn`).
- Tier two, the group keyword and the id pass are substring tests, not word
  tests. So "small" selects every device (`Examples.SmallFanOnSwitchesEverythingOn`),
  and "activate" reaches the AC through its id `ac` (`Examples.ActivateSwitchesAcOn`).
- The tier-one patterns are unanchored, so "return only" matches `turn\s+on`
  (`Examples.ReturnOnlyMatchesTurnOn`).
- The text is lowercased only; it is not trimmed.
- `set_state` returns nothing; `SetState` has no result.
- The device table is fixed at four entries. There is no way to add a device, so
  no duplicate-device or unknown-device case arises.

## Model

| member | source | states |
|---|---|---|
| Text.LowerChar | smarthome_voice_gui.py:142 | `lower()` on one character: `A`-`Z` become `a`-`z`, every other character is kept |
| Text.IsSpace | smarthome_voice_gui.py:145-147 | `\s` in the tier-one patterns: exactly the characters `str.isspace` accepts |
| Text.IsWordChar | smarthome_voice_gui.py:158 | `\w`, on ASCII: letters, digits and `_` |
| Text.IsBoundary | smarthome_voice_gui.py:158 | `\b`: exactly one side of the position is a word character, with the ends of the text counting as non-word |
| Interpreter.TurnOnPhrase | smarthome_voice_gui.py:145 | the alternatives of the turn-on pattern: verbs `turn`, `switch`, `activate`, `start`, `enable`, `power`; directions `on`, `up` |
| Interpreter.TurnOffPhrase | smarthome_voice_gui.py:147 | the alternatives of the turn-off pattern: verbs `turn`, `switch`, `deactivate`, `stop`, `disable`, `power`; directions `off`, `down` |
| Home.Event | smarthome_voice_gui.py:45-52 | one log line with its spoken confirmation: a device turned on or off (lines 45-46, 51-52), or the fixed "not recognized" pair (lines 179-180) |
| Text.Lower | smarthome_voice_gui.py:142 | `command.lower()` on ASCII: each capital letter replaced by its small letter, everything else kept |
| Text.Contains | smarthome_voice_gui.py:150-152 | Python's `pat in s`: the scan finds the literal at some index |
| Text.ContainsWord | smarthome_voice_gui.py:158 | the search for `\b` + synonym + `\b`: the scan finds the word with a boundary on both sides |
| Text.Search | smarthome_voice_gui.py:145-148 | `re.search` with a tier-one pattern: a verb, the whole whitespace run after it (one or more characters), then a direction, scanning from the left |
| Devices.Registry | smarthome_voice_gui.py:87-92 | the cards in the order they are registered: Light, Fan, AC, Heater |
| Devices.Id | smarthome_voice_gui.py:15-20 | each device's table key, used by the id pass |
| Devices.Synonyms | smarthome_voice_gui.py:15-20 | each device's synonyms, in the order they are tried |
| Interpreter.SaysOn | smarthome_voice_gui.py:150 | tier two, on: `on`, `activate`, `start` or `enable` as a substring |
| Interpreter.SaysOff | smarthome_voice_gui.py:152 | tier two, off: `off`, `deactivate`, `stop` or `disable` as a substring |
| Interpreter.TierOne | smarthome_voice_gui.py:145-148 | on if the turn-on pattern matches, then off if the turn-off pattern matches |
| Interpreter.TierTwo | smarthome_voice_gui.py:149-153 | on if tier two finds an on word, then off if it finds an off word |
| Interpreter.LegacyFallback | smarthome_voice_gui.py:165-169 | with no action yet: on if `on` is a substring, else off if `off` is; otherwise the actions unchanged |
| Interpreter.Names | smarthome_voice_gui.py:157-172 | a pass names a device: some synonym as a whole word (synonym pass), or the lowercased id as a substring (id pass) |
| Interpreter.GroupKeyword | smarthome_voice_gui.py:162 | `all` or `everything` as a substring |
| Interpreter.Mentioned | smarthome_voice_gui.py:155-173 | the synonym hits, replaced by every device on the group keyword, and the id hits when that leaves nothing |
| Interpreter.Interpret | smarthome_voice_gui.py:140-180 | the outcome of a command: every mentioned device switched to on exactly when the first action is on, or not recognized when no device or no action is found |
| Home.Switched | smarthome_voice_gui.py:175-177 | the states after `set_state(on)` on each listed device in turn |
| Home.Notices | smarthome_voice_gui.py:175-177 | the notifications of those calls, one `Turned(device, on)` per listed device, in order |
| Text.LowerAt | smarthome_voice_gui.py:142 | lowercasing keeps the length and works character by character |
| Text.LowerIsIdempotent | smarthome_voice_gui.py:142 | no ASCII capital survives lowercasing, and lowercasing twice is lowercasing once |
| Text.SameIgnoringCaseLowersAlike | smarthome_voice_gui.py:142 | texts that differ only in ASCII case lowercase to the same text |
| Text.PrefixAtIsOccurrence | smarthome_voice_gui.py:150-152 | the character-by-character comparison at an index holds exactly when the literal occurs there |
| Text.ContainsIsOccurrence | smarthome_voice_gui.py:150-152 | the substring scan holds exactly when the literal occurs at some index |
| Text.MissingCharNotContained | smarthome_voice_gui.py:150-152 | a literal with a character the text lacks is not a substring of it |
| Text.ContainsWordIsWholeWord | smarthome_voice_gui.py:158 | the whole-word scan holds exactly when the word occurs with a `\b` boundary on both sides |
| Text.WholeWordIsContained | smarthome_voice_gui.py:158 | a whole-word match is also a substring match |
| Text.SpaceRunEnd | smarthome_voice_gui.py:145 | the end of the whitespace run: every character before it is whitespace, the one at it is not |
| Text.RunEndIsUnique | smarthome_voice_gui.py:145 | a whitespace run stopped by a non-space is the longest run |
| Text.ScanFindsPhrase | smarthome_voice_gui.py:145-148 | what the scan finds at an index is a match of the pattern there |
| Text.PhraseIsScanned | smarthome_voice_gui.py:145-148 | every match of the pattern at an index is found by the scan there |
| Text.PhraseStartsAtSpec | smarthome_voice_gui.py:145-148 | the scan at an index succeeds exactly when the pattern matches from there |
| Text.SearchFromSpec | smarthome_voice_gui.py:145-148 | the scan from an index succeeds exactly when the pattern matches at or after it |
| Text.SearchIsMatch | smarthome_voice_gui.py:145-148 | `re.search` with the tier-one pattern succeeds exactly when some verb, one or more whitespace characters and some direction occur in sequence |
| Text.SearchNeedsDirection | smarthome_voice_gui.py:145-148 | no tier-one match without one of the directions as a substring |
| Text.SearchNeedsVerb | smarthome_voice_gui.py:145-148 | no tier-one match without one of the verbs as a substring |
| Devices.Index | smarthome_voice_gui.py:15-20 | each device has a position in the table's order, and the table holds it there |
| Devices.RegistryIsComplete | smarthome_voice_gui.py:87-92 | the cards are every device once, in table order, under distinct ids |
| Devices.OrderedByMembers | smarthome_voice_gui.py:155-173 | two device lists in table order with the same members are equal |
| Interpreter.Actions | smarthome_voice_gui.py:144-153 | the actions are none, on, off, or on then off: each direction at most once, on first |
| Interpreter.ActionsMeaning | smarthome_voice_gui.py:144-153 | on is found exactly when the turn-on pattern matches, or no tier-one pattern matches and a tier-two on word occurs; likewise for off; none when nothing matches |
| Interpreter.LegacyFallbackAddsNothing | smarthome_voice_gui.py:164-168 | the second look for an action never changes the actions |
| Interpreter.Hits | smarthome_voice_gui.py:155-160 | a pass lists exactly the devices it names, each once, in table order |
| Interpreter.HitsStep | smarthome_voice_gui.py:156-160 | one more device adds itself to the hits exactly when the pass names it |
| Interpreter.MentionedMeaning | smarthome_voice_gui.py:155-173 | a device is mentioned exactly when the group keyword occurs, or a synonym names it as a whole word, or no synonym names any device and its id is a substring; no duplicates, table order |
| Interpreter.GroupMeansEveryDevice | smarthome_voice_gui.py:161-162 | with the group keyword, every device is mentioned, in table order, and synonym hits are discarded |
| Interpreter.InterpretMeaning | smarthome_voice_gui.py:140-180 | not recognized exactly when no device or no action is found; otherwise the mentioned devices are switched, on exactly when an on action was found |
| Interpreter.OnWinsOverOff | smarthome_voice_gui.py:145-177 | a command matching the turn-on pattern switches its devices on, whatever else it contains |
| Interpreter.CaseInsensitive | smarthome_voice_gui.py:142 | commands that differ only in ASCII case are interpreted alike |
| Home.SwitchedAt | smarthome_voice_gui.py:175-177 | after switching a list, each listed device has the requested state and every other device keeps its own |
| Home.SwitchedIsIdempotent | smarthome_voice_gui.py:48-49 | switching the same devices to the same state twice is the same as once |
| Home.NoticesAt | smarthome_voice_gui.py:175-177 | one notification per switched device, in list order, with the new state |
| Home.FindActions | smarthome_voice_gui.py:144-153 | the two tiers, tier two only when tier one found nothing, compute the specified actions |
| Home.NamedBySynonym | smarthome_voice_gui.py:157-160 | the loop over a device's synonyms, stopping at the first whole-word match, finds one exactly when the device is named |
| Home.FindNamed | smarthome_voice_gui.py:155-160 | the synonym pass computes the specified hits |
| Home.FindById | smarthome_voice_gui.py:170-173 | the id pass computes the specified hits |
| Home.SmartHome.constructor | smarthome_voice_gui.py:28 | every card starts off, nothing logged |
| Home.SmartHome.SetState | smarthome_voice_gui.py:48-52 | the card takes the given state, nothing else changes, one notification with the new state |
| Home.SmartHome.Toggle | smarthome_voice_gui.py:42-46 | the card's state is negated, nothing else changes, one notification with the new state |
| Home.SmartHome.SwitchAll | smarthome_voice_gui.py:176-177 | each listed device is set in turn: the specified states and one notification per device |
| Home.SmartHome.ProcessCommand | smarthome_voice_gui.py:140-180 | the new states and log are those of the interpreted outcome; when not recognized, no state changes and exactly the fixed message is emitted |
| Examples.ReturnOnlyMatchesTurnOn | smarthome_voice_gui.py:145 | the unanchored turn-on pattern matches inside "return only" |
| Examples.AirConditionerSwitchesAcOn | smarthome_voice_gui.py:140-180 | "air conditioner" alone switches the AC on |
| Examples.ActivateSwitchesAcOn | smarthome_voice_gui.py:140-180 | "activate" alone switches the AC on, through the id fallback |
| Examples.SmallFanOnSwitchesEverythingOn | smarthome_voice_gui.py:140-180 | "small fan on" switches every device on |
| Examples.LightsOnSwitchesLightOn | smarthome_voice_gui.py:140-180 | "lights on" switches the light on, through the id fallback |
| Examples.LightheartedReachesLightById | smarthome_voice_gui.py:155-173 | in "lighthearted" the synonym pass names no device, the id test finds the light, and the light alone is mentioned |
| Examples.FanOffSwitchesFanOff | smarthome_voice_gui.py:140-180 | "fan off" switches the fan off |
| Examples.FanOffReturnOnlySwitchesFanOn | smarthome_voice_gui.py:140-180 | "fan off, return only" switches the fan on |

## Left out

- The Tkinter widgets, layout, `update_ui`, colours and icon images: presentation only, through foreign libraries.
- `take_screenshot`: screen capture and file output.
- `listen_and_process`: microphone access, the speech-recognition service and its error messages. The model takes the transcribed text as the input of `ProcessCommand`.
- `speak`, its thread and the `listening` flag: audio output and concurrency. A log line and its spoken confirmation are one `Event`, and the exact wording of the messages is not modelled.
- The "Heard:" log line: it is written by `listen_and_process`, before `process_command` runs.
- Lowercasing and `\w` beyond ASCII: `Lower` changes only `A`-`Z`, and `IsWordChar` accepts only ASCII letters, digits and `_`. Python's `str.lower` and `\w` also cover other Unicode letters. `\s` follows `str.isspace` in full.
- Regular expressions in general: only the two tier-one patterns and the `\b`-bounded synonym searches are modelled.
