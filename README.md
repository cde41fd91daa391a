# Userscript loader model

This project is a Dafny model of the userscript loader of the crankshaft
client (`src/userscripts.ts`). When the host sends
`main_initializes_userscripts`, the loader does the following:

- It lists the userscripts directory and builds one `Userscript` record per
  `.js` file.
- It reconciles `tracker.json`, the saved map from script name to enabled flag.
- It sorts the scripts by priority, highest first.
- It loads each enabled script. A `document-start` script loads at once;
  any other script loads on `DOMContentLoaded`.

Building a record works on the script's text:

- It checks for the `"use strict"` prefix.
- It finds the metadata header between `// ==UserScript==` and
  `// ==/UserScript==` and parses its `// @key value` lines. A repeated key
  keeps its last value.
- From the header it takes `@run-at` and `@priority`.
- It derives the name of the script's custom-settings file.

Loading a script does three things:

- It captures the `unload` hook and the `settings` object that the script
  returns.
- It replays the saved custom settings through each setting's `changed`
  callback.
- It stops quietly at the first callback that fails.

The modules follow the structure of the program:

| module | file | what it holds |
|---|---|---|
| `Wrappers` | `wrappers.dfy` | `Option` |
| `Text` | `text.dfy` | the ECMAScript string operations the loader uses: `split`, `split(/\s+/)`, `join`, `trim`, `includes` |
| `Metadata` | `metadata.dfy` | `parseMetadata` as a fold, and the last-value collapse |
| `JsParseInt` | `parse_int.dfy` | `parseInt` without a radix |
| `ScriptRecord` | `userscript.dfy` | the `Userscript` class: constructor, derivations, `load` |
| `Schedule` | `schedule.dfy` | the stable sort by descending priority, on indices |
| `Tracker` | `tracker.dfy` | the tracker merge |
| `Loader` | `loader.dfy` | the handler's shared state: discovery, tracker reconciliation, dispatch |

### Behaviour as written

The model follows the code. In three places the code does something other
than what its comments suggest:

- **Priority without a header.** `priority` is assigned only inside the
  header branch (src/userscripts.ts:113). A script with no header keeps
  `undefined`. This is `Priority.Undefined`.
- **Non-numeric priority.** `parseInt` never throws, so the catch at
  src/userscripts.ts:117-120 is dead. A value with no leading digits gives
  `NaN` (`Priority.NotANumber`), not the 0 that the comment at line 112
  promises.
- **`hasRan`.** It is set to `false` by the constructor and is never set to
  `true`. `Userscript.Load` keeps it unchanged.

Two more behaviours of the code are modelled exactly:

- **Single-line file.** When the whole file is one line,
  src/userscripts.ts:88 wraps it as `[[text]]`. `findIndex` then asks whether
  the one-element array `[text]` includes a marker, which holds only if the
  text equals that marker. So a single-line file never has metadata
  (`ScriptRecord.HeaderPresence`).
- **Settings file name.** The regular expression `/.js$/u` lets any character
  other than a line terminator stand before `js`.

## Model

| member | source | states |
|---|---|---|
| Text.SplitJoin | src/userscripts.ts:27 | joining lines that contain no line break with a separator character and splitting again on that separator gives back the same lines |
| Text.SplitJoined | src/userscripts.ts:27 | splitting on `[\r\n]` a text made of lines joined by line feeds splits each line on its own, in order |
| Text.SplitPieces | src/userscripts.ts:27 | no piece of a split on a character class holds a character of that class |
| Text.SpacedWords | src/userscripts.ts:34 | `split(/\s+/)` of tokens free of white space, separated by runs of white space of any non-zero length, gives back exactly the tokens: a run counts as one separator |
| Text.TrimBetween | src/userscripts.ts:32-33 | `trim` of a text between two stretches of white space, when the text starts and ends with other characters, is that text |
| Text.SplitOnePiece | src/userscripts.ts:87-88 | `split('\n')` yields a single element, the whole text, exactly when the text has no line feed |
| Text.ContainsInPiece | src/userscripts.ts:86-90 | a marker without line feeds that occurs in the text occurs inside one of its lines, so `findIndex` finds a line whenever `includes` succeeds |
| Metadata.ParseLine | src/userscripts.ts:32-36 | defines the per-line step: trim, drop one leading `//`, trim, split on runs of white space; the key is the first token without its first character, the value the other tokens joined by spaces (meaning proved by `ParseLineRoundTrip`) |
| Metadata.DirectivesOf | src/userscripts.ts:27-36 | defines the filter (a non-blank line naming neither marker tag) followed by the per-line step, over the lines in order |
| Metadata.Insert | src/userscripts.ts:38-40 | defines the reducer step: a new key gets the string, a string becomes a two-element list, a list grows by one (proved by `InsertSameKey`) |
| Metadata.Fold | src/userscripts.ts:31-43 | defines the reduce from the empty object over the directives in order (characterised by `FoldEntry`) |
| Metadata.Parse | src/userscripts.ts:27-43 | defines `parseMetadata`: split on `[\r\n]`, filter, parse each line, reduce |
| Metadata.Collapse | src/userscripts.ts:105-108 | defines the collapse: every list is replaced by its last element (characterised by `CollapsedEntry`) |
| Metadata.NoDirectiveLines | src/userscripts.ts:27-30 | blank lines and marker lines produce no directive; a header of only such lines parses to the empty object |
| Metadata.DirectivesOfAppend | src/userscripts.ts:27-30 | the filter and the per-line parse act line by line: the directives of two blocks of lines are those of the first followed by those of the second |
| Metadata.ParseLineRoundTrip | src/userscripts.ts:32-36 | the line `// @key w1 ... wn` gives the key `key` (the first token without its `@`) and the value `w1 ... wn` joined by single spaces, whatever white space stands before `//`, between `//` and `@key` (none included), at the end of the line, and in each non-empty run before a word |
| Metadata.SpacedNameExample | src/userscripts.ts:32-36 | the line `// @name   My  Script ` (three spaces, two spaces, a trailing space) parses to the key `name` and the value `My Script` |
| Metadata.BlankLineSkipped | src/userscripts.ts:27-30 | a line of white space alone, the empty line included, is dropped by the filter; any other line that names neither marker tag is parsed |
| Metadata.FormatLinesParse | src/userscripts.ts:27-36 | directive lines `// @key w1 ... wn`, with any white space around `//`, between the tokens and at the end that does not break the line, keys and words free of white space, and no line naming either marker tag, parse to exactly their directives, in order; any other character, `=` included, may appear |
| Metadata.HeaderRoundTrip | src/userscripts.ts:27-43 | a header block of start marker, such directive lines and end marker, joined by line feeds, parses to the fold of exactly the written directives |
| Metadata.QueryMatchWellWritten | src/userscripts.ts:29-36 | the line `// @match https://krunker.io/?game=1` passes the filter and parses to the key `match` with the whole URL as its value |
| Metadata.ChompedDirectives | src/userscripts.ts:27-30 | lines ended by `\r\n` give the directives of their text without the `\r`: the piece a `\r` leaves behind is blank and the filter drops it |
| Metadata.InsertSameKey | src/userscripts.ts:38-40 | the reducer step appends the new value to the values stored under its key: a string becomes a two-element list, a list grows by one |
| Metadata.FoldEntry | src/userscripts.ts:31-43 | a key is in the parsed object exactly when some line gives it; a key given once holds its value, a key given several times holds the list of all its values in line order |
| Metadata.CollapsedEntry | src/userscripts.ts:105-108 | after the collapse a key is present exactly when some line gives it, and it holds the value of its last occurrence |
| Metadata.RepeatedKeyExample | src/userscripts.ts:38-40 | `name` once and `match` three times parse to a string and a three-element list, and the collapse keeps `z`, the last `match` |
| JsParseInt.ParseInt | src/userscripts.ts:116 | defines `parseInt` with no radix: skip leading white space, an optional sign, `0x` or `0X` for radix 16, the longest digit run, NaN when there is none |
| JsParseInt.DecimalValue | src/userscripts.ts:116 | the digits of the decimal text of a natural number denote that number |
| JsParseInt.DecimalMagnitude | src/userscripts.ts:116 | a string of decimal digits is read whole, in radix 10 |
| JsParseInt.ParsePlain | src/userscripts.ts:116 | `parseInt` of a string of decimal digits is their value |
| JsParseInt.ParseNegative | src/userscripts.ts:116 | `parseInt` of `-` followed by decimal digits is minus their value |
| JsParseInt.ParseIntRoundTrip | src/userscripts.ts:116 | `parseInt` of the plain decimal text of an integer, an optional `-` and its digits, is that integer |
| JsParseInt.ParseIntWord | src/userscripts.ts:116 | `parseInt("abc")` is NaN |
| JsParseInt.ParseIntSuffix | src/userscripts.ts:116 | `parseInt(" 12px")` is 12: leading blanks are skipped and the digits stop at the first non-digit |
| JsParseInt.ParseIntHex | src/userscripts.ts:116 | `parseInt("0x1f")` is 31, and `parseInt("0x")` is NaN |
| ScriptRecord.HeaderLines | src/userscripts.ts:86-93 | defines the lines handed to the parser: none without both markers, the single-line `[[text]]` case, and the slice from the first start-marker line to the first end-marker line |
| ScriptRecord.HeaderMeta | src/userscripts.ts:86-108 | defines the `meta` field: the parsed header block with every list collapsed, or none when the lines are missing |
| ScriptRecord.RunAtOf | src/userscripts.ts:110 | defines `runAt`: early only when the metadata has `run-at` equal to `document.start` |
| ScriptRecord.PriorityOf | src/userscripts.ts:113-121 | defines `priority`: undefined without metadata, 0 without a `priority` key, otherwise `parseInt` of its value |
| ScriptRecord.SettingsFileName | src/userscripts.ts:178 | defines `entry.name.replace(/.js$/u, '.json')`: any character other than a line terminator followed by `js` at the end is replaced |
| ScriptRecord.FindLineFound | src/userscripts.ts:89-90 | `findIndex` returns -1 exactly when no line contains the marker; otherwise it returns the index of a line that contains it, and no earlier line contains it |
| ScriptRecord.HeaderPresence | src/userscripts.ts:86-92 | metadata exists exactly when both marker lines occur in the text and the text has more than one line |
| ScriptRecord.StartMarkerAlone | src/userscripts.ts:79-86 | a start marker without an end marker leaves no metadata, the late run time and an undefined priority, and raises no error |
| ScriptRecord.EndBeforeStart | src/userscripts.ts:92-99 | when the first end-marker line comes before the first start-marker line, the metadata is the empty object and the priority is 0 |
| ScriptRecord.MarkerLineSkipped | src/userscripts.ts:29-30 | a line holding either full marker is never parsed as a directive |
| ScriptRecord.HeaderPieces | src/userscripts.ts:87-99 | for any text with both markers, several lines and the first start-marker line no later than the first end-marker line, the metadata is the collapsed parse of the lines from the one to the other, each split again at `\r` and `\n` |
| ScriptRecord.FramedBlock | src/userscripts.ts:93-99 | a block framed by a start-marker line and an end-marker line, each line ended by `\n` or `\r\n`, parses as the text of the lines between them |
| ScriptRecord.HeaderBlock | src/userscripts.ts:89-99 | when each header line ends in `\n` or `\r\n`, the metadata is the collapsed parse of exactly the lines strictly between the first start-marker line and the first end-marker line, each without its trailing `\r`; lines with no carriage return are parsed as they are |
| ScriptRecord.RunAtDirective | src/userscripts.ts:110 | `runAt` is `document-start` exactly when the last `@run-at` directive has the value `document.start` |
| ScriptRecord.PriorityDirective | src/userscripts.ts:113-116 | with a header and no `@priority` directive the priority is 0; with one it is NaN exactly when `parseInt` of the last value is NaN, and otherwise the number `parseInt` reads from that value |
| ScriptRecord.PriorityRoundTrip | src/userscripts.ts:113-116 | a last `@priority` that is the decimal text of an integer gives that integer |
| ScriptRecord.PriorityExamples | src/userscripts.ts:113-121 | the priority is 7 for `7` and -3 for `-3`, NaN for `abc`, 0 with no directive, and undefined with no header |
| ScriptRecord.SettingsFileNameJs | src/userscripts.ts:176-178 | a name ending in `.js` gets the same name with `.json` in place of `.js` |
| ScriptRecord.SettingsFileNameInjective | src/userscripts.ts:176-178 | two different `.js` names never share a settings file |
| ScriptRecord.CollapseEntries | src/userscripts.ts:105-108 | the in-place pass over `Object.keys(meta)` yields the collapse: each key keeps its string or the last element of its list |
| ScriptRecord.ReadHeader | src/userscripts.ts:85-108 | the header steps of the constructor (both `includes` tests, the split, the two `findIndex` calls, the slice, the parse and the collapse) yield exactly the derived metadata, and no metadata when a marker is missing |
| ScriptRecord.Userscript.constructor | src/userscripts.ts:72-124 | the record's name, settings file and text are its inputs; the strict flag is the literal-prefix test; the metadata, run time and priority are derived from the text; there is no hook and no settings, and `hasRan` is false |
| ScriptRecord.Replayed | src/userscripts.ts:149-155 | defines the `changed` calls of the `forEach`: one per accepted entry in key order, ending at a call that throws or at an accepted key with no setting |
| ScriptRecord.ApplyGate | src/userscripts.ts:146-155 | defines when the replay runs: a non-empty settings object and a settings file that exists and parses |
| ScriptRecord.ReplayedPrefix | src/userscripts.ts:149-153 | the `changed` calls are a prefix of the accepted saved entries, in key order |
| ScriptRecord.ReplayedAll | src/userscripts.ts:149-153 | when every accepted key has a setting and no callback throws, `changed` is called for exactly the accepted entries |
| ScriptRecord.ReplayedStops | src/userscripts.ts:149-155 | every call goes to a declared setting, and every call before the last returned normally, so the first failure ends the replay; the replay stops short of the accepted entries only after a call that threw or at an accepted key with no setting |
| ScriptRecord.ApplyGateClosed | src/userscripts.ts:146-148 | with no settings, empty settings, a missing settings file or unparsable JSON, `changed` is never called |
| ScriptRecord.Userscript.Load | src/userscripts.ts:127-165 | the alert is raised exactly when running the script throws or it returns a primitive or null; a returned `unload` or `settings` replaces the field; the `changed` calls made are the gated replay; `hasRan` is unchanged |
| Schedule.StableOrder | src/userscripts.ts:189 | defines the visiting order of the stable sort by descending priority, as indices into the discovery order (characterised by `StableOrderCorrect`) |
| Schedule.Place | src/userscripts.ts:189 | inserting an index keeps every earlier index and adds it once |
| Schedule.PlaceOrdered | src/userscripts.ts:189 | inserting a later-discovered index into a sorted order keeps it sorted |
| Schedule.OrderPermutation | src/userscripts.ts:189 | the sort holds every index exactly once |
| Schedule.OrderSorted | src/userscripts.ts:189 | the sort puts higher priority first and, on a tie, the script discovered first |
| Schedule.StableOrderCorrect | src/userscripts.ts:189 | the visiting order is a permutation of the scripts, sorted by descending priority, with ties in discovery order |
| Schedule.StableOrderExample | src/userscripts.ts:189 | priorities A:5, B:10, C:10, D:1 are visited as B, C, A, D |
| Tracker.Seeded | src/userscripts.ts:180-182 | the seeded tracker holds every discovered name, each disabled, and nothing else |
| Tracker.Merge | src/userscripts.ts:180-183 | the merged tracker holds the discovered and the saved names; a saved value wins, and an unsaved name is disabled |
| Tracker.MergeEnabled | src/userscripts.ts:182-183 | a discovered script is enabled exactly when the saved tracker enables it |
| Tracker.MergeIdempotent | src/userscripts.ts:180-184 | reconciling the written-back tracker again changes nothing |
| Tracker.MergeExample | src/userscripts.ts:180-183 | `{A,B}` over `{}` gives `{A:false,B:false}`; over `{A:true,C:true}` it gives `{A:true,B:false,C:true}` |
| Loader.ScriptNames | src/userscripts.ts:175-176 | the discovered names are exactly the listing entries that end in `.js` |
| Loader.Pick | src/userscripts.ts:191-199 | defines a dispatch list: the indices, in sorted order, of the enabled scripts of one run time (characterised by `PickMembers` and `PickOrdered`) |
| Loader.PickMembers | src/userscripts.ts:191-193 | a script is in a dispatch list exactly when it is in the sorted order, enabled, and of that list's run time |
| Loader.PickRuns | src/userscripts.ts:191-199 | every script in a dispatch list is enabled and has that list's run time |
| Loader.PickOrdered | src/userscripts.ts:189-201 | each dispatch list is in descending priority, with ties in discovery order |
| Loader.PlanPartition | src/userscripts.ts:191-201 | every enabled script is dispatched, at once when it is `document-start` and deferred otherwise; no disabled script is dispatched |
| Loader.Loader.constructor | src/userscripts.ts:9-15 | the shared state starts with no scripts and an empty tracker |
| Loader.Loader.Discover | src/userscripts.ts:175-178 | one record per `.js` entry, in listing order, each built from its file's text with its own settings file name, not yet run: no `unload`, no settings, no `changed` call, `hasRan` false |
| Loader.Loader.ReconcileTracker | src/userscripts.ts:180-186 | the tracker becomes the merge of the discovered names with the saved tracker, and that is what is written back |
| Loader.Loader.Dispatch | src/userscripts.ts:188-201 | the scripts are reordered by the stable priority sort; the immediate list and the deferred list are the enabled `document-start` and other scripts, in that order |
| Loader.Loader.Initialize | src/userscripts.ts:169-202 | after the handler, the discovered records are one per `.js` entry in listing order, each built from its file's text; the tracker is their merge with the saved tracker and is written back; the scripts are in the stable priority order; the immediate and deferred lists are the enabled `document-start` and other scripts in that order |

## Left out

- File and process I/O (`readFileSync`, `readdirSync`, `writeFileSync`, `existsSync`, `ipcRenderer`) is left out. The directory listing, the file texts (the `read` function), the saved tracker and the settings file are inputs. The write-back of `tracker.json` is the map that `Loader.Loader.ReconcileTracker` returns.
- A missing script file and a missing or malformed `tracker.json` throw and abort the whole handler. The model takes the texts and the saved tracker as given, so these failures are not modelled.
- JSON parsing and the two-space pretty-printing of `tracker.json` are left out. The settings file is `Missing`, `Unparsable`, or its entries in `Object.keys` order. Tracker values are booleans, so the truthiness of other JSON values is not modelled.
- `pathResolve` is not modelled. A record holds its settings file name, not the full path.
- Running a script (`new Function(...).apply(...)`) is eval, so what the script does is an input: it throws, returns nothing, returns a primitive or `null`, or returns an object whose `unload` and `settings` properties are present or absent. The value of a `settings` property is a map of settings; a non-object value there is not modelled.
- `customSettingSavedJSONIsNotMalformed` lives in another file and is the parameter `accepts`. Whether a `changed` callback throws is the parameter `throws`. The callbacks' own effects are not modelled; each call is recorded in `changedCalls`.
- `errAlert`, `alert`, `strippedConsole` logging and `userscriptToggleCSS` are UI side effects. `Userscript.Load` only reports whether the alert was raised.
- Dispatch records each enabled script in `immediate` or `deferred` instead of calling `load`, because the outcome of running a script is an input to `load`. The `removeEventListener` call at src/userscripts.ts:197 removes nothing, since it receives a fresh closure, and is left out.
- Loader.Loader.Dispatch: requires every priority to be a number. With an `undefined` or `NaN` priority, `b.priority - a.priority` is NaN, and the sort treats NaN as 0, so that script ties with every other. If two numeric priorities also differ, the comparator is not consistent and the order `Array.prototype.sort` produces is implementation-defined. If no two numeric priorities differ, every comparison gives 0 and the stable sort keeps discovery order. That happens, for example, when no script has a header and every priority is `undefined`. The model leaves this case out as well.
- Loader.Loader.Initialize: requires every `.js` file to have a numeric priority, for the same reason, so the case where every priority is `undefined` is left out here too.
- JsParseInt.ParseIntRoundTrip: `String` writes a number of magnitude 10^21 or more in exponent notation, and `parseInt` then reads only its leading digits. `IntToString` always writes plain digits, so the round trip covers only the plain decimal form.
- ScriptRecord.HeaderBlock: a `\r` inside a header line, not at its end, splits that line in two for the parser. `ScriptRecord.HeaderPieces` states this case; `HeaderBlock` requires each line to hold at most a trailing `\r`.
- `key in obj` on a plain object also sees inherited names such as `constructor`, and assigning a `__proto__` key changes the prototype. Metadata is a plain map, so these quirks are not modelled.
- Strings are sequences of Unicode characters. UTF-16 surrogate pairs are not modelled.
- `parseInt` is exact on integers of any size. The rounding of very long digit strings to a double is not modelled, and neither is the sign of `-0`.
