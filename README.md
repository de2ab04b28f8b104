# Pre-trip checklist: a Dafny model

The pre-trip checklist is a single-page form. A driver uses it to record a
vehicle inspection: unit, mileage, driver, date and time, a checklist of
equipment answers, workshop notes and an e-mail address. The form is sent
to a webhook. Three spreadsheet CSV feeds drive the form:

- the units feed: one value per line;
- the drivers feed: one value per line;
- the checklist configuration: a header line, then
  `sectionId,sectionTitle,itemId,itemLabel,itemType` rows.

This project models the decision logic of that application and proves its
properties:

- **Feed text** (`js_text.dfy`, module `JsText`):
  - the JavaScript string operations the loaders use: `trim` over the
    ECMAScript white-space set, `split(',')`, `split(/\r?\n/)`, the
    leading byte-order-mark check and the `${n}` rendering of a status code;
  - each operation is proved against an independent formulation: split and
    join are inverses, the regex split equals splitting on line feeds and
    dropping carriage returns, trim is idempotent and empty exactly on
    blank text, and digits read back to their number.
- **Option lists** (`simple_list.dfy`, `lex_order.dfy`):
  - `fetchSimpleList` turns each non-blank line into one option whose value
    and label are the trimmed line, sorted by label;
  - the result is a sorted permutation of those options, and it is the only
    one, so the sort algorithm does not matter;
  - it has one option per non-blank line, every option comes from a line
    and every line gives an option, and a leading mark changes nothing.
- **Checklist configuration** (`checklist_config.dfy`):
  - the `forEach` fold runs as a loop method, proved equal to an
    independent definition: one section per id, in order of first
    appearance, titled by its first row, holding its rows' items in feed
    order;
  - row acceptance and type defaulting are stated as if-and-only-if rules;
  - proved facts: the header is always skipped, a leading mark changes
    nothing, each item sits in its row's section, and the sections hold one
    item per accepted row;
  - a parse/format round trip is proved for clean rows.
- **Form state** (`app.dfy`):
  - class `ChecklistAppState` holds the React state of `App`;
  - methods cover the loaders, the two change handlers, the start and the
    settling of a submission, and the rendering precedence (loading, then
    error, then sections).
- **Controls**:
  - `checklist_section.dfy`: the per-item choice of control, the answer
    lookup and the highlight rule;
  - `checklist_item.dfy`: the three radios;
  - `status_select.dfy`, `condition_select.dfy` and `two_option_select.dfy`:
    the two fixed option lists and their tints;
  - `styles.dfy`: the CSS classes as a closed set of values.
- **PIN screen** (`login.dfy`): class `LoginScreen`, with its typing
  handler and its guarded submit; `onLogin` is a parameter.

Assumptions:

- Network calls are replaced by the outcome they settled with.
- JavaScript strings are modelled as sequences of code points.
- Truthiness follows the code. `''` and `null` are both falsy, so
  `if (configError)`, `isLoading || error` and `!role` are modelled with
  `Truthy`. `checklistData[id] || ''` is modelled by `ChecklistSection.Lookup`,
  which gives `''` for a missing or empty answer.

## Model

| member | source | states |
|---|---|---|
| JsText.StripBom | pre-trip-checklist/App.tsx:53 | a leading U+FEFF is removed, exactly one character; any other text is returned unchanged |
| JsText.StripBomOnce | pre-trip-checklist/App.tsx:88 | stripping a text with one added leading mark gives back the text |
| JsText.TrimEmptyIffBlank | pre-trip-checklist/App.tsx:55 | `row.trim() === ''` holds exactly when every character is ECMAScript white space or a line terminator |
| JsText.TrimIsInfix | pre-trip-checklist/App.tsx:62 | the trimmed line is a contiguous part of the line, and only white space is cut on either side |
| JsText.IsWhitespace | pre-trip-checklist/App.tsx:55 | the characters `trim` removes: the ECMAScript WhiteSpace set (tab, vertical tab, form feed, space, U+00A0, U+FEFF and the Unicode space separators) and the LineTerminator set (LF, CR, U+2028, U+2029) |
| JsText.TrimStartShape | pre-trip-checklist/App.tsx:62 | `TrimStart` (the leading half of `trim`) gives the longest suffix that does not start with white space, and everything cut before it is white space |
| JsText.TrimEndShape | pre-trip-checklist/App.tsx:62 | `TrimEnd` (the trailing half of `trim`) gives the longest prefix that does not end with white space, and everything cut after it is white space |
| JsText.Trim | pre-trip-checklist/App.tsx:94 | `trim` gives a text no longer than the input that neither starts nor ends with white space |
| JsText.TrimUntouched | pre-trip-checklist/App.tsx:94 | a field without white space at its ends is left as it is |
| JsText.TrimIdempotent | pre-trip-checklist/App.tsx:62 | trimming twice is trimming once |
| JsText.TrimDropsLeadingBom | pre-trip-checklist/App.tsx:53 | U+FEFF counts as white space for `trim` |
| JsText.SplitOn | pre-trip-checklist/App.tsx:94 | `split(',')` gives at least one piece, and no piece holds the separator |
| JsText.JoinSplit | pre-trip-checklist/App.tsx:94 | joining the pieces of a split with the separator gives back the text |
| JsText.SplitJoin | pre-trip-checklist/App.tsx:94 | splitting a join of separator-free pieces gives back the pieces |
| JsText.SplitNoSep | pre-trip-checklist/App.tsx:94 | a text without the separator is one piece |
| JsText.SplitPrefix | pre-trip-checklist/App.tsx:94 | a separator-free prefix followed by the separator splits off as the first piece |
| JsText.JoinAvoids | pre-trip-checklist/App.tsx:94 | a character in no piece, other than the separator, is not in the join |
| JsText.SplitLines | pre-trip-checklist/App.tsx:55 | `split(/\r?\n/)` gives at least one line, and no line holds a line feed |
| JsText.SplitLinesViaLineFeeds | pre-trip-checklist/App.tsx:90 | the regex split equals splitting on `\n` and dropping one trailing `\r` from every line but the last |
| JsText.DropCr | pre-trip-checklist/App.tsx:90 | one trailing carriage return is removed if there is one, and the text is unchanged otherwise |
| JsText.DropCrButLast | pre-trip-checklist/App.tsx:90 | dropping carriage returns keeps the number of lines |
| JsText.SplitLinesNoLineFeed | pre-trip-checklist/App.tsx:55 | a text without a line feed is one line |
| JsText.SplitLinesPrefix | pre-trip-checklist/App.tsx:90 | a first line without a final `\r` splits off unchanged |
| JsText.SplitLinesFirstLine | pre-trip-checklist/App.tsx:90 | any first line splits off, with its carriage return dropped |
| JsText.SplitLinesCarry | pre-trip-checklist/App.tsx:90 | a character other than a line break joins the front of the first line, and the later lines are unchanged |
| JsText.Lines | pre-trip-checklist/App.tsx:53-55 | the lines of a feed, mark stripped: always at least one |
| JsText.LinesIgnoreBom | pre-trip-checklist/App.tsx:53-55 | a feed with one leading mark has the lines of the feed without it |
| JsText.Decimal | pre-trip-checklist/App.tsx:160 | `${response.status}` is a non-empty string of decimal digits |
| JsText.DecimalRoundTrip | pre-trip-checklist/App.tsx:160 | the digits read back to the status, and only 0 has a leading zero |
| LexOrder.LexLeReflexive | pre-trip-checklist/App.tsx:64 | the label order (code-point lexicographic in place of `localeCompare`) is reflexive |
| LexOrder.LexLeTotal | pre-trip-checklist/App.tsx:64 | any two labels are comparable |
| LexOrder.LexLeAntisymmetric | pre-trip-checklist/App.tsx:64 | labels that compare both ways are equal |
| LexOrder.LexLeTransitive | pre-trip-checklist/App.tsx:64 | the label order is transitive |
| SimpleList.NonBlank | pre-trip-checklist/App.tsx:55 | the `filter` keeps at most the lines it was given |
| SimpleList.NonBlankCount | pre-trip-checklist/App.tsx:55 | the `filter` keeps exactly as many lines as are not blank |
| SimpleList.NonBlankOrigin | pre-trip-checklist/App.tsx:55 | every kept line is a non-blank line of the input |
| SimpleList.NonBlankKeeps | pre-trip-checklist/App.tsx:55 | every non-blank line of the input is kept |
| SimpleList.ToOptions | pre-trip-checklist/App.tsx:61-63 | one option per row, with value and label both the trimmed row |
| SimpleList.Insert | pre-trip-checklist/App.tsx:64 | inserting into a sorted list keeps it sorted and adds exactly that option |
| SimpleList.SortByLabel | pre-trip-checklist/App.tsx:64 | the sort is sorted by label and a permutation of its input, duplicates kept |
| SimpleList.ParseSimpleList | pre-trip-checklist/App.tsx:52-66 | the options are sorted by label and are a permutation of the options of the non-blank lines |
| SimpleList.ParseSimpleListSize | pre-trip-checklist/App.tsx:55-63 | there is exactly one option per non-blank line |
| SimpleList.ParseSimpleListSelfLabelled | pre-trip-checklist/App.tsx:62-63 | every option has `value == label` |
| SimpleList.ParseSimpleListSound | pre-trip-checklist/App.tsx:55-63 | every option is the trimmed form of some non-blank line |
| SimpleList.OptionOrigin | pre-trip-checklist/App.tsx:55-63 | every option built from the kept lines is the trimmed form of a non-blank input line |
| SimpleList.ParseSimpleListComplete | pre-trip-checklist/App.tsx:55-63 | every non-blank line contributes its option |
| SimpleList.ParseBlankText | pre-trip-checklist/App.tsx:56-59 | an empty or all-blank text gives `[]` |
| SimpleList.BlankLinesDropped | pre-trip-checklist/App.tsx:55 | blank lines are all dropped |
| SimpleList.SortedPermutationUnique | pre-trip-checklist/App.tsx:64 | two sorted permutations of self-labelled options are equal, so the result does not depend on the sort algorithm |
| SimpleList.ParseSimpleListIgnoresBom | pre-trip-checklist/App.tsx:53 | a leading mark does not change the options |
| SimpleList.BomLineSameOptions | pre-trip-checklist/App.tsx:53-63 | a mark at the start of the first line does not change any option |
| ChecklistConfig.Fields | pre-trip-checklist/App.tsx:94 | one trimmed field per comma piece |
| ChecklistConfig.FieldEmpty | pre-trip-checklist/App.tsx:94-95 | a destructured field is falsy exactly when it is missing or blank |
| ChecklistConfig.ParseRow | pre-trip-checklist/App.tsx:94-99 | a line is accepted iff it has at least four comma pieces and none of the first four is blank; the row holds the trimmed fields, and the type is the trimmed fifth piece or `'default'` when that is missing or blank; later pieces are ignored |
| ChecklistConfig.ParseFormatRow | pre-trip-checklist/App.tsx:94-99 | a row of clean fields written as a line parses back to itself |
| ChecklistConfig.CleanFieldKept | pre-trip-checklist/App.tsx:94-95 | a clean field is accepted as not blank and `trim` keeps it unchanged |
| ChecklistConfig.EmptyTypeIsDefault | pre-trip-checklist/App.tsx:99 | an empty or missing fifth field gives type `'default'` |
| ChecklistConfig.Body | pre-trip-checklist/App.tsx:88-90 | `.split(/\r?\n/).slice(1)`: the lines after the header; `BodyAfterHeader` proves what this means for any header |
| ChecklistConfig.AcceptedRows | pre-trip-checklist/App.tsx:93-95 | there are no more accepted rows than lines |
| ChecklistConfig.FirstAppearances | pre-trip-checklist/App.tsx:96-98 | the section order holds each id once, exactly the ids of the rows, ordered by first appearance |
| ChecklistConfig.SectionMap | pre-trip-checklist/App.tsx:96-99 | one section per id of the accepted rows |
| ChecklistConfig.Grouped | pre-trip-checklist/App.tsx:96-99 | the intended configuration lists every section exactly once in its key order |
| ChecklistConfig.GroupedSnoc | pre-trip-checklist/App.tsx:96-99 | one row more appends its item to its section, or creates the section with the row's title and appends the id to the order |
| ChecklistConfig.Place | pre-trip-checklist/App.tsx:96-99 | one intended step: the row's id becomes a key, its item goes last in that section, other sections are unchanged, and well-formedness is kept |
| ChecklistConfig.FoldRows | pre-trip-checklist/App.tsx:91-101 | the rows placed one by one, starting from `{}`, give a well-formed configuration |
| ChecklistConfig.FoldRowsGrouped | pre-trip-checklist/App.tsx:93-101 | placing the rows one by one builds the grouping by first appearance |
| ChecklistConfig.ParseChecklistConfig | pre-trip-checklist/App.tsx:87-101 | the loop builds the intended configuration of the feed, which is well formed |
| ChecklistConfig.FoldLines | pre-trip-checklist/App.tsx:93-101 | the `forEach` over the lines ends in the fold of their accepted rows |
| ChecklistConfig.AddRow | pre-trip-checklist/App.tsx:96-99 | creating a missing section with the row's title and pushing the item is one step of the fold |
| ChecklistConfig.FoldStep | pre-trip-checklist/App.tsx:93-100 | one more line places its row exactly when it is accepted |
| ChecklistConfig.BodyAfterHeader | pre-trip-checklist/App.tsx:88-90 | the body is the lines after the first, whatever the first line holds, mark and carriage return included |
| ChecklistConfig.HeaderIgnored | pre-trip-checklist/App.tsx:90 | the header line never contributes to the configuration |
| ChecklistConfig.ConfigIgnoresBom | pre-trip-checklist/App.tsx:88 | a leading mark does not change the configuration |
| ChecklistConfig.ItemsOfPositions | pre-trip-checklist/App.tsx:99 | a section's items are exactly the items of the rows with its id, in feed order |
| ChecklistConfig.RowPlaced | pre-trip-checklist/App.tsx:96-99 | every accepted row's id is a section key and its item is in that section |
| ChecklistConfig.SectionTitleFirst | pre-trip-checklist/App.tsx:96-98 | a section's title is the title of the first accepted row with its id; later titles are ignored |
| ChecklistConfig.GroupedItemCount | pre-trip-checklist/App.tsx:99 | the sections hold as many items as there are accepted rows |
| ChecklistConfig.Get | pre-trip-checklist/App.tsx:96 | `newConfig[sectionId]` is an own section for a key, an inherited member for an `Object.prototype` name, and `undefined` otherwise |
| ChecklistConfig.PlaceAsWritten | pre-trip-checklist/App.tsx:96-99 | one step as written: create a section when the lookup is `undefined`, then push onto the result of the lookup; a push onto an inherited member throws, giving `None` |
| ChecklistConfig.FoldAsWritten | pre-trip-checklist/App.tsx:91-101 | the `forEach` as written, from `{}`; a throw at any row loses the whole result |
| ChecklistConfig.ParseConfigAsWritten | pre-trip-checklist/App.tsx:87-106 | as written, the feed is lost exactly when an accepted row's id is an `Object.prototype` name; otherwise the result is the intended configuration |
| ChecklistConfig.FoldAsWrittenOutcome | pre-trip-checklist/App.tsx:93-101 | as written, the fold throws iff some accepted row's id is an inherited name, and otherwise builds the intended configuration |
| ChecklistConfig.PlaceAsWrittenOwn | pre-trip-checklist/App.tsx:96-99 | as written, a step for an id that is not inherited does what the intended step does |
| ChecklistConfig.PlaceAsWrittenInherited | pre-trip-checklist/App.tsx:96-99 | as written, a step for an inherited id throws |
| ChecklistConfig.SingleRowFeed | pre-trip-checklist/App.tsx:88-95 | a header and one clean row give exactly that row |
| ChecklistConfig.InheritedNameLosesConfig | pre-trip-checklist/App.tsx:96-106 | the feed `h` / `toString,T,i,L,status` loses its whole configuration as written, while the intended one has that section |
| App.EmptyForm | pre-trip-checklist/App.tsx:117-124 | the empty form has exactly the six fields, all `''` |
| App.SettledList | pre-trip-checklist/App.tsx:46-74 | the state a `fetchSimpleList` call settles in: the parsed list with no error, or `[]` and the message; its meaning is proved by `SettledListMeaning` |
| App.SettledListMeaning | pre-trip-checklist/App.tsx:46-74 | a settled list is not loading; a fetched one has no error and one sorted self-labelled option per non-blank line; a failed one has no options and the message |
| App.Payload | pre-trip-checklist/App.tsx:145 | the payload holds every form field under its name and the answers under `checklist` |
| App.PayloadRoundTrip | pre-trip-checklist/App.tsx:145 | the form and the answers can be read back from the payload |
| App.ServerErrorMessage | pre-trip-checklist/App.tsx:160 | the error a non-ok response throws: `Error del servidor: <status> - <body>` |
| App.FailureAlert | pre-trip-checklist/App.tsx:158-164 | the alert of a failed submission: the fixed prefix, then the server error, the thrown message, or `Error desconocido` when the throw has none |
| App.RejectionAlertStatus | pre-trip-checklist/App.tsx:158-164 | a non-ok response's alert names the status and the body, and the status reads back from it |
| App.SectionViews | pre-trip-checklist/App.tsx:178-189 | one card per section key |
| App.SectionViewAt | pre-trip-checklist/App.tsx:178-189 | card `k` is the section under the `k`-th key, rendered without highlight |
| App.ControlsMatchItems | pre-trip-checklist/App.tsx:178-189 | the cards hold one control per item of the configuration |
| App.OneControlPerAcceptedRow | pre-trip-checklist/App.tsx:93-101 | a loaded feed renders exactly one control per accepted row |
| App.ChecklistAppState.constructor | pre-trip-checklist/App.tsx:25-35 | both lists and the configuration start loading with no error and no data; the form is empty, there are no answers, and no submission is in progress |
| App.ChecklistAppState.LoadUnits | pre-trip-checklist/App.tsx:112 | the units list settles with the feed's options, or with no options and the units message; nothing else changes |
| App.ChecklistAppState.LoadDrivers | pre-trip-checklist/App.tsx:113 | the drivers list is parsed like the units list, with the drivers message; nothing else changes |
| App.ChecklistAppState.LoadChecklistConfig | pre-trip-checklist/App.tsx:81-109 | a fetched feed sets the intended configuration and clears the error, and for a feed with no `Object.prototype` section id that is what the handler as written produces; a failure sets the message and keeps the old configuration; loading ends; nothing else changes |
| App.ChecklistAppState.HandleInputChange | pre-trip-checklist/App.tsx:129-132 | only the form field `name` changes, to `value` |
| App.ChecklistAppState.HandleChecklistChange | pre-trip-checklist/App.tsx:134-137 | only the answer under `name` changes, to `value` |
| App.ChecklistAppState.HandleSubmit | pre-trip-checklist/App.tsx:139-145 | submitting starts, and the payload is the form plus the answers; nothing else changes |
| App.ChecklistAppState.SubmitSettled | pre-trip-checklist/App.tsx:154-167 | an ok response empties the form and the answers; a rejection or a throw keeps both and alerts the error; submitting ends in every case |
| App.ChecklistAppState.RenderChecklistSections | pre-trip-checklist/App.tsx:170-192 | loading wins over a truthy error, an error over a configuration, and nothing is shown otherwise; one card per section key |
| ChecklistSection.Lookup | pre-trip-checklist/components/ChecklistSection.tsx:32 | the stored answer, or `''` when there is none |
| ChecklistSection.ControlFor | pre-trip-checklist/components/ChecklistSection.tsx:26-57 | the `if` chain on the item type; `ControlKind` and `ControlShowsAnswer` prove which control it picks and what it shows |
| ChecklistSection.Render | pre-trip-checklist/components/ChecklistSection.tsx:23-25 | the card keeps the title and has one control per item |
| ChecklistSection.ControlKind | pre-trip-checklist/components/ChecklistSection.tsx:26-57 | type `status` gives the status select; `condition` gives the condition select; any other type gives the radios |
| ChecklistSection.ControlShowsAnswer | pre-trip-checklist/components/ChecklistSection.tsx:32-53 | each control is named by its item id; a select shows the stored answer; the radios show it when it is one of theirs, and nothing otherwise |
| ChecklistSection.HighlightRule | pre-trip-checklist/components/ChecklistSection.tsx:55 | a control is highlighted iff `highlightFirst`, index 0 and the radio path all hold |
| ChecklistSection.AnswerRoundTrip | pre-trip-checklist/components/ChecklistSection.tsx:25-57 | storing a value under a control's name shows that value there and changes no control of an item with another id |
| ChecklistItem.RadioOption | pre-trip-checklist/components/ChecklistItem.tsx:12-28 | one radio, with element id `${id}-${value}`; `ElementIdShape` and `ElementIdsDistinct` prove the ids' shape and distinctness |
| ChecklistItem.Render | pre-trip-checklist/components/ChecklistItem.tsx:30-44 | three radios `bueno`, `malo`, `na` in that order, all named by the id; each is checked iff it equals the selected value; the row is highlighted iff asked |
| ChecklistItem.AtMostOneChecked | pre-trip-checklist/components/ChecklistItem.tsx:39-41 | no two radios are checked together |
| ChecklistItem.CheckedIffKnown | pre-trip-checklist/components/ChecklistItem.tsx:39-41 | some radio is checked iff the value is one of the three; `''` checks none |
| ChecklistItem.ElementIdShape | pre-trip-checklist/components/ChecklistItem.tsx:15-18 | a radio's element id is the item id, a dash and its value |
| ChecklistItem.ElementIdsDistinct | pre-trip-checklist/components/ChecklistItem.tsx:18 | the element ids of the three radios are pairwise distinct |
| TwoOptionSelect.EnabledEntries | pre-trip-checklist/components/StatusSelect.tsx:29-31 | exactly the two values can be picked, and the placeholder cannot |
| TwoOptionSelect.TintMarksChoice | pre-trip-checklist/components/StatusSelect.tsx:11-15 | the select is tinted iff its value is a pickable option |
| TwoOptionSelect.TintsDistinct | pre-trip-checklist/components/ConditionSelect.tsx:11-15 | the good value is green, the bad one red, and `''` white |
| StatusSelect.GetBgColor | pre-trip-checklist/components/StatusSelect.tsx:11-15 | `Vigente` is green, `Vencido` red, and anything else white |
| StatusSelect.Options | pre-trip-checklist/components/StatusSelect.tsx:29-31 | the placeholder `''` (disabled), then `Vigente`, then `Vencido` |
| StatusSelect.Render | pre-trip-checklist/components/StatusSelect.tsx:22-27 | element id and name are the item id; value, options and tint are as given |
| StatusSelect.TintedIffPickable | pre-trip-checklist/components/StatusSelect.tsx:11-31 | a status is tinted iff it is one of the two pickable options |
| ConditionSelect.GetBgColor | pre-trip-checklist/components/ConditionSelect.tsx:11-15 | `Normal` is green, `Falla` red, and anything else white |
| ConditionSelect.Options | pre-trip-checklist/components/ConditionSelect.tsx:29-31 | the placeholder `''` (disabled), then `Normal`, then `Falla` |
| ConditionSelect.Render | pre-trip-checklist/components/ConditionSelect.tsx:22-27 | element id and name are the item id; value, options and tint are as given |
| ConditionSelect.TintedIffPickable | pre-trip-checklist/components/ConditionSelect.tsx:11-31 | a condition is tinted iff it is one of the two pickable options |
| Login.SubmitDisabled | pre-trip-checklist/components/LoginScreen.tsx:60 | the submit button is disabled while loading or while an error is truthy |
| Login.LoginScreen.constructor | pre-trip-checklist/components/LoginScreen.tsx:10-11 | the PIN and the error start empty |
| Login.LoginScreen.HandlePinChange | pre-trip-checklist/components/LoginScreen.tsx:43-46 | the PIN becomes the typed value and the error is cleared |
| Login.LoginScreen.HandleSubmit | pre-trip-checklist/components/LoginScreen.tsx:13-22 | `onLogin` is called with the current PIN iff the button is enabled (line 60); a falsy role sets the incorrect-code message and clears the PIN; otherwise nothing changes |

## Findings

| source | as written | input that shows it | evidently intended | confidence | as-written member | corrected member |
|---|---|---|---|---|---|---|
| pre-trip-checklist/App.tsx:96-99 | `newConfig` is a plain object literal. For a section id such as `toString`, `constructor` or `__proto__`, `!newConfig[sectionId]` finds the inherited member, so no section is created. `.items.push` on it then throws. The catch sets the error, and the whole configuration is lost. | the feed `h` followed by the line `toString,T,i,L,status` | the row is placed in a section `toString` like any other id | medium, not executed | ChecklistConfig.InheritedNameLosesConfig | ChecklistConfig.ParseChecklistConfig |

## Left out

- Network and browser effects are replaced by parameters: `fetch`, `response.text()`, `alert`, `console.error` and the feed and webhook URLs. Each fetch becomes a `FetchOutcome` or a `SubmitOutcome`, and the alert text is returned.
- `useEffect`, and the async order of the three loads and of a submission:
  - each loader is one method from start to settling;
  - `setLoading(true)` / `setError(null)` at the start of a load are not observable on their own;
  - the submission is split into `HandleSubmit` and `SubmitSettled`.
- The message of a thrown `fetch` error is engine-specific, so it is a parameter of `Threw`. A throw from `response.text()` is not modelled.
- `localeCompare` depends on the locale. Labels are ordered by code-point lexicographic order instead.
- The `Object.keys` order is taken to be insertion order. Engines list integer-like keys first, and that is not modelled.
- JavaScript strings are UTF-16. They are modelled as sequences of code points, and no case folding or normalisation is done.
- JSON serialisation of the payload is left out. The payload is a map.
- JSX markup and CSS class strings are left out. Tints and row styles are enum values.
- `Card.tsx`, `TextInput.tsx`, `DateTimeInput.tsx`, `SelectInput.tsx` and `EditableSelectInput.tsx` only pass props into markup. `TextAreaInput` is not part of this model.
- `ChecklistSection.Lookup`: an item id that is an `Object.prototype` name reads an inherited member from `checklistData`. The model returns `''` for a missing key.
- An item with no `type` cannot come out of the parser. The model's items always carry a type string.
- Behaviour not present in these source files is not modelled:
  - PIN-to-role rules and the persistence of a role;
  - blocking of guest submissions;
  - a type override for a `unitCondition` section;
  - a header skip or PIN column in the drivers feed (`App.tsx` parses drivers with the units parser);
  - loading the configuration only after a login;
  - a timed dismissal of the success message.
- App.ChecklistAppState.LoadChecklistConfig: for a fetched feed with an accepted row whose section id is an `Object.prototype` name, the handler as written sets the configuration error and keeps the old configuration. The model loads the intended configuration instead, the corrected behaviour in the Findings table. For every other feed, its contract proves it agrees with `ChecklistConfig.ParseConfigAsWritten`.
- `ChecklistConfig.ParseChecklistConfig` looks up own keys only. It follows the corrected behaviour in the Findings table, and `ChecklistConfig.ParseConfigAsWritten` models the source as written.
