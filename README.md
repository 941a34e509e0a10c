# Feature checklist, modelled in Dafny

The feature checklist is a single-page web app. The visitor walks through pages of website and app features and ticks the ones a project needs. The app keeps the ticked `(category, feature)` pairs and free-text project notes in `sessionStorage`. It shows a summary page grouped by category and downloads the selection as a Markdown checklist. It also counts visits in `localStorage` and can download the visit record as Markdown.

All of this lives in one class, `FeatureChecklistApp`, written twice: `frontend/app.ts` and its compiled twin `app.js`. This project models that class. The two files behave the same.

Modules, one per file:

- `records.dfy` (Records): the selected-feature and visitor records, `Option`, and JavaScript truthiness of an optional string.
- `jstext.dfy` (JsText): `trim()` and its white-space class.
- `jssort.dfy` (JsSort): `Array.prototype.sort()` on strings, as an insertion sort under the default order.
- `jsnumber.dfy` (JsNumber): `parseInt`, `+ 1` and `toString()` on the visit count, including NaN and null.
- `scan.dfy` (Scan): reading fixed text off the front of a string, shared by the JSON and Markdown readers.
- `json.dfy` (Json): `JSON.stringify` and `JSON.parse` for the two stored shapes, the feature array and the visitor record.
- `store.dfy` (Store): a storage object with `getItem` and `setItem`.
- `selection.dfy` (Selection): the list operations of the checkbox handler and of the checkbox restore.
- `summary.dfy` (Summary): the `reduce` that groups by category, the two sorts, and the summary view.
- `export.dfy` (Export): the two Markdown texts, and readers that take each text apart again.
- `visitor.dfy` (Visitor): `initializeVisitorData` as a function of the two stores.
- `persistence.dfy` (Persistence): `saveState` and `loadState` as functions of the session store.
- `app.dfy` (App): the `FeatureChecklistApp` class and the page's checkboxes. Its methods update fields and stores in place, and each is proved against the functions above.

The table cites `frontend/app.ts`. The same code sits in `app.js` at these lines: the constructor at 3-12, `initializeVisitorData` at 14-39, `loadState` at 69-83, `restoreCheckboxes` at 85-93, `saveState` at 95-98, the navigation and notes listeners at 102-134, `handleCheckboxChange` at 167-182, `navigateToPage` at 184-208, `updateSummaryPage` at 210-239, `downloadMarkdown` at 241-274 and `downloadVisitorStats` at 276-284.

JSON and `parseInt` are modelled concretely for the values the app stores. They are not assumed to round-trip: the round trips are proved.

## Model

| member | source | states |
|---|---|---|
| App.App.constructor | frontend/app.ts:15-18 | The fields start as page 1, an empty selection, empty notes and no visit record. |
| App.App.Start | frontend/app.ts:20-26 | The constructor's steps: visit record, load, display, page 1. The stores end as `Visitor.Initialize` leaves them. If the stored visit record does not parse, it fails and nothing else changes. Otherwise `visitorData` is set, and the writes made so far stay even when a later step fails. If the stored list does not parse, it fails with the list, notes and checkboxes unchanged. Otherwise the list and notes are the loaded ones, and the checkboxes are restored exactly when a list was read. It then fails exactly when the visitor-count element exists and the count is null, and the loaded state stays. On success the page is 1. The summary view never changes. |
| App.App.Resume | frontend/app.ts:22-25 | After the visit record: the list and notes are those of `Persistence.Load`, or unchanged when it fails. The checkboxes are restored exactly when a list was read and are untouched otherwise. The call fails on a parse failure or on a null count shown in the count element. The page becomes 1 exactly on success. |
| App.App.InitializeVisitorData | frontend/app.ts:29-60 | The returned record and both stores after the call are those of `Visitor.Initialize`. |
| Visitor.NextCountCases | frontend/app.ts:36 | The next count is 1 when no counter is stored (or it is empty), otherwise `parseInt` of the stored text plus one. |
| Visitor.FreshSession | frontend/app.ts:36-59 | Without a session record the count goes up by exactly one over the stored count (default 0). The counter is written so that `parseInt` reads the new count back. No other key of `localStorage` changes. The session record stored has that count, location `Unknown` and the visit time. It parses back to that record, except that a NaN count comes back as null. |
| Visitor.SameSessionAgain | frontend/app.ts:30-34 | After a call that created the session record, a later call at any time returns that record (a NaN count as null) and writes to neither store. |
| Visitor.CountsEverySession | frontend/app.ts:36-37 | Starting with no counter, after n fresh sessions the stored counter reads n. |
| Visitor.Initialize | frontend/app.ts:29-60 | With a session record stored, both stores come back unchanged. Without one, the record returned has location `Unknown` and the visit time. The session store gains exactly that record's JSON under `visitorData`, and `localStorage` gains exactly its count's text under the counter key. |
| Visitor.NextCount | frontend/app.ts:36 | The next count is never null, and it is 1 when no counter is stored or the stored text is empty. |
| JsNumber.ParseInt | frontend/app.ts:36 | `parseInt` never gives null, and text that is empty or all white space gives NaN. |
| JsNumber.ToString | frontend/app.ts:37 | `toString()` is never empty. An integer shows as decimal digits, after a minus sign exactly when it is negative. |
| Store.Storage.GetItem | frontend/app.ts:30 | `getItem` returns `Store.Get` of the items: the stored value, or None for a missing key. |
| App.App.LoadState | frontend/app.ts:91-107 | The new list and notes are those of `Persistence.Load`. The checkboxes are restored exactly when a list was read. A parse failure changes nothing. |
| App.App.RestoreCheckboxes | frontend/app.ts:110-121 | After the loop, every checkbox is ticked exactly when its pair is in the selection. |
| Selection.IsChecked | frontend/app.ts:113-118 | A box counts as selected exactly when both attributes are present and their pair is in the list. |
| Selection.Contains | frontend/app.ts:116-118 | The `some` test holds exactly when the pair is a member of the list. |
| App.App.SaveState | frontend/app.ts:125-128 | The session store afterwards is `Persistence.Saved`: the list as JSON and the notes, under their two keys. |
| Persistence.SaveLoadRoundTrip | frontend/app.ts:91-128 | Loading what was saved gives back the same list. Non-empty notes come back as saved; empty notes leave the current notes. |
| Persistence.LoadNothing | frontend/app.ts:92-106 | With nothing stored, loading keeps the initial list and notes and restores no checkbox. |
| Persistence.Saved | frontend/app.ts:125-128 | After saving, the list key holds non-empty text, so the next load always reads it. The notes key holds the notes. Every other key keeps its value. |
| Persistence.Load | frontend/app.ts:91-107 | Loading fails only when a list is stored. The checkboxes are restored exactly when non-empty list text is stored; without it the list stays. Without stored notes the notes stay. |
| Json.FeaturesText | frontend/app.ts:126 | `JSON.stringify` of the list is bracketed text, and it is `[]` exactly for the empty list. |
| Json.ParseFeatures | frontend/app.ts:96 | Only text that starts with `[` is accepted, and the empty list is read exactly from `[]`. |
| Json.ParseFeaturesOfText | frontend/app.ts:96 | `JSON.parse` of the stringified feature array gives back the same sequence, duplicates and order included. |
| Json.VisitorText | frontend/app.ts:58 | `JSON.stringify` of the record is an object text that starts with the count key and ends with `}`. |
| Json.ParseVisitor | frontend/app.ts:33 | Only text that starts with the count key is accepted, and a record read back never has a NaN count, since JSON has no NaN. |
| Json.NumberText | frontend/app.ts:58 | A count is written as `null` exactly when it is NaN or null; no integer is written as `null`. |
| Json.ParseNumber | frontend/app.ts:33 | A number read from JSON is an integer or null, never NaN. |
| Json.ParseVisitorOfText | frontend/app.ts:33 | `JSON.parse` of the stringified visitor record gives it back, except that a NaN count comes back as null. |
| Json.ParseStringOfQuote | frontend/app.ts:58 | A string literal as `JSON.stringify` writes it parses back to the same string. |
| Json.ParseNumberOfText | frontend/app.ts:58 | A count as `JSON.stringify` writes it parses back to itself; NaN, written as `null`, parses back as null. |
| App.App.HandleCheckboxChange | frontend/app.ts:207-225 | The list becomes `Toggle` of the old list. A change that passes the guard saves the state and redraws the summary. One that does not pass leaves the list, the store and the summary untouched. |
| Selection.Change.Valid | frontend/app.ts:211 | The guard lets a change through exactly when both attributes are present and non-empty. |
| Selection.Toggle | frontend/app.ts:211-221 | A change the guard stops leaves the list as it is. After a valid change, its pair is in the list exactly when the box is ticked, and ticking appends exactly that pair at the end, so the earlier entries keep their positions and the pair has one more copy. Every other pair keeps its number of copies. |
| Selection.ToggleMembership | frontend/app.ts:213-221 | After one change, a pair is selected exactly when a valid change about it ticked it, or when the change was about something else and the pair was selected before. |
| Selection.Without | frontend/app.ts:218-220 | Unticking removes every copy of the pair. Every other pair stays as often as it was there. |
| Selection.WithoutDistributes | frontend/app.ts:218-220 | The filter works on each part of the list separately, so the kept entries keep their order. |
| Selection.WithoutAbsent | frontend/app.ts:216-221 | Unticking a pair that is not in the list leaves the list as it is. |
| Selection.ReplayMembership | frontend/app.ts:207-225 | After any run of change events, a pair is selected exactly when the last valid change about it ticked it, or, with no such change, when it was selected at the start. |
| Selection.ToggleKeepsDistinct | frontend/app.ts:213-221 | The list stays free of duplicates when boxes are ticked only while their pair is absent. |
| Summary.AddFeatureEffect | frontend/app.ts:271-275 | One `reduce` step puts the feature at the end of its category's array. It appends a key exactly when it creates that array, and every other category keeps its array. |
| Summary.Group | frontend/app.ts:270-276 | The `reduce` creates a key exactly when it creates an array for it, and never creates a key twice. |
| Summary.GroupedFeatures | frontend/app.ts:270-276 | The keys of the grouped object are exactly the categories of the list. Under each key are that category's features in list order, duplicates kept. |
| Summary.FeaturesInCount | frontend/app.ts:304-310 | A feature occurs under a category exactly as often as its pair occurs in the list. |
| JsSort.Sort | frontend/app.ts:280 | The default sort returns the same elements, as a multiset, in ascending order. |
| JsSort.SortedUnique | frontend/app.ts:280-285 | Two sorted arrangements of the same elements are equal, so the sorted order does not depend on the input order. |
| Summary.Project | frontend/app.ts:280-285 | The projection has one group for each key the `reduce` created. |
| Summary.ProjectSpec | frontend/app.ts:280-317 | The categories come in ascending order, each once, and are exactly those of the list. Each category's features come in ascending order, each as often as its pair is in the list. |
| Summary.ProjectOrderIndependent | frontend/app.ts:270-285 | Two lists with the same pairs, equally often, give the same summary whatever order the boxes were ticked in. |
| Summary.ProjectEmpty | frontend/app.ts:264-267 | The projection is empty exactly when the list is empty. |
| Summary.SummaryOf | frontend/app.ts:264-291 | The view is the empty state exactly when the list is empty, and a category view is never empty. |
| App.App.UpdateSummaryPage | frontend/app.ts:260-292 | Without a summary container nothing changes. Otherwise the container shows the empty state for an empty list, and the projected categories otherwise. |
| App.App.NavigateToPage | frontend/app.ts:228-257 | The current page is always set. The summary is redrawn exactly when the page number is 10 and the container exists. |
| App.App.FollowLink | frontend/app.ts:134-137 | A navigation click goes to `parseInt` of the link's page attribute, or to page 1 when it has none. |
| App.App.EditNotes | frontend/app.ts:164-170 | Typing in the notes area sets the notes and saves both fields. |
| App.App.DownloadMarkdown | frontend/app.ts:295-332 | The text built step by step, loops included, is exactly `Export.Checklist` of the list, notes and date. |
| App.AppendBlocks | frontend/app.ts:313-319 | The grouping and both loops append exactly `Export.Blocks` of the projection: one block per sorted category. |
| App.AppendCategories | frontend/app.ts:313-319 | The outer `forEach` appends one block per sorted category, in order. |
| App.AppendBlock | frontend/app.ts:314-318 | One pass of the outer `forEach` appends exactly the category's block: heading, items and closing blank line. |
| App.AppendItems | frontend/app.ts:315-317 | The inner `forEach` appends one item line per feature, in order. |
| Export.ChecklistFraming | frontend/app.ts:296-329 | The export starts with the title line and always ends with a rule and the footer. Right after the header it says `No features selected.` for an empty list, and opens the `## Selected Features` section otherwise. |
| Export.Checklist | frontend/app.ts:296-329 | The export starts with the header (title, date line and rule) and ends with the footer. |
| Export.ChecklistReadBack | frontend/app.ts:296-329 | Provided the date and every category and feature contain no line break, reading the export back gives the date, the grouped and sorted selection, and the notes. The notes come back empty when they are blank, so their section is written exactly when `trim()` leaves something. |
| JsText.TrimEmptyIffBlank | frontend/app.ts:322 | `notes.trim()` is falsy exactly when the notes are all white space. |
| JsText.Trim | frontend/app.ts:322 | `trim()` is no longer than its input and leaves no white space at either end. |
| App.App.DownloadVisitorStats | frontend/app.ts:335-344 | The statistics text is exactly `Export.VisitorStats` of the visit record. |
| Export.VisitorStats | frontend/app.ts:336-341 | The statistics text starts with its title and ends with a rule and the footer. |
| Export.VisitorStatsReadBack | frontend/app.ts:336-341 | Provided the location and the visit time contain no line break, reading the statistics text back gives the visit record. Its count, read with `parseInt`, is the same, except that null shows as `null` and reads as NaN. |
| JsNumber.ParseIntOfToString | frontend/app.ts:36-37 | The counter written with `toString()` reads back with `parseInt` as the same integer, and NaN as NaN. |
| JsNumber.Increment | frontend/app.ts:36 | `+ 1` turns an integer into the next one and null into 1, and keeps NaN. |
| Store.Get | frontend/app.ts:30 | `getItem` gives the stored value when the key is present, and null otherwise. |
| Store.Storage.SetItem | frontend/app.ts:37 | `setItem` replaces the value under one key and leaves the other keys alone. |

## Left out

- The DOM is not modelled. Checkboxes become objects holding their two data attributes and `checked`. The summary container becomes a view value (`SummaryView`) instead of HTML, so the summary's markup and its missing HTML escaping are not captured. Only the existence of the summary container and of the visitor-count element is modelled. The page and nav-link `classList` updates, scrolling, the mobile menu and the back-to-top button are not.
- `fetchLocation` is left out. It is an asynchronous network call that later rewrites the location of the record and calls `updateVisitorDisplay`. In the model the location stays `Unknown`.
- `updateVisitorDisplay` is modelled only where it can throw, namely `toString` on a null count. The text it puts in the footer is not modelled.
- `new Date().toLocaleString` and `toLocaleDateString` are left out. The visit time and the export date are string parameters.
- `downloadFile` is left out (Blob, object URL, anchor click). The model stops at the Markdown text.
- The notes text area's `value` assignment in `loadState` is left out, because it is DOM output.
- App.App.Start: the class constructor is split into the field initialisers (`App.App.constructor`) and the rest (`Start`). Where the JavaScript constructor throws, `Start` returns false and keeps the writes made before the throw. Event listeners are not modelled, so the model does not capture that the listeners registered by `initializeEventListeners` stay live on the half-built object when `updateVisitorDisplay` throws afterwards.
- `JSON.parse` is modelled only for the text `JSON.stringify` writes for the two stored shapes: no insignificant white space, keys in that order. Any other text is a parse failure (None), although JavaScript would accept some of it and return another value.
- Json.Unescape: every `\u` escape of a surrogate code unit is refused, a well-formed pair such as `\ud83d\ude00` included, which `JSON.parse` reads as one character. The model's strings hold Unicode scalar values, not UTF-16 code units. `JSON.stringify` writes such a character as itself, so the stored texts are unaffected.
- JsSort.NoLater compares characters as Unicode scalar values. JavaScript compares UTF-16 code units, and the two orders differ only for characters outside the Basic Multilingual Plane.
- Summary.AddFeature treats every category string as an ordinary own key. Category names such as `constructor` or `__proto__`, which hit `Object.prototype` in the `reduce`, are not modelled.
- JsNumber.ParseInt reads integers only. Counts are integers in this app; numbers past 2^53, exponents and fractions are not modelled.
