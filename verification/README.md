# Lost-item app: a Dafny model of the `App` component

The app is a single React component (`src/App.jsx`, the `App` function) for
reporting a lost item and searching a catalog of found ones. This project
models what that component decides, as pure Dafny functions over immutable
state:

- **Seqs**: order-preserving `Filter`, the shape of `Array.prototype.filter`,
  with its subsequence and multiplicity properties.
- **Text**: `toLowerCase` as a fixed character table, and `includes` as a
  `Contains` predicate with a scanning method that decides it.
- **FormState**: the report form (three text fields and a photo list), the
  field-change handler and the photo-upload handler with its inclusive
  5 × 1024 × 1024-byte limit.
- **Matcher**: the two-record hard-coded catalog and the case-insensitive
  search over description and location.
- **App**: the screen identifier and the `renderScreen` switch, the session
  state, and one `Step` per user action or timer completion. It also holds
  the invariant every reachable state keeps, and worked scenarios.

Each timer-backed action (`submitForm`, `performSearch`) becomes two events: a
start event when the form is submitted and a completion event when the timer
fires. A running search remembers the query and screen identifier it captured
when it started, as the timer's closure does. The completion filters with that
query, not with whatever has been typed since. It moves to `"search-results"`
unless the captured screen already was that.

An event whose control is not on the shown screen, or whose button is disabled
(submit while submitting, search while searching), leaves the state unchanged.

Three facts about the code that a reader of the form might not expect:

- the session opens on the form screen, not the landing page (src/App.jsx:5);
- `handlePhotoUpload` (src/App.jsx:45-53) does not enforce the "at most 3"
  photos of the form's label (src/App.jsx:611);
- nothing clears the form after a submit (src/App.jsx:56-65).

`"no-results"` is a case of the switch, but no code path sets it. Its
component, `NoResultsScreen`, is not defined in `src/App.jsx`. The model keeps
the case as the switch has it. A search with no matches shows
`"search-results"` with an empty list.

## Model

| member | source | states |
|---|---|---|
| Seqs.Filter | src/App.jsx:75-79 | the result is no longer than the input, holds only elements of the input that pass, and holds every element that passes |
| Seqs.FilterIsSubsequence | src/App.jsx:75-79 | a filter keeps the survivors in their original relative order |
| Seqs.FilterMultiplicity | src/App.jsx:47 | a filter keeps every copy of a passing element and no copy of a failing one |
| Seqs.FilterOfAllPassing | src/App.jsx:47 | filtering a list whose elements all pass returns it unchanged |
| Seqs.FilterIdempotent | src/App.jsx:47 | filtering twice with the same test is filtering once |
| Seqs.FilterAppend | src/App.jsx:47 | filtering a concatenation concatenates the filtered parts |
| Text.Lower | src/App.jsx:77-78 | `toLowerCase` on a whole string: same length, each character lower-cased by the table |
| Text.LowerChar | src/App.jsx:77-78 | a lower-cased character is never a capital of the table; non-capitals are kept and capitals always change |
| Text.LowerIdempotent | src/App.jsx:77-78 | lower-casing an already lower-cased string changes nothing |
| Text.LowerAppend | src/App.jsx:77-78 | lower-casing a concatenation lower-cases each part |
| Text.Includes | src/App.jsx:77-78 | the scan answers true exactly when the needle occurs at some position of the haystack |
| Text.ContainsEmpty | src/App.jsx:77-78 | the empty query occurs in every string |
| Matcher.Matches | src/App.jsx:76-78 | the filter callback: the lower-cased query occurs in the lower-cased description or location; a match needs a query no longer than one of the two texts |
| Matcher.MatchIgnoresCase | src/App.jsx:76-78 | a query and its lower-cased form match exactly the same items: the match ignores the query's case |
| Matcher.Search | src/App.jsx:75-79 | the results are catalog items that match, every matching catalog item is among them, and they keep catalog order |
| Matcher.SearchEmptyQuery | src/App.jsx:75-79 | an empty query returns the whole catalog |
| Matcher.SearchPair | src/App.jsx:75-79 | on two items the search keeps each exactly when it matches, first before second |
| Matcher.CatalogRecords | src/App.jsx:18-33 | the catalog is the wallet then the umbrella, with distinct ids; each record names its station in its description, and a search for a record's station finds it |
| Matcher.WalletLetters | src/App.jsx:22 | the wallet's description has no Latin z and has 'я' only as its last letter |
| Matcher.UmbrellaLetters | src/App.jsx:29 | the umbrella's description has neither 'ш' nor a Latin z |
| Matcher.WalletQueryFindsWallet | src/App.jsx:18-25 | "кошелек" matches the wallet record |
| Matcher.StationQuerySkipsWallet | src/App.jsx:18-25 | "Курская" matches neither the wallet's description nor its station |
| Matcher.MockSearchExamples | src/App.jsx:18-33 | on the catalog, "кошелек" finds only the wallet, "Курская" only the umbrella, "zzz" nothing and "" both |
| FormState.SetField | src/App.jsx:36-42 | the named field takes the new value; the other fields and the photos keep theirs |
| FormState.SetFieldOwnValue | src/App.jsx:36-42 | writing a field's current value back leaves the form as it was |
| FormState.SetFieldOverwrites | src/App.jsx:36-42 | the later of two edits of one field wins |
| FormState.SetFieldCommutes | src/App.jsx:36-42 | edits of different fields can be applied in either order |
| FormState.FitsLimit | src/App.jsx:47 | a file is accepted when its size is at most 5 × 1024 × 1024 bytes |
| FormState.AddPhotos | src/App.jsx:45-53 | the old photos stay as a prefix; the appended ones are within the limit, come from the chosen files in their order, and include every file within the limit; the text fields are kept |
| FormState.AddPhotosCount | src/App.jsx:47-51 | each file's count among the photos grows by its count among the chosen files if it is within the limit, and not at all otherwise |
| FormState.AddPhotosTwice | src/App.jsx:49-52 | two uploads in a row add the same photos as one upload of both batches |
| FormState.AddPhotosAllFit | src/App.jsx:47 | when every chosen file is within the limit, all of them are appended |
| FormState.LimitIsInclusive | src/App.jsx:47 | a file of exactly 5 MB is kept and one of 5 MB plus one byte is dropped |
| FormState.NoPhotoCap | src/App.jsx:51 | one upload of four small files leaves four photos |
| App.Shown | src/App.jsx:92-138 | any identifier the switch does not name renders the landing screen |
| App.ScreenName | src/App.jsx:93-130 | each screen's identifier is one the switch names and renders that screen |
| App.ScreenNamesRoundTrip | src/App.jsx:93-130 | each identifier the switch names is the identifier of the screen it renders |
| App.Enabled | src/App.jsx:93-130 | which controls the shown screen offers: navigation and inputs only on their own screen, submit not while submitting (src/App.jsx:714), search not while searching (src/App.jsx:816), each timer completion only while its action runs |
| App.Navigate | src/App.jsx:96-128 | the target screen is shown and nothing else changes |
| App.StartSubmit | src/App.jsx:56-58 | the submit busy flag is raised and nothing else changes |
| App.CompleteSubmit | src/App.jsx:61-64 | the busy flag is cleared and the success screen is shown; the form and everything else are kept |
| App.StartSearch | src/App.jsx:68-70 | the search busy flag is raised, capturing the current query and screen; nothing else changes |
| App.CompleteSearch | src/App.jsx:73-87 | the results are exactly the catalog matches of the captured query, in catalog order; the busy flag is cleared; the results screen is shown unless the captured screen was it already |
| App.Step | src/App.jsx:36-138 | a control not offered (other screen, or a button disabled while busy) does nothing; each navigation leads where the switch's callbacks say and changes nothing else; a field edit sets that field, an upload is `AddPhotos`, a search-box edit changes only the query; only navigation and the two completions change the screen, only the search-box edit changes the query, only the submit events change the submit flag; only the form inputs change the form; a search's start captures the current query and screen; only a completed search changes the results, and it shows the results screen unless it started there, where it keeps the screen; no event but a search's start or completion touches the running search |
| App.InitialValid | src/App.jsx:5-15 | the session opens on the form screen with an empty form, no results, an empty search box and neither action under way, in a valid state |
| App.StepPreservesValid | src/App.jsx:36-138 | every event keeps the identifier recognised, every photo within the limit, a running search tied to the search screen, and the results a catalog subsequence |
| App.RunPreservesValid | src/App.jsx:36-138 | any sequence of events keeps the state valid |
| App.ReachableValid | src/App.jsx:5-138 | every state reachable from the start is valid |
| App.SearchEndsOnResults | src/App.jsx:68-88 | from any reachable state, a running search completes on the results screen with the matches of the query it holds |
| App.CaptureSurvives | src/App.jsx:73-86 | until a search completes, no event changes the query and screen it captured |
| App.CapturedQueryDecides | src/App.jsx:68-88 | whatever events come between a search's start and its completion, the completion shows on the results screen the matches of the query typed when it started |
| App.ReturnToForm | src/App.jsx:96-108 | going back and choosing to file a report returns to the starting state |
| App.FillReport | src/App.jsx:36-58 | filling the three fields and submitting gives that report with the submit under way |
| App.ReportScenario | src/App.jsx:36-108 | back, file a report, fill it in and submit: the report is on the form and the submit is under way |
| App.ReportSucceeds | src/App.jsx:61-64 | the filed report's submit completes on the success screen with the report kept |
| App.SubmitOutlivesNavigation | src/App.jsx:56-65 | leaving the form during a submit does not cancel it: its completion still shows the success screen |
| App.StartStationSearch | src/App.jsx:68-70 | opening the search and submitting "Курская" leaves a search running with that query |
| App.FinishStationSearch | src/App.jsx:73-87 | retyping the query to "zzz" before completion still yields the matches of "Курская" on the results screen |
| App.SearchUsesCapturedQuery | src/App.jsx:68-88 | the whole session: searching "Курская", then typing "zzz", ends with the umbrella as the only result and "zzz" in the search box |

## Left out

- Rendering: the JSX of every screen, the header and its menu, and the footer (src/App.jsx:141-1027). Only which screen is shown is modelled.
- Timers: the 1500 ms and 1000 ms delays. A completion is an event that may come at any later point, with other events in between.
- Event objects: `preventDefault` and reading `e.target`. Handlers receive the field, value or files directly.
- `handleInputChange` with an arbitrary input `name`: only the three inputs wired to it (`description`, `date`, `location`) are modelled as fields.
- The browser's `required` and `accept="image/*"` checks on the form inputs, and the unmanaged rules checkbox. They hold no state of the component.
- File contents and MIME types: a file is its identity and size.
- Photo previews through `URL.createObjectURL`, and dates shown with `toLocaleDateString`.
- `window.history.back()` on the search screens: the browser's history is not part of the component's state.
- Text.LowerChar: lower-cases only Latin A-Z, Cyrillic А-Я and Ё. Full Unicode case mapping is not modelled; the catalog and the queries here use only these letters.
- Text.Includes: scans a string of Unicode code points. JavaScript strings are UTF-16 code units, which differ only outside the Basic Multilingual Plane.
