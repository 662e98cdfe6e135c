# Repository list widget — a verified Dafny model

The widget lets a user search a repository-hosting API by name. Suggestions appear
after a debounce delay, and the user can keep a personal list of repositories that
is persisted in browser local storage. All of its logic lives in `src/index.js`.

This project models that logic as a functional state machine. One immutable
`Widget.State` holds what the JavaScript keeps in module variables, page elements,
the debounce timer and local storage:

- the list (`repositories`);
- the storage slot;
- the rendered list;
- the suggestion rows and panel visibility;
- the pushed-down mark;
- the input text;
- the pending search;
- a log of the searches issued.

Each handler is a pure transition over that state.

Modules, one per component:

- `Records`: search items, stored records, and the id predicates.
- `Text`: ECMAScript `String.prototype.trim`.
- `Store`: the list operations of `addRepository` and `removeRepository`, plus the `find` loop.
- `Suggestions`: the filter of `showSuggestions`.
- `ListView`: `showRepositories` as a pure render.
- `Widget`: state, handlers, invariant, and debounce.
- `Scenarios`: concrete runs.

Abstractions:

- The network is replaced by a `SearchOutcome` input. It is either `Failed` or
  `Answered` with an optional item list. A response may arrive in any state and is
  not matched to the request that caused it, just as in the source, so stale
  responses are part of the model.
- The 2000 ms timer is a pending-query slot plus an explicit `TimerFired` event.
- Local storage is a slot holding `Option<seq<Repo>>`, and JSON encoding is
  abstracted away.
- The DOM is reduced to the state fields above. A click on the page carries a
  boolean saying whether it was inside the search box.

Behaviour of the code worth noting, which the model keeps:

- An input that trims to empty hides the panel but does **not** cancel an already
  pending search: the early return at `src/index.js:136-139` comes before
  `clearTimeout` at line 141. `Widget.OnInput` keeps the pending search.
- With no stored snapshot, `loadRepositories` leaves the list as it is
  (src/index.js:124); at start-up the list is empty anyway.
- A malformed snapshot makes `JSON.parse` (src/index.js:125) throw out of
  `initApp`; JSON is abstracted, so this is not modelled.

## Model

| member | source | states |
|---|---|---|
| Text.Trim | src/index.js:134 | the trimmed query is empty exactly when the input is all white space; otherwise it has no white space at either end |
| Text.TrimPadded | src/index.js:134 | surrounding a trimmed query with any white space and trimming returns the query, which characterises trim completely |
| Text.TrimIdempotent | src/index.js:134 | trimming twice is trimming once |
| Records.Project | src/index.js:71-76 | no contract; models the projection of a search item into a stored record `{id, name, owner: owner.login, stars: stargazers_count}` |
| Store.FindById | src/index.js:66 | `find` returns nothing exactly when no record has the id; otherwise it returns the first record with that id |
| Store.Add | src/index.js:65-78 | a listed id leaves the list unchanged; otherwise exactly one record is appended: the projection `{id, name, owner.login, stargazers_count}`. Earlier records keep their place, and ids stay unique |
| Store.Remove | src/index.js:87 | the filter of `removeRepository`; its own contract only bounds the result by the input's length (meaning in the rows below) |
| Store.RemoveMembers | src/index.js:87 | no record with the id remains; every other record is kept; removing an absent id changes nothing |
| Store.RemoveIdempotent | src/index.js:87 | removing twice equals removing once |
| Store.RemoveIsSubsequence | src/index.js:87 | the remaining records keep their relative order |
| Store.RemoveMultiset | src/index.js:87 | each record carrying the id is kept zero times; every other record is kept exactly as many times as the list held it, so duplicate records all survive |
| Store.RemoveAppend | src/index.js:87 | removal distributes over concatenation, so order is preserved piecewise |
| Store.RemoveUndoesAdd | src/index.js:65-87 | adding an unlisted repository and then removing its id gives back the original list |
| Store.RemoveKeepsUnique | src/index.js:87 | removal keeps ids unique |
| Store.RemoveAt | src/index.js:87 | with unique ids, removing the id of record `i` removes exactly record `i` |
| Suggestions.FreshItems | src/index.js:30-34 | the filter of `showSuggestions`; its own contract only bounds the result by the input's length (meaning in the rows below) |
| Suggestions.FreshItemsMembers | src/index.js:30-39 | an item is offered exactly when the search returned it and its id is not listed; nothing is offered exactly when every returned id is listed |
| Suggestions.FreshItemsIsSubsequence | src/index.js:30-34 | offered items keep the order of the search results |
| Suggestions.FreshItemsAppend | src/index.js:30-34 | the filter distributes over concatenation of the result list |
| Suggestions.FreshItemsEmptyStore | src/index.js:30-34 | with an empty list every search item is offered |
| Suggestions.FilterFresh | src/index.js:30-34 | the per-item `find` loop computes exactly the reference filter |
| ListView.Render | src/index.js:93-116 | an empty list renders exactly one placeholder; otherwise one row per record, in list order, with name, owner, stars and a remove control bound to the record's id; the placeholder appears only for the empty list |
| ListView.RenderInjective | src/index.js:93-116 | two lists that render the same are the same list |
| ListView.RemoveTargets | src/index.js:111 | the rendered remove controls are bound to exactly the listed ids |
| ListView.RemoveRow | src/index.js:111 | with unique ids, row `i`'s remove control removes exactly record `i` |
| Widget.Hide | src/index.js:59-62 | no contract; models `hideSuggestions`: panel hidden, pushed-down mark removed |
| Widget.Save | src/index.js:118-120 | no contract; models `saveRepositories`: the storage slot is overwritten with the whole list |
| Widget.ShowRepositories | src/index.js:93-116 | no contract; models `showRepositories` as replacing the list container with `ListView.Render` of the list |
| Widget.Load | src/index.js:122-127 | a stored snapshot replaces the list, after which memory mirrors storage; no snapshot leaves the state unchanged |
| Widget.Start | src/index.js:129-131 | after start-up, storage mirrors the list and the view renders it; empty storage shows the placeholder; a snapshot with unique ids establishes the invariant |
| Widget.AddRepository | src/index.js:65-83 | a listed id leaves the whole state unchanged; otherwise the record is appended, storage holds the new list, the view renders it, the input is '' and the panel is hidden, and pending search and log are untouched; the invariant is kept |
| Widget.RemoveRepository | src/index.js:86-90 | the list becomes the filter `Store.Remove` of the old one, so by Store.RemoveMultiset every copy of every other record stays; records with the id leave, the others stay in order, an absent id leaves the list unchanged, storage and view follow the new list, and nothing else changes |
| Widget.ShowSuggestions | src/index.js:26-56 | the panel holds the unlisted items; it is visible, and the list pushed down, exactly when there is at least one; nothing else changes |
| Widget.OnResponse | src/index.js:14-22 | the panel ends up visible exactly when the response has items and at least one is unlisted, and then shows exactly those; a failure or a missing or empty list hides it |
| Widget.OnInput | src/index.js:133-146 | a blank input hides the panel and leaves the pending search as it was; any other input makes the pending search its trimmed query (a non-empty piece of the text); no search is issued |
| Widget.TimerFires | src/index.js:143-145 | a pending query is appended to the search log once and the timer is cleared; with no timer nothing happens |
| Widget.OnPageClick | src/index.js:148-152 | a click outside the search box hides the panel and clears the pushed-down mark; nothing else changes |
| Widget.Step | src/index.js:47-49 | no contract; models the dispatch of one event to its handler, a click on a visible suggestion row reaching `addRepository` with that row's item (properties in Widget.StepFacts and Widget.StepKeepsInv) |
| Widget.StepFacts | src/index.js:129-152 | no event shrinks the search log or breaks the storage mirror; only picking and removing touch the list or storage |
| Widget.Run | src/index.js:129-152 | over any run of events the search log only grows and storage keeps mirroring the list |
| Widget.StepKeepsInv | src/index.js:129-152 | every event keeps the invariant: unique ids, storage mirroring the list, view equal to the render, pushed-down mark following the panel, a visible panel offering only unlisted repositories, and a pending query that is trimmed and non-empty |
| Widget.RunKeepsInv | src/index.js:129-152 | every run of events keeps that invariant |
| Widget.AddRepositoryIdempotent | src/index.js:65-83 | adding the same repository twice leaves the whole widget as adding it once |
| Widget.RemoveRepositoryIdempotent | src/index.js:86-90 | removing twice leaves the whole widget as removing once |
| Widget.ReloadRestores | src/index.js:118-127 | after any handled events, a reload from storage restores the list exactly, in order, with the invariant |
| Widget.InputsLeaveLatestQuery | src/index.js:133-146 | after any keystrokes, at most one search is pending, for the latest non-blank trimmed query (or the earlier one if all were blank); no search was issued and the list is unchanged |
| Widget.DebounceSearchesOnce | src/index.js:141-145 | keystrokes then the timer issue exactly one search, for the latest non-blank query, or none when no search is pending; a second firing issues nothing more |
| Scenarios.SuggestionFilterExample | src/index.js:30-34 | with id 42 listed, results 42, 43, 44 offer 43 and 44 in that order |
| Scenarios.DebounceExample | src/index.js:141-145 | keystrokes "f", "fo", "foo" then the timer issue exactly one search, "foo" |
| Scenarios.SearchScenario | src/index.js:129-146 | from empty storage the placeholder shows; typing "foo" and letting the timer fire issues exactly one search, "foo" |
| Scenarios.ResponseScenario | src/index.js:14-15 | a response with the single item 7 "foo-repo" shows that item as the only suggestion, with the list pushed down |
| Scenarios.PickScenario | src/index.js:65-83 | picking that suggestion shows one row "foo-repo / alice / 10", stores exactly that record, clears the input and hides the panel |
| Scenarios.RemoveScenario | src/index.js:86-97 | removing that record brings back the placeholder and stores an empty list |

## Left out

- The `fetch` call and its URL (src/index.js:11-12) are not modelled; a response is an input. The query is interpolated into the URL without encoding, and the effect of that is not modelled. The `per_page=5` bound is not enforced on responses.
- The 2000 ms delay is not modelled. Time is reduced to the order of `Input` and `TimerFired` events.
- Storage is assumed to succeed. In the source, `localStorage.setItem` (src/index.js:119) and `localStorage.getItem` (src/index.js:123) can throw (quota exceeded, storage disabled), and nothing catches it. A throw in `addRepository` leaves the record pushed (line 78) but the save at line 79 does not complete and rendering, clearing the input and hiding the panel (lines 80-82) are skipped; a throw in `removeRepository` leaves the list filtered (line 87) but the save at line 88 does not complete and rendering (line 89) is skipped; a throw at start-up aborts `initApp`. The model has no failing slot, so Widget.Inv, Widget.StepKeepsInv, Widget.Run and Widget.AddRepository's promise that storage mirrors the list hold only under that assumption.
- JSON encoding, `JSON.parse` failure on a malformed snapshot, and a stored empty string (falsy in `if (saved)`) are not modelled. Storage holds a list or nothing.
- Widget.Start: establishes the invariant only from a snapshot with unique ids. A snapshot edited outside the widget may hold duplicates, which the source does not check.
- DOM details are not modelled: `innerHTML` templates, CSS classes, `closest('.search-box')` (reduced to a boolean), and the global binding of the inline `onclick`.
- Both the item click and the document click handlers run on a click on a suggestion row. They are two events here (`PickSuggestion`, then `PageClick`). Either order ends with the panel hidden.
- The panel's visibility before start-up comes from a stylesheet. The model assumes it is hidden.
- Store.Remove: its own contract only bounds the length. Its meaning is stated by Store.RemoveMembers and Store.RemoveIsSubsequence, which keeps the solver's work small.
- Suggestions.FreshItems: its own contract only bounds the length. Its meaning is stated by Suggestions.FreshItemsMembers and Suggestions.FreshItemsIsSubsequence, which keeps the solver's work small.
- `console.log` of search errors is not modelled.
