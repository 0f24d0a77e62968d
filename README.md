# Pokémon search screen: a Dafny model

This project models the logic of a single-screen app written in React Native, `App.js`. At start-up the app loads a catalog of up to 1000 Pokémon summaries (`{ name, url }`). As the user types, it filters that catalog by name without regard to case. Tapping a listed name fetches the detail record for that Pokémon and shows it in a panel.

The model has five modules:

- `Text` (text.dfy): per-character lower-casing (`toLowerCase`) and substring search (`includes`).
- `Catalog` (catalog.dfy): summary entries and the name filter behind `filteredData`.
- `SearchView` (search_view.dfy): the results area under the search box, which shows the typing prompt, "No Pokémon found." or the list of names. It also gives the name requested when a listed row is tapped.
- `Details` (details.dfy): the detail record and the panel that shows it. The panel's type and ability lines are the names joined with ", ". The module pairs that join with a `Split` inverse.
- `App` (app_state.dfy): the four `useState` slots (`data`, `searchTerm`, `selectedPokemon`, `searchQuery`) as one `AppState` record, with one transition per event that overwrites a slot:
  - the catalog response
  - a detail response
  - a keystroke
  - a submit, from the Enter key or the Search button

  A run applies a sequence of events in the order they complete.

`Wrappers` (wrappers.dfy) holds the `Option` type. `None` stands for a missing or `null` value in the source.

The source has no loops and replaces state slots wholesale. So every part of the model is a value: datatypes, functions and lemmas. Network responses are a parameter, `Response<T> = Delivered(body) | Failed`. `Delivered` carries the already parsed body.

## Model

| member | source | states |
|---|---|---|
| `Text.Lower` | App.js:32 | lowering leaves no ASCII capital, fixes every other character, and maps 'A'..'Z' to 'a'..'z' |
| `Text.LowerStr` | App.js:32 | lower-casing a string keeps its length and lowers each position |
| `Text.LowerStrIdempotent` | App.js:32 | lowering an already lowered string changes nothing |
| `Text.LowerStrConcat` | App.js:32 | lowering distributes over concatenation |
| `Text.Contains` | App.js:32 | `includes`: a needle longer than the string is never found, and one the string starts with always is; `Text.ContainsIffOccurs` gives its full meaning |
| `Text.ContainsIffOccurs` | App.js:32 | the scanning substring search succeeds exactly when the needle occurs at some offset of the string |
| `Text.ContainsEmpty` | App.js:32 | every string contains the empty string, as `includes("")` does |
| `Text.ContainsPrefixOfNeedle` | App.js:32 | a string containing `needle + more` contains `needle` |
| `Text.ContainedCharsOccur` | App.js:32 | every character of a contained needle is a character of the string |
| `Catalog.Matches` | App.js:32 | the per-entry test: the empty term matches every entry, and no term longer than the name matches it |
| `Catalog.Filter` | App.js:31-33 | `data.filter(...)` is never longer than the catalog; `Catalog.FilterMembership`, `Catalog.PositionsPickFilter`, `Catalog.PositionsIncrease` and `Catalog.PositionsExact` prove it is exactly the matching entries in catalog order |
| `Catalog.FilterMembership` | App.js:31-33 | membership is exact: an entry is in the filtered list if and only if it is in the catalog and its lower-cased name contains the lower-cased term |
| `Catalog.PositionsPickFilter` | App.js:31-33 | there are as many matching positions as filtered entries, and the k-th filtered entry is the catalog entry at the k-th matching position |
| `Catalog.PositionsIncrease` | App.js:31-33 | the matching positions strictly increase, so the filtered list keeps catalog order |
| `Catalog.PositionsExact` | App.js:31-33 | a catalog position is among the matching positions if and only if its entry matches the term |
| `Catalog.FilterIdempotent` | App.js:31-33 | filtering the filtered list again by the same term changes nothing |
| `Catalog.FilterRefine` | App.js:31-33 | filtering the filtered list by a longer term (typing on) gives the same list as filtering the whole catalog by it |
| `Catalog.FilterCaseInsensitive` | App.js:31-33 | lower-casing the term first changes no filter result |
| `Catalog.FilterEmptyTermKeepsAll` | App.js:31-33 | the empty term matches every entry, so the filter returns the whole catalog |
| `Catalog.FilterCharExample` | App.js:31-33 | with the catalog pikachu, charmander, squirtle and the term "char", only charmander is kept |
| `SearchView.Render` | App.js:91-105 | the prompt shows exactly when the term is empty; "no results" shows exactly when the term is non-empty and no entry matches; otherwise the list holds exactly the filtered entries and is not empty |
| `SearchView.Lines` | App.js:93-104 | a list shows one line per row, holding that row's name; the prompt and "no results" each show their fixed message |
| `SearchView.Tap` | App.js:94 | tapping row k requests exactly the name shown on line k, and requests nothing when no list or no such row is shown |
| `SearchView.EmptyTermShowsPrompt` | App.js:91-105 | with an empty term every entry matches, yet the screen shows the "Start typing" prompt and never a list, whatever the catalog |
| `SearchView.NonEmptyTermOutcome` | App.js:91-102 | with a non-empty term a list shows exactly when some entry matches, and then it has one row per matching entry; otherwise "No Pokémon found." shows |
| `SearchView.ViewCaseInsensitive` | App.js:91-105 | the results area ignores the case of the term |
| `SearchView.TapNamesMatchingEntry` | App.js:91-99 | a tapped row always names a catalog entry that matches the current term |
| `SearchView.EmptyCatalogNoResults` | App.js:91-102 | with an empty catalog, every non-empty term shows "no results" |
| `SearchView.CharExampleView` | App.js:91-99 | with the three-entry catalog, the term "char" lists the single line "charmander" |
| `Details.TypeNames` | App.js:113 | the type names, one per type slot, in record order |
| `Details.AbilityNames` | App.js:114 | the ability names, one per ability slot, in record order |
| `Details.Join` | App.js:113-114 | `.join(", ")` gives "" for no names and a line that opens with the first name otherwise; `Details.SplitJoin` and `Details.JoinLength` prove it is the names in order with ", " between them |
| `Details.SplitAfterName` | App.js:113-114 | splitting a comma-free name followed by more text puts the whole name at the head of the first piece |
| `Details.SplitJoin` | App.js:113-114 | joining a non-empty list of comma-free names (empty names allowed) with ", " and splitting the line again at ", " gives back exactly the names, in order |
| `Details.JoinLength` | App.js:113-114 | the joined line holds every name's characters plus two for each separator |
| `Details.RenderPanel` | App.js:107-118 | the placeholder shows exactly when nothing is selected; otherwise the heading names the selected record, the id, height and weight are its own, and the types and abilities lines are its type and ability names joined with ", " (so "" for a record with none) |
| `Details.PanelListsNamesInOrder` | App.js:113-114 | the panel's type and ability lines split back into the record's names in record order |
| `Details.PikachuPanel` | App.js:107-115 | a record with id 25, height 4, weight 60, type "electric" and ability "static" shows exactly those values |
| `Wrappers.Option.GetOr` | App.js:21 | `x \|\| []`: the value when present, the default when missing |
| `App.CatalogLoaded` | App.js:17-26 | a delivered body sets the catalog to its `results`, or to the empty list when they are missing; a failure leaves the state unchanged; the other slots never change |
| `App.DetailLoaded` | App.js:35-44 | a delivered record replaces the selection wholesale and the panel heading names it; a failure leaves the state unchanged; the other slots never change |
| `App.ChangeText` | App.js:82-83 | a keystroke sets the search text and nothing else, and the results area follows the new text at once |
| `App.Submit` | App.js:84-87 | a submit copies the search text into `searchQuery`, changes no other slot, and leaves the screen unchanged |
| `App.SelectionIsLastDelivered` | App.js:35-44 | after any sequence of completed events, the selection is the last delivered detail record (last completed wins); a run with no delivered record keeps the initial selection |
| `App.CatalogIsLastDelivered` | App.js:16-29 | after any sequence of events, the catalog is the last delivered catalog; failures never change it |
| `App.TermIsLastTyped` | App.js:82-83 | after any sequence of events, the search text is the last text typed |
| `App.SubmitsOnlyTouchQuery` | App.js:84-87 | the same events with every submit removed reach a state that differs at most in `searchQuery` |
| `App.SubmitsNeverChangeScreen` | App.js:84-87 | removing every submit from any event sequence leaves the final screen unchanged, so filtering depends only on the live text |
| `App.CatalogFailureThenSearch` | App.js:21-25 | when the start-up catalog fetch fails, the catalog stays empty and every non-empty text shows "no results" |
| `App.TapThenLoad` | App.js:35-44 | when the record delivered for a tapped row carries that row's name, the panel heading names the tapped entry; a failed fetch leaves the whole screen unchanged |

## Left out

- Network I/O is not modelled: `fetch`, `res.json()` and the two URLs (App.js:9, 19-20, 37-38). A response is a parameter, `Delivered` with a parsed body or `Failed`. The model does not decide whether a given HTTP exchange gives one or the other.
- HTTP status handling follows the code. `fetch` does not reject a non-2xx status. So a failed status whose JSON body parses, but has no `results`, counts as `Delivered`. It sets the catalog to the empty list, and no alert is raised. Only a network error or an unparsable body is `Failed`.
- The error channels are left out: `console.error` and `alert` (App.js:23-24, 41-42). They are side effects only, and no state slot changes on the failure path.
- Overlapping detail fetches are not interleaved. Their completions are events, applied in completion order. Which fetch completes first is the caller's choice of event order, and `App.SelectionIsLastDelivered` states the outcome for every order.
- Layout and styling are not modelled: the JSX, `Image`, `StatusBar`, `ScrollView`, the accessibility labels and the `StyleSheet` block (App.js:48-192). The results area and the panel are modelled only as their content.
- `Text.Lower` does not model full Unicode `toLowerCase`. It lowers only ASCII 'A'..'Z', one character to one character. JavaScript also lowers other scripts and can change a string's length.
- Detail bodies are modelled in the fields the panel reads and in the shape of the type and ability wrappers, which also carry `url`, `slot` and `isHidden` (not read by the panel). A delivered body is assumed to parse into those fields. The source would fail at render time on a body without `types` or `abilities`, and that failure is not modelled.
- The panel's id, height and weight are modelled as integers, not as the text that React renders for them.
- React's re-render machinery (`useState`, `useEffect`) is not modelled. The state is an explicit record that transition functions take and return.
- `Details.SplitJoin` holds only for non-empty lists of names without commas. `[].join(", ")` is "", and splitting "" gives one empty piece. A name containing ", " cannot be recovered from the joined line. The join itself (`Details.Join`) is modelled for every input.
