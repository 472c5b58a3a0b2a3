# Country picker view state, in Dafny

The repository is a single React component, `App` in `src/App.tsx`, that fetches
a list of countries (`{code, name}`) from a GraphQL endpoint and lets the user
filter the list by name, select countries by clicking list rows, see the
selection as removable chips, and page through the list ten rows at a time.

This project models the component's view-state controller:

- three state cells: the filter text (initially `""`), the ordered list of
  selected codes (initially empty) and the visible-row cursor (initially 10);
- the handlers that change them: the row click (`handleCountryClick`, a toggle),
  the chip delete (`removeCountry`), the search field's `onChange` and the
  "show more" button (`visibleCount + 10`);
- the values the render derives from them: the filtered list, the chip entries,
  the visible prefix, the per-row "selected" flag and the "show more" condition.

Modules:

- `Text` (`text.dfy`): ASCII lower-casing and `String.prototype.includes`, whose
  contract equates it with "occurs at some position".
- `Subsequence` (`subsequence.dfy`): the order-preserving subsequence relation.
- `Selection` (`selection.dfy`): `Without` (the `selected.filter(item => item !== code)`
  of both handlers) and `Toggle`, with their properties.
- `Countries` (`countries.dfy`): the `Country` record and the derived views.
- `ViewState` (`view_state.dfy`): a snapshot datatype, the handlers as one
  transition function `Step` over user events, `Run` over event sequences, the
  reachability invariants, and the class `App` whose fields are the three state
  cells and whose methods perform each handler in place. The postconditions of
  `SetFilter`, `HandleCountryClick`, `DeleteChip` and `ShowMore` equate the new
  snapshot with `Step` applied to the old one; `RemoveCountry` states its new
  selection with `Without` directly, and `Render` changes nothing and returns the
  derived views.

Two details of the source are reproduced on purpose:

- Chip lookup searches the FILTERED list (`countries` is reassigned to the filtered
  list at `src/App.tsx:49` before `find` runs at line 55). A selected country that
  the current filter hides gets a missing chip entry (`None`, the source's
  `undefined`), even though the fetched list has it.
- A missing chip's delete button calls `removeCountry(undefined)`, which no code
  equals, so it removes nothing. The hidden code stays selected until the filter
  shows it again or its row is clicked.

Toggling an unselected code twice restores the selection, but toggling a
selected code twice moves it to the end: toggle is not an involution in general
(the lemma `ToggleTwiceReorders` gives the input `["a", "b"]`).

## Model

| member | source | states |
|---|---|---|
| `Text.LowerIdempotent` | src/App.tsx:50 | lower-casing a lower-cased string changes nothing |
| `Text.Lower` | src/App.tsx:50 | `toLowerCase` on ASCII: same length, every character lower-cased, other characters unchanged |
| `Text.Contains` | src/App.tsx:50 | `includes` holds exactly when the needle occurs at some position of the name |
| `Selection.Without` | src/App.tsx:39-41 | the result has no occurrence of the code, has every other code of the input, and keeps every other code's multiplicity; it shrinks when the code was present |
| `Selection.Toggle` | src/App.tsx:31-37 | the code is selected afterwards iff it was not before; other codes keep their membership; an absent code is appended after the unchanged old entries; a present code is removed with every other code keeping its multiplicity |
| `Selection.ToggleSelectedKeepsOrder` | src/App.tsx:32-33 | toggling a selected code is removing it, so the other codes keep their original relative order |
| `Selection.WithoutIsSubsequence` | src/App.tsx:40 | removing a code keeps the other codes in their original relative order |
| `Selection.WithoutAbsent` | src/App.tsx:39-41 | removing a code that is not selected changes nothing |
| `Selection.WithoutIdempotent` | src/App.tsx:39-41 | removing a code twice equals removing it once |
| `Selection.WithoutAppend` | src/App.tsx:40 | removal distributes over concatenation |
| `Selection.WithoutNoDuplicates` | src/App.tsx:39-41 | removal keeps a duplicate-free selection duplicate-free |
| `Selection.ToggleNoDuplicates` | src/App.tsx:31-37 | toggling keeps a duplicate-free selection duplicate-free |
| `Selection.ToggleTwiceAbsent` | src/App.tsx:31-37 | toggling an unselected code twice restores the selection exactly |
| `Selection.ToggleTwicePresent` | src/App.tsx:32-35 | toggling a selected code twice removes it and re-appends it at the end |
| `Selection.ToggleTwiceReorders` | src/App.tsx:31-37 | toggling "a" twice in `["a", "b"]` gives `["b", "a"]` |
| `Countries.Matches` | src/App.tsx:49-50 | a country passes the filter iff its lower-cased name has the lower-cased filter at some position; the empty filter passes every country |
| `Countries.Keep` | src/App.tsx:49-51 | the kept countries are exactly the source countries that match the filter, and no more of them than the source has |
| `Countries.FilterCountries` | src/App.tsx:46-52 | an empty filter returns the list unchanged; otherwise a country is listed iff it is in the source list and its lower-cased name contains the lower-cased filter |
| `Countries.KeepIsSubsequence` | src/App.tsx:49-51 | filtering keeps source order: the result is a subsequence of the input |
| `Countries.FilterIsSubsequence` | src/App.tsx:46-52 | the rendered list is an order-preserving subsequence of the fetched list |
| `Countries.KeepAppend` | src/App.tsx:49-51 | filtering a concatenation is concatenating the filtered parts |
| `Countries.FilterAppend` | src/App.tsx:46-52 | the same for the rendered list, `if (filter)` guard included |
| `Countries.KeepAll` | src/App.tsx:49-51 | when every country matches, filtering returns the list unchanged |
| `Countries.EmptyFilterKeepsAll` | src/App.tsx:48-51 | filtering with the empty string would keep every country, so the `if (filter)` guard is only a shortcut |
| `Countries.FilterIdempotent` | src/App.tsx:46-52 | filtering the filtered list again with the same text changes nothing |
| `Countries.KeepSameMatches` | src/App.tsx:49-51 | two filter texts that accept the same countries produce the same list |
| `Countries.FilterCaseInsensitive` | src/App.tsx:50 | lower-casing the typed filter first gives the same list |
| `Countries.Visible` | src/App.tsx:85 | the rendered rows are a prefix of the filtered list of length min(visibleCount, length) |
| `Countries.ShowMoreShown` | src/App.tsx:104 | the "show more" button is rendered iff some filtered rows are not rendered |
| `Countries.ShowMoreExtends` | src/App.tsx:104-105 | after a click the old rows stay in front; while the button shows, between 1 and 10 rows are added |
| `Countries.Find` | src/App.tsx:55 | None iff no listed country has the code; otherwise the first listed country with the code |
| `Countries.Chips` | src/App.tsx:54-56 | one entry per selected code, in selection order; an entry is a filtered country with that code, and None iff the filtered list has no country with that code |
| `Countries.ChipIsFirstMatch` | src/App.tsx:54-56 | a chip whose code the filtered list carries is the first such country |
| `Countries.HiddenSelectionHasMissingChip` | src/App.tsx:46-56 | a selected code whose countries all fail the filter gets a missing chip |
| `Countries.UnfilteredChipResolves` | src/App.tsx:54-56 | with an empty filter, a code of any fetched country resolves to a chip |
| `ViewState.Initial` | src/App.tsx:27-29 | the initial filter is empty and filters nothing out, nothing is selected, and 10 rows are visible |
| `ViewState.Step` | src/App.tsx:31-41 | typing changes only the filter; a row click toggles the code; deleting a resolved chip removes its code and a missing one changes nothing; "show more" adds exactly 10 to the cursor and changes nothing else |
| `ViewState.StepKeepsNoDuplicates` | src/App.tsx:31-41 | every handler keeps the selection duplicate-free |
| `ViewState.RunKeepsNoDuplicates` | src/App.tsx:31-41 | any sequence of events keeps a duplicate-free selection duplicate-free |
| `ViewState.RunVisibleCount` | src/App.tsx:105 | after any events the cursor has grown by exactly 10 per "show more" click |
| `ViewState.Reachable` | src/App.tsx:27-29 | from the initial state every reachable selection is duplicate-free and the cursor is 10 plus 10 per click |
| `ViewState.HiddenSelectionCannotBeDeleted` | src/App.tsx:49-79 | a selected code whose countries the filter hides cannot be deselected through its chip: deleting that chip leaves the state unchanged |
| `ViewState.ResolvedChipDeletes` | src/App.tsx:49-79 | a selected code carried by a fetched country that passes the filter has a resolved chip, and deleting it removes exactly that code from the selection |
| `ViewState.ScenarioSelectAndRemove` | src/App.tsx:31-56 | select TR, select US, delete TR's chip: the selection is `["TR", "US"]`, then `["US"]`, and its chip is United States |
| `ViewState.ScenarioFilter` | src/App.tsx:48-51 | filter "tur" keeps only Turkey of Turkey and United States; the empty filter keeps both |
| `ViewState.ScenarioPagination` | src/App.tsx:85-105 | with 25 countries, from the initial state: 10 rows and the button, after one "show more" click 20 rows and the button, after two all 25 and no button |
| `ViewState.App.constructor` | src/App.tsx:27-29 | the component starts with an empty filter, an empty selection and a cursor of 10 |
| `ViewState.App.SetFilter` | src/App.tsx:72 | the new state is the typing transition of the old one; the invariant holds |
| `ViewState.App.HandleCountryClick` | src/App.tsx:31-37 | the new state is the row-click transition of the old one; the clicked code's membership flips; the selection stays duplicate-free |
| `ViewState.App.RemoveCountry` | src/App.tsx:39-41 | the selection loses the code and nothing else changes; it stays duplicate-free |
| `ViewState.App.DeleteChip` | src/App.tsx:79 | the new state is the chip-delete transition of the old one |
| `ViewState.App.ShowMore` | src/App.tsx:105 | the new state is the "show more" transition: the cursor grows by 10 and stays a positive multiple of 10 |
| `ViewState.App.Render` | src/App.tsx:46-104 | the chips, the rendered rows with their "selected" flags, and whether the button shows, which is exactly when rows are hidden |

## Left out

- The Apollo client, the GraphQL query and `useQuery` (`src/App.tsx:11-26`): network I/O through a library. The fetched country list is a parameter of the views.
- The loading and error renders (`src/App.tsx:43-44`): they only pass on the query's status.
- The `data?.countries || []` default (`src/App.tsx:46`): the caller passes the empty list when no data arrived.
- JSX and MUI rendering, styles, keys and icons (`src/App.tsx:58-110`); only the values on lines 79, 85, 89 and 104-105 are modelled.
- Text.Lower: lower-cases ASCII letters only; JavaScript's `toLowerCase` folds all of Unicode, and strings are sequences of Unicode scalar values here, not UTF-16 code units.
- React scheduling: each handler is one synchronous transition on the current state; handlers that read a stale render's `selected` are not modelled.
- `slice` with a negative count: the cursor is a natural number (it starts at 10 and only grows), so that case cannot arise.
