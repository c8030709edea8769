# Team randomizer core, modelled in Dafny

This project models the logic of the team randomizer page
(`src/components/App/App.tsx`): a user picks characters from a fixed catalog,
narrows the visible catalog with four facet filters (elements, weapons, gender,
rarity), sets how many teams to build, and generates teams by shuffling the
selection and keeping the first `teamsCount * teamSize` ids. The teams are laid
out as consecutive chunks of `teamSize` slots and can be exported as a
comma-separated list of short names.

Modules, one per part of the page's logic:

- `Seqs` (`seqs.dfy`): `Option`, duplicate-freedom, the array operations the page
  uses (`filter(x => x !== v)` as `Without`, `slice(0, end)` as `SliceTo`, with
  JavaScript's rule for a negative `end`).
- `Catalog` (`catalog.dfy`): the character record, unique ids, `Ids`
  (`characters.map(c => c.id)`) and `Find` (`characters.find(...)`).
- `Filters` (`filters.dfy`): the `isSameElement` … `isShown` predicates.
- `Selection` (`selection.dfy`): the per-card toggle and the select/deselect-all
  rule, as functions on the selection list.
- `TeamCount` (`team_count.dfy`): the clamped step of 2 and the button guards.
- `Teams` (`teams.dfy`): generation from a shuffled list, the slot arithmetic of
  the board and the display offset of the cards.
- `Export` (`export.dfy`): the `map(...).join(', ')` text.
- `App` (`app.dfy`): class `AppState` holding the three pieces of state the
  handlers replace (`selected`, `teamsCount`, `teams`), with one method per
  handler, each proved to keep the invariant `Valid()` (count within bounds;
  selection and teams are duplicate-free lists of catalog ids).

Collaborators that are not part of this model enter as parameters: the catalog
(`data/characters`) is a sequence of `Character` records with unique ids; the
constants `teamSize`, `minTeams`, `maxTeams` (`utils/const`) are constructor
arguments with `teamSize > 0` and `minTeams <= maxTeams`; the result of
`shuffle` (`utils/utils`) is the argument `rnd` of `GenerateTeams`, required to
be a rearrangement of the selection (equal as a multiset); the filter lists
(`data/store`) are a read-only `FilterCriteria` value; the store's initial
selection and count are constructor arguments.

Modelling decisions taken from the code:

- A character's weapon is a list, matched by overlap with the weapon filter
  like elements and gender, because the test is `character.weapon.includes(w)`
  (`src/components/App/App.tsx:134`).
- An id missing from the catalog gives an empty segment in the export, because
  `find(...)?.shortName` yields `undefined` and `join` renders that as ""
  (`src/components/App/App.tsx:57`); see `Export.UnknownIdsGiveEmptySegments`
  and `Export.ExampleExport`.
- The selection is an ordered list that a card click appends to or filters
  (`src/components/App/App.tsx:151-169`), so duplicate-freedom is proved to be
  preserved rather than assumed.

## Model

| member | source | states |
|---|---|---|
| Seqs.Without | src/components/App/App.tsx:156-158 | the filtered list holds exactly the values of the list other than the removed id, and is no longer |
| Seqs.WithoutConcat | src/components/App/App.tsx:156-158 | filtering distributes over concatenation, so the remaining ids keep their relative order |
| Seqs.WithoutUnique | src/components/App/App.tsx:156-158 | in a duplicate-free list, filtering out the value at position k deletes exactly position k |
| Seqs.WithoutKeepsNoDups | src/components/App/App.tsx:156-158 | filtering keeps a duplicate-free list duplicate-free |
| Seqs.SliceTo | src/components/App/App.tsx:39 | `slice(0, end)` is a prefix whose length is `min(end, |s|)` for `end >= 0` and `max(|s| + end, 0)` otherwise |
| Seqs.PermutationKeepsNoDups | src/components/App/App.tsx:38 | any rearrangement of a duplicate-free list (what the shuffle returns) is duplicate-free |
| Catalog.Ids | src/components/App/App.tsx:98 | the id list has one entry per catalog character, in catalog order |
| Catalog.UniqueIdsNoDups | src/components/App/App.tsx:98 | the catalog has unique ids exactly when its id list is duplicate-free |
| Catalog.Find | src/components/App/App.tsx:57 | lookup finds nothing exactly when no catalog entry has the id, and otherwise a catalog entry with that id |
| Catalog.FindEntry | src/components/App/App.tsx:28 | with unique ids, looking up the id of entry k finds entry k |
| Filters.IsSameElement | src/components/App/App.tsx:127-131 | the element facet matches iff its list is empty or shares a value with the character's elements |
| Filters.IsSameWeapon | src/components/App/App.tsx:132-134 | the weapon facet matches iff its list is empty or shares a value with the character's weapon list |
| Filters.IsSameGender | src/components/App/App.tsx:135-137 | the gender facet matches iff its list is empty or shares a value with the character's genders |
| Filters.IsSameRarity | src/components/App/App.tsx:138-140 | the rarity facet matches iff its list is empty or holds the stars, i.e. overlaps the one-value list of the stars |
| Filters.IsShown | src/components/App/App.tsx:141-145 | the conjunction of the four facets; with no filter set the character is shown |
| Filters.SomeIncluded | src/components/App/App.tsx:129-131 | `filter.some(v => values.includes(v))` holds exactly when the two lists share a value |
| Filters.NoFiltersShowsAll | src/components/App/App.tsx:127-145 | with all four filter lists empty every catalog character is shown |
| Filters.IsShownIff | src/components/App/App.tsx:127-145 | a character is shown iff each non-empty facet matches: elements, weapons and gender share a value with their list, and the rarity list contains its stars |
| Filters.SameValuesSameVisibility | src/components/App/App.tsx:127-145 | visibility depends only on which values each filter list holds, so toggling a filter value on and off leaves it unchanged |
| Selection.Toggle | src/components/App/App.tsx:151-169 | after a card click the clicked id is selected iff it was not before, and every other id is selected iff it was before |
| Selection.ToggleAppends | src/components/App/App.tsx:162-168 | an absent id is appended at the end of the selection |
| Selection.ToggleRemovesKeepingOrder | src/components/App/App.tsx:152-160 | a present id is removed and the other ids keep their relative order |
| Selection.ToggleRemovesPosition | src/components/App/App.tsx:152-160 | in a duplicate-free selection, clicking the id at position k deletes exactly that position |
| Selection.ToggleKeepsNoDups | src/components/App/App.tsx:151-169 | a duplicate-free selection stays duplicate-free |
| Selection.ToggleTwiceSameIds | src/components/App/App.tsx:151-169 | clicking the same card twice leaves the same ids selected |
| Selection.ToggleTwiceAbsent | src/components/App/App.tsx:151-169 | clicking an unselected card twice restores the selection list exactly |
| Selection.ToggleTwicePresent | src/components/App/App.tsx:151-169 | clicking a selected card twice moves its id to the end: the list is a rearrangement of the original |
| Selection.SelectAllOrNone | src/components/App/App.tsx:94-99 | when the lengths match the selection becomes empty, otherwise it becomes the catalog ids in catalog order; afterwards all are selected iff they were not before (or the catalog is empty) |
| Selection.AreAllSelected | src/components/App/App.tsx:35-36 | the length test; for a duplicate-free selection of catalog ids over unique ids it holds iff every catalog id is selected |
| Selection.AllSelectedIffEveryId | src/components/App/App.tsx:35-36 | for a duplicate-free selection of catalog ids, the length test holds exactly when every catalog id is selected |
| Selection.SelectAllOrNoneWellFormed | src/components/App/App.tsx:94-99 | the bulk button leaves a duplicate-free selection of catalog ids |
| Selection.ToggleWellFormed | src/components/App/App.tsx:151-169 | clicking a catalog card leaves a duplicate-free selection of catalog ids |
| TeamCount.Increase | src/components/App/App.tsx:41-46 | the new count is at most maxTeams and is either the old count plus 2 or maxTeams |
| TeamCount.Decrease | src/components/App/App.tsx:47-52 | the new count is at least minTeams and is either the old count minus 2 or minTeams |
| TeamCount.CanAdd | src/components/App/App.tsx:110 | "Add Team" is offered iff increasing would raise the count |
| TeamCount.CanRemove | src/components/App/App.tsx:115 | "Remove Team" is offered iff decreasing would lower the count |
| TeamCount.StepsStayInBounds | src/components/App/App.tsx:41-52 | both steps keep a count in `[minTeams, maxTeams]` when it starts there |
| TeamCount.IdempotentAtBounds | src/components/App/App.tsx:41-52 | increasing at maxTeams and decreasing at minTeams change nothing |
| TeamCount.StepsUndoEachOther | src/components/App/App.tsx:41-52 | increase then decrease restores the count when `count + 2 <= maxTeams`, and decrease then increase when `count - 2 >= minTeams` |
| TeamCount.ButtonsOfferedIffEffective | src/components/App/App.tsx:110-119 | within the bounds, Add/Remove are offered exactly when pressing them changes the count |
| Teams.Generate | src/components/App/App.tsx:39 | the generated list is a prefix of the shuffled list |
| Teams.GenerateSpec | src/components/App/App.tsx:37-40 | for any rearrangement of the selection the teams have length `min(|selection|, teamsCount * teamSize)`, hold only selected ids, and are duplicate-free when the selection is |
| Teams.Slot | src/components/App/App.tsx:84 | a filled slot holds an id of the generated list, and slot i of team t is filled iff `t * teamSize + i < |teams|` |
| Teams.Team | src/components/App/App.tsx:82-84 | a team has teamSize slots, filled ones hold generated ids, and every filled slot comes before every empty one |
| Teams.TeamIsChunk | src/components/App/App.tsx:82-84 | team t shows its chunk `teams[t*teamSize .. (t+1)*teamSize]` (clipped) in order, followed by empty slots |
| Teams.SlotsDisjoint | src/components/App/App.tsx:82-84 | distinct (team, slot) pairs read distinct list positions, so teams never overlap |
| Teams.ConcatIsPrefix | src/components/App/App.tsx:77-88 | the first k teams together hold exactly the first `k * teamSize` entries, in order |
| Teams.BoardShowsAll | src/components/App/App.tsx:77-88 | a list no longer than `teamsCount * teamSize` is shown completely by the teamsCount teams |
| Teams.ToCard | src/components/App/App.tsx:23-30 | a card's index is index plus offset, and it shows a character iff the slot holds an id in the catalog, namely the catalog entry with that id |
| Teams.RenderTeam | src/components/App/App.tsx:82-85 | a rendered team has teamSize cards, each showing either nothing or a catalog character whose id is in the generated list |
| Teams.OffsetOnlyMovesIndex | src/components/App/App.tsx:82-85 | the `(t % 2) * teamSize` offset only shifts a card's display index; the character is that of slot `t * teamSize + i`, as with no offset |
| Export.Join | src/components/App/App.tsx:57 | `join` of a non-empty list starts with its first part |
| Export.ShortName | src/components/App/App.tsx:57 | an id absent from the catalog gives ""; otherwise the short name of a catalog entry with that id |
| Export.TeamNames | src/components/App/App.tsx:57 | the clipboard text is "" for no teams; otherwise it starts with the first id's short name and is the names plus one separator per gap |
| Export.JoinLength | src/components/App/App.tsx:57 | a joined string is the parts plus one separator per gap |
| Export.JoinConcat | src/components/App/App.tsx:57 | joining two non-empty lists is joining each with one separator between |
| Export.Names | src/components/App/App.tsx:57 | one segment per generated id, segment i being the short name of `teams[i]` |
| Export.TeamNamesEmpty | src/components/App/App.tsx:57 | no teams give the empty string |
| Export.TeamNamesAppend | src/components/App/App.tsx:57 | names appear in the order of the teams list |
| Export.TeamNamesLength | src/components/App/App.tsx:57 | for non-empty teams the text has `|teams| - 1` separators besides the names |
| Export.UnknownIdsGiveEmptySegments | src/components/App/App.tsx:57 | unknown ids are not skipped: n of them give n - 1 separators and nothing else |
| Export.KnownIdsGiveShortNames | src/components/App/App.tsx:57 | when every id is in the catalog, segment i is the short name of the entry for `teams[i]` |
| Export.ExampleExport | src/components/App/App.tsx:57 | `["A","B"]` gives "Ay, Bo", `["X"]` gives "", `["A","X"]` gives "Ay, " |
| App.AppState.constructor | src/components/App/App.tsx:33 | the state starts valid, with no teams and the given count and selection |
| App.AppState.AreAllCharactersSelected | src/components/App/App.tsx:35-36 | in a valid state the length test holds exactly when every catalog id is selected |
| App.AppState.TeamNames | src/components/App/App.tsx:57 | the text for the current teams is "" when there are none, otherwise the names plus two characters per gap |
| App.AppState.ToggleCard | src/components/App/App.tsx:150-170 | the selection becomes the toggle of the clicked id; nothing else changes and the state stays valid |
| App.AppState.ToggleAll | src/components/App/App.tsx:93-100 | the selection becomes empty or all catalog ids; all are selected afterwards iff not before (non-empty catalog) |
| App.AppState.GenerateTeams | src/components/App/App.tsx:37-40 | the teams are replaced by the prefix of the shuffled list, of length `min(|selection|, teamsCount * teamSize)`, drawn from the selection, and all shown on the board |
| App.AppState.IncreaseTeamSize | src/components/App/App.tsx:41-46 | the count becomes `min(count + 2, maxTeams)` and stays within bounds |
| App.AppState.DecreaseTeamSize | src/components/App/App.tsx:47-52 | the count becomes `max(count - 2, minTeams)` and stays within bounds |
| App.AppState.CanAddTeam | src/components/App/App.tsx:110 | "Add Team" is offered exactly when increasing would raise the count |
| App.AppState.CanRemoveTeam | src/components/App/App.tsx:115 | "Remove Team" is offered exactly when decreasing would lower the count |

## Left out

- Rendering: the JSX, CSS classes, header and footer links, and the `Card`, `Button`, `Container` and `Filters` components are presentation only; `Teams.ToCard` keeps only what a card shows (its index and character).
- Clipboard: the `navigator.clipboard` probe, the asynchronous `writeText` with its error logging, and the "Copied!" flag reset by a 1000 ms timer are I/O and timers; only the text built at line 57 is modelled (`Export.TeamNames`, `App.AppState.TeamNames`).
- Shuffle: `utils/utils` is not part of this model; its result is a parameter required to be a rearrangement of the selection, so neither its algorithm nor its uniformity is modelled.
- Filter toggles and the store (`data/store`) are not part of this model; the filter lists are read-only inputs, and `Filters.SameValuesSameVisibility` covers toggling a value twice.
- Catalog data (`data/characters`) and the constants (`utils/const`) are not part of this model; they are parameters with unique ids, `teamSize > 0` and `minTeams <= maxTeams`.
- Solid.js reactivity (signals re-evaluated on render) is not modelled; each handler is a method that replaces one field.
