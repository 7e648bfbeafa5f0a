# To-do list page, modelled in Dafny

The repository is a single React page holding a to-do list. Its logic is a
small store. The page state is three cells: the list of todos, the
new-task input buffer and the sort choice. Six operations each build a new
list: add, remove, update text, toggle editing, toggle completion and
change priority. The displayed list is a stable copy of the list, sorted
descending by priority or by creation time. User events (typing, Enter,
the Add, Edit/Save and Remove buttons, the checkbox, the two selectors)
are dispatched to these operations.

The model follows that structure in four modules:

- `Text` (`text.dfy`): the whitespace predicate and `Trim`. `Trim` is
  specified by what it does: it keeps the infix between the leading and
  trailing whitespace, it is empty exactly when the input is blank, and
  its result neither starts nor ends with whitespace.
- `TodoList` (`todos.dfy`): the `Todo` record and the five operations that
  act on the list alone. Ids are raw clock readings, so nothing assumes
  they are unique. Every operation acts on every todo that carries the
  given id.
- `SortView` (`sorting.dfy`): the source's comparator (`Compare`: the key
  of `b` minus the key of `a`) and an insertion sort that uses it. The
  sort is proved to give a permutation whose keys do not increase. It is
  also stable: for each key, the todos with that key keep their input
  order. `StableSortUnique` shows that only one list is both sorted and
  stable. So any stable sort with this comparator returns exactly what
  `SortDesc` returns; ECMAScript has required `Array.prototype.sort` to be
  stable since its 2019 edition.
- `Page` (`page.dfy`): the page state `Page(todos, newTodo, sortBy)`, the Add
  action, the derived `SortedTodos`, the `Event` type, `Step` (one event)
  and `Run` (a series of events).

The data types follow the source's declarations:

- `TodoList.Todo` is the `Todo` record type (app/page.tsx:6-13), with
  `number` fields modelled as `int`.
- `SortView.SortOption` is the two-string union `SortOption`
  (app/page.tsx:15).
- `Page.Page` holds the three `useState` cells (app/page.tsx:18-20).
  `Page.Initial` gives their initial values.

`Date.now()`, the only clock, is read twice by the Add action: once for
`id` and once for `createdAt`. Each reading is a parameter of `AddTodo`.
The two events that can trigger it, `AddClick` and `NewTodoKeyPress`,
carry both readings. Nothing else depends on the browser.

The store is meant to keep ids unique, keep every text non-empty and keep
every priority in 1..3. The code enforces only part of this, and the model
follows the code:

- Ids come from the clock, so two adds in the same millisecond collide.
  `SameMillisecondIdsCollide` shows such a run, after which one checkbox
  event completes both todos.
- Only Add trims and rejects blank text; editing is not validated.
  `EditCanEmptyText` shows a run that leaves a saved todo with empty text.
- `changePriority` stores any number it receives (`ChangePriority` states
  this). The selector offers only 1, 2 and 3, so every state reachable
  through events keeps priorities in range (`ReachableKeepsPrioritiesValid`).

## Model

| member | source | states |
|---|---|---|
| `Text.Trim` | app/page.tsx:23 | the result is the infix of the input between its leading and trailing whitespace; it is empty exactly when the input is all whitespace, and otherwise it neither starts nor ends with whitespace |
| `Text.TrimOfTrimmed` | app/page.tsx:23-28 | a property of the `trim` used at lines 23 and 28: a string that neither starts nor ends with whitespace is its own trim |
| `Text.TrimIdempotent` | app/page.tsx:23-28 | a property of the `trim` used at lines 23 and 28: trimming twice is trimming once |
| `TodoList.RemoveTodo` | app/page.tsx:39-41 | a todo is in the result exactly when it is in the input and its id differs; the list does not grow |
| `TodoList.RemoveKeepsCounts` | app/page.tsx:40 | every todo whose id differs is kept as many times as it occurs in the input |
| `TodoList.RemoveConcat` | app/page.tsx:40 | removal distributes over concatenation, so the kept todos stay in their original order |
| `TodoList.RemoveAbsent` | app/page.tsx:40 | removing an id that no todo carries leaves the list unchanged |
| `TodoList.RemoveIdempotent` | app/page.tsx:40 | removing twice equals removing once |
| `TodoList.RemoveCommutes` | app/page.tsx:40 | removals of two ids may be applied in either order |
| `TodoList.UpdateTodo` | app/page.tsx:43-47 | the length is preserved; every todo with the id gets the new text verbatim (no trim, empty allowed) with all its other fields kept; every other todo is unchanged |
| `TodoList.ToggleEdit` | app/page.tsx:49-55 | the length is preserved; on the todos with the id only `editing` is flipped; every other todo is unchanged |
| `TodoList.ToggleComplete` | app/page.tsx:57-63 | the length is preserved; on the todos with the id only `completed` is flipped; every other todo is unchanged |
| `TodoList.ChangePriority` | app/page.tsx:65-69 | the length is preserved; the todos with the id get the given priority unvalidated, with all other fields kept; every other todo is unchanged |
| `TodoList.ToggleEditInvolution` | app/page.tsx:49-55 | toggling `editing` twice returns the original list |
| `TodoList.ToggleCompleteInvolution` | app/page.tsx:57-63 | toggling `completed` twice returns the original list |
| `TodoList.UpdateLastWins` | app/page.tsx:43-47 | of two text updates of one id, the second determines the result |
| `TodoList.ChangePriorityLastWins` | app/page.tsx:65-69 | of two priority changes of one id, the second determines the result |
| `TodoList.ChangePriorityKeepsValid` | app/page.tsx:65-69 | a priority in 1..3 keeps every priority of the list in 1..3 |
| `TodoList.UpdatesKeepIds` | app/page.tsx:43-69 | the four per-todo operations do not change which ids are present |
| `TodoList.UpdatesOfAbsentId` | app/page.tsx:43-69 | the four per-todo operations leave the list unchanged when no todo has the id |
| `TodoList.RemoveForgetsChanges` | app/page.tsx:40 | two lists that differ only in the todos of one id are equal after that id is removed |
| `TodoList.RemoveAfterUpdates` | app/page.tsx:39-69 | editing or toggling the todos of an id and then removing the id is the same as removing it at once |
| `SortView.Compare` | app/page.tsx:77-83 | the comparator is non-positive exactly when the first todo's key is at least the second's, and zero exactly on equal keys |
| `SortView.Insert` | app/page.tsx:77-83 | inserting adds exactly the one todo to the multiset of todos |
| `SortView.InsertSorted` | app/page.tsx:77-83 | inserting into a sorted list keeps it sorted |
| `SortView.SortDesc` | app/page.tsx:77-83 | the result is a permutation of the input whose keys are non-increasing |
| `SortView.InsertWithKey` | app/page.tsx:77-83 | an inserted todo goes before every todo of equal key and leaves their order alone |
| `SortView.SortDescStable` | app/page.tsx:77-83 | for every key, the todos with that key appear in the same relative order as in the input |
| `SortView.StableSortUnique` | app/page.tsx:77 | two sorted lists with the same subsequence for every key are equal |
| `SortView.StableSortIsSortDesc` | app/page.tsx:77 | every sorted list with the input's subsequence for every key is the insertion sort of the input |
| `SortView.SortDescOfSorted` | app/page.tsx:77-83 | a list already in order is unchanged by the sort |
| `SortView.SortDescIdempotent` | app/page.tsx:77-83 | sorting twice is sorting once |
| `SortView.SortDescOrder` | app/page.tsx:77-83 | corollary of `SortDesc`'s sortedness, position by position: at any two positions of the result, the earlier todo's key is at least the later one's |
| `SortView.InsertBelowAll` | app/page.tsx:77-83 | a todo whose key is below every key of a list is inserted last |
| `SortView.SortDescOfIncreasing` | app/page.tsx:80-81 | a list with strictly increasing keys is shown back to front, so the newest todo comes first |
| `Page.PriorityOption.Value` | app/page.tsx:160-170 | each option of the priority selector converts to a number in 1..3 |
| `Page.PriorityOptionsOrdered` | app/page.tsx:167-169 | Low, Medium and High convert to increasing numbers; with the range of `Value`, to 1, 2 and 3 in that order |
| `Page.Initial` | app/page.tsx:18-20 | the page starts with no todos, an empty input and sorting by creation time |
| `Page.AddTodo` | app/page.tsx:22-37 | blank input leaves the whole page unchanged; otherwise the old list is kept as a prefix, one todo with the trimmed text, `editing` and `completed` false, priority 1 and the two clock readings is appended, the input is cleared, and the new text is non-empty |
| `Page.SortedTodos` | app/page.tsx:77-83 | the display order is a permutation of the list, non-increasing in the selected key and stable |
| `Page.HandleKeyPress` | app/page.tsx:71-75 | Enter does exactly what the Add action does; any other key, or Enter on blank input, leaves the page unchanged; Enter on non-blank input keeps the old list as a prefix, appends the todo with that id, the trimmed text, `editing` and `completed` false, priority 1 and that creation time, and clears the input |
| `Page.Step` | app/page.tsx:94-178 | only the sort selector changes the sort choice, and it changes nothing else; typing in the new-task field sets only the input; the input otherwise stays or is cleared; the per-todo events keep the input and the list length, and Remove never grows the list |
| `Page.StepDispatches` | app/page.tsx:94-178 | each event performs its handler's store operation: Add runs the Add action, Enter in the new-task field runs the key handler, the checkbox toggles `completed`, typing in an edit field sets the text, the priority selector stores the chosen level's number, Edit/Save and Enter in an edit field toggle `editing`, Remove removes the id |
| `Page.EnterSubmitsLikeAddButton` | app/page.tsx:71-75 | Enter in the new-task field yields the same state as the Add button; any other key changes nothing |
| `Page.EnterSavesLikeSaveButton` | app/page.tsx:143-145 | Enter in an edit field yields the same state as the Edit/Save button, which toggles `editing` on that id; any other key changes nothing |
| `Page.AddBlankIsNoOp` | app/page.tsx:22-23 | adding whitespace-only input, by button or by Enter, changes nothing |
| `Page.AddThenRemove` | app/page.tsx:22-41 | removing the id of a just-added todo gives the same list as removing that id before the add, whether or not ids collide |
| `Page.AddThenRemoveFresh` | app/page.tsx:22-41 | when no earlier todo had the id, removing the just-added todo gives back the list before the add |
| `Page.StepKeepsPrioritiesValid` | app/page.tsx:160-170 | no event takes a priority out of 1..3 |
| `Page.RunKeepsPrioritiesValid` | app/page.tsx:160-170 | every state reached by events from a state with priorities in 1..3 keeps them in 1..3 |
| `Page.ReachableKeepsPrioritiesValid` | app/page.tsx:18-20 | every state reached by events from the initial page has all priorities in 1..3 |
| `Page.SortSelectKeepsList` | app/page.tsx:109-116 | choosing a sort order leaves the list itself unchanged and only changes the display order |
| `Page.AddBuyMilk` | app/page.tsx:22-37 | typing "Buy milk" and adding it to an empty page gives exactly one todo with that text, not completed, priority 1 |
| `Page.NewestFirstScenario` | app/page.tsx:80-81 | three todos created at increasing times are displayed newest first |
| `Page.RaisedPriorityComesFirst` | app/page.tsx:65-83 | a todo whose priority is raised above every priority in the list, or a todo sharing its id, is displayed first when sorting by priority |
| `Page.RaisedPriorityFirstScenario` | app/page.tsx:78-79 | after raising the first of three priority-1 todos to 3, that todo's id is displayed first when sorting by priority |
| `Page.SameMillisecondIdsCollide` | app/page.tsx:27 | two adds with the same clock reading give two todos with one id, and a checkbox event then completes both |
| `Page.EditCanEmptyText` | app/page.tsx:142 | an edit can leave a saved todo with empty text |

## Left out

- Rendering is not modelled: the JSX markup, CSS classes, the `<style jsx>` block and the framer-motion animation (app/page.tsx:85-210). Apart from dispatching events and choosing which ones are offered, they hold no logic.
- Which events can happen in which state is not modelled. The markup decides this: the edit field exists only while `todo.editing` is set (app/page.tsx:138-148), and the per-todo events carry only ids of todos on screen. `Step` accepts every event in every state, so the properties proved for it also cover events the page would never dispatch.
- React's `useState` scheduling is not modelled. Each event is applied to the state left by the previous one, and each handler replaces the cells it sets.
- `Date.now()` is not modelled. Its readings are parameters, and no uniqueness or monotonicity is assumed.
- JavaScript `Number` semantics are not modelled. This covers the floating-point subtraction in the comparator, NaN, and `Number(e.target.value)`. Keys are `int`, and the selector's three options map to 1, 2 and 3 (`PriorityOptionsOrdered`).
- The `as SortOption` cast on the sort selector is not modelled. It is a `SortOption` datatype with exactly the selector's two options.
- The algorithm inside `Array.prototype.sort` is not modelled. Only its result is specified: `StableSortIsSortDesc` shows that every stable sort with this comparator gives the insertion sort's result.
- Text.Trim: the whitespace table is simplified. It covers ASCII whitespace, no-break space, the byte-order mark and the line and paragraph separators, not every space separator Unicode defines.
