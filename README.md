# Task-list controller of a React Native to-do app

This project models the controller behind the app's task-list screen
(`ToDoApp/app/ToDoApp.tsx`). The screen keeps six pieces of state:

- the visible list `todos`;
- the unfiltered snapshot `oldTodos`;
- the input text `todoText`;
- the search query `searchQuery`;
- the optional edit target `editingTodo`;
- the list persisted under the key `"my-todo"`.

A small set of handlers changes that state: load on mount, begin edit, save
edit, cancel edit, add, delete, toggle done and search. Each one is plain list
work: find by id, map by id, filter by id, prepend, and a case-insensitive
substring filter.

A task is the record `Tasks.Task` (`id`, `title`, `isDone`), the
`ToDoType` at ToDoApp/app/ToDoApp.tsx:11-15.

The project has three modules:

- `Text` (`text.dfy`) — `trim`, `toLowerCase` and `includes`, over ASCII.
- `Tasks` (`tasks.dfy`) — the `Task` record `{id, title, isDone}` and the list
  transformations, as recursive functions with lemmas: order-preserving
  subsequence, membership, distribution over concatenation, idempotence,
  involution, and preservation of unique ids.
- `Controller` (`controller.dfy`) — the screen's state as a `State` value and
  one step function per handler, with lemmas about the steps. It also holds
  the class `TodoScreen`:
  - its fields are the state;
  - its methods run the handlers step by step, in the source's order;
  - each method ensures `Model() == XStep(old(Model()), ...)`.

The store is the field `storage: Option<seq<Task>>`. `None` means the key was
never written. Every write either succeeds or fails, and the caller chooses
which with a `writeFails` parameter. A failed read or parse on load is the
`readFails` parameter. A new task's id (the source uses `Date.now()`) is a
parameter of `Add`.

Behaviour modelled as the code has it:

- Every mutating handler works on the visible list. While a search is active,
  that is the filtered list. The handler then writes the result as the new
  snapshot and to the store, so adding, deleting, toggling or saving while a
  search is active drops the hidden tasks (`AddForgetsHidden`,
  `DeleteForgetsHidden`). So a search, which only narrows the view, ends up
  changing the stored list.
- On a failed write, adding still updates both lists and only keeps the input
  text; it updates memory before writing. Save, delete and toggle write first
  and change nothing when the write fails.
- Saving an edit renames every visible task that has the target's id, not
  one task.
- Ids are not unique by construction. Uniqueness is preserved only when `Add`
  gets an id no visible task carries (`AddKeepsIdsUnique`), and a taken id
  breaks it (`AddWithTakenIdDuplicates`).

## Model

| member | source | states |
|---|---|---|
| Text.Trim | ToDoApp/app/ToDoApp.tsx:57 | `trim` gives the slice of the input between leading and trailing whitespace, with only whitespace around it; it is empty exactly when the input is blank, and otherwise starts and ends with a non-space |
| Text.TrimIdempotent | ToDoApp/app/ToDoApp.tsx:91 | a trimmed title is left alone by trimming again |
| Text.Lower | ToDoApp/app/ToDoApp.tsx:135 | `toLowerCase` keeps the length and lowers each character on its own |
| Text.LowerIdempotent | ToDoApp/app/ToDoApp.tsx:135 | lowering twice is lowering once |
| Text.Contains | ToDoApp/app/ToDoApp.tsx:135 | `includes`: the needle is a prefix of the string or of one of its suffixes; its meaning is stated by `Text.ContainsIff` |
| Text.ContainsIff | ToDoApp/app/ToDoApp.tsx:135 | `includes` holds exactly when the needle occurs at some position of the string (so the empty needle is always found) |
| Tasks.Find | ToDoApp/app/ToDoApp.tsx:49 | `find` returns nothing exactly when no task has the id; otherwise the task at an index with that id, and no earlier task has it |
| Tasks.RenameById | ToDoApp/app/ToDoApp.tsx:60-62 | the edit `map` keeps length, order, ids and done flags, and replaces the title of exactly the entries with the id |
| Tasks.RenameKeepsIds | ToDoApp/app/ToDoApp.tsx:60-62 | renaming keeps the set of ids, so keeps them unique |
| Tasks.RenameAbsent | ToDoApp/app/ToDoApp.tsx:60-62 | renaming an absent id returns the list unchanged |
| Tasks.ToggleById | ToDoApp/app/ToDoApp.tsx:118-120 | the done `map` keeps length, order, ids and titles, and flips the flag of exactly the entries with the id |
| Tasks.ToggleKeepsIds | ToDoApp/app/ToDoApp.tsx:118-120 | toggling keeps the set of ids, so keeps them unique |
| Tasks.ToggleTwice | ToDoApp/app/ToDoApp.tsx:118-120 | toggling the same id twice gives back the list |
| Tasks.ToggleAbsent | ToDoApp/app/ToDoApp.tsx:118-120 | toggling an absent id returns the list unchanged |
| Tasks.RemoveById | ToDoApp/app/ToDoApp.tsx:107 | the delete `filter` keeps exactly the entries whose id differs |
| Tasks.RemoveIsSubseq | ToDoApp/app/ToDoApp.tsx:107 | the delete result is an order-preserving subsequence of the list |
| Tasks.RemoveAppend | ToDoApp/app/ToDoApp.tsx:107 | deleting distributes over concatenation |
| Tasks.RemoveAbsent | ToDoApp/app/ToDoApp.tsx:107 | deleting an absent id returns the list unchanged |
| Tasks.RemoveLeavesNoId | ToDoApp/app/ToDoApp.tsx:107 | after deleting, no entry carries the id |
| Tasks.RemoveIdempotent | ToDoApp/app/ToDoApp.tsx:107 | deleting twice equals deleting once |
| Tasks.RemoveKeepsUnique | ToDoApp/app/ToDoApp.tsx:107 | deleting keeps ids unique |
| Tasks.FilterByQuery | ToDoApp/app/ToDoApp.tsx:134-136 | the search `filter` keeps exactly the entries whose lowercased title contains the lowercased query |
| Tasks.FilterIsSubseq | ToDoApp/app/ToDoApp.tsx:134-136 | the search result is an order-preserving subsequence of the snapshot |
| Tasks.FilterAppend | ToDoApp/app/ToDoApp.tsx:134-136 | the search filter distributes over concatenation |
| Tasks.Matches | ToDoApp/app/ToDoApp.tsx:135 | the search test: the lowercased title includes the lowercased, untrimmed query |
| Tasks.SearchResult | ToDoApp/app/ToDoApp.tsx:131-137 | what the search shows: the snapshot for a query that trims to empty, the search filter otherwise; its properties are stated by `Tasks.SearchSpec` |
| Tasks.SearchSpec | ToDoApp/app/ToDoApp.tsx:131-137 | a blank query shows the snapshot itself; any other shows the filter result; in both cases an order-preserving subsequence with exactly the matching members |
| Tasks.SearchIgnoresQueryCase | ToDoApp/app/ToDoApp.tsx:135 | a query and its lowercase form select the same tasks |
| Tasks.SearchKeepsUnique | ToDoApp/app/ToDoApp.tsx:131-137 | searching keeps ids unique |
| Tasks.PrependUnique | ToDoApp/app/ToDoApp.tsx:94 | prepending to a list with unique ids keeps them unique exactly when the new id is not already there |
| Controller.Initial | ToDoApp/app/ToDoApp.tsx:19-24 | the state at mount: both lists, the text and the query empty, no edit target, the store as persisted |
| Controller.LoadStep | ToDoApp/app/ToDoApp.tsx:33-44 | `getTodos` as a state step; stated by `Controller.LoadSpec` |
| Controller.SetTextStep | ToDoApp/app/ToDoApp.tsx:199-200 | `onChangeText={setTodoText}` as a state step: only the input text changes |
| Controller.BeginEditStep | ToDoApp/app/ToDoApp.tsx:48-54 | `editTodo` as a state step; stated by `Controller.BeginEditSpec` |
| Controller.SaveEditStep | ToDoApp/app/ToDoApp.tsx:56-72 | `saveEdit` as a state step, write before memory; stated by `Controller.SaveEditNoop` and `Controller.SaveEditRenames` |
| Controller.CancelEditStep | ToDoApp/app/ToDoApp.tsx:74-78 | `cancelEdit` as a state step; stated by `Controller.CancelEditSpec` |
| Controller.AddStep | ToDoApp/app/ToDoApp.tsx:80-103 | `addTodo` as a state step, memory before the write; stated by `Controller.AddBlankIsNoop`, `Controller.AddWhileEditingIsSaveEdit` and `Controller.AddPrepends` |
| Controller.DeleteStep | ToDoApp/app/ToDoApp.tsx:105-114 | `deleteTodo` as a state step; stated by `Controller.DeleteSpec` |
| Controller.ToggleStep | ToDoApp/app/ToDoApp.tsx:116-127 | `handleDone` as a state step; stated by `Controller.ToggleSpec` |
| Controller.SearchStep | ToDoApp/app/ToDoApp.tsx:129-139 | `onSearch` as a state step; stated by `Controller.SearchStepSpec` |
| Controller.LoadSpec | ToDoApp/app/ToDoApp.tsx:33-44 | a stored list, read without failure, becomes both lists and the text, query and edit target stay as they were; an absent key or a failed read changes nothing |
| Controller.AddBlankIsNoop | ToDoApp/app/ToDoApp.tsx:81 | adding with blank input text changes nothing at all |
| Controller.AddWhileEditingIsSaveEdit | ToDoApp/app/ToDoApp.tsx:83-86 | in edit mode, adding is exactly saving the edit, and creates no id |
| Controller.AddPrepends | ToDoApp/app/ToDoApp.tsx:88-98 | outside edit mode, with non-blank text: exactly one new undone task with the trimmed text goes in front of the visible list, which is otherwise kept in order; both lists show the result; the store and the input text change only when the write succeeds, and then the store equals the lists and the text is empty |
| Controller.AddedTitle | ToDoApp/app/ToDoApp.tsx:89-93 | the new task's title is non-empty and already trimmed |
| Controller.AddForgetsHidden | ToDoApp/app/ToDoApp.tsx:94-97 | a snapshot task hidden by the search is gone from the new snapshot and from the store after adding |
| Controller.BeginEditSpec | ToDoApp/app/ToDoApp.tsx:48-54 | an id absent from the visible list changes nothing; otherwise the edit target is the first visible task with the id, the text is its title, and nothing else changes |
| Controller.SaveEditNoop | ToDoApp/app/ToDoApp.tsx:57-71 | saving with no edit target, with blank text, or with a failed write changes nothing |
| Controller.SaveEditRenames | ToDoApp/app/ToDoApp.tsx:59-67 | a successful save renames exactly the visible tasks with the target's id to the trimmed text, keeps ids, flags, length and order, makes the store and both lists equal, and leaves edit mode with empty text |
| Controller.SaveEditOfHiddenTarget | ToDoApp/app/ToDoApp.tsx:60-65 | when the target is not visible, saving renames nothing but still writes the visible list and leaves edit mode |
| Controller.CancelEditSpec | ToDoApp/app/ToDoApp.tsx:74-78 | cancelling leaves edit mode and clears the text, and touches neither list nor the store |
| Controller.DeleteSpec | ToDoApp/app/ToDoApp.tsx:105-114 | a successful delete gives the filter of the visible list (the visible tasks with another id, in order and with their multiplicity), and makes the store and both lists equal to them; a failed one changes nothing |
| Controller.DeleteAbsent | ToDoApp/app/ToDoApp.tsx:107-110 | deleting an absent id keeps the visible list and syncs it to the snapshot and the store |
| Controller.DeleteTwice | ToDoApp/app/ToDoApp.tsx:107-110 | deleting the same id twice is deleting it once |
| Controller.DeleteForgetsHidden | ToDoApp/app/ToDoApp.tsx:107-110 | a snapshot task hidden by the search is gone from the new snapshot and from the store after deleting |
| Controller.ToggleSpec | ToDoApp/app/ToDoApp.tsx:116-127 | a successful toggle flips the flag of exactly the visible tasks with the id, keeps ids, titles, length and order, and syncs the store and both lists; a failed one changes nothing |
| Controller.ToggleTwiceRestores | ToDoApp/app/ToDoApp.tsx:118-123 | toggling one id twice gives back the visible list, in sync with the store |
| Controller.SearchStepSpec | ToDoApp/app/ToDoApp.tsx:129-139 | searching records the query, never touches the snapshot, the store, the text or the edit target; a blank query shows the snapshot, any other the search filter of the snapshot: the order-preserving subsequence of snapshot tasks whose lowercased title contains the lowercased untrimmed query |
| Controller.ClearSearchRestores | ToDoApp/app/ToDoApp.tsx:131-132 | a blank search after any search shows the whole snapshot again |
| Controller.UnchangedListsKeepIdsUnique | ToDoApp/app/ToDoApp.tsx:33-54 | load, text entry, begin edit and cancel edit keep ids unique |
| Controller.SaveEditKeepsIdsUnique | ToDoApp/app/ToDoApp.tsx:60-65 | saving an edit keeps ids unique |
| Controller.AddKeepsIdsUnique | ToDoApp/app/ToDoApp.tsx:88-97 | adding keeps ids unique when the new id is not on the visible list |
| Controller.DeleteKeepsIdsUnique | ToDoApp/app/ToDoApp.tsx:107-110 | deleting keeps ids unique |
| Controller.ToggleKeepsIdsUnique | ToDoApp/app/ToDoApp.tsx:118-123 | toggling keeps ids unique |
| Controller.SearchKeepsIdsUnique | ToDoApp/app/ToDoApp.tsx:129-139 | searching keeps ids unique |
| Controller.AddWithTakenIdDuplicates | ToDoApp/app/ToDoApp.tsx:90-94 | adding with an id already on the visible list yields two tasks with that id |
| Controller.AddThenReload | ToDoApp/app/ToDoApp.tsx:33-44 | adding "Buy milk" on a freshly mounted empty screen and mounting again shows exactly that one undone task |
| Controller.EditThenSave | ToDoApp/app/ToDoApp.tsx:48-67 | with unique ids, beginning to edit a visible task and saving a new text changes that task's title to the trimmed text and nothing else |
| Controller.TodoScreen.constructor | ToDoApp/app/ToDoApp.tsx:19-24 | the screen mounts with both lists, the text and the query empty, no edit target, and the store as persisted |
| Controller.TodoScreen.Load | ToDoApp/app/ToDoApp.tsx:33-44 | the new state is the load step of the old one |
| Controller.TodoScreen.SetText | ToDoApp/app/ToDoApp.tsx:199-200 | the new state is the old one with the input text replaced |
| Controller.TodoScreen.BeginEdit | ToDoApp/app/ToDoApp.tsx:48-54 | the new state is the begin-edit step of the old one |
| Controller.TodoScreen.SaveEdit | ToDoApp/app/ToDoApp.tsx:56-72 | the new state is the save-edit step of the old one (write first, then memory) |
| Controller.TodoScreen.CancelEdit | ToDoApp/app/ToDoApp.tsx:74-78 | the new state is the cancel step of the old one |
| Controller.TodoScreen.Add | ToDoApp/app/ToDoApp.tsx:80-103 | the new state is the add step of the old one (memory first, then the write) |
| Controller.TodoScreen.Delete | ToDoApp/app/ToDoApp.tsx:105-114 | the new state is the delete step of the old one |
| Controller.TodoScreen.Toggle | ToDoApp/app/ToDoApp.tsx:116-127 | the new state is the toggle step of the old one |
| Controller.TodoScreen.Search | ToDoApp/app/ToDoApp.tsx:129-139 | the new state is the search step of the old one |

## Left out

- Rendering, styles, the fade-in animation, `Keyboard.dismiss`, the gradient and blur views, and the display-only `[...todos].reverse()` (ToDoApp/app/ToDoApp.tsx:176): these are GUI bindings and hold no logic.
- `ToDoApp/app/index.tsx`: the landing screen only toggles a `showTodo` flag on button presses. ToDoApp/app/index.tsx is not part of this model.
- AsyncStorage and JSON: the store is a `seq<Task>` value under one key, serialisation round-trips exactly, and read, parse and write failures are the `readFails` and `writeFails` parameters. A stored value of any other shape cannot arise in the model.
- `console.log` of caught errors: diagnostics only.
- `Date.now()`: the new id is a parameter of `Add`. Nothing in the code makes ids unique, so uniqueness is proved only under a fresh-id precondition.
- React's state batching and `async`/`await` interleaving: each handler runs atomically to completion and sees the state it started with.
- Load runs once on mount in the source; here `Load` is a method that can be called on any state.
- Text.Trim: treats only the ASCII whitespace characters (space, tab, line feed, vertical tab, form feed, carriage return) as whitespace; JavaScript's `trim` also removes Unicode spaces and line separators.
- Text.Lower: lowers only `A`–`Z`; JavaScript's `toLowerCase` applies full Unicode case mapping.
- No concrete search example is stated; `Controller.SearchStepSpec` covers every list and query.
