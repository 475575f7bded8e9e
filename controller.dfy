/**
 The task-list screen's controller: its state, what each handler does to it,
 and the class whose methods perform those handlers step by step.

 Every handler runs to completion before the next one starts. A write to the
 store under the key "my-todo" either succeeds, replacing the stored list, or
 fails, which the handler catches; `writeFails` says which. The store's
 content is `None` when the key was never written.
 */
module Controller {
  import opened Text
  import opened Tasks

  /** Everything the screen keeps: the visible list, the unfiltered snapshot,
      the input text, the search query, the task under edit, and the store. */
  datatype State = State(
    todos: seq<Task>,
    oldTodos: seq<Task>,
    todoText: string,
    searchQuery: string,
    editingTodo: Option<Task>,
    storage: Option<seq<Task>>)

  /** The screen as mounted: every piece of state empty, the store as left by
      earlier runs. */
  function Initial(persisted: Option<seq<Task>>): State {
    State([], [], "", "", None, persisted)
  }

  /** `getTodos`: a stored list replaces both lists; an absent key or a failed
      read or parse leaves them as they are. */
  function LoadStep(s: State, readFails: bool): State {
    if !readFails && s.storage.Some? then
      s.(todos := s.storage.value, oldTodos := s.storage.value)
    else s
  }

  /** The input field's `onChangeText`. */
  function SetTextStep(s: State, text: string): State {
    s.(todoText := text)
  }

  /** `editTodo`: the first visible task with `id` becomes the edit target and
      its title the input text. */
  function BeginEditStep(s: State, id: int): State {
    match Find(s.todos, id)
    case None => s
    case Some(t) => s.(editingTodo := Some(t), todoText := t.title)
  }

  /** `saveEdit`: renames the edit target's id in the visible list, writes the
      result and only then updates the lists and leaves edit mode. */
  function SaveEditStep(s: State, writeFails: bool): State {
    if s.editingTodo.None? || Trim(s.todoText) == [] then s
    else if writeFails then s
    else
      var updated := RenameById(s.todos, s.editingTodo.value.id, Trim(s.todoText));
      s.(todos := updated, oldTodos := updated, storage := Some(updated),
         todoText := "", editingTodo := None)
  }

  /** `cancelEdit`. */
  function CancelEditStep(s: State): State {
    s.(editingTodo := None, todoText := "")
  }

  /** `addTodo`: in edit mode it is `saveEdit`; otherwise it prepends a new task
      to the visible list, updates both lists, and only then writes; the input
      text is cleared only once the write has succeeded. */
  function AddStep(s: State, id: int, writeFails: bool): State {
    if Trim(s.todoText) == [] then s
    else if s.editingTodo.Some? then SaveEditStep(s, writeFails)
    else
      var updated := [Task(id, Trim(s.todoText), false)] + s.todos;
      var shown := s.(todos := updated, oldTodos := updated);
      if writeFails then shown else shown.(storage := Some(updated), todoText := "")
  }

  /** `deleteTodo`: filters the visible list, writes, then updates both lists. */
  function DeleteStep(s: State, id: int, writeFails: bool): State {
    if writeFails then s
    else
      var updated := RemoveById(s.todos, id);
      s.(todos := updated, oldTodos := updated, storage := Some(updated))
  }

  /** `handleDone`: toggles in the visible list, writes, then updates both lists. */
  function ToggleStep(s: State, id: int, writeFails: bool): State {
    if writeFails then s
    else
      var updated := ToggleById(s.todos, id);
      s.(todos := updated, oldTodos := updated, storage := Some(updated))
  }

  /** `onSearch`: records the query and recomputes the visible list from the
      snapshot. */
  function SearchStep(s: State, query: string): State {
    s.(searchQuery := query, todos := SearchResult(s.oldTodos, query))
  }

  /** The store and both lists agree: what holds after every successful write. */
  predicate InSync(s: State) {
    s.storage == Some(s.todos) && s.oldTodos == s.todos
  }

  /** No list the screen holds has two tasks with one id. */
  predicate IdsUnique(s: State) {
    UniqueIds(s.todos) && UniqueIds(s.oldTodos) &&
    (s.storage.Some? ==> UniqueIds(s.storage.value))
  }

  // ---------------------------------------------------------------------------
  // Load

  /** Loading a stored list shows it whole; otherwise nothing changes. */
  lemma LoadSpec(s: State, readFails: bool)
    ensures var r := LoadStep(s, readFails);
      if !readFails && s.storage.Some? then
        r.todos == r.oldTodos == s.storage.value && r.storage == s.storage &&
        r.todoText == s.todoText && r.searchQuery == s.searchQuery &&
        r.editingTodo == s.editingTodo
      else r == s
  {
  }

  // ---------------------------------------------------------------------------
  // Add

  /** Adding with blank input text changes nothing at all. */
  lemma AddBlankIsNoop(s: State, id: int, writeFails: bool)
    requires IsBlank(s.todoText)
    ensures AddStep(s, id, writeFails) == s
  {
  }

  /** In edit mode, adding creates no task: it is exactly `saveEdit`. */
  lemma AddWhileEditingIsSaveEdit(s: State, id: int, writeFails: bool)
    requires s.editingTodo.Some?
    ensures AddStep(s, id, writeFails) == SaveEditStep(s, writeFails)
    ensures forall k :: HasId(AddStep(s, id, writeFails).todos, k) <==> HasId(s.todos, k)
  {
    if !IsBlank(s.todoText) && !writeFails {
      RenameKeepsIds(s.todos, s.editingTodo.value.id, Trim(s.todoText));
    }
  }

  /** Outside edit mode, adding non-blank text puts exactly one new, undone
      task with the trimmed text in front of the visible list, which is
      otherwise kept in order, and shows the result as both lists. The store
      and the input text change only when the write succeeds. */
  lemma AddPrepends(s: State, id: int, writeFails: bool)
    requires !IsBlank(s.todoText) && s.editingTodo.None?
    ensures var r := AddStep(s, id, writeFails);
      |r.todos| == |s.todos| + 1 &&
      r.todos[0] == Task(id, Trim(s.todoText), false) && r.todos[1..] == s.todos &&
      r.oldTodos == r.todos && r.editingTodo.None? && r.searchQuery == s.searchQuery &&
      (if writeFails then r.storage == s.storage && r.todoText == s.todoText
       else InSync(r) && r.todoText == "")
  {
  }

  /** The title of the new task is the input text without surrounding
      whitespace, and it is never blank. */
  lemma AddedTitle(s: State, id: int, writeFails: bool)
    requires !IsBlank(s.todoText) && s.editingTodo.None?
    ensures var t := AddStep(s, id, writeFails).todos[0];
      t.title != "" && Trim(t.title) == t.title
  {
    TrimIdempotent(s.todoText);
  }

  /** Adding to a filtered list forgets the tasks the filter hides: a task of
      the snapshot that is not visible is gone from both the new snapshot and
      the store. */
  lemma AddForgetsHidden(s: State, id: int, t: Task)
    requires !IsBlank(s.todoText) && s.editingTodo.None?
    requires t in s.oldTodos && t !in s.todos && t.id != id
    ensures var r := AddStep(s, id, false); t !in r.oldTodos && t !in r.storage.value
  {
  }

  // ---------------------------------------------------------------------------
  // Edit

  /** Beginning to edit an id that no visible task carries changes nothing;
      otherwise the edit target is the first visible task with that id and
      the input text is its title, and nothing else changes. */
  lemma BeginEditSpec(s: State, id: int)
    ensures var r := BeginEditStep(s, id);
      if !HasId(s.todos, id) then r == s
      else
        r.editingTodo.Some? &&
        (exists k :: 0 <= k < |s.todos| && s.todos[k] == r.editingTodo.value &&
                     !HasId(s.todos[..k], id)) &&
        r.editingTodo.value.id == id && r.todoText == r.editingTodo.value.title &&
        r.(editingTodo := s.editingTodo, todoText := s.todoText) == s
  {
  }

  /** Saving with nothing under edit, with blank input text, or with a failed
      write changes nothing. */
  lemma SaveEditNoop(s: State, writeFails: bool)
    requires s.editingTodo.None? || IsBlank(s.todoText) || writeFails
    ensures SaveEditStep(s, writeFails) == s
  {
  }

  /** A successful save replaces the title of exactly the visible tasks that
      share the edit target's id with the trimmed text, keeps ids, done flags,
      length and order, writes the result, and leaves edit mode. */
  lemma SaveEditRenames(s: State)
    requires s.editingTodo.Some? && !IsBlank(s.todoText)
    ensures var r := SaveEditStep(s, false); var id := s.editingTodo.value.id;
      |r.todos| == |s.todos| &&
      (forall i :: 0 <= i < |s.todos| ==>
         r.todos[i].id == s.todos[i].id && r.todos[i].isDone == s.todos[i].isDone &&
         r.todos[i].title == (if s.todos[i].id == id then Trim(s.todoText) else s.todos[i].title)) &&
      InSync(r) && r.editingTodo.None? && r.todoText == "" && r.searchQuery == s.searchQuery
  {
  }

  /** Once the edit target is gone from the visible list (a search hid it),
      saving renames nothing but still writes the visible list and leaves
      edit mode. */
  lemma SaveEditOfHiddenTarget(s: State)
    requires s.editingTodo.Some? && !IsBlank(s.todoText) && !HasId(s.todos, s.editingTodo.value.id)
    ensures var r := SaveEditStep(s, false);
      r.todos == s.todos && InSync(r) && r.editingTodo.None?
  {
    RenameAbsent(s.todos, s.editingTodo.value.id, Trim(s.todoText));
  }

  /** Cancelling leaves edit mode and clears the text, and nothing else. */
  lemma CancelEditSpec(s: State)
    ensures var r := CancelEditStep(s);
      r.editingTodo.None? && r.todoText == "" &&
      r.todos == s.todos && r.oldTodos == s.oldTodos && r.storage == s.storage &&
      r.searchQuery == s.searchQuery
  {
  }

  // ---------------------------------------------------------------------------
  // Delete

  /** A successful delete keeps exactly the visible tasks with another id, in
      their order and with their multiplicity (the filter, which
      `RemoveAppend` pins down), shows them as both lists and writes them; a failed one
      changes nothing. */
  lemma DeleteSpec(s: State, id: int, writeFails: bool)
    ensures var r := DeleteStep(s, id, writeFails);
      if writeFails then r == s
      else
        r.todos == RemoveById(s.todos, id) &&
        InSync(r) && IsSubseq(r.todos, s.todos) && !HasId(r.todos, id) &&
        (forall t :: t in r.todos <==> t in s.todos && t.id != id) &&
        r.todoText == s.todoText && r.editingTodo == s.editingTodo &&
        r.searchQuery == s.searchQuery
  {
    RemoveIsSubseq(s.todos, id);
    RemoveLeavesNoId(s.todos, id);
  }

  /** Deleting an id no visible task carries keeps the visible list, which
      becomes the snapshot and the store. */
  lemma DeleteAbsent(s: State, id: int)
    requires !HasId(s.todos, id)
    ensures var r := DeleteStep(s, id, false); r.todos == s.todos && InSync(r)
  {
    RemoveAbsent(s.todos, id);
  }

  /** Deleting twice is deleting once. */
  lemma DeleteTwice(s: State, id: int)
    ensures DeleteStep(DeleteStep(s, id, false), id, false) == DeleteStep(s, id, false)
  {
    RemoveIdempotent(s.todos, id);
  }

  /** Deleting from a filtered list forgets the tasks the filter hides. */
  lemma DeleteForgetsHidden(s: State, id: int, t: Task)
    requires t in s.oldTodos && t !in s.todos
    ensures var r := DeleteStep(s, id, false); t !in r.oldTodos && t !in r.storage.value
  {
  }

  // ---------------------------------------------------------------------------
  // Toggle

  /** A successful toggle flips the done flag of exactly the visible tasks with
      that id, keeps ids, titles, length and order, and writes the result; a
      failed one changes nothing. */
  lemma ToggleSpec(s: State, id: int, writeFails: bool)
    ensures var r := ToggleStep(s, id, writeFails);
      if writeFails then r == s
      else
        InSync(r) && |r.todos| == |s.todos| &&
        (forall i :: 0 <= i < |s.todos| ==>
           r.todos[i].id == s.todos[i].id && r.todos[i].title == s.todos[i].title &&
           r.todos[i].isDone == (s.todos[i].isDone != (s.todos[i].id == id))) &&
        r.todoText == s.todoText && r.editingTodo == s.editingTodo &&
        r.searchQuery == s.searchQuery
  {
  }

  /** Toggling one id twice gives back the visible list, now in sync with the
      store. */
  lemma ToggleTwiceRestores(s: State, id: int)
    ensures var r := ToggleStep(ToggleStep(s, id, false), id, false);
      r.todos == s.todos && InSync(r)
  {
    ToggleTwice(s.todos, id);
  }

  // ---------------------------------------------------------------------------
  // Search

  /** Searching never touches the snapshot, the store, the input text or the
      edit target. A blank query shows the whole snapshot; any other shows the
      snapshot's tasks whose lowercased title contains the lowercased query,
      in snapshot order. */
  lemma SearchStepSpec(s: State, query: string)
    ensures var r := SearchStep(s, query);
      r.searchQuery == query &&
      r.oldTodos == s.oldTodos && r.storage == s.storage &&
      r.todoText == s.todoText && r.editingTodo == s.editingTodo &&
      (IsBlank(query) ==> r.todos == s.oldTodos) &&
      (!IsBlank(query) ==>
         r.todos == FilterByQuery(s.oldTodos, query) &&
         IsSubseq(r.todos, s.oldTodos) &&
         forall t :: t in r.todos <==>
           t in s.oldTodos && Contains(Lower(t.title), Lower(query)))
  {
    SearchSpec(s.oldTodos, query);
  }

  /** A search never loses a task: searching again with a blank query brings
      back the whole snapshot. */
  lemma ClearSearchRestores(s: State, query: string, blank: string)
    requires IsBlank(blank)
    ensures SearchStep(SearchStep(s, query), blank).todos == s.oldTodos
  {
  }

  // ---------------------------------------------------------------------------
  // Unique ids

  /** The handlers that do not rebuild a list keep ids unique. */
  lemma UnchangedListsKeepIdsUnique(s: State, id: int, text: string, readFails: bool)
    requires IdsUnique(s)
    ensures IdsUnique(LoadStep(s, readFails))
    ensures IdsUnique(SetTextStep(s, text))
    ensures IdsUnique(BeginEditStep(s, id))
    ensures IdsUnique(CancelEditStep(s))
  {
  }

  /** Saving an edit keeps ids unique. */
  lemma SaveEditKeepsIdsUnique(s: State, writeFails: bool)
    requires IdsUnique(s)
    ensures IdsUnique(SaveEditStep(s, writeFails))
  {
    if s.editingTodo.Some? {
      RenameKeepsIds(s.todos, s.editingTodo.value.id, Trim(s.todoText));
    }
  }

  /** Adding keeps ids unique provided the new task gets an id that no
      visible task carries. */
  lemma AddKeepsIdsUnique(s: State, id: int, writeFails: bool)
    requires IdsUnique(s) && !HasId(s.todos, id)
    ensures IdsUnique(AddStep(s, id, writeFails))
  {
    if Trim(s.todoText) != [] {
      if s.editingTodo.Some? {
        SaveEditKeepsIdsUnique(s, writeFails);
      } else {
        PrependUnique(Task(id, Trim(s.todoText), false), s.todos);
      }
    }
  }

  /** Deleting keeps ids unique. */
  lemma DeleteKeepsIdsUnique(s: State, id: int, writeFails: bool)
    requires IdsUnique(s)
    ensures IdsUnique(DeleteStep(s, id, writeFails))
  {
    RemoveKeepsUnique(s.todos, id);
  }

  /** Toggling keeps ids unique. */
  lemma ToggleKeepsIdsUnique(s: State, id: int, writeFails: bool)
    requires IdsUnique(s)
    ensures IdsUnique(ToggleStep(s, id, writeFails))
  {
    ToggleKeepsIds(s.todos, id);
  }

  /** Searching keeps ids unique. */
  lemma SearchKeepsIdsUnique(s: State, query: string)
    requires IdsUnique(s)
    ensures IdsUnique(SearchStep(s, query))
  {
    SearchKeepsUnique(s.oldTodos, query);
  }

  /** Ids are not unique by themselves: adding with an id that a visible task
      already carries gives a list with two tasks of that id. */
  lemma AddWithTakenIdDuplicates(s: State, id: int, flag: bool)
    requires UniqueIds(s.todos) && HasId(s.todos, id)
    requires !IsBlank(s.todoText) && s.editingTodo.None?
    ensures !UniqueIds(AddStep(s, id, flag).todos)
  {
    PrependUnique(Task(id, Trim(s.todoText), false), s.todos);
  }

  // ---------------------------------------------------------------------------
  // Scenarios

  /** Adding "Buy milk" on a freshly mounted, empty screen and then mounting
      the screen again shows exactly that one task, not done. */
  lemma AddThenReload(persisted: Option<seq<Task>>, id: int)
    ensures var s := AddStep(SetTextStep(LoadStep(Initial(persisted), true), "Buy milk"), id, false);
      LoadStep(Initial(s.storage), false).todos == [Task(id, "Buy milk", false)]
  {
    assert Trim("Buy milk") == "Buy milk";
  }

  /** Beginning to edit a task and saving a new title changes only that
      task's title. */
  lemma EditThenSave(s: State, k: nat, text: string)
    requires k < |s.todos| && UniqueIds(s.todos) && !IsBlank(text)
    ensures var r := SaveEditStep(SetTextStep(BeginEditStep(s, s.todos[k].id), text), false);
      r.todos == s.todos[k := s.todos[k].(title := Trim(text))]
  {
    var id := s.todos[k].id;
    assert HasId(s.todos, id);
    var found := Find(s.todos, id);
    var e := BeginEditStep(s, id);
    assert e.editingTodo == found;
    var renamed := RenameById(s.todos, id, Trim(text));
    assert SaveEditStep(SetTextStep(e, text), false).todos == renamed;
    var expected := s.todos[k := s.todos[k].(title := Trim(text))];
    forall i | 0 <= i < |s.todos| ensures renamed[i] == expected[i] {
      if i != k {
        assert s.todos[i].id != id;
      }
    }
    assert renamed == expected;
  }

  // ---------------------------------------------------------------------------
  // The screen

  /** The mounted screen. Each method performs one handler in the order the
      handler does its work, and ends in the state the matching step
      function gives. */
  class TodoScreen {
    var todos: seq<Task>
    var oldTodos: seq<Task>
    var todoText: string
    var searchQuery: string
    var editingTodo: Option<Task>
    var storage: Option<seq<Task>>

    /** The screen's state as a value. */
    function Model(): State
      reads this
    {
      State(todos, oldTodos, todoText, searchQuery, editingTodo, storage)
    }

    /** Mounting: every `useState` at its initial value. */
    constructor (persisted: Option<seq<Task>>)
      ensures Model() == Initial(persisted)
    {
      todos := [];
      oldTodos := [];
      todoText := "";
      searchQuery := "";
      editingTodo := None;
      storage := persisted;
    }

    method Load(readFails: bool)
      modifies this
      ensures Model() == LoadStep(old(Model()), readFails)
    {
      if readFails {
        return;
      }
      match storage
      case None =>
      case Some(parsed) =>
        todos := parsed;
        oldTodos := parsed;
    }

    method SetText(text: string)
      modifies this
      ensures Model() == SetTextStep(old(Model()), text)
    {
      todoText := text;
    }

    method BeginEdit(id: int)
      modifies this
      ensures Model() == BeginEditStep(old(Model()), id)
    {
      var found := Find(todos, id);
      if found.Some? {
        editingTodo := found;
        todoText := found.value.title;
      }
    }

    method SaveEdit(writeFails: bool)
      modifies this
      ensures Model() == SaveEditStep(old(Model()), writeFails)
    {
      if editingTodo.None? || Trim(todoText) == "" {
        return;
      }
      var updated := RenameById(todos, editingTodo.value.id, Trim(todoText));
      if writeFails {
        return;
      }
      storage := Some(updated);
      todos := updated;
      oldTodos := updated;
      todoText := "";
      editingTodo := None;
    }

    method CancelEdit()
      modifies this
      ensures Model() == CancelEditStep(old(Model()))
    {
      editingTodo := None;
      todoText := "";
    }

    method Add(id: int, writeFails: bool)
      modifies this
      ensures Model() == AddStep(old(Model()), id, writeFails)
    {
      if Trim(todoText) == "" {
        return;
      }
      if editingTodo.Some? {
        SaveEdit(writeFails);
        return;
      }
      var newTodo := Task(id, Trim(todoText), false);
      var updated := [newTodo] + todos;
      todos := updated;
      oldTodos := updated;
      if writeFails {
        return;
      }
      storage := Some(updated);
      todoText := "";
    }

    method Delete(id: int, writeFails: bool)
      modifies this
      ensures Model() == DeleteStep(old(Model()), id, writeFails)
    {
      var updated := RemoveById(todos, id);
      if writeFails {
        return;
      }
      storage := Some(updated);
      todos := updated;
      oldTodos := updated;
    }

    method Toggle(id: int, writeFails: bool)
      modifies this
      ensures Model() == ToggleStep(old(Model()), id, writeFails)
    {
      var updated := ToggleById(todos, id);
      if writeFails {
        return;
      }
      storage := Some(updated);
      todos := updated;
      oldTodos := updated;
    }

    method Search(query: string)
      modifies this
      ensures Model() == SearchStep(old(Model()), query)
    {
      searchQuery := query;
      if Trim(query) == "" {
        todos := oldTodos;
      } else {
        todos := FilterByQuery(oldTodos, query);
      }
    }
  }
}
