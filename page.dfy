/** The page: its three state cells, the Add action, the derived display
    order and the dispatch of user events to the list operations. */
module Page {
  import opened Text
  import opened TodoList
  import opened SortView

  /** The three choices of a todo's priority selector. */
  datatype PriorityOption = Low | Medium | High {
    /** The number the selector's option value converts to. */
    function Value(): (v: int)
      ensures 1 <= v <= 3
    {
      match this
      case Low => 1
      case Medium => 2
      case High => 3
    }
  }

  /** The options convert in their own order, Low below Medium below High;
      with the range of `Value` this makes them 1, 2 and 3. */
  lemma PriorityOptionsOrdered()
    ensures Low.Value() < Medium.Value() < High.Value()
  {
  }

  /** The page state: the list, the new-task input buffer and the sort choice. */
  datatype Page = Page(todos: seq<Todo>, newTodo: string, sortBy: SortOption)

  /** The state when the page is first shown. */
  function Initial(): (p: Page)
    ensures p.todos == [] && p.newTodo == "" && p.sortBy == ByCreatedAt
  {
    Page([], "", ByCreatedAt)
  }

  /** The Add action. `id` and `createdAt` are the two clock readings the
      action takes; they may differ, and nothing makes `id` unique. */
  function AddTodo(p: Page, id: int, createdAt: int): (r: Page)
    ensures IsBlank(p.newTodo) ==> r == p
    ensures !IsBlank(p.newTodo) ==>
      && |r.todos| == |p.todos| + 1
      && r.todos[..|p.todos|] == p.todos
      && r.todos[|p.todos|] == Todo(id, Trim(p.newTodo), false, false, 1, createdAt)
      && r.newTodo == ""
      && r.sortBy == p.sortBy
    ensures !IsBlank(p.newTodo) ==>
      var text := r.todos[|p.todos|].text;
      text != [] && !IsWhitespace(text[0]) && !IsWhitespace(text[|text| - 1])
  {
    var text := Trim(p.newTodo);
    if text != [] then
      Page(p.todos + [Todo(id, text, false, false, 1, createdAt)], "", p.sortBy)
    else
      p
  }

  /** The derived display order: a stable sort of a copy of the list by the
      selected key, descending. The page state itself is not changed. */
  function SortedTodos(p: Page): (r: seq<Todo>)
    ensures multiset(r) == multiset(p.todos)
    ensures Sorted(p.sortBy, r)
    ensures forall k :: WithKey(p.sortBy, r, k) == WithKey(p.sortBy, p.todos, k)
  {
    SortDescStableForAll(p.sortBy, p.todos);
    SortDesc(p.sortBy, p.todos)
  }

  /** `SortDescStable` for every key at once. */
  lemma SortDescStableForAll(sortBy: SortOption, s: seq<Todo>)
    ensures forall k :: WithKey(sortBy, SortDesc(sortBy, s), k) == WithKey(sortBy, s, k)
  {
    forall k ensures WithKey(sortBy, SortDesc(sortBy, s), k) == WithKey(sortBy, s, k) {
      SortDescStable(sortBy, s, k);
    }
  }

  // ---------------------------------------------------------------- events

  /** A user event. Clock readings that the Add action would take are
      carried by the events that can trigger it. */
  datatype Event =
    | NewTodoInput(value: string)                            // typing in the new-task field
    | NewTodoKeyPress(key: string, id: int, createdAt: int)  // a key in the new-task field
    | AddClick(id: int, createdAt: int)                      // the Add button
    | SortSelect(option: SortOption)                         // the sort selector
    | CheckboxChange(id: int)                                // a todo's checkbox
    | EditInput(id: int, value: string)                      // typing in a todo's edit field
    | EditKeyPress(id: int, key: string)                     // a key in a todo's edit field
    | PrioritySelect(id: int, level: PriorityOption)         // a todo's priority selector
    | EditSaveClick(id: int)                                 // a todo's Edit/Save button
    | RemoveClick(id: int)                                   // a todo's Remove button

  /** A key pressed in the new-task field: Enter submits, others do nothing.
      The page either stays as it was or, for Enter on non-blank input,
      gains one todo at the end and has its input cleared. */
  function HandleKeyPress(p: Page, key: string, id: int, createdAt: int): (r: Page)
    ensures r.sortBy == p.sortBy
    ensures key != "Enter" || IsBlank(p.newTodo) ==> r == p
    ensures key == "Enter" && !IsBlank(p.newTodo) ==>
      |r.todos| == |p.todos| + 1 && r.todos[..|p.todos|] == p.todos && r.newTodo == ""
      && r.todos[|p.todos|] == Todo(id, Trim(p.newTodo), false, false, 1, createdAt)
    ensures key == "Enter" ==> r == AddTodo(p, id, createdAt)
  {
    if key == "Enter" then AddTodo(p, id, createdAt) else p
  }

  /** The state after one event. Only the sort selector changes the sort
      choice, and it changes nothing else; only typing in the new-task field
      or a successful Add changes the input buffer; the per-todo events keep
      the buffer and the length of the list. */
  function Step(p: Page, e: Event): (r: Page)
    ensures !e.SortSelect? ==> r.sortBy == p.sortBy
    ensures e.SortSelect? ==> r == p.(sortBy := e.option)
    ensures e.NewTodoInput? ==> r == p.(newTodo := e.value)
    ensures r.newTodo == p.newTodo || r.newTodo == "" || e.NewTodoInput?
    ensures e.CheckboxChange? || e.EditInput? || e.EditKeyPress? || e.PrioritySelect? || e.EditSaveClick? ==>
      |r.todos| == |p.todos| && r.newTodo == p.newTodo
    ensures e.RemoveClick? ==> |r.todos| <= |p.todos| && r.newTodo == p.newTodo
  {
    match e
    case NewTodoInput(value) => p.(newTodo := value)
    case NewTodoKeyPress(key, id, createdAt) => HandleKeyPress(p, key, id, createdAt)
    case AddClick(id, createdAt) => AddTodo(p, id, createdAt)
    case SortSelect(option) => p.(sortBy := option)
    case CheckboxChange(id) => p.(todos := ToggleComplete(p.todos, id))
    case EditInput(id, value) => p.(todos := UpdateTodo(p.todos, id, value))
    case EditKeyPress(id, key) =>
      if key == "Enter" then p.(todos := ToggleEdit(p.todos, id)) else p
    case PrioritySelect(id, level) => p.(todos := ChangePriority(p.todos, id, level.Value()))
    case EditSaveClick(id) => p.(todos := ToggleEdit(p.todos, id))
    case RemoveClick(id) => p.(todos := RemoveTodo(p.todos, id))
  }

  /** The state after a series of events, in order. */
  function Run(p: Page, events: seq<Event>): Page
    decreases |events|
  {
    if events == [] then p else Run(Step(p, events[0]), events[1..])
  }

  // ------------------------------------------------------------ properties

  /** Which store operation each event performs, for the events whose new
      state the frame clauses of `Step` leave open. */
  lemma StepDispatches(p: Page, e: Event)
    ensures e.AddClick? ==> Step(p, e) == AddTodo(p, e.id, e.createdAt)
    ensures e.NewTodoKeyPress? ==> Step(p, e) == HandleKeyPress(p, e.key, e.id, e.createdAt)
    ensures e.CheckboxChange? ==> Step(p, e) == p.(todos := ToggleComplete(p.todos, e.id))
    ensures e.EditInput? ==> Step(p, e) == p.(todos := UpdateTodo(p.todos, e.id, e.value))
    ensures e.PrioritySelect? ==> Step(p, e) == p.(todos := ChangePriority(p.todos, e.id, e.level.Value()))
    ensures e.EditSaveClick? ==> Step(p, e) == p.(todos := ToggleEdit(p.todos, e.id))
    ensures e.EditKeyPress? ==> Step(p, e) == if e.key == "Enter" then p.(todos := ToggleEdit(p.todos, e.id)) else p
    ensures e.RemoveClick? ==> Step(p, e) == p.(todos := RemoveTodo(p.todos, e.id))
  {
  }


  /** Enter in the new-task field does what the Add button does; any other
      key leaves the page as it was. */
  lemma EnterSubmitsLikeAddButton(p: Page, key: string, id: int, createdAt: int)
    ensures key == "Enter" ==> Step(p, NewTodoKeyPress(key, id, createdAt)) == Step(p, AddClick(id, createdAt))
    ensures key != "Enter" ==> Step(p, NewTodoKeyPress(key, id, createdAt)) == p
  {
  }

  /** Enter in a todo's edit field does what its Save button does, which is
      to toggle `editing` on the todos with that id; any other key does nothing. */
  lemma EnterSavesLikeSaveButton(p: Page, id: int, key: string)
    ensures key == "Enter" ==> Step(p, EditKeyPress(id, key)) == Step(p, EditSaveClick(id))
    ensures Step(p, EditSaveClick(id)) == p.(todos := ToggleEdit(p.todos, id))
    ensures key != "Enter" ==> Step(p, EditKeyPress(id, key)) == p
  {
  }

  /** Adding when the input is blank changes nothing at all. */
  lemma AddBlankIsNoOp(p: Page, id: int, createdAt: int)
    requires IsBlank(p.newTodo)
    ensures Step(p, AddClick(id, createdAt)) == p
    ensures Step(p, NewTodoKeyPress("Enter", id, createdAt)) == p
  {
  }

  /** Removing the id of a todo just added removes whatever the list had
      under that id and the new todo with it, whether or not the id collides. */
  lemma AddThenRemove(p: Page, id: int, createdAt: int)
    ensures RemoveTodo(AddTodo(p, id, createdAt).todos, id) == RemoveTodo(p.todos, id)
  {
    var r := AddTodo(p, id, createdAt);
    if !IsBlank(p.newTodo) {
      var added := r.todos[|p.todos|];
      assert r.todos == p.todos + [added];
      RemoveConcat(p.todos, [added], id);
      assert RemoveTodo([added], id) == [];
    }
  }

  /** When no earlier todo carries the new id, removing it gives back the
      list as it was before the Add. */
  lemma AddThenRemoveFresh(p: Page, id: int, createdAt: int)
    requires Absent(p.todos, id)
    ensures RemoveTodo(AddTodo(p, id, createdAt).todos, id) == p.todos
  {
    AddThenRemove(p, id, createdAt);
    RemoveAbsent(p.todos, id);
  }

  /** Every event keeps every priority to one the selector offers. */
  lemma StepKeepsPrioritiesValid(p: Page, e: Event)
    requires PrioritiesValid(p.todos)
    ensures PrioritiesValid(Step(p, e).todos)
  {
    match e
    case RemoveClick(id) =>
      var r := RemoveTodo(p.todos, id);
      forall i | 0 <= i < |r| ensures 1 <= r[i].priority <= 3 {
        assert r[i] in r;
      }
    case PrioritySelect(id, level) =>
      ChangePriorityKeepsValid(p.todos, id, level.Value());
    case _ =>
  }

  /** Every state reachable from a valid one through events is valid too;
      in particular every state reachable from the initial one. */
  lemma {:induction false} RunKeepsPrioritiesValid(p: Page, events: seq<Event>)
    requires PrioritiesValid(p.todos)
    ensures PrioritiesValid(Run(p, events).todos)
    decreases |events|
  {
    if events != [] {
      StepKeepsPrioritiesValid(p, events[0]);
      RunKeepsPrioritiesValid(Step(p, events[0]), events[1..]);
    }
  }

  /** Every state reachable from the initial page has all priorities in 1..3. */
  lemma ReachableKeepsPrioritiesValid(events: seq<Event>)
    ensures PrioritiesValid(Run(Initial(), events).todos)
  {
    RunKeepsPrioritiesValid(Initial(), events);
  }

  /** Choosing a sort order never reorders or alters the list itself. */
  lemma SortSelectKeepsList(p: Page, option: SortOption)
    ensures Step(p, SortSelect(option)).todos == p.todos
    ensures SortedTodos(Step(p, SortSelect(option))) == SortDesc(option, p.todos)
  {
    assert Step(p, SortSelect(option)) == p.(sortBy := option);
  }

  // ------------------------------------------------------------- scenarios

  /** Adding "Buy milk" to an empty page gives exactly one todo with that
      text, not completed, at priority 1. */
  lemma AddBuyMilk(id: int, createdAt: int)
    ensures Run(Initial(), [NewTodoInput("Buy milk"), AddClick(id, createdAt)]).todos
      == [Todo(id, "Buy milk", false, false, 1, createdAt)]
  {
    var p := Initial().(newTodo := "Buy milk");
    assert !IsWhitespace(p.newTodo[0]) && !IsWhitespace(p.newTodo[|p.newTodo| - 1]);
    TrimOfTrimmed(p.newTodo);
    assert AddTodo(p, id, createdAt).todos == [Todo(id, "Buy milk", false, false, 1, createdAt)];
    RunInputThenAdd(Initial(), "Buy milk", id, createdAt, []);
    assert [NewTodoInput("Buy milk"), AddClick(id, createdAt)] + []
      == [NewTodoInput("Buy milk"), AddClick(id, createdAt)];
  }

  /** Three todos added in the order a, b, c at increasing times are shown
      c, b, a when sorted by creation time. */
  lemma NewestFirstScenario(a: Todo, b: Todo, c: Todo)
    requires a.createdAt < b.createdAt < c.createdAt
    ensures SortedTodos(Page([a, b, c], "", ByCreatedAt)) == [c, b, a]
  {
    var s := [a, b, c];
    assert forall i, j :: 0 <= i < j < |s| ==> Key(ByCreatedAt, s[i]) < Key(ByCreatedAt, s[j]) by {
      forall i, j | 0 <= i < j < |s| ensures Key(ByCreatedAt, s[i]) < Key(ByCreatedAt, s[j]) {
        assert s[i].createdAt < s[j].createdAt;
      }
    }
    SortDescOfIncreasing(ByCreatedAt, s);
    ReversedOfThree(a, b, c);
  }

  /** The reverse of a three-element list, written out. */
  lemma ReversedOfThree(a: Todo, b: Todo, c: Todo)
    ensures Reversed([a, b, c]) == [c, b, a]
  {
  }

  /** A todo raised above every priority in the list is displayed first
      (or a todo sharing its id is) when sorting by priority. */
  lemma RaisedPriorityComesFirst(s: seq<Todo>, i: nat, priority: int)
    requires i < |s|
    requires forall j :: 0 <= j < |s| ==> s[j].priority < priority
    ensures SortDesc(ByPriority, ChangePriority(s, s[i].id, priority))[0].id == s[i].id
  {
    var r := ChangePriority(s, s[i].id, priority);
    var sorted := SortDesc(ByPriority, r);
    assert r[i] in multiset(sorted);
    HeadIsLargest(ByPriority, sorted, r[i]);
    assert sorted[0] in multiset(r);
    var j :| 0 <= j < |r| && r[j] == sorted[0];
    assert s[j].priority < priority;
  }

  /** When a, b, c all have priority 1 and a is set to High, sorting by
      priority shows a todo with a's id first. */
  lemma RaisedPriorityFirstScenario(a: Todo, b: Todo, c: Todo)
    requires a.priority == b.priority == c.priority == 1
    ensures SortDesc(ByPriority, ChangePriority([a, b, c], a.id, 3))[0].id == a.id
  {
    var s := [a, b, c];
    assert forall j :: 0 <= j < |s| ==> s[j].priority < 3;
    RaisedPriorityComesFirst(s, 0, 3);
  }

  /** Typing `text` and pressing Add, at the head of a series of events. */
  lemma RunInputThenAdd(p: Page, text: string, id: int, createdAt: int, rest: seq<Event>)
    ensures Run(p, [NewTodoInput(text), AddClick(id, createdAt)] + rest)
      == Run(AddTodo(p.(newTodo := text), id, createdAt), rest)
  {
    var events := [NewTodoInput(text), AddClick(id, createdAt)] + rest;
    assert events[1..][1..] == rest;
  }

  /** Ids are clock readings, so two Add actions in the same millisecond
      give two todos with the same id, and one checkbox event then
      completes both of them. */
  lemma SameMillisecondIdsCollide()
    ensures
      var p := Run(Initial(), [NewTodoInput("a"), AddClick(7, 7), NewTodoInput("b"), AddClick(7, 7)]);
      && |p.todos| == 2 && p.todos[0].id == p.todos[1].id
      && forall t :: t in Step(p, CheckboxChange(7)).todos ==> t.completed
  {
    var a := Todo(7, "a", false, false, 1, 7);
    var b := Todo(7, "b", false, false, 1, 7);
    var p1 := Page([a], "", ByCreatedAt);
    var p2 := Page([a, b], "", ByCreatedAt);
    TrimOfTrimmed("a");
    TrimOfTrimmed("b");
    assert AddTodo(Initial().(newTodo := "a"), 7, 7) == p1;
    assert AddTodo(p1.(newTodo := "b"), 7, 7) == p2;
    RunInputThenAdd(p1, "b", 7, 7, []);
    RunInputThenAdd(Initial(), "a", 7, 7, [NewTodoInput("b"), AddClick(7, 7)]);
    assert [NewTodoInput("a"), AddClick(7, 7)] + [NewTodoInput("b"), AddClick(7, 7)]
      == [NewTodoInput("a"), AddClick(7, 7), NewTodoInput("b"), AddClick(7, 7)];
    assert [NewTodoInput("b"), AddClick(7, 7)] + [] == [NewTodoInput("b"), AddClick(7, 7)];
    var done := Step(p2, CheckboxChange(7));
    assert done.todos == ToggleComplete([a, b], 7);
    assert done.todos == [a.(completed := true), b.(completed := true)];
  }

  /** Editing is not validated: a todo's text can be emptied and saved. */
  lemma EditCanEmptyText()
    ensures
      var p := Run(Initial(), [NewTodoInput("a"), AddClick(1, 1), EditSaveClick(1), EditInput(1, ""), EditSaveClick(1)]);
      p.todos == [Todo(1, "", false, false, 1, 1)]
  {
    var rest := [EditSaveClick(1), EditInput(1, ""), EditSaveClick(1)];
    var p1 := Page([Todo(1, "a", false, false, 1, 1)], "", ByCreatedAt);
    TrimOfTrimmed("a");
    assert AddTodo(Initial().(newTodo := "a"), 1, 1) == p1;
    RunInputThenAdd(Initial(), "a", 1, 1, rest);
    assert [NewTodoInput("a"), AddClick(1, 1)] + rest
      == [NewTodoInput("a"), AddClick(1, 1), EditSaveClick(1), EditInput(1, ""), EditSaveClick(1)];
    var p2 := Step(p1, EditSaveClick(1));
    assert p2.todos == [Todo(1, "a", true, false, 1, 1)];
    var p3 := Step(p2, EditInput(1, ""));
    assert p3.todos == [Todo(1, "", true, false, 1, 1)];
    assert Step(p3, EditSaveClick(1)).todos == [Todo(1, "", false, false, 1, 1)];
    assert rest[1..] == [EditInput(1, ""), EditSaveClick(1)] && rest[1..][1..] == [EditSaveClick(1)];
  }
}
