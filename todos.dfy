/** The to-do record and the list transformations of the page's store.
    Every operation builds a new list; none assumes that ids are unique,
    so each acts on every todo that carries the given id. */
module TodoList {

  /** One to-do item. `id` and `createdAt` are clock readings taken when
      the item was added; `priority` is 1 (Low), 2 (Medium) or 3 (High)
      when it comes from the page's selector. */
  datatype Todo = Todo(
    id: int,
    text: string,
    editing: bool,
    completed: bool,
    priority: int,
    createdAt: int)

  /** Every priority in the list is one the selector offers. */
  predicate PrioritiesValid(todos: seq<Todo>) {
    forall i :: 0 <= i < |todos| ==> 1 <= todos[i].priority <= 3
  }

  /** No todo in the list carries `id`. */
  predicate Absent(todos: seq<Todo>, id: int) {
    forall i :: 0 <= i < |todos| ==> todos[i].id != id
  }

  // ---------------------------------------------------------------- remove

  /** The todos whose id differs from `id`, in their original order. */
  function RemoveTodo(todos: seq<Todo>, id: int): (r: seq<Todo>)
    ensures |r| <= |todos|
    ensures forall t :: t in r <==> t in todos && t.id != id
  {
    if todos == [] then []
    else
      assert todos == [todos[0]] + todos[1..];
      (if todos[0].id == id then [] else [todos[0]]) + RemoveTodo(todos[1..], id)
  }

  /** Every todo whose id differs is kept as many times as it occurs. */
  lemma {:induction false} RemoveKeepsCounts(todos: seq<Todo>, id: int, t: Todo)
    requires t.id != id
    ensures multiset(RemoveTodo(todos, id))[t] == multiset(todos)[t]
  {
    if todos != [] {
      var head := if todos[0].id == id then [] else [todos[0]];
      RemoveKeepsCounts(todos[1..], id, t);
      assert todos == [todos[0]] + todos[1..];
      assert RemoveTodo(todos, id) == head + RemoveTodo(todos[1..], id);
      assert multiset(head)[t] == multiset([todos[0]])[t];
    }
  }

  /** Removing from a concatenation removes from each part, so the kept
      todos stay in their original order. */
  lemma {:induction false} RemoveConcat(a: seq<Todo>, b: seq<Todo>, id: int)
    ensures RemoveTodo(a + b, id) == RemoveTodo(a, id) + RemoveTodo(b, id)
  {
    if a == [] {
      assert a + b == b;
    } else {
      assert (a + b)[0] == a[0] && (a + b)[1..] == a[1..] + b;
      RemoveConcat(a[1..], b, id);
    }
  }

  /** Removing an id no todo carries leaves the list unchanged. */
  lemma {:induction false} RemoveAbsent(todos: seq<Todo>, id: int)
    requires Absent(todos, id)
    ensures RemoveTodo(todos, id) == todos
  {
    if todos != [] {
      RemoveAbsent(todos[1..], id);
    }
  }

  /** Removing twice is removing once. */
  lemma RemoveIdempotent(todos: seq<Todo>, id: int)
    ensures RemoveTodo(RemoveTodo(todos, id), id) == RemoveTodo(todos, id)
  {
    var r := RemoveTodo(todos, id);
    assert Absent(r, id) by {
      forall i | 0 <= i < |r| ensures r[i].id != id {
        assert r[i] in r;
      }
    }
    RemoveAbsent(r, id);
  }

  /** Removals of two ids may be done in either order. */
  lemma {:induction false} RemoveCommutes(todos: seq<Todo>, a: int, b: int)
    ensures RemoveTodo(RemoveTodo(todos, a), b) == RemoveTodo(RemoveTodo(todos, b), a)
  {
    if todos != [] {
      var head := [todos[0]];
      RemoveCommutes(todos[1..], a, b);
      RemoveConcat(RemoveTodo(head, a), RemoveTodo(todos[1..], a), b);
      RemoveConcat(RemoveTodo(head, b), RemoveTodo(todos[1..], b), a);
    }
  }

  // ------------------------------------------------------ per-todo updates

  /** Every todo with that id gets `newText` verbatim; nothing else changes. */
  function UpdateTodo(todos: seq<Todo>, id: int, newText: string): (r: seq<Todo>)
    ensures |r| == |todos|
    ensures forall i :: 0 <= i < |r| && todos[i].id == id ==>
      r[i].text == newText && r[i].id == id && r[i].editing == todos[i].editing
      && r[i].completed == todos[i].completed && r[i].priority == todos[i].priority
      && r[i].createdAt == todos[i].createdAt
    ensures forall i :: 0 <= i < |r| && todos[i].id != id ==> r[i] == todos[i]
  {
    seq(|todos|, i requires 0 <= i < |todos| =>
      if todos[i].id == id then todos[i].(text := newText) else todos[i])
  }

  /** Every todo with that id has its `editing` flag flipped; nothing else changes. */
  function ToggleEdit(todos: seq<Todo>, id: int): (r: seq<Todo>)
    ensures |r| == |todos|
    ensures forall i :: 0 <= i < |r| && todos[i].id == id ==>
      r[i].editing == !todos[i].editing && r[i].id == id && r[i].text == todos[i].text
      && r[i].completed == todos[i].completed && r[i].priority == todos[i].priority
      && r[i].createdAt == todos[i].createdAt
    ensures forall i :: 0 <= i < |r| && todos[i].id != id ==> r[i] == todos[i]
  {
    seq(|todos|, i requires 0 <= i < |todos| =>
      if todos[i].id == id then todos[i].(editing := !todos[i].editing) else todos[i])
  }

  /** Every todo with that id has its `completed` flag flipped; nothing else changes. */
  function ToggleComplete(todos: seq<Todo>, id: int): (r: seq<Todo>)
    ensures |r| == |todos|
    ensures forall i :: 0 <= i < |r| && todos[i].id == id ==>
      r[i].completed == !todos[i].completed && r[i].id == id && r[i].text == todos[i].text
      && r[i].editing == todos[i].editing && r[i].priority == todos[i].priority
      && r[i].createdAt == todos[i].createdAt
    ensures forall i :: 0 <= i < |r| && todos[i].id != id ==> r[i] == todos[i]
  {
    seq(|todos|, i requires 0 <= i < |todos| =>
      if todos[i].id == id then todos[i].(completed := !todos[i].completed) else todos[i])
  }

  /** Every todo with that id gets `priority`, unvalidated; nothing else changes. */
  function ChangePriority(todos: seq<Todo>, id: int, priority: int): (r: seq<Todo>)
    ensures |r| == |todos|
    ensures forall i :: 0 <= i < |r| && todos[i].id == id ==>
      r[i].priority == priority && r[i].id == id && r[i].text == todos[i].text
      && r[i].editing == todos[i].editing && r[i].completed == todos[i].completed
      && r[i].createdAt == todos[i].createdAt
    ensures forall i :: 0 <= i < |r| && todos[i].id != id ==> r[i] == todos[i]
  {
    seq(|todos|, i requires 0 <= i < |todos| =>
      if todos[i].id == id then todos[i].(priority := priority) else todos[i])
  }

  // ------------------------------------------------------ their properties

  /** Flipping `editing` twice restores the list. */
  lemma ToggleEditInvolution(todos: seq<Todo>, id: int)
    ensures ToggleEdit(ToggleEdit(todos, id), id) == todos
  {
  }

  /** Flipping `completed` twice restores the list. */
  lemma ToggleCompleteInvolution(todos: seq<Todo>, id: int)
    ensures ToggleComplete(ToggleComplete(todos, id), id) == todos
  {
  }

  /** Of two text updates of the same id, the later one wins. */
  lemma UpdateLastWins(todos: seq<Todo>, id: int, first: string, second: string)
    ensures UpdateTodo(UpdateTodo(todos, id, first), id, second) == UpdateTodo(todos, id, second)
  {
  }

  /** Of two priority changes of the same id, the later one wins. */
  lemma ChangePriorityLastWins(todos: seq<Todo>, id: int, first: int, second: int)
    ensures ChangePriority(ChangePriority(todos, id, first), id, second)
      == ChangePriority(todos, id, second)
  {
  }

  /** A priority the selector offers keeps every priority in range. */
  lemma ChangePriorityKeepsValid(todos: seq<Todo>, id: int, priority: int)
    requires PrioritiesValid(todos) && 1 <= priority <= 3
    ensures PrioritiesValid(ChangePriority(todos, id, priority))
  {
  }

  /** The updates and toggles keep the ids, and so leave `Absent` as it was. */
  lemma UpdatesKeepIds(todos: seq<Todo>, id: int, other: int, s: string, p: int)
    ensures Absent(UpdateTodo(todos, id, s), other) == Absent(todos, other)
    ensures Absent(ToggleEdit(todos, id), other) == Absent(todos, other)
    ensures Absent(ToggleComplete(todos, id), other) == Absent(todos, other)
    ensures Absent(ChangePriority(todos, id, p), other) == Absent(todos, other)
  {
  }

  /** An update of an id no todo carries leaves the list unchanged. */
  lemma UpdatesOfAbsentId(todos: seq<Todo>, id: int, s: string, p: int)
    requires Absent(todos, id)
    ensures UpdateTodo(todos, id, s) == todos
    ensures ToggleEdit(todos, id) == todos
    ensures ToggleComplete(todos, id) == todos
    ensures ChangePriority(todos, id, p) == todos
  {
  }

  /** Two lists that differ only in todos carrying `id` agree once `id` is removed. */
  lemma {:induction false} RemoveForgetsChanges(a: seq<Todo>, b: seq<Todo>, id: int)
    requires |a| == |b|
    requires forall i :: 0 <= i < |a| ==> a[i].id == b[i].id && (a[i].id != id ==> a[i] == b[i])
    ensures RemoveTodo(a, id) == RemoveTodo(b, id)
  {
    if a != [] {
      RemoveForgetsChanges(a[1..], b[1..], id);
    }
  }

  /** Editing or toggling the todos of an id and then removing that id is
      the same as removing it straight away. */
  lemma RemoveAfterUpdates(todos: seq<Todo>, id: int, s: string, p: int)
    ensures RemoveTodo(UpdateTodo(todos, id, s), id) == RemoveTodo(todos, id)
    ensures RemoveTodo(ToggleEdit(todos, id), id) == RemoveTodo(todos, id)
    ensures RemoveTodo(ToggleComplete(todos, id), id) == RemoveTodo(todos, id)
    ensures RemoveTodo(ChangePriority(todos, id, p), id) == RemoveTodo(todos, id)
  {
    assert RemoveTodo(UpdateTodo(todos, id, s), id) == RemoveTodo(todos, id) by {
      RemoveForgetsChanges(UpdateTodo(todos, id, s), todos, id);
    }
    assert RemoveTodo(ToggleEdit(todos, id), id) == RemoveTodo(todos, id) by {
      RemoveForgetsChanges(ToggleEdit(todos, id), todos, id);
    }
    assert RemoveTodo(ToggleComplete(todos, id), id) == RemoveTodo(todos, id) by {
      RemoveForgetsChanges(ToggleComplete(todos, id), todos, id);
    }
    assert RemoveTodo(ChangePriority(todos, id, p), id) == RemoveTodo(todos, id) by {
      RemoveForgetsChanges(ChangePriority(todos, id, p), todos, id);
    }
  }
}
