/** The todo list: adding from the input box, toggling, deleting, the three
    view filters and their counters. */
module TodoList {
  import opened Seqs
  import opened Text

  datatype Todo = Todo(id: int, text: string, completed: bool)

  /** The view filter; the component only ever sets these three values. */
  datatype FilterMode = All | Active | Completed {
    function Name(): string {
      match this
      case All => "all"
      case Active => "active"
      case Completed => "completed"
    }
  }

  datatype TodoState = TodoState(todos: seq<Todo>, inputValue: string, filter: FilterMode)

  function InitialState(initialTodos: seq<Todo>): (s: TodoState)
    ensures s.todos == initialTodos && s.inputValue == "" && s.filter == All
  {
    TodoState(initialTodos, "", All)
  }

  /** `addTodo`, with `Date.now()` passed in as `now`: a blank input changes
      nothing; otherwise the untrimmed text is appended as an open item and
      the input is cleared. */
  function AddTodo(s: TodoState, now: int): (r: TodoState)
    ensures AllSpace(s.inputValue) ==> r == s
    ensures !AllSpace(s.inputValue) ==>
              r.todos == s.todos + [Todo(now, s.inputValue, false)] && r.inputValue == "" && r.filter == s.filter
  {
    TrimEmptyIffAllSpace(s.inputValue);
    if Trim(s.inputValue) != "" then
      s.(todos := s.todos + [Todo(now, s.inputValue, false)], inputValue := "")
    else
      s
  }

  /** The input's key handler: Enter submits, every other key leaves the
      list alone. */
  function KeyPress(s: TodoState, key: string, now: int): (r: TodoState)
    ensures key != "Enter" ==> r == s
    ensures key == "Enter" ==> r == AddTodo(s, now)
  {
    if key == "Enter" then AddTodo(s, now) else s
  }

  function Flip(t: Todo, id: int): Todo {
    if t.id == id then t.(completed := !t.completed) else t
  }

  /** `toggleTodo`: every item carrying the id has its flag flipped; nothing
      else changes. */
  function ToggleTodo(todos: seq<Todo>, id: int): (r: seq<Todo>)
    ensures |r| == |todos|
    ensures forall i :: 0 <= i < |r| ==> r[i].id == todos[i].id && r[i].text == todos[i].text
    ensures forall i :: 0 <= i < |r| ==> (r[i].completed != todos[i].completed <==> todos[i].id == id)
  {
    seq(|todos|, i requires 0 <= i < |todos| => Flip(todos[i], id))
  }

  /** Toggling the same item twice restores the list. */
  lemma ToggleTwice(todos: seq<Todo>, id: int)
    ensures ToggleTodo(ToggleTodo(todos, id), id) == todos
  {
    var r := ToggleTodo(ToggleTodo(todos, id), id);
    assert forall i :: 0 <= i < |todos| ==> r[i] == todos[i];
  }

  /** Toggling an id that no item carries changes nothing. */
  lemma ToggleUnknownId(todos: seq<Todo>, id: int)
    requires forall i :: 0 <= i < |todos| ==> todos[i].id != id
    ensures ToggleTodo(todos, id) == todos
  {
    var r := ToggleTodo(todos, id);
    assert forall i :: 0 <= i < |todos| ==> r[i] == todos[i];
  }

  function HasOtherId(id: int): Todo -> bool {
    (t: Todo) => t.id != id
  }

  /** `deleteTodo`: every item carrying the id is removed, the others keep
      their order. */
  function DeleteTodo(todos: seq<Todo>, id: int): (r: seq<Todo>)
    ensures IsSubsequence(r, todos)
    ensures forall i :: 0 <= i < |r| ==> r[i].id != id
    ensures forall i :: 0 <= i < |todos| && todos[i].id != id ==> todos[i] in r
    ensures |r| == |set i | 0 <= i < |todos| && todos[i].id != id|
  {
    CountIsIndexSetSize(HasOtherId(id), todos);
    assert IndicesWhere(HasOtherId(id), todos) == set i | 0 <= i < |todos| && todos[i].id != id;
    Filter(HasOtherId(id), todos)
  }

  /** Deleting the item just added, when its id was new, gives back the list
      as it was. */
  lemma DeleteUndoesAdd(s: TodoState, now: int)
    requires !AllSpace(s.inputValue)
    requires forall i :: 0 <= i < |s.todos| ==> s.todos[i].id != now
    ensures DeleteTodo(AddTodo(s, now).todos, now) == s.todos
  {
    var added := Todo(now, s.inputValue, false);
    FilterAppend(HasOtherId(now), s.todos, added);
    FilterKeepsAll(HasOtherId(now), s.todos);
  }

  function IsOpen(t: Todo): bool { !t.completed }
  function IsDone(t: Todo): bool { t.completed }

  function Shows(mode: FilterMode): Todo -> bool {
    match mode
    case All => (t: Todo) => true
    case Active => IsOpen
    case Completed => IsDone
  }

  /** `filteredTodos`: the items the current filter shows, in list order. */
  function FilteredTodos(todos: seq<Todo>, mode: FilterMode): (r: seq<Todo>)
    ensures IsSubsequence(r, todos)
    ensures mode == Active ==> forall i :: 0 <= i < |r| ==> !r[i].completed
    ensures mode == Completed ==> forall i :: 0 <= i < |r| ==> r[i].completed
    ensures forall i :: 0 <= i < |todos| && Shows(mode)(todos[i]) ==> todos[i] in r
  {
    Filter(Shows(mode), todos)
  }

  /** The "all" view is the list itself. */
  lemma AllShowsEverything(todos: seq<Todo>)
    ensures FilteredTodos(todos, All) == todos
  {
    FilterKeepsAll(Shows(All), todos);
  }

  /** The counters on the filter buttons. */
  datatype Counters = Counters(all: nat, active: nat, completed: nat)

  function CountersOf(todos: seq<Todo>): (c: Counters)
    ensures c.all == |todos|
    ensures c.active + c.completed == c.all
    ensures c.active == |FilteredTodos(todos, Active)| && c.completed == |FilteredTodos(todos, Completed)|
  {
    FilterDisjointCounts(IsOpen, IsDone, todos);
    Counters(|todos|, Count(IsOpen, todos), Count(IsDone, todos))
  }

  /** Toggling never changes how many items there are, only how they split. */
  lemma ToggleKeepsTotal(todos: seq<Todo>, id: int)
    ensures CountersOf(ToggleTodo(todos, id)).all == CountersOf(todos).all
  {
  }

  /** The paragraph shown when the current view is empty; empty while items
      are listed. */
  function EmptyMessage(todos: seq<Todo>, mode: FilterMode): (m: string)
    ensures |FilteredTodos(todos, mode)| > 0 ==> m == ""
    ensures |FilteredTodos(todos, mode)| == 0 && mode == All ==> m == "No todos yet!"
    ensures |FilteredTodos(todos, mode)| == 0 && mode != All ==> m == "No " + mode.Name() + " todos."
  {
    if |FilteredTodos(todos, mode)| > 0 then ""
    else if mode == All then "No todos yet!"
    else "No " + mode.Name() + " todos."
  }

  /** "No todos yet!" appears exactly when the list itself is empty. */
  lemma NoTodosYetIffEmpty(todos: seq<Todo>)
    ensures EmptyMessage(todos, All) == "No todos yet!" <==> |todos| == 0
  {
    AllShowsEverything(todos);
  }

  /** The active view is empty exactly when every item is completed. */
  lemma ActiveEmptyIffAllDone(todos: seq<Todo>)
    ensures |FilteredTodos(todos, Active)| == 0 <==> forall i :: 0 <= i < |todos| ==> todos[i].completed
  {
    if forall i :: 0 <= i < |todos| ==> todos[i].completed {
      FilterDropsAll(IsOpen, todos);
    }
  }
}
