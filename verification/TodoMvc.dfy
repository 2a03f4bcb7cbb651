/** The TodoMVC specification: a model, a view that caches a function of it, and a controller
    that addresses the model's items by their position in the view. */
module TodoMvc {

  datatype Todo = Todo(id: nat, title: string, completed: bool)

  datatype FilterState = All | Active | Completed

  datatype ToggleAllStatus = NotShown | Unchecked | Checked

  datatype View = View(
    nowShowing: FilterState, shownTodos: seq<Todo>, activeTodoCount: nat,
    toggleAllStatus: ToggleAllStatus, clearButtonShown: bool)

  /** `todos` is the dictionary in its insertion order, each record under its own id. */
  datatype App = App(todos: seq<Todo>, nextId: nat, view: View)

  const INITIAL_APP := App([], 0, View(All, [], 0, NotShown, false))

  /** `[t for t in todos if t.completed == want]`. */
  function Keep(todos: seq<Todo>, want: bool): seq<Todo> {
    if todos == [] then []
    else Keep(todos[..|todos| - 1], want)
         + if todos[|todos| - 1].completed == want then [todos[|todos| - 1]] else []
  }

  function Without(todos: seq<Todo>, id: nat): seq<Todo> {
    if todos == [] then []
    else Without(todos[..|todos| - 1], id) + if todos[|todos| - 1].id != id then [todos[|todos| - 1]] else []
  }

  lemma InSnoc(todos: seq<Todo>, t: Todo)
    requires todos != []
    ensures t in todos <==> t in todos[..|todos| - 1] || t == todos[|todos| - 1]
  {
    assert todos == todos[..|todos| - 1] + [todos[|todos| - 1]];
  }

  lemma {:induction false} InKeep(todos: seq<Todo>, want: bool, t: Todo)
    ensures t in Keep(todos, want) <==> t in todos && t.completed == want
  {
    if todos == [] {
    } else {
      InKeep(todos[..|todos| - 1], want, t);
      InSnoc(todos, t);
    }
  }

  lemma {:induction false} InWithout(todos: seq<Todo>, id: nat, t: Todo)
    ensures t in Without(todos, id) <==> t in todos && t.id != id
  {
    if todos == [] {
    } else {
      InWithout(todos[..|todos| - 1], id, t);
      InSnoc(todos, t);
    }
  }

  /** `Refresh`, as a function of what it reads. */
  function ViewOf(todos: seq<Todo>, filter: FilterState): View {
    var active := |Keep(todos, false)|;
    View(
      filter,
      match filter
        case All => todos
        case Active => Keep(todos, false)
        case Completed => Keep(todos, true),
      active,
      if |todos| == 0 then NotShown else if active != 0 then Unchecked else Checked,
      |todos| > active)
  }

  function Has(todos: seq<Todo>, id: nat): bool {
    exists i | 0 <= i < |todos| :: todos[i].id == id
  }

  /** `todos[id] = update` for an id that is there: it keeps its place. */
  function Put(todos: seq<Todo>, id: nat, update: Todo -> Todo): seq<Todo> {
    seq(|todos|, i requires 0 <= i < |todos| => if todos[i].id == id then update(todos[i]) else todos[i])
  }

  function SetAll(todos: seq<Todo>, checked: bool): seq<Todo> {
    seq(|todos|, i requires 0 <= i < |todos| => todos[i].(completed := checked))
  }

  function Flip(t: Todo): Todo {
    t.(completed := !t.completed)
  }

  function Retitle(text: string): Todo -> Todo {
    (t: Todo) => t.(title := text)
  }

  datatype Action =
    | AddsItem(title: string)
    | SwitchesFilter(filter: FilterState)
    | TogglesItem(index: nat)
    | TogglesAll
    | DeletesItem(index: nat)
    | EditsItem(index: nat, text: string)
    | ClearsCompleted

  /** The `require`s of the actions and of the model functions they call. */
  predicate Enabled(app: App, a: Action, maxItems: nat) {
    match a
    case AddsItem(title) => |app.todos| < maxItems && title != "" && app.nextId < maxItems
    case SwitchesFilter(filter) => app.todos != [] && filter != app.view.nowShowing
    case TogglesItem(index) => index < |app.view.shownTodos|
    case TogglesAll => app.view.toggleAllStatus != NotShown
    case DeletesItem(index) => index < |app.view.shownTodos|
    case EditsItem(index, _) => index < |app.view.shownTodos|
    case ClearsCompleted => app.view.clearButtonShown
  }

  function Refreshed(todos: seq<Todo>, nextId: nat, filter: FilterState): App {
    App(todos, nextId, ViewOf(todos, filter))
  }

  function Do(app: App, a: Action, maxItems: nat): App
    requires Enabled(app, a, maxItems)
  {
    var filter, n, todos := app.view.nowShowing, app.nextId, app.todos;
    match a
    case AddsItem(title) => Refreshed(todos + [Todo(n, title, false)], n + 1, filter)
    case SwitchesFilter(f) => Refreshed(todos, n, f)
    case TogglesItem(index) => Refreshed(Put(todos, app.view.shownTodos[index].id, Flip), n, filter)
    case TogglesAll => Refreshed(SetAll(todos, app.view.toggleAllStatus == Unchecked), n, filter)
    case DeletesItem(index) => Refreshed(Without(todos, app.view.shownTodos[index].id), n, filter)
    case EditsItem(index, text) =>
      var id := app.view.shownTodos[index].id;
      Refreshed(if text != "" then Put(todos, id, Retitle(text)) else Without(todos, id), n, filter)
    case ClearsCompleted => Refreshed(Keep(todos, false), n, filter)
  }

  // ----- What every action keeps -----

  predicate Ascending(todos: seq<Todo>) {
    forall i, j | 0 <= i < j < |todos| :: todos[i].id < todos[j].id
  }

  ghost predicate Inv(app: App, maxItems: nat) {
    && app.view == ViewOf(app.todos, app.view.nowShowing)
    && TodosOk(app.todos, app.nextId)
    && app.nextId <= maxItems
  }

  lemma {:induction false} KeepAscends(todos: seq<Todo>, want: bool)
    requires Ascending(todos)
    ensures Ascending(Keep(todos, want)) && |Keep(todos, want)| <= |todos|
  {
    if todos == [] {
    } else {
      var front, last := todos[..|todos| - 1], todos[|todos| - 1];
      KeepAscends(front, want);
      forall t | t in Keep(front, want) ensures t.id < last.id {
        InKeep(front, want, t);
        var i :| 0 <= i < |front| && front[i] == t;
        assert todos[i] == t;
      }
    }
  }

  lemma {:induction false} WithoutAscends(todos: seq<Todo>, id: nat)
    requires Ascending(todos)
    ensures Ascending(Without(todos, id))
  {
    if todos == [] {
    } else {
      var front, last := todos[..|todos| - 1], todos[|todos| - 1];
      WithoutAscends(front, id);
      forall t | t in Without(front, id) ensures t.id < last.id {
        InWithout(front, id, t);
        var i :| 0 <= i < |front| && front[i] == t;
        assert todos[i] == t;
      }
    }
  }

  /** What the model alone keeps. */
  predicate TodosOk(todos: seq<Todo>, nextId: nat) {
    Ascending(todos) && forall i | 0 <= i < |todos| :: todos[i].id < nextId && todos[i].title != ""
  }

  lemma PartKept(todos: seq<Todo>, part: seq<Todo>, nextId: nat)
    requires TodosOk(todos, nextId) && Ascending(part) && forall t | t in part :: t in todos
    ensures TodosOk(part, nextId)
  {
    assert forall i | 0 <= i < |part| :: part[i] in part;
  }

  lemma WithoutKept(todos: seq<Todo>, id: nat, nextId: nat)
    requires TodosOk(todos, nextId)
    ensures TodosOk(Without(todos, id), nextId)
  {
    WithoutAscends(todos, id);
    forall t | t in Without(todos, id) ensures t in todos {
      InWithout(todos, id, t);
    }
    PartKept(todos, Without(todos, id), nextId);
  }

  lemma KeepKept(todos: seq<Todo>, want: bool, nextId: nat)
    requires TodosOk(todos, nextId)
    ensures TodosOk(Keep(todos, want), nextId)
  {
    KeepAscends(todos, want);
    forall t | t in Keep(todos, want) ensures t in todos {
      InKeep(todos, want, t);
    }
    PartKept(todos, Keep(todos, want), nextId);
  }

  lemma PutKeeps(todos: seq<Todo>, id: nat, update: Todo -> Todo, nextId: nat)
    requires TodosOk(todos, nextId)
    requires forall t: Todo :: update(t).id == t.id && (t.title != "" ==> update(t).title != "")
    ensures TodosOk(Put(todos, id, update), nextId)
  {
  }

  lemma TodosKept(app: App, a: Action, maxItems: nat)
    requires TodosOk(app.todos, app.nextId) && Enabled(app, a, maxItems)
    ensures TodosOk(Do(app, a, maxItems).todos, Do(app, a, maxItems).nextId)
  {
    var todos := app.todos;
    match a
    case AddsItem(_) =>
    case SwitchesFilter(_) =>
    case TogglesItem(index) => PutKeeps(todos, app.view.shownTodos[index].id, Flip, app.nextId);
    case TogglesAll =>
    case DeletesItem(index) => WithoutKept(todos, app.view.shownTodos[index].id, app.nextId);
    case EditsItem(index, text) =>
      if text != "" {
        PutKeeps(todos, app.view.shownTodos[index].id, Retitle(text), app.nextId);
      } else {
        WithoutKept(todos, app.view.shownTodos[index].id, app.nextId);
      }
    case ClearsCompleted => KeepKept(todos, false, app.nextId);
  }

  lemma ActionKeepsInv(app: App, a: Action, maxItems: nat)
    requires Inv(app, maxItems) && Enabled(app, a, maxItems)
    ensures Inv(Do(app, a, maxItems), maxItems)
  {
    TodosKept(app, a, maxItems);
  }

  ghost predicate StepAt(run: seq<App>, acts: seq<Action>, maxItems: nat, j: nat)
    requires |run| == |acts| + 1 && j < |acts|
  {
    Enabled(run[j], acts[j], maxItems) && run[j + 1] == Do(run[j], acts[j], maxItems)
  }

  ghost predicate IsRun(run: seq<App>, acts: seq<Action>, maxItems: nat) {
    && |run| == |acts| + 1
    && run[0] == INITIAL_APP
    && forall j | 0 <= j < |acts| :: StepAt(run, acts, maxItems, j)
  }

  lemma {:induction false} RunKeepsInv(run: seq<App>, acts: seq<Action>, maxItems: nat, j: nat)
    requires IsRun(run, acts, maxItems) && j < |run|
    ensures Inv(run[j], maxItems)
  {
    if j == 0 {
    } else {
      RunKeepsInv(run, acts, maxItems, j - 1);
      assert StepAt(run, acts, maxItems, j - 1);
      ActionKeepsInv(run[j - 1], acts[j - 1], maxItems);
    }
  }

  /** What the view shows, spelled out from the model: the items that match the filter, the number
      of items still to do, the box, and the button. */
  ghost predicate InSync(app: App) {
    && (forall t :: t in app.view.shownTodos <==>
          t in app.todos && (app.view.nowShowing.All? || t.completed == app.view.nowShowing.Completed?))
    && app.view.activeTodoCount == |Keep(app.todos, false)|
    && (app.view.toggleAllStatus == NotShown <==> app.todos == [])
    && (app.view.toggleAllStatus == Checked <==> app.todos != [] && forall t | t in app.todos :: t.completed)
    && (app.view.clearButtonShown <==> exists t | t in app.todos :: t.completed)
  }

  predicate NoEmptyTodo(app: App) {
    forall t | t in app.todos :: t.title != ""
  }

  lemma {:induction false} CountSplits(todos: seq<Todo>)
    ensures |Keep(todos, false)| + |Keep(todos, true)| == |todos|
  {
    if todos == [] {
    } else {
      CountSplits(todos[..|todos| - 1]);
    }
  }

  lemma SomeKept(todos: seq<Todo>, want: bool)
    ensures |Keep(todos, want)| > 0 <==> exists t | t in todos :: t.completed == want
  {
    if |Keep(todos, want)| > 0 {
      InKeep(todos, want, Keep(todos, want)[0]);
    }
    forall t | t in todos && t.completed == want ensures |Keep(todos, want)| > 0 {
      InKeep(todos, want, t);
    }
  }

  lemma ViewInSync(todos: seq<Todo>, nextId: nat, filter: FilterState)
    ensures InSync(Refreshed(todos, nextId, filter))
  {
    forall t ensures t in Keep(todos, false) <==> t in todos && !t.completed
             ensures t in Keep(todos, true) <==> t in todos && t.completed
    {
      InKeep(todos, false, t);
      InKeep(todos, true, t);
    }
    SomeKept(todos, false);
    SomeKept(todos, true);
    CountSplits(todos);
  }

  /** After every run, for any number of items, the view is in sync with the model
      (UISyncsWithModel) and no title is empty (NoEmptyTodo). */
  lemma BothAssertionsHold(run: seq<App>, acts: seq<Action>, maxItems: nat, j: nat)
    requires IsRun(run, acts, maxItems) && j < |run|
    ensures InSync(run[j]) && NoEmptyTodo(run[j])
  {
    RunKeepsInv(run, acts, maxItems, j);
    ViewInSync(run[j].todos, run[j].nextId, run[j].view.nowShowing);
    assert run[j] == Refreshed(run[j].todos, run[j].nextId, run[j].view.nowShowing);
    forall t | t in run[j].todos ensures t.title != "" {
      var i :| 0 <= i < |run[j].todos| && run[j].todos[i] == t;
    }
  }

  /** What is shown is part of the model, record for record, and in its order. So an action that
      takes a position in the view always finds its item in the model. */
  lemma ShownIsLive(app: App, maxItems: nat, index: nat)
    requires Inv(app, maxItems) && index < |app.view.shownTodos|
    ensures Ascending(app.view.shownTodos)
    ensures app.view.shownTodos[index] in app.todos && Has(app.todos, app.view.shownTodos[index].id)
    ensures forall t | t in app.todos && t.id == app.view.shownTodos[index].id :: t == app.view.shownTodos[index]
  {
    KeepAscends(app.todos, false);
    KeepAscends(app.todos, true);
    var shown := app.view.shownTodos[index];
    InKeep(app.todos, false, shown);
    InKeep(app.todos, true, shown);
    assert shown in app.view.shownTodos;
    var i :| 0 <= i < |app.todos| && app.todos[i] == shown;
    forall t | t in app.todos && t.id == shown.id ensures t == shown {
      var k :| 0 <= k < |app.todos| && app.todos[k] == t;
      assert k == i;
    }
  }

  lemma PutReplaces(todos: seq<Todo>, i: nat, update: Todo -> Todo)
    requires Ascending(todos) && i < |todos|
    ensures Put(todos, todos[i].id, update) == todos[i := update(todos[i])]
  {
  }

  // ----- Ids over a run -----

  lemma PartHasNot(todos: seq<Todo>, part: seq<Todo>, id: nat)
    requires !Has(todos, id) && forall t | t in part :: t in todos
    ensures !Has(part, id)
  {
    forall i | 0 <= i < |part| ensures part[i].id != id {
      assert part[i] in part;
    }
  }

  lemma KeepHasNot(todos: seq<Todo>, want: bool, id: nat)
    requires !Has(todos, id)
    ensures !Has(Keep(todos, want), id)
  {
    forall t | t in Keep(todos, want) ensures t in todos {
      InKeep(todos, want, t);
    }
    PartHasNot(todos, Keep(todos, want), id);
  }

  lemma WithoutHasNot(todos: seq<Todo>, gone: nat, id: nat)
    requires !Has(todos, id)
    ensures !Has(Without(todos, gone), id)
  {
    forall t | t in Without(todos, gone) ensures t in todos {
      InWithout(todos, gone, t);
    }
    PartHasNot(todos, Without(todos, gone), id);
  }

  lemma PutHasNot(todos: seq<Todo>, put: nat, update: Todo -> Todo, id: nat)
    requires !Has(todos, id) && forall t: Todo :: update(t).id == t.id
    ensures !Has(Put(todos, put, update), id)
  {
  }

  lemma ActionAddsOnlyFreshIds(app: App, a: Action, maxItems: nat, id: nat)
    requires Enabled(app, a, maxItems)
    requires id < app.nextId && !Has(app.todos, id)
    ensures var app' := Do(app, a, maxItems); id < app'.nextId && !Has(app'.todos, id)
  {
    var todos, shown := app.todos, app.view.shownTodos;
    match a
    case AddsItem(_) =>
    case SwitchesFilter(_) =>
    case TogglesItem(index) => PutHasNot(todos, shown[index].id, Flip, id);
    case TogglesAll =>
    case DeletesItem(index) => WithoutHasNot(todos, shown[index].id, id);
    case EditsItem(index, text) =>
      if text != "" {
        PutHasNot(todos, shown[index].id, Retitle(text), id);
      } else {
        WithoutHasNot(todos, shown[index].id, id);
      }
    case ClearsCompleted => KeepHasNot(todos, false, id);
  }

  /** An id that has left the model never comes back. */
  lemma {:induction false} IdsAreNotReused(
    run: seq<App>, acts: seq<Action>, maxItems: nat, i: nat, j: nat, k: nat, id: nat)
    requires IsRun(run, acts, maxItems) && i <= j <= k < |run|
    requires Has(run[i].todos, id) && !Has(run[j].todos, id)
    ensures !Has(run[k].todos, id)
    decreases k
  {
    RunKeepsInv(run, acts, maxItems, i);
    var p :| 0 <= p < |run[i].todos| && run[i].todos[p].id == id;
    assert run[i].todos[p] in run[i].todos;
    NextIdGrows(run, acts, maxItems, i, j);
    StaysGone(run, acts, maxItems, j, k, id);
  }

  lemma {:induction false} NextIdGrows(run: seq<App>, acts: seq<Action>, maxItems: nat, i: nat, j: nat)
    requires IsRun(run, acts, maxItems) && i <= j < |run|
    ensures run[i].nextId <= run[j].nextId <= maxItems
    decreases j
  {
    RunKeepsInv(run, acts, maxItems, j);
    if i == j {
    } else {
      NextIdGrows(run, acts, maxItems, i, j - 1);
      assert StepAt(run, acts, maxItems, j - 1);
    }
  }

  lemma StepStaysGone(run: seq<App>, acts: seq<Action>, maxItems: nat, j: nat, id: nat)
    requires IsRun(run, acts, maxItems) && j < |acts|
    requires id < run[j].nextId && !Has(run[j].todos, id)
    ensures id < run[j + 1].nextId && !Has(run[j + 1].todos, id)
  {
    assert StepAt(run, acts, maxItems, j);
    ActionAddsOnlyFreshIds(run[j], acts[j], maxItems, id);
  }

  lemma {:induction false} StaysGone(run: seq<App>, acts: seq<Action>, maxItems: nat, j: nat, k: nat, id: nat)
    requires IsRun(run, acts, maxItems) && j <= k < |run|
    requires id < run[j].nextId && !Has(run[j].todos, id)
    ensures id < run[k].nextId && !Has(run[k].todos, id)
    decreases k
  {
    if j == k {
    } else {
      StaysGone(run, acts, maxItems, j, k - 1, id);
      StepStaysGone(run, acts, maxItems, k - 1, id);
    }
  }
}
