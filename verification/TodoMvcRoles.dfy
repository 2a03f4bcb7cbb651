/** The three roles as objects, each method proved to do the step of the same name. */
module TodoMvcRoles {
  import opened TodoMvc

  class TodoView {
    var nowShowing: FilterState
    var shownTodos: seq<Todo>
    var activeTodoCount: nat
    var toggleAllStatus: ToggleAllStatus
    var clearButtonShown: bool

    constructor ()
      ensures State() == INITIAL_APP.view
    {
      nowShowing, shownTodos, activeTodoCount, toggleAllStatus, clearButtonShown := All, [], 0, NotShown, false;
    }

    function State(): View
      reads this
    {
      View(nowShowing, shownTodos, activeTodoCount, toggleAllStatus, clearButtonShown)
    }

    method Refresh(model: TodoModel)
      modifies this
      ensures State() == ViewOf(model.todos, old(nowShowing))
    {
      var allTodos := model.todos;
      if nowShowing == All {
        shownTodos := allTodos;
      } else if nowShowing == Active {
        shownTodos := Keep(allTodos, false);
      } else if nowShowing == Completed {
        shownTodos := Keep(allTodos, true);
      }
      activeTodoCount := |Keep(allTodos, false)|;
      CountSplits(allTodos);
      var completedCount := |allTodos| - activeTodoCount;
      if |allTodos| == 0 {
        toggleAllStatus := NotShown;
      } else if activeTodoCount != 0 {
        toggleAllStatus := Unchecked;
      } else {
        toggleAllStatus := Checked;
      }
      clearButtonShown := completedCount > 0;
    }
  }

  function Pair(model: TodoModel, view: TodoView): App
    reads model, view
  {
    App(model.todos, model.nextId, view.State())
  }

  class TodoModel {
    var todos: seq<Todo>
    var nextId: nat

    constructor ()
      ensures todos == [] && nextId == 0
    {
      todos, nextId := [], 0;
    }

    method AddTodo(title: string, view: TodoView)
      modifies this, view
      ensures Pair(this, view)
              == Refreshed(old(todos) + [Todo(old(nextId), title, false)], old(nextId) + 1, old(view.nowShowing))
    {
      todos := todos + [Todo(nextId, title, false)];
      nextId := nextId + 1;
      view.Refresh(this);
    }

    /** `todos[id] = update(todos[id])`; a missing id would be a key error. */
    method Assign(id: nat, update: Todo -> Todo, view: TodoView)
      requires Ascending(todos) && Has(todos, id)
      modifies this, view
      ensures Pair(this, view) == Refreshed(Put(old(todos), id, update), old(nextId), old(view.nowShowing))
    {
      var i := 0;
      while todos[i].id != id
        invariant 0 <= i < |todos|
        invariant forall j | 0 <= j < i :: todos[j].id != id
        decreases |todos| - i
      {
        i := i + 1;
      }
      PutReplaces(todos, i, update);
      todos := todos[i := update(todos[i])];
      view.Refresh(this);
    }

    method ToggleAll(checked: bool, view: TodoView)
      modifies this, view
      ensures Pair(this, view) == Refreshed(SetAll(old(todos), checked), old(nextId), old(view.nowShowing))
    {
      var i := 0;
      while i < |todos|
        invariant 0 <= i <= |todos| == |old(todos)|
        invariant forall j | 0 <= j < i :: todos[j] == SetAll(old(todos), checked)[j]
        invariant forall j | i <= j < |todos| :: todos[j] == old(todos)[j]
        invariant nextId == old(nextId)
        modifies this
      {
        todos := todos[i := todos[i].(completed := checked)];
        i := i + 1;
      }
      assert todos == SetAll(old(todos), checked);
      view.Refresh(this);
    }

    method Destroy(id: nat, view: TodoView)
      requires Has(todos, id)
      modifies this, view
      ensures Pair(this, view) == Refreshed(Without(old(todos), id), old(nextId), old(view.nowShowing))
    {
      ghost var filter := view.nowShowing;
      var kept := Without(todos, id);
      todos := kept;
      view.Refresh(this);
      assert view.State() == ViewOf(kept, filter);
    }

    method ClearCompleted(view: TodoView)
      modifies this, view
      ensures Pair(this, view) == Refreshed(Keep(old(todos), false), old(nextId), old(view.nowShowing))
    {
      todos := Keep(todos, false);
      view.Refresh(this);
    }
  }

  /** The `require`s of an action are its preconditions. No method below needs its caller to know
      that the item shown at `index` is in the model: the invariant gives that. */
  class TodoController {
    const model: TodoModel
    const view: TodoView
    const maxItems: nat

    constructor (maxItems: nat)
      ensures fresh(model) && fresh(view) && this.maxItems == maxItems
      ensures State() == INITIAL_APP && Inv(State(), maxItems)
    {
      model := new TodoModel();
      view := new TodoView();
      this.maxItems := maxItems;
    }

    function State(): App
      reads model, view
    {
      Pair(model, view)
    }

    method UserAddsItem(title: string)
      requires Inv(State(), maxItems) && Enabled(State(), AddsItem(title), maxItems)
      modifies model, view
      ensures State() == Do(old(State()), AddsItem(title), maxItems) && Inv(State(), maxItems)
    {
      ActionKeepsInv(State(), AddsItem(title), maxItems);
      model.AddTodo(title, view);
    }

    method UserSwitchesFilter(filter: FilterState)
      requires Inv(State(), maxItems) && Enabled(State(), SwitchesFilter(filter), maxItems)
      modifies model, view
      ensures State() == Do(old(State()), SwitchesFilter(filter), maxItems) && Inv(State(), maxItems)
    {
      ActionKeepsInv(State(), SwitchesFilter(filter), maxItems);
      view.nowShowing := filter;
      view.Refresh(model);
    }

    method UserTogglesItem(index: nat)
      requires Inv(State(), maxItems) && Enabled(State(), TogglesItem(index), maxItems)
      modifies model, view
      ensures State() == Do(old(State()), TogglesItem(index), maxItems) && Inv(State(), maxItems)
    {
      ActionKeepsInv(State(), TogglesItem(index), maxItems);
      ShownIsLive(State(), maxItems, index);
      var target := view.shownTodos[index];
      model.Assign(target.id, Flip, view);
    }

    method UserTogglesAll()
      requires Inv(State(), maxItems) && Enabled(State(), TogglesAll, maxItems)
      modifies model, view
      ensures State() == Do(old(State()), TogglesAll, maxItems) && Inv(State(), maxItems)
    {
      ActionKeepsInv(State(), TogglesAll, maxItems);
      model.ToggleAll(view.toggleAllStatus == Unchecked, view);
    }

    method UserDeletesItem(index: nat)
      requires Inv(State(), maxItems) && Enabled(State(), DeletesItem(index), maxItems)
      modifies model, view
      ensures State() == Do(old(State()), DeletesItem(index), maxItems) && Inv(State(), maxItems)
    {
      ActionKeepsInv(State(), DeletesItem(index), maxItems);
      ShownIsLive(State(), maxItems, index);
      var target := view.shownTodos[index];
      model.Destroy(target.id, view);
    }

    method UserEditsItem(index: nat, newText: string)
      requires Inv(State(), maxItems) && Enabled(State(), EditsItem(index, newText), maxItems)
      modifies model, view
      ensures State() == Do(old(State()), EditsItem(index, newText), maxItems) && Inv(State(), maxItems)
    {
      ActionKeepsInv(State(), EditsItem(index, newText), maxItems);
      ShownIsLive(State(), maxItems, index);
      var target := view.shownTodos[index];
      if newText != "" {
        model.Assign(target.id, Retitle(newText), view);
      } else {
        model.Destroy(target.id, view);
      }
    }

    method UserClearsCompleted()
      requires Inv(State(), maxItems) && Enabled(State(), ClearsCompleted, maxItems)
      modifies model, view
      ensures State() == Do(old(State()), ClearsCompleted, maxItems) && Inv(State(), maxItems)
    {
      ActionKeepsInv(State(), ClearsCompleted, maxItems);
      model.ClearCompleted(view);
    }
  }
}
