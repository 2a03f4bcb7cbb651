/** What each action of TodoMVC does, in terms of the items and of what is shown. In every law
    `InSync` says the rest about the new view: it shows what matches the filter, and its counts, box
    and button are those of the new items. */
module TodoActions {
  import opened TodoMvc

  /** The items have changed to `todos` and nothing else has. */
  ghost predicate OnlyItems(app: App, app': App, todos: seq<Todo>) {
    && app'.todos == todos
    && app'.nextId == app.nextId
    && app'.view.nowShowing == app.view.nowShowing
    && InSync(app')
  }

  lemma ActionSyncs(app: App, a: Action, maxItems: nat)
    requires Inv(app, maxItems) && Enabled(app, a, maxItems)
    ensures InSync(Do(app, a, maxItems))
  {
    var app' := Do(app, a, maxItems);
    ActionKeepsInv(app, a, maxItems);
    ViewInSync(app'.todos, app'.nextId, app'.view.nowShowing);
  }

  lemma {:induction false} IdsFill(todos: seq<Todo>, i: nat)
    requires Ascending(todos) && i < |todos|
    ensures todos[i].id >= i
  {
    if i == 0 {
    } else {
      IdsFill(todos, i - 1);
    }
  }

  /** What is offered, in terms of the items alone: adding while there are ids left, the box while
      there are items, the button while some item is completed, and the row of each shown item. */
  lemma OfferedIff(app: App, a: Action, maxItems: nat)
    requires Inv(app, maxItems)
    ensures Enabled(app, a, maxItems)
            <==> match a
                 case AddsItem(title) => title != "" && app.nextId < maxItems
                 case SwitchesFilter(filter) => app.todos != [] && filter != app.view.nowShowing
                 case TogglesItem(index) => index < |app.view.shownTodos|
                 case TogglesAll => app.todos != []
                 case DeletesItem(index) => index < |app.view.shownTodos|
                 case EditsItem(index, _) => index < |app.view.shownTodos|
                 case ClearsCompleted => exists t | t in app.todos :: t.completed
  {
    if app.todos != [] {
      IdsFill(app.todos, |app.todos| - 1);
    }
    SomeKept(app.todos, true);
    CountSplits(app.todos);
  }

  lemma {:induction false} KeepSnoc(todos: seq<Todo>, t: Todo, want: bool)
    ensures Keep(todos + [t], want) == Keep(todos, want) + if t.completed == want then [t] else []
  {
    assert (todos + [t])[..|todos|] == todos;
  }

  /** Adding appends one active item under an id that no item has. */
  lemma AddAppends(app: App, maxItems: nat, title: string)
    requires Inv(app, maxItems) && title != "" && app.nextId < maxItems
    ensures Enabled(app, AddsItem(title), maxItems)
    ensures var app' := Do(app, AddsItem(title), maxItems);
            && !Has(app.todos, app.nextId)
            && app'.todos == app.todos + [Todo(app.nextId, title, false)]
            && app'.nextId == app.nextId + 1
            && app'.view.nowShowing == app.view.nowShowing
            && app'.view.activeTodoCount == app.view.activeTodoCount + 1
            && InSync(app')
  {
    OfferedIff(app, AddsItem(title), maxItems);
    ActionSyncs(app, AddsItem(title), maxItems);
    KeepSnoc(app.todos, Todo(app.nextId, title, false), false);
  }

  /** Switching the filter touches no item, count, box or button. */
  lemma SwitchOnlyFilters(app: App, maxItems: nat, filter: FilterState)
    requires Inv(app, maxItems) && app.todos != [] && filter != app.view.nowShowing
    ensures var app' := Do(app, SwitchesFilter(filter), maxItems);
            && app' == app.(view := app.view.(nowShowing := filter, shownTodos := app'.view.shownTodos))
            && InSync(app')
  {
    ActionSyncs(app, SwitchesFilter(filter), maxItems);
  }

  lemma {:induction false} KeepIsCountedOnce(todos: seq<Todo>, i: nat, t: Todo)
    requires i < |todos| && t.completed != todos[i].completed
    ensures |Keep(todos[i := t], t.completed)| == |Keep(todos, t.completed)| + 1
    ensures |Keep(todos[i := t], !t.completed)| + 1 == |Keep(todos, !t.completed)|
  {
    var n := |todos| - 1;
    if i < n {
      KeepIsCountedOnce(todos[..n], i, t);
      assert todos[i := t][..n] == todos[..n][i := t];
    } else {
      assert todos[i := t][..n] == todos[..n];
    }
  }

  lemma {:induction false} KeepIsCountedAlike(todos: seq<Todo>, i: nat, t: Todo, want: bool)
    requires i < |todos| && t.completed == todos[i].completed
    ensures |Keep(todos[i := t], want)| == |Keep(todos, want)|
  {
    var n := |todos| - 1;
    if i < n {
      KeepIsCountedAlike(todos[..n], i, t, want);
      assert todos[i := t][..n] == todos[..n][i := t];
    } else {
      assert todos[i := t][..n] == todos[..n];
    }
  }

  lemma ShownAt(app: App, maxItems: nat, index: nat) returns (i: nat)
    requires Inv(app, maxItems) && index < |app.view.shownTodos|
    ensures i < |app.todos| && app.todos[i] == app.view.shownTodos[index] && Ascending(app.todos)
  {
    ShownIsLive(app, maxItems, index);
    i :| 0 <= i < |app.todos| && app.todos[i] == app.view.shownTodos[index];
  }

  /** Toggling the item shown at `index` flips exactly that item, keeps its id and title, and moves
      the active count by one. */
  lemma ToggleFlipsOne(app: App, maxItems: nat, index: nat) returns (i: nat)
    requires Inv(app, maxItems) && index < |app.view.shownTodos|
    ensures i < |app.todos| && app.todos[i] == app.view.shownTodos[index]
    ensures var app', item := Do(app, TogglesItem(index), maxItems), app.todos[i];
            && OnlyItems(app, app', app.todos[i := Todo(item.id, item.title, !item.completed)])
            && app'.view.activeTodoCount == app.view.activeTodoCount + if item.completed then 1 else -1
  {
    i := ShownAt(app, maxItems, index);
    ActionSyncs(app, TogglesItem(index), maxItems);
    PutReplaces(app.todos, i, Flip);
    KeepIsCountedOnce(app.todos, i, Flip(app.todos[i]));
  }

  /** Saving a text gives exactly the item shown at `index` that title, and keeps its id, its state
      and the active count. */
  lemma EditSavesTitle(app: App, maxItems: nat, index: nat, text: string) returns (i: nat)
    requires Inv(app, maxItems) && index < |app.view.shownTodos| && text != ""
    ensures i < |app.todos| && app.todos[i] == app.view.shownTodos[index]
    ensures var app', item := Do(app, EditsItem(index, text), maxItems), app.todos[i];
            && OnlyItems(app, app', app.todos[i := Todo(item.id, text, item.completed)])
            && app'.view.activeTodoCount == app.view.activeTodoCount
  {
    i := ShownAt(app, maxItems, index);
    ActionSyncs(app, EditsItem(index, text), maxItems);
    PutReplaces(app.todos, i, Retitle(text));
    KeepIsCountedAlike(app.todos, i, Retitle(text)(app.todos[i]), false);
  }

  lemma {:induction false} WithoutAbsent(todos: seq<Todo>, id: nat)
    requires !Has(todos, id)
    ensures Without(todos, id) == todos
  {
    if todos == [] {
    } else {
      assert forall i | 0 <= i < |todos| - 1 :: todos[..|todos| - 1][i] == todos[i];
      WithoutAbsent(todos[..|todos| - 1], id);
    }
  }

  /** The items without the one at place `i`. */
  function Cut(todos: seq<Todo>, i: nat): seq<Todo>
    requires i < |todos|
  {
    todos[..i] + todos[i + 1..]
  }

  lemma CutFront(todos: seq<Todo>, i: nat)
    requires i < |todos| - 1
    ensures Cut(todos, i) == Cut(todos[..|todos| - 1], i) + [todos[|todos| - 1]]
  {
  }

  lemma FrontHasNot(todos: seq<Todo>)
    requires Ascending(todos) && todos != []
    ensures !Has(todos[..|todos| - 1], todos[|todos| - 1].id)
  {
  }

  lemma {:induction false} WithoutAt(todos: seq<Todo>, i: nat)
    requires Ascending(todos) && i < |todos|
    ensures Without(todos, todos[i].id) == Cut(todos, i)
  {
    var n := |todos| - 1;
    if i == n {
      FrontHasNot(todos);
      WithoutAbsent(todos[..n], todos[i].id);
      assert Cut(todos, n) == todos[..n];
    } else {
      WithoutAt(todos[..n], i);
      CutFront(todos, i);
      assert todos[n].id != todos[i].id;
    }
  }

  predicate Removes(app: App, a: Action, index: nat) {
    a == DeletesItem(index) || a == EditsItem(index, "")
  }

  /** Deleting the item shown at `index`, or emptying its title, removes exactly that item and keeps
      the others in their order. */
  lemma DeleteRemovesOne(app: App, maxItems: nat, index: nat, a: Action) returns (i: nat)
    requires Inv(app, maxItems) && index < |app.view.shownTodos| && Removes(app, a, index)
    ensures i < |app.todos| && app.todos[i] == app.view.shownTodos[index]
    ensures OnlyItems(app, Do(app, a, maxItems), Cut(app.todos, i))
    ensures forall t :: t in Do(app, a, maxItems).todos <==> t in app.todos && t.id != app.todos[i].id
  {
    i := ShownAt(app, maxItems, index);
    ActionSyncs(app, a, maxItems);
    WithoutAt(app.todos, i);
    forall t ensures t in Without(app.todos, app.todos[i].id) <==> t in app.todos && t.id != app.todos[i].id {
      InWithout(app.todos, app.todos[i].id, t);
    }
  }

  lemma {:induction false} KeepUniform(todos: seq<Todo>, want: bool)
    requires forall t | t in todos :: t.completed == want
    ensures Keep(todos, want) == todos && Keep(todos, !want) == []
  {
    if todos == [] {
    } else {
      var front, last := todos[..|todos| - 1], todos[|todos| - 1];
      assert last in todos;
      forall t | t in front ensures t.completed == want {
        InSnoc(todos, t);
      }
      KeepUniform(front, want);
      assert front + [last] == todos;
    }
  }

  ghost predicate AllSet(before: seq<Todo>, after: seq<Todo>, checked: bool) {
    && |after| == |before|
    && forall i | 0 <= i < |before| :: after[i] == Todo(before[i].id, before[i].title, checked)
  }

  lemma SetAllSets(todos: seq<Todo>, checked: bool)
    ensures AllSet(todos, SetAll(todos, checked), checked)
  {
  }

  lemma BoxAfterSetAll(todos: seq<Todo>, checked: bool, filter: FilterState)
    requires todos != []
    ensures ViewOf(SetAll(todos, checked), filter).toggleAllStatus == if checked then Checked else Unchecked
  {
    var all := SetAll(todos, checked);
    forall t | t in all ensures t.completed == checked {
    }
    KeepUniform(all, checked);
    assert |Keep(all, false)| == if checked then 0 else |all|;
  }

  /** Toggle-all gives all items one state, keeps their ids and titles, and turns the box over. */
  lemma ToggleAllTurnsOver(app: App, maxItems: nat)
    requires Inv(app, maxItems) && app.todos != []
    ensures var app', checked := Do(app, TogglesAll, maxItems), app.view.toggleAllStatus == Unchecked;
            && OnlyItems(app, app', app'.todos)
            && AllSet(app.todos, app'.todos, checked)
            && app'.view.toggleAllStatus == if checked then Checked else Unchecked
  {
    var checked := app.view.toggleAllStatus == Unchecked;
    ActionSyncs(app, TogglesAll, maxItems);
    SetAllSets(app.todos, checked);
    BoxAfterSetAll(app.todos, checked, app.view.nowShowing);
  }

  /** Clearing removes exactly the completed items and keeps the others in their order, and with them
      the active count; the button disappears. */
  lemma ClearKeepsActive(app: App, maxItems: nat)
    requires Inv(app, maxItems) && exists t | t in app.todos :: t.completed
    ensures Enabled(app, ClearsCompleted, maxItems)
    ensures var app' := Do(app, ClearsCompleted, maxItems);
            && OnlyItems(app, app', app'.todos)
            && (forall t :: t in app'.todos <==> t in app.todos && !t.completed)
            && Ascending(app'.todos)
            && |app'.todos| < |app.todos|
            && app'.view.activeTodoCount == app.view.activeTodoCount
            && !app'.view.clearButtonShown
  {
    OfferedIff(app, ClearsCompleted, maxItems);
    CountSplits(app.todos);
    ActionSyncs(app, ClearsCompleted, maxItems);
    KeepAscends(app.todos, false);
    forall t ensures t in Keep(app.todos, false) <==> t in app.todos && !t.completed {
      InKeep(app.todos, false, t);
    }
    KeepUniform(Keep(app.todos, false), false);
  }

  /** The items are those titles, active, under the ids 0, 1, 2, ... */
  predicate Typed(app: App, titles: seq<string>) {
    && |app.todos| == |titles| == app.nextId
    && forall i | 0 <= i < |titles| :: app.todos[i] == Todo(i, titles[i], false)
  }

  lemma TypeOne(app: App, maxItems: nat, titles: seq<string>, title: string)
    requires Inv(app, maxItems) && Typed(app, titles) && |titles| < maxItems && title != ""
    ensures Enabled(app, AddsItem(title), maxItems)
    ensures Typed(Do(app, AddsItem(title), maxItems), titles + [title])
  {
    AddAppends(app, maxItems, title);
  }

  lemma RunGoesOn(run: seq<App>, acts: seq<Action>, maxItems: nat, a: Action)
    requires IsRun(run, acts, maxItems) && Enabled(run[|acts|], a, maxItems)
    ensures IsRun(run + [Do(run[|acts|], a, maxItems)], acts + [a], maxItems)
  {
    var run', acts' := run + [Do(run[|acts|], a, maxItems)], acts + [a];
    forall j | 0 <= j < |acts'| ensures StepAt(run', acts', maxItems, j) {
      if j < |acts| {
        assert StepAt(run, acts, maxItems, j);
      }
    }
  }

  /** Nothing else is asked for: when there is room, any list of titles can be typed in. */
  lemma {:induction false} AnyListCanBeTyped(titles: seq<string>, maxItems: nat)
    returns (run: seq<App>, acts: seq<Action>)
    requires |titles| <= maxItems && forall i | 0 <= i < |titles| :: titles[i] != ""
    ensures IsRun(run, acts, maxItems) && Typed(run[|acts|], titles)
  {
    if titles == [] {
      run, acts := [INITIAL_APP], [];
    } else {
      var n := |titles| - 1;
      run, acts := AnyListCanBeTyped(titles[..n], maxItems);
      RunKeepsInv(run, acts, maxItems, |acts|);
      TypeOne(run[|acts|], maxItems, titles[..n], titles[n]);
      RunGoesOn(run, acts, maxItems, AddsItem(titles[n]));
      run, acts := run + [Do(run[|acts|], AddsItem(titles[n]), maxItems)], acts + [AddsItem(titles[n])];
      assert titles == titles[..n] + [titles[n]];
    }
  }
}
