/** The TodoList component of ToDoList.tsx as a state machine: its three
    pieces of state, one transition per handler, runs of events from the
    initial state, and a class whose fields the handlers replace. */
module TodoListStore {
  import opened Todos

  /** The component's state: the active list, the completion history and the
      pending input text. */
  datatype State = State(todos: seq<Todo>, completedTodos: seq<Todo>, inputText: string)

  /** What drives the component: typing in the input, the Add button, a
      checkbox, a Delete button, and the expiry timer firing. */
  datatype Event =
    | Typed(text: string)
    | AddPressed
    | CheckboxToggled(id: int)
    | DeletePressed(id: int)
    | TimerFired

  /** All three pieces of state start empty. */
  const Initial: State := State([], [], "")

  /** The history invariant: every snapshot in it is marked completed. */
  predicate HistoryValid(st: State) {
    AllCompleted(st.completedTodos)
  }

  // ---------------------------------------------------------------------------
  // One transition per handler
  // ---------------------------------------------------------------------------

  /** `handleAddTodo`: when the trimmed input is not empty, append a pending
      reminder with id `|todos| + 1` and the untrimmed text, and clear the input. */
  function AfterAdd(st: State): (r: State)
    ensures st.todos <= r.todos && |r.todos| <= |st.todos| + 1
    ensures r.completedTodos == st.completedTodos
  {
    if Trim(st.inputText) != "" then
      st.(todos := st.todos + [NewTodo(st.todos, st.inputText)], inputText := "")
    else st
  }

  /** `handleCompleteTodo`: toggle every reminder with this id, and record a
      completed copy of the first one if it was pending. */
  function AfterComplete(st: State, id: int): (r: State)
    ensures |r.todos| == |st.todos| && r.inputText == st.inputText
    ensures st.completedTodos <= r.completedTodos
  {
    st.(todos := Toggled(st.todos, id), completedTodos := Recorded(st.completedTodos, st.todos, id))
  }

  /** `handleDeleteTodo`: drop every reminder with this id. */
  function AfterDelete(st: State, id: int): (r: State)
    ensures |r.todos| <= |st.todos|
    ensures r.completedTodos == st.completedTodos && r.inputText == st.inputText
  {
    st.(todos := Without(st.todos, id))
  }

  /** The expiry timer's callback: drop every completed reminder. */
  function AfterExpire(st: State): (r: State)
    ensures |r.todos| <= |st.todos|
    ensures r.completedTodos == st.completedTodos && r.inputText == st.inputText
  {
    st.(todos := PendingOnly(st.todos))
  }

  /** The state after one event. Only a checkbox touches the history; only
      typing and Add touch the input. */
  function Step(st: State, e: Event): (r: State)
    ensures r.completedTodos == st.completedTodos || e.CheckboxToggled?
    ensures r.inputText == st.inputText || e.Typed? || e.AddPressed?
  {
    match e
    case Typed(text) => st.(inputText := text)
    case AddPressed => AfterAdd(st)
    case CheckboxToggled(id) => AfterComplete(st, id)
    case DeletePressed(id) => AfterDelete(st, id)
    case TimerFired => AfterExpire(st)
  }

  /** The state after the events `es`, in order. Without a checkbox event
      the history is untouched. */
  function Run(st: State, es: seq<Event>): (r: State)
    ensures (forall i :: 0 <= i < |es| ==> !es[i].CheckboxToggled?) ==> r.completedTodos == st.completedTodos
    decreases |es|
  {
    if es == [] then st else Run(Step(st, es[0]), es[1..])
  }

  // ---------------------------------------------------------------------------
  // Properties of single transitions
  // ---------------------------------------------------------------------------

  /** Add with a blank input changes nothing; otherwise it appends exactly the
      new pending reminder with the untrimmed text, clears the input and keeps
      the history. */
  lemma AddSpec(st: State)
    ensures IsBlank(st.inputText) ==> AfterAdd(st) == st
    ensures !IsBlank(st.inputText) ==>
      AfterAdd(st).todos == st.todos + [Todo(|st.todos| + 1, st.inputText, false)] &&
      AfterAdd(st).inputText == "" &&
      AfterAdd(st).completedTodos == st.completedTodos
  {
    TrimEmptyIffBlank(st.inputText);
  }

  /** Toggle negates the flag of exactly the reminders carrying `id`, keeps
      length, order, ids and texts, and keeps the input. */
  lemma CompleteTogglesMatching(st: State, id: int)
    ensures |AfterComplete(st, id).todos| == |st.todos|
    ensures forall i :: 0 <= i < |st.todos| ==>
      AfterComplete(st, id).todos[i].id == st.todos[i].id &&
      AfterComplete(st, id).todos[i].text == st.todos[i].text &&
      AfterComplete(st, id).todos[i].completed == (st.todos[i].completed != (st.todos[i].id == id))
    ensures AfterComplete(st, id).inputText == st.inputText
  {
  }

  /** Toggle's effect on the history: one completed snapshot of the first
      reminder with `id` when that reminder is pending, none otherwise. */
  lemma CompleteRecordsFirstPending(st: State, id: int, k: nat)
    requires k < |st.todos| && st.todos[k].id == id
    requires forall j :: 0 <= j < k ==> st.todos[j].id != id
    ensures AfterComplete(st, id).completedTodos ==
      if st.todos[k].completed then st.completedTodos
      else st.completedTodos + [st.todos[k].(completed := true)]
  {
    RecordedWhenFound(st.completedTodos, st.todos, id, k);
  }

  /** Toggling an id that no reminder carries changes nothing at all. */
  lemma CompleteAbsentIsNoOp(st: State, id: int)
    requires forall t :: t in st.todos ==> t.id != id
    ensures AfterComplete(st, id) == st
  {
    ToggleAbsentIsNoOp(st.todos, id);
    RecordedWhenAbsent(st.completedTodos, st.todos, id);
  }

  /** Toggling a pending reminder twice restores the list but not the history:
      the snapshot taken by the first toggle stays. */
  lemma CompleteTwiceKeepsSnapshot(st: State, id: int, k: nat)
    requires k < |st.todos| && st.todos[k].id == id && !st.todos[k].completed
    requires forall j :: 0 <= j < k ==> st.todos[j].id != id
    ensures Run(st, [CheckboxToggled(id), CheckboxToggled(id)]) ==
      st.(completedTodos := st.completedTodos + [st.todos[k].(completed := true)])
  {
    var once := AfterComplete(st, id);
    CompleteRecordsFirstPending(st, id, k);
    CompleteTogglesMatching(st, id);
    CompleteRecordsFirstPending(once, id, k);
    ToggleTwiceIsIdentity(st.todos, id);
    assert Run(st, [CheckboxToggled(id), CheckboxToggled(id)]) == Run(once, [CheckboxToggled(id)]);
  }

  /** Delete leaves no reminder with `id`, keeps every other one in order,
      keeps the history and the input, and is a no-op for an absent id. */
  lemma DeleteSpec(st: State, id: int)
    ensures forall t :: t in AfterDelete(st, id).todos ==> t.id != id
    ensures IsSubsequence(AfterDelete(st, id).todos, st.todos)
    ensures forall t: Todo :: t.id != id ==> multiset(AfterDelete(st, id).todos)[t] == multiset(st.todos)[t]
    ensures AfterDelete(st, id).completedTodos == st.completedTodos
    ensures (forall t :: t in st.todos ==> t.id != id) ==> AfterDelete(st, id) == st
  {
    WithoutSpec(st.todos, id);
    if forall t :: t in st.todos ==> t.id != id {
      WithoutAbsentIsNoOp(st.todos, id);
    }
  }

  /** Expire keeps exactly the pending reminders in order, is idempotent,
      keeps the history, and afterwards the pending count is the total. */
  lemma ExpireSpec(st: State)
    ensures forall t :: t in AfterExpire(st).todos ==> !t.completed
    ensures IsSubsequence(AfterExpire(st).todos, st.todos)
    ensures forall t: Todo :: !t.completed ==> multiset(AfterExpire(st).todos)[t] == multiset(st.todos)[t]
    ensures AfterExpire(AfterExpire(st)) == AfterExpire(st)
    ensures AfterExpire(st).completedTodos == st.completedTodos
    ensures |PendingOnly(AfterExpire(st).todos)| == |AfterExpire(st).todos|
  {
    PendingOnlySpec(st.todos);
    PendingOnlyIsIdempotent(st.todos);
  }

  /** Every transition keeps the history invariant and only ever extends the history. */
  lemma StepKeepsHistory(st: State, e: Event)
    ensures HistoryValid(st) ==> HistoryValid(Step(st, e))
    ensures st.completedTodos <= Step(st, e).completedTodos
  {
  }

  // ---------------------------------------------------------------------------
  // Properties of runs
  // ---------------------------------------------------------------------------

  /** Over any run, the history invariant holds throughout and the history only grows. */
  lemma {:induction false} RunKeepsHistory(st: State, es: seq<Event>)
    ensures HistoryValid(st) ==> HistoryValid(Run(st, es))
    ensures st.completedTodos <= Run(st, es).completedTodos
    decreases |es|
  {
    if es != [] {
      StepKeepsHistory(st, es[0]);
      RunKeepsHistory(Step(st, es[0]), es[1..]);
    }
  }

  /** An event that never removes a reminder. */
  predicate KeepsAll(e: Event) {
    !e.DeletePressed? && !e.TimerFired?
  }

  /** As long as nothing is deleted or expired, the ids stay 1, 2, ..., n in order. */
  lemma {:induction false} RunWithoutRemovalKeepsIdsSequential(st: State, es: seq<Event>)
    requires IdsSequential(st.todos)
    requires forall i :: 0 <= i < |es| ==> KeepsAll(es[i])
    ensures IdsSequential(Run(st, es).todos)
    decreases |es|
  {
    if es != [] {
      var next := Step(st, es[0]);
      match es[0] {
        case Typed(_) =>
        case AddPressed =>
          AppendKeepsIdsSequential(st.todos, st.inputText);
        case CheckboxToggled(id) =>
          CompleteTogglesMatching(st, id);
      }
      assert IdsSequential(next.todos);
      assert forall i :: 0 <= i < |es[1..]| ==> KeepsAll(es[1..][i]) by {
        forall i | 0 <= i < |es[1..]| ensures KeepsAll(es[1..][i]) {
          assert es[1..][i] == es[i + 1];
        }
      }
      RunWithoutRemovalKeepsIdsSequential(next, es[1..]);
    }
  }

  /** From the initial state, with no Delete and no expiry, every reminder's id
      is its position plus one, so no two share an id. */
  lemma IdsUniqueWithoutRemoval(es: seq<Event>)
    requires forall i :: 0 <= i < |es| ==> KeepsAll(es[i])
    ensures IdsSequential(Run(Initial, es).todos)
    ensures IdsUnique(Run(Initial, es).todos)
  {
    RunWithoutRemovalKeepsIdsSequential(Initial, es);
  }

  /** A timer firing while no reminder is completed changes nothing. */
  lemma ExpireWithNothingCompletedIsNoOp(st: State)
    requires forall t :: t in st.todos ==> !t.completed
    ensures AfterExpire(st) == st
  {
    FilterKeepingAllIsNoOp(st.todos, IsPending);
  }

  /** Typing, adding, or the timer firing: the events of a session that only adds. */
  predicate AddsOrIdle(e: Event) {
    e.Typed? || e.AddPressed? || e.TimerFired?
  }

  /** The timer fires after every change of the list, but while nothing is
      completed it removes nothing: over runs of typing, Adds and firings the
      ids stay 1, 2, ..., n in order and every reminder stays pending. */
  lemma {:induction false} RunOfAddsAndIdleTimerKeepsIdsSequential(st: State, es: seq<Event>)
    requires IdsSequential(st.todos)
    requires forall t :: t in st.todos ==> !t.completed
    requires forall i :: 0 <= i < |es| ==> AddsOrIdle(es[i])
    ensures IdsSequential(Run(st, es).todos)
    ensures forall t :: t in Run(st, es).todos ==> !t.completed
    decreases |es|
  {
    if es != [] {
      var next := Step(st, es[0]);
      match es[0] {
        case Typed(_) =>
        case AddPressed =>
          AppendKeepsIdsSequential(st.todos, st.inputText);
        case TimerFired =>
          ExpireWithNothingCompletedIsNoOp(st);
      }
      assert IdsSequential(next.todos);
      assert forall i :: 0 <= i < |es[1..]| ==> AddsOrIdle(es[1..][i]) by {
        forall i | 0 <= i < |es[1..]| ensures AddsOrIdle(es[1..][i]) {
          assert es[1..][i] == es[i + 1];
        }
      }
      RunOfAddsAndIdleTimerKeepsIdsSequential(next, es[1..]);
    }
  }

  /** From the initial state, typing, Adds and timer firings give every
      reminder its position plus one as id, so no two share an id. */
  lemma IdsUniqueWithIdleTimer(es: seq<Event>)
    requires forall i :: 0 <= i < |es| ==> AddsOrIdle(es[i])
    ensures IdsSequential(Run(Initial, es).todos)
    ensures IdsUnique(Run(Initial, es).todos)
  {
    RunOfAddsAndIdleTimerKeepsIdsSequential(Initial, es);
  }

  /** Running one more event is taking one more step. */
  lemma {:induction false} RunSnoc(st: State, es: seq<Event>, e: Event)
    ensures Run(st, es + [e]) == Step(Run(st, es), e)
    decreases |es|
  {
    if es == [] {
      assert [] + [e] == [e];
    } else {
      assert (es + [e])[1..] == es[1..] + [e];
      RunSnoc(Step(st, es[0]), es[1..], e);
    }
  }

  /** Add "A", Add "B". */
  const TwoAdds: seq<Event> := [Typed("A"), AddPressed] + [Typed("B"), AddPressed]

  lemma AddAScenario()
    ensures Run(Initial, [Typed("A"), AddPressed]) == State([Todo(1, "A", false)], [], "")
  {
    var s1 := Initial.(inputText := "A");
    assert "A"[0] == 'A';
    AddSpec(s1);
    RunSnoc(Initial, [Typed("A")], AddPressed);
  }

  /** Adding "B" after "A" gives it id 2. */
  lemma AddBAfterA()
    ensures AfterAdd(State([Todo(1, "A", false)], [], "B")) == State([Todo(1, "A", false), Todo(2, "B", false)], [], "")
  {
    assert "B"[0] == 'B';
    AddSpec(State([Todo(1, "A", false)], [], "B"));
  }

  lemma TwoAddsGiveIdsOneTwo()
    ensures Run(Initial, TwoAdds) == State([Todo(1, "A", false), Todo(2, "B", false)], [], "")
  {
    AddAScenario();
    RunSnoc(Initial, [Typed("A"), AddPressed], Typed("B"));
    RunSnoc(Initial, [Typed("A"), AddPressed] + [Typed("B")], AddPressed);
    AddBAfterA();
    assert TwoAdds == [Typed("A"), AddPressed] + [Typed("B")] + [AddPressed];
  }

  /** Deleting id 1 after them leaves "B" with id 2. */
  lemma DeleteOneScenario()
    ensures Run(Initial, TwoAdds + [DeletePressed(1)]) == State([Todo(2, "B", false)], [], "")
  {
    TwoAddsGiveIdsOneTwo();
    var s4 := Run(Initial, TwoAdds);
    assert s4.todos == [Todo(1, "A", false)] + [Todo(2, "B", false)];
    WithoutAbsentIsNoOp([Todo(2, "B", false)], 1);
    assert AfterDelete(s4, 1).todos == [Todo(2, "B", false)];
    RunSnoc(Initial, TwoAdds, DeletePressed(1));
  }

  /** Typing "C" after that only fills the input. */
  lemma TypeCAfterDeleteScenario()
    ensures Run(Initial, TwoAdds + [DeletePressed(1)] + [Typed("C")]) == State([Todo(2, "B", false)], [], "C")
  {
    DeleteOneScenario();
    RunSnoc(Initial, TwoAdds + [DeletePressed(1)], Typed("C"));
  }

  /** Ids are not unique in general: Add "A", Add "B", Delete 1, Add "C" leaves
      two reminders with id 2. */
  lemma DeleteThenAddDuplicatesId()
    ensures Run(Initial, TwoAdds + [DeletePressed(1)] + [Typed("C")] + [AddPressed]).todos
      == [Todo(2, "B", false), Todo(2, "C", false)]
    ensures !IdsUnique(Run(Initial, TwoAdds + [DeletePressed(1)] + [Typed("C")] + [AddPressed]).todos)
  {
    var before := TwoAdds + [DeletePressed(1)] + [Typed("C")];
    TypeCAfterDeleteScenario();
    RunSnoc(Initial, before, AddPressed);
    AddCAfterB();
    var r := [Todo(2, "B", false), Todo(2, "C", false)];
    assert r[0].id == r[1].id;
  }

  /** Adding "C" to a list holding only "B" with id 2 gives "C" id 2 as well. */
  lemma AddCAfterB()
    ensures AfterAdd(State([Todo(2, "B", false)], [], "C")).todos == [Todo(2, "B", false), Todo(2, "C", false)]
  {
    assert "C"[0] == 'C';
    AddSpec(State([Todo(2, "B", false)], [], "C"));
  }

  /** Expiry also lets Add repeat an id: with "A" (id 1) completed and "B"
      (id 2) pending, the timer firing and then adding "C" leaves two
      reminders with id 2. */
  lemma ExpireThenAddDuplicatesId()
    ensures AfterAdd(AfterExpire(State([Todo(1, "A", true), Todo(2, "B", false)], [], "C"))).todos
      == [Todo(2, "B", false), Todo(2, "C", false)]
  {
    ExpireDropsA();
    AddCAfterB();
  }

  /** The timer drops the completed "A" and keeps the pending "B". */
  lemma ExpireDropsA()
    ensures AfterExpire(State([Todo(1, "A", true), Todo(2, "B", false)], [], "C")) == State([Todo(2, "B", false)], [], "C")
  {
    var todos := [Todo(1, "A", true), Todo(2, "B", false)];
    assert todos == [Todo(1, "A", true)] + [Todo(2, "B", false)];
    FilterKeepingAllIsNoOp([Todo(2, "B", false)], IsPending);
  }

  /** Add "Buy milk". */
  const AddMilk: seq<Event> := [Typed("Buy milk"), AddPressed]

  /** Adding "Buy milk" gives one pending reminder with id 1 and no history. */
  lemma AddMilkScenario()
    ensures Run(Initial, AddMilk) == State([Todo(1, "Buy milk", false)], [], "")
  {
    var typed := Initial.(inputText := "Buy milk");
    assert "Buy milk"[0] == 'B';
    AddSpec(typed);
    RunSnoc(Initial, [Typed("Buy milk")], AddPressed);
  }

  /** Toggling it completes it and records one history entry. */
  lemma CompleteMilkScenario()
    ensures Run(Initial, AddMilk + [CheckboxToggled(1)]) ==
      State([Todo(1, "Buy milk", true)], [Todo(1, "Buy milk", true)], "")
  {
    AddMilkScenario();
    var added := Run(Initial, AddMilk);
    CompleteRecordsFirstPending(added, 1, 0);
    assert Toggled(added.todos, 1) == [Todo(1, "Buy milk", true)];
    RunSnoc(Initial, AddMilk, CheckboxToggled(1));
  }

  /** When the timer then fires, the list empties and the history keeps its entry. */
  lemma ExpireMilkScenario()
    ensures Run(Initial, AddMilk + [CheckboxToggled(1), TimerFired]) ==
      State([], [Todo(1, "Buy milk", true)], "")
  {
    CompleteMilkScenario();
    var toggled := Run(Initial, AddMilk + [CheckboxToggled(1)]);
    PendingOnlySpec(toggled.todos);
    RunSnoc(Initial, AddMilk + [CheckboxToggled(1)], TimerFired);
    assert AddMilk + [CheckboxToggled(1), TimerFired] == AddMilk + [CheckboxToggled(1)] + [TimerFired];
  }

  // ---------------------------------------------------------------------------
  // The component
  // ---------------------------------------------------------------------------

  /** The component's state, replaced in place by its handlers. */
  class TodoList {
    var todos: seq<Todo>
    var completedTodos: seq<Todo>
    var inputText: string

    ghost predicate Valid()
      reads this
    {
      HistoryValid(Snapshot())
    }

    function Snapshot(): State
      reads this
    {
      State(todos, completedTodos, inputText)
    }

    /** All three pieces of state start empty. */
    constructor ()
      ensures Valid() && Snapshot() == Initial
    {
      todos := [];
      completedTodos := [];
      inputText := "";
    }

    /** The input's `onChange`: replace the pending text. */
    method SetInputText(text: string)
      requires Valid()
      modifies this
      ensures Valid() && Snapshot() == Step(old(Snapshot()), Typed(text))
      ensures inputText == text && todos == old(todos) && completedTodos == old(completedTodos)
    {
      inputText := text;
    }

    /** `handleAddTodo`. */
    method AddTodo()
      requires Valid()
      modifies this
      ensures Valid() && Snapshot() == Step(old(Snapshot()), AddPressed)
      ensures IsBlank(old(inputText)) ==> Snapshot() == old(Snapshot())
      ensures !IsBlank(old(inputText)) ==>
        todos == old(todos) + [Todo(|old(todos)| + 1, old(inputText), false)] && inputText == ""
      ensures completedTodos == old(completedTodos)
    {
      AddSpec(Snapshot());
      if Trim(inputText) != "" {
        var newTodo := NewTodo(todos, inputText);
        todos := todos + [newTodo];
        inputText := "";
      }
    }

    /** `handleCompleteTodo`. */
    method CompleteTodo(id: int)
      requires Valid()
      modifies this
      ensures Valid() && Snapshot() == Step(old(Snapshot()), CheckboxToggled(id))
      ensures |todos| == |old(todos)|
      ensures forall i :: 0 <= i < |todos| ==>
        todos[i].id == old(todos)[i].id && todos[i].text == old(todos)[i].text &&
        todos[i].completed == (old(todos)[i].completed != (old(todos)[i].id == id))
      ensures forall k :: (0 <= k < |old(todos)| && old(todos)[k].id == id &&
        (forall j :: 0 <= j < k ==> old(todos)[j].id != id)) ==>
        completedTodos == if old(todos)[k].completed then old(completedTodos)
                          else old(completedTodos) + [old(todos)[k].(completed := true)]
      ensures (forall t :: t in old(todos) ==> t.id != id) ==> Snapshot() == old(Snapshot())
      ensures inputText == old(inputText)
    {
      ghost var before := Snapshot();
      var updatedTodos := Toggled(todos, id);
      var completedTodo := Find(todos, id);
      todos := updatedTodos;
      if completedTodo.Some? && !completedTodo.value.completed {
        completedTodos := completedTodos + [completedTodo.value.(completed := true)];
      }
      forall k | 0 <= k < |before.todos| && before.todos[k].id == id &&
        (forall j :: 0 <= j < k ==> before.todos[j].id != id)
        ensures completedTodos == if before.todos[k].completed then before.completedTodos
                                  else before.completedTodos + [before.todos[k].(completed := true)]
      {
        CompleteRecordsFirstPending(before, id, k);
      }
      if forall t :: t in before.todos ==> t.id != id {
        CompleteAbsentIsNoOp(before, id);
      }
    }

    /** `handleDeleteTodo`: no restriction to pending reminders. */
    method DeleteTodo(id: int)
      requires Valid()
      modifies this
      ensures Valid() && Snapshot() == Step(old(Snapshot()), DeletePressed(id))
      ensures forall t :: t in todos ==> t.id != id
      ensures IsSubsequence(todos, old(todos))
      ensures forall t: Todo :: t.id != id ==> multiset(todos)[t] == multiset(old(todos))[t]
      ensures completedTodos == old(completedTodos) && inputText == old(inputText)
    {
      DeleteSpec(Snapshot(), id);
      todos := Without(todos, id);
    }

    /** The expiry timer's callback. */
    method Expire()
      requires Valid()
      modifies this
      ensures Valid() && Snapshot() == Step(old(Snapshot()), TimerFired)
      ensures forall t :: t in todos ==> !t.completed
      ensures IsSubsequence(todos, old(todos))
      ensures forall t: Todo :: !t.completed ==> multiset(todos)[t] == multiset(old(todos))[t]
      ensures completedTodos == old(completedTodos) && inputText == old(inputText)
    {
      ExpireSpec(Snapshot());
      todos := PendingOnly(todos);
    }

    /** "Total to do": the length of the active list. */
    function TotalCount(): (n: nat)
      reads this
      ensures n == |PendingOnly(todos)| + |DoneOnly(todos)|
    {
      PendingPlusDoneIsTotal(todos);
      |todos|
    }

    /** "Completed": the length of the history, which may count reminders no
        longer in the list or pending again. */
    function CompletedCount(): (n: nat)
      reads this
      ensures Valid() ==> n == |DoneOnly(completedTodos)|
    {
      DoneOnlyOfAllCompleted(completedTodos);
      |completedTodos|
    }

    /** "Pending": the number of reminders in the list not marked completed. */
    function PendingCount(): (n: nat)
      reads this
      ensures n <= |todos|
      ensures n + |DoneOnly(todos)| == |todos|
      ensures n == |todos| <==> forall t :: t in todos ==> !t.completed
    {
      PendingPlusDoneIsTotal(todos);
      AllPendingIffNoneDone(todos);
      |PendingOnly(todos)|
    }
  }
}
