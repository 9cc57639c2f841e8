# Reminder list: a verified model of the TodoList component

The repository is a single React component, `TodoList` in `src/ToDoList.tsx`,
that keeps a list of text reminders. It owns three pieces of state:

- `todos`, the active list of reminders `{id, text, completed}`, in insertion order;
- `completedTodos`, an append-only history of completion snapshots;
- `inputText`, the text typed but not yet added.

Four handlers change that state. Add appends a reminder with id
`todos.length + 1` when the trimmed input is not empty. Toggle flips the flag of
every reminder with a given id and records a completed copy of the first one
if it was pending. Delete drops every reminder with a given id. The expiry
timer drops every completed reminder. Three counts are derived from the state:
total, completed (the history's length) and pending.

The model has two modules:

- `Todos` (`todos.dfy`): the `Todo` record and the pure computations the
  handlers perform on lists of reminders — `trim`, `map` (toggle), `find`,
  `filter` (delete, expire, the pending list) — with lemmas that characterise
  each independently of its definition. `Filter` is shown to be the longest
  subsequence whose elements all pass the test. `Find` is shown to return the
  element at the first matching index.
- `TodoListStore` (`todo_list.dfy`): the component's state as a value, one
  transition function per handler, `Step`/`Run` over sequences of events, and
  the class `TodoList`. Its three fields are replaced by the handler methods,
  and each method is proved to produce exactly the transition function's new
  state. Lemmas state the history invariant over any run, sequential ids while
  nothing is removed, and concrete runs: Add "Buy milk", toggle it, let the
  timer fire; Add "A", Add "B", Delete 1, Add "C"; and an expiry of "A"
  followed by Add "C".

Three behaviours of the code are worth knowing, and the model keeps them:

- Ids are not unique. `todos.length + 1` (`src/ToDoList.tsx:18`) can repeat an
  id once a Delete or an expiry has removed a reminder other than the last
  (`DeleteThenAddDuplicatesId`, `ExpireThenAddDuplicatesId`). Ids are
  guaranteed unique while nothing is removed (`IdsUniqueWithoutRemoval`,
  `IdsUniqueWithIdleTimer`).
- Toggle and Delete act on every reminder with the id
  (`src/ToDoList.tsx:28-30,40`). Only the first one found decides whether a
  snapshot is recorded (`src/ToDoList.tsx:33-35`).
- Only the rendering hides Delete for completed reminders
  (`src/ToDoList.tsx:81-83`). The handler deletes them too, and so does the
  model (`WithoutIgnoresCompleted`).

## Model

| member | source | states |
|---|---|---|
| Todos.TrimStart | src/ToDoList.tsx:16 | the result is a suffix of the input that does not start with whitespace, and everything cut off is whitespace |
| Todos.TrimEnd | src/ToDoList.tsx:16 | the result is a prefix of the input that does not end with whitespace, and everything cut off is whitespace |
| Todos.Trim | src/ToDoList.tsx:16 | no longer than its input; its meaning is given by `TrimCutsBlankEnds`, `TrimHasNoOuterSpace` and `TrimEmptyIffBlank` |
| Todos.TrimCutsBlankEnds | src/ToDoList.tsx:16 | `trim` returns the contiguous piece of the input that starts after its leading whitespace, with a blank prefix before it and a blank suffix after it |
| Todos.TrimHasNoOuterSpace | src/ToDoList.tsx:16 | a non-empty trimmed text neither starts nor ends with whitespace |
| Todos.TrimEmptyIffBlank | src/ToDoList.tsx:16 | the trimmed input is empty exactly when every character of it is whitespace, in both directions |
| Todos.NewTodo | src/ToDoList.tsx:17-21 | the new reminder is pending and carries the input text; on a list with ids 1..n its id exceeds every id present (see `AppendKeepsIdsSequential`) |
| Todos.AppendKeepsIdsSequential | src/ToDoList.tsx:17-22 | appending the new reminder with id `length + 1` to a list with ids 1..n gives ids 1..n+1, which are pairwise distinct |
| Todos.Toggled | src/ToDoList.tsx:28-30 | same length and order, every id and text kept, `completed` negated exactly where the id matches and kept elsewhere |
| Todos.ToggleAbsentIsNoOp | src/ToDoList.tsx:28-30 | toggling an id no reminder carries returns the list unchanged |
| Todos.ToggleTwiceIsIdentity | src/ToDoList.tsx:28-30 | toggling the same id twice restores the list |
| Todos.Find | src/ToDoList.tsx:33 | none exactly when no reminder carries the id; otherwise a member of the list carrying the id |
| Todos.FindIsFirst | src/ToDoList.tsx:33 | `find` returns the reminder at the first index carrying the id |
| Todos.Recorded | src/ToDoList.tsx:33-36 | the history only grows, by at most one entry, which is completed and carries the id; an all-completed history stays all-completed |
| Todos.RecordedWhenFound | src/ToDoList.tsx:33-36 | when the first reminder with the id is pending, exactly its completed copy is appended; when it is completed, the history is unchanged |
| Todos.RecordedWhenAbsent | src/ToDoList.tsx:33-36 | when no reminder carries the id, the history is unchanged |
| Todos.Filter | src/ToDoList.tsx:40 | a value is in the result exactly when it is in the list and passes the test, both directions; the result is no longer than the list |
| Todos.FilterIsSubsequence | src/ToDoList.tsx:40 | filtering keeps the relative order of what it keeps |
| Todos.FilterCounts | src/ToDoList.tsx:40 | each value that passes the test occurs in the result as often as in the list, and each other value not at all |
| Todos.KeptSubsequenceBound | src/ToDoList.tsx:40 | any subsequence of the list made only of passing values is no longer than the filter result |
| Todos.FilterIsLongestKeptSubsequence | src/ToDoList.tsx:40 | the filter result is the unique longest subsequence whose values all pass the test |
| Todos.FilterKeepingAllIsNoOp | src/ToDoList.tsx:40 | filtering a list whose values all pass returns it unchanged |
| Todos.FilterIsIdempotent | src/ToDoList.tsx:46 | filtering twice by the same test equals filtering once |
| Todos.Without | src/ToDoList.tsx:40 | a reminder is in the result exactly when it is in the list and does not carry the id; order and multiplicity are given by `WithoutSpec` |
| Todos.WithoutSpec | src/ToDoList.tsx:40 | after deleting an id no reminder with it remains; the others keep their order and their multiplicity |
| Todos.WithoutAbsentIsNoOp | src/ToDoList.tsx:39-42 | deleting an id that no reminder carries changes nothing |
| Todos.WithoutIgnoresCompleted | src/ToDoList.tsx:40 | deleting after toggling the same id gives the same list as deleting directly, so deletion ignores the flag |
| Todos.PendingOnly | src/ToDoList.tsx:46-52 | a reminder is in the result exactly when it is in the list and is pending; order and multiplicity are given by `PendingOnlySpec` |
| Todos.PendingOnlySpec | src/ToDoList.tsx:46 | expiry leaves nothing completed, keeps order, and keeps every pending reminder with its multiplicity |
| Todos.PendingOnlyIsIdempotent | src/ToDoList.tsx:46-47 | expiring twice equals expiring once |
| Todos.PendingPlusDoneIsTotal | src/ToDoList.tsx:52 | pending and completed reminders of the list add up to its length |
| Todos.AllPendingIffNoneDone | src/ToDoList.tsx:52 | the pending count equals the length exactly when no reminder is completed, in both directions |
| Todos.DoneOnly | src/ToDoList.tsx:68 | a reminder is in the result exactly when it is in the list and is completed; it counts the completed entries of the history (line 68) |
| Todos.DoneOnlyOfAllCompleted | src/ToDoList.tsx:68 | a list whose entries are all completed is its own completed part |
| Todos.PendingCountAfterExpire | src/ToDoList.tsx:46-52 | after expiry the pending count equals the total and no completed reminder is counted |
| TodoListStore.AfterAdd | src/ToDoList.tsx:15-25 | the list only grows at its end, by at most one reminder, and the history is kept; the exact new state is given by `AddSpec` |
| TodoListStore.AfterComplete | src/ToDoList.tsx:27-37 | the list keeps its length, the input is kept and the history only grows; the exact new state is given by `CompleteTogglesMatching` and `CompleteRecordsFirstPending` |
| TodoListStore.AfterDelete | src/ToDoList.tsx:39-42 | the list does not grow, history and input are kept; the exact new list is given by `DeleteSpec` |
| TodoListStore.AfterExpire | src/ToDoList.tsx:45-47 | the list does not grow, history and input are kept; the exact new list is given by `ExpireSpec` |
| TodoListStore.Step | src/ToDoList.tsx:15-62 | only a checkbox event touches the history and only typing or Add touch the input; typing replaces the input (line 62), the other events are the handlers above |
| TodoListStore.Run | src/ToDoList.tsx:11-13 | a run with no checkbox event leaves the history as it was; `RunKeepsHistory` and `RunSnoc` give the rest |
| TodoListStore.AddSpec | src/ToDoList.tsx:15-25 | blank input: nothing changes; otherwise exactly `{id: length + 1, text: untrimmed input, completed: false}` is appended, the input is cleared, the history is kept |
| TodoListStore.CompleteTogglesMatching | src/ToDoList.tsx:27-31 | toggle keeps length, order, ids, texts and input, and negates the flag exactly on the reminders with the id |
| TodoListStore.CompleteRecordsFirstPending | src/ToDoList.tsx:33-36 | the history grows by the completed copy of the first reminder with the id when it was pending, and is unchanged when it was completed |
| TodoListStore.CompleteAbsentIsNoOp | src/ToDoList.tsx:27-37 | toggling an absent id leaves the whole state unchanged |
| TodoListStore.CompleteTwiceKeepsSnapshot | src/ToDoList.tsx:27-37 | toggling a pending reminder twice restores the list but keeps the snapshot the first toggle recorded |
| TodoListStore.DeleteSpec | src/ToDoList.tsx:39-42 | no reminder with the id remains, the rest keep order and multiplicity, the history is kept, an absent id is a no-op |
| TodoListStore.ExpireSpec | src/ToDoList.tsx:45-47 | expiry keeps exactly the pending reminders in order, is idempotent, keeps the history, and leaves pending count equal to the total |
| TodoListStore.StepKeepsHistory | src/ToDoList.tsx:35 | every event keeps every history entry completed and only extends the history |
| TodoListStore.RunKeepsHistory | src/ToDoList.tsx:12 | over any sequence of events the history stays all-completed and its old entries stay a prefix |
| TodoListStore.RunWithoutRemovalKeepsIdsSequential | src/ToDoList.tsx:18 | with no Delete and no expiry, ids 1..n stay 1..n for any number of Adds, toggles and edits |
| TodoListStore.ExpireWithNothingCompletedIsNoOp | src/ToDoList.tsx:46-47 | a timer firing when no reminder is completed leaves the whole state unchanged |
| TodoListStore.RunOfAddsAndIdleTimerKeepsIdsSequential | src/ToDoList.tsx:18 | over runs of typing, Adds and timer firings, ids 1..n stay 1..n and every reminder stays pending |
| TodoListStore.IdsUniqueWithIdleTimer | src/ToDoList.tsx:18 | from the initial state, typing, Adds and timer firings give ids 1..n in order, pairwise distinct |
| TodoListStore.IdsUniqueWithoutRemoval | src/ToDoList.tsx:18 | from the initial state with no Delete and no expiry, the ids are 1..n in order and pairwise distinct |
| TodoListStore.RunSnoc | src/ToDoList.tsx:11-13 | running one more event is taking one more step from the state reached |
| TodoListStore.AddAScenario | src/ToDoList.tsx:15-25 | adding "A" from the initial state gives `[{1, "A", pending}]` and a cleared input |
| TodoListStore.AddBAfterA | src/ToDoList.tsx:15-25 | adding "B" to `[{1, "A"}]` appends `{2, "B", pending}` and clears the input |
| TodoListStore.TwoAddsGiveIdsOneTwo | src/ToDoList.tsx:18 | adding "A" then "B" gives ids 1 and 2 |
| TodoListStore.DeleteOneScenario | src/ToDoList.tsx:40 | deleting id 1 after that leaves only "B" with id 2 |
| TodoListStore.TypeCAfterDeleteScenario | src/ToDoList.tsx:62 | typing "C" then only fills the input |
| TodoListStore.DeleteThenAddDuplicatesId | src/ToDoList.tsx:18 | then adding "C" assigns id 2 again, so two reminders share id 2 |
| TodoListStore.AddCAfterB | src/ToDoList.tsx:17-22 | adding "C" to a list holding only `{2, "B"}` gives "C" id 2 as well |
| TodoListStore.ExpireDropsA | src/ToDoList.tsx:46 | the timer drops the completed `{1, "A"}` and keeps the pending `{2, "B"}` |
| TodoListStore.ExpireThenAddDuplicatesId | src/ToDoList.tsx:18 | after that expiry, adding "C" gives two reminders with id 2, so expiry repeats ids too |
| TodoListStore.AddMilkScenario | src/ToDoList.tsx:15-25 | adding "Buy milk" gives one pending reminder with id 1 and an empty history |
| TodoListStore.CompleteMilkScenario | src/ToDoList.tsx:27-37 | toggling id 1 then completes it and records exactly one history entry |
| TodoListStore.ExpireMilkScenario | src/ToDoList.tsx:46-47 | when the timer then fires the list is empty and the history keeps its entry |
| TodoListStore.TodoList.constructor | src/ToDoList.tsx:11-13 | all three pieces of state start empty |
| TodoListStore.TodoList.SetInputText | src/ToDoList.tsx:62 | the input is replaced and the two lists are unchanged |
| TodoListStore.TodoList.AddTodo | src/ToDoList.tsx:15-25 | the handler's new state is `AfterAdd`'s; blank input changes nothing; otherwise the new pending reminder is appended and the input cleared; history kept and valid |
| TodoListStore.TodoList.CompleteTodo | src/ToDoList.tsx:27-37 | the new list negates exactly the matching flags; the history gains the completed copy of the first match if it was pending; absent id is a no-op |
| TodoListStore.TodoList.DeleteTodo | src/ToDoList.tsx:39-42 | no reminder with the id remains, the others keep order and multiplicity, history and input unchanged |
| TodoListStore.TodoList.Expire | src/ToDoList.tsx:45-47 | nothing completed remains, pending reminders keep order and multiplicity, history and input unchanged |
| TodoListStore.TodoList.TotalCount | src/ToDoList.tsx:67 | the total is the number of pending plus the number of completed reminders in the list |
| TodoListStore.TodoList.CompletedCount | src/ToDoList.tsx:68 | under the history invariant, the completed count is the number of completed entries of the history |
| TodoListStore.TodoList.PendingCount | src/ToDoList.tsx:69 | at most the total; pending plus completed is the total; equal to the total exactly when nothing in the list is completed |

## Left out

- The rendering (`src/ToDoList.tsx:54-96`) and the stylesheet import: presentation only. The rule that Delete is offered only for pending reminders (`src/ToDoList.tsx:81-83`) belongs to the rendering, so Delete has no precondition.
- The debounce: `setTimeout`/`clearTimeout` with 10000 ms, re-armed whenever `todos` changes (`src/ToDoList.tsx:44-50`). There is no clock in the model. Only the callback's effect is modelled, as the `TimerFired` event and the `Expire` method, which may occur at any point of a run. The model therefore does not capture that expiry only follows 10 seconds without a list change.
- React's batched, asynchronous state updates: each handler is one atomic transition on the current state, reading the list and history as they are when it starts, as the handler's closure does.
- `String.prototype.trim`'s full Unicode whitespace set: whitespace is space, tab, line feed, carriage return, vertical tab and form feed.
- JavaScript numbers: ids are unbounded integers; fractional and non-finite ids and the precision limit of doubles are not modelled.
- `src/App.tsx` only mounts the component and holds no logic.
