/** The reminder record of ToDoList.tsx and the pure computations its handlers
    perform on the reminder list: trimming the input, `map` to toggle, `find`
    to locate the first match, `filter` to delete, expire and count. */
module Todos {

  datatype Option<T> = None | Some(value: T)

  /** A reminder. JavaScript numbers are modelled as unbounded integers. */
  datatype Todo = Todo(id: int, text: string, completed: bool)

  // ---------------------------------------------------------------------------
  // Trimming the input text
  // ---------------------------------------------------------------------------

  /** The whitespace that `trim` strips, restricted to a fixed ASCII set. */
  predicate IsSpace(c: char) {
    c == ' ' || c == '\t' || c == '\n' || c == '\r' || c == '\U{000B}' || c == '\U{000C}'
  }

  /** Every character of `s` is whitespace. */
  predicate IsBlank(s: string) {
    forall i :: 0 <= i < |s| ==> IsSpace(s[i])
  }

  /** `s` without its leading whitespace: a suffix of `s` that does not start
      with whitespace, and everything cut off is whitespace. */
  function TrimStart(s: string): (r: string)
    ensures |r| <= |s| && r == s[|s| - |r|..]
    ensures r == [] || !IsSpace(r[0])
    ensures forall i :: 0 <= i < |s| - |r| ==> IsSpace(s[i])
  {
    if s != [] && IsSpace(s[0]) then TrimStart(s[1..]) else s
  }

  /** `s` without its trailing whitespace: a prefix of `s` that does not end
      with whitespace, and everything cut off is whitespace. */
  function TrimEnd(s: string): (r: string)
    ensures |r| <= |s| && r == s[..|r|]
    ensures r == [] || !IsSpace(r[|r| - 1])
    ensures forall i :: |r| <= i < |s| ==> IsSpace(s[i])
  {
    if s != [] && IsSpace(s[|s| - 1]) then TrimEnd(s[..|s| - 1]) else s
  }

  /** `s` is `r` with the blank `s[..i]` in front and a blank remainder behind. */
  predicate TrimmedAt(r: string, s: string, i: int) {
    0 <= i <= |s| - |r| && r == s[i..i + |r|] && IsBlank(s[..i]) && IsBlank(s[i + |r|..])
  }

  /** `inputText.trim()`: leading, then trailing whitespace removed. */
  function Trim(s: string): (r: string)
    ensures |r| <= |s|
  {
    TrimEnd(TrimStart(s))
  }

  /** Cutting whitespace off the front leaves a blank prefix behind. */
  lemma BlankPrefix(s: string, k: nat)
    requires k <= |s|
    requires forall i :: 0 <= i < k ==> IsSpace(s[i])
    ensures IsBlank(s[..k])
  {
    forall j | 0 <= j < k ensures IsSpace(s[..k][j]) {
      assert s[..k][j] == s[j];
    }
  }

  /** Cutting whitespace off the back leaves a blank suffix behind. */
  lemma BlankSuffix(s: string, k: nat)
    requires k <= |s|
    requires forall i :: k <= i < |s| ==> IsSpace(s[i])
    ensures IsBlank(s[k..])
  {
    forall j | 0 <= j < |s| - k ensures IsSpace(s[k..][j]) {
      assert s[k..][j] == s[k + j];
    }
  }

  /** A suffix `a` of `s` behind whitespace, and a prefix `b` of `a` before
      whitespace, leave `b` trimmed out of `s` at the start of `a`. */
  lemma CutBlankEnds(s: string, a: string, b: string)
    requires |a| <= |s| && a == s[|s| - |a|..]
    requires forall i :: 0 <= i < |s| - |a| ==> IsSpace(s[i])
    requires |b| <= |a| && b == a[..|b|]
    requires forall i :: |b| <= i < |a| ==> IsSpace(a[i])
    ensures TrimmedAt(b, s, |s| - |a|)
  {
    var k := |s| - |a|;
    BlankPrefix(s, k);
    BlankSuffix(a, |b|);
    assert s[k..][..|b|] == s[k..k + |b|];
    assert s[k..][|b|..] == s[k + |b|..];
  }

  /** The trimmed text is `s` with a blank prefix (the leading whitespace
      `TrimStart` skips) and a blank suffix cut off. */
  lemma TrimCutsBlankEnds(s: string)
    ensures TrimmedAt(Trim(s), s, |s| - |TrimStart(s)|)
  {
    CutBlankEnds(s, TrimStart(s), TrimEnd(TrimStart(s)));
  }

  /** The trimmed text neither starts nor ends with whitespace. */
  lemma TrimHasNoOuterSpace(s: string)
    ensures Trim(s) == [] || (!IsSpace(Trim(s)[0]) && !IsSpace(Trim(s)[|Trim(s)| - 1]))
  {
    var a := TrimStart(s);
    var b := TrimEnd(a);
    if b != [] {
      assert b[0] == a[0];
    }
  }

  /** The trimmed text is empty exactly when `s` is blank. */
  lemma TrimEmptyIffBlank(s: string)
    ensures Trim(s) == [] <==> IsBlank(s)
  {
    var a := TrimStart(s);
    assert a != [] ==> a[0] == s[|s| - |a|];
  }

  // ---------------------------------------------------------------------------
  // Identifiers
  // ---------------------------------------------------------------------------

  /** The reminder `handleAddTodo` appends: id one past the current length,
      the input text as typed, pending. */
  function NewTodo(todos: seq<Todo>, text: string): (t: Todo)
    ensures !t.completed && t.text == text
    ensures IdsSequential(todos) ==> forall u :: u in todos ==> u.id < t.id
  {
    Todo(|todos| + 1, text, false)
  }

  /** The ids of `todos` are 1, 2, ..., |todos| in order. */
  predicate IdsSequential(todos: seq<Todo>) {
    forall i :: 0 <= i < |todos| ==> todos[i].id == i + 1
  }

  /** No two reminders of `todos` share an id. */
  predicate IdsUnique(todos: seq<Todo>) {
    forall i, j :: 0 <= i < j < |todos| ==> todos[i].id != todos[j].id
  }

  /** Appending the new reminder to a list with sequential ids keeps them
      sequential; sequential ids are unique. */
  lemma AppendKeepsIdsSequential(todos: seq<Todo>, text: string)
    requires IdsSequential(todos)
    ensures IdsSequential(todos + [NewTodo(todos, text)])
    ensures IdsUnique(todos + [NewTodo(todos, text)])
  {
  }

  // ---------------------------------------------------------------------------
  // Toggling: `todos.map(todo => todo.id === id ? {...todo, completed: !todo.completed} : todo)`
  // ---------------------------------------------------------------------------

  /** Every reminder whose id is `id` with its flag negated; the others as they were. */
  function Toggled(todos: seq<Todo>, id: int): (r: seq<Todo>)
    ensures |r| == |todos|
    ensures forall i :: 0 <= i < |todos| ==>
      r[i].id == todos[i].id && r[i].text == todos[i].text &&
      r[i].completed == (if todos[i].id == id then !todos[i].completed else todos[i].completed)
  {
    if todos == [] then []
    else
      var t := todos[0];
      [if t.id == id then t.(completed := !t.completed) else t] + Toggled(todos[1..], id)
  }

  /** Toggling an id that no reminder carries changes nothing. */
  lemma ToggleAbsentIsNoOp(todos: seq<Todo>, id: int)
    requires forall t :: t in todos ==> t.id != id
    ensures Toggled(todos, id) == todos
  {
    var r := Toggled(todos, id);
    assert forall i :: 0 <= i < |todos| ==> r[i] == todos[i] by {
      forall i | 0 <= i < |todos| ensures r[i] == todos[i] {
        assert todos[i] in todos;
      }
    }
  }

  /** Toggling the same id twice restores the list. */
  lemma ToggleTwiceIsIdentity(todos: seq<Todo>, id: int)
    ensures Toggled(Toggled(todos, id), id) == todos
  {
    var r := Toggled(Toggled(todos, id), id);
    assert forall i :: 0 <= i < |todos| ==> r[i] == todos[i];
  }

  // ---------------------------------------------------------------------------
  // Finding: `todos.find(todo => todo.id === id)`
  // ---------------------------------------------------------------------------

  /** The first reminder whose id is `id`, if any. */
  function Find(todos: seq<Todo>, id: int): (r: Option<Todo>)
    ensures r.None? <==> forall t :: t in todos ==> t.id != id
    ensures r.Some? ==> r.value in todos && r.value.id == id
  {
    if todos == [] then None
    else if todos[0].id == id then Some(todos[0])
    else Find(todos[1..], id)
  }

  /** `Find` returns the reminder at the first index carrying `id`. */
  lemma {:induction false} FindIsFirst(todos: seq<Todo>, id: int, k: nat)
    requires k < |todos| && todos[k].id == id
    requires forall j :: 0 <= j < k ==> todos[j].id != id
    ensures Find(todos, id) == Some(todos[k])
  {
    if k > 0 {
      FindIsFirst(todos[1..], id, k - 1);
    }
  }

  // ---------------------------------------------------------------------------
  // Completion history
  // ---------------------------------------------------------------------------

  /** Every entry of `history` is marked completed. */
  predicate AllCompleted(history: seq<Todo>) {
    forall t :: t in history ==> t.completed
  }

  /** The history after toggling `id` in `todos`: if the first reminder with
      that id is pending, a completed copy of it is appended; otherwise the
      history is kept. */
  function Recorded(history: seq<Todo>, todos: seq<Todo>, id: int): (h: seq<Todo>)
    ensures history <= h && |h| <= |history| + 1
    ensures |h| == |history| + 1 ==> h[|history|].completed && h[|history|].id == id
    ensures AllCompleted(history) ==> AllCompleted(h)
  {
    match Find(todos, id)
    case Some(t) => if !t.completed then history + [t.(completed := true)] else history
    case None => history
  }

  /** When `k` is the first index carrying `id`, the history grows by one
      completed copy of `todos[k]` exactly when that reminder is pending. */
  lemma RecordedWhenFound(history: seq<Todo>, todos: seq<Todo>, id: int, k: nat)
    requires k < |todos| && todos[k].id == id
    requires forall j :: 0 <= j < k ==> todos[j].id != id
    ensures Recorded(history, todos, id) ==
      if todos[k].completed then history else history + [todos[k].(completed := true)]
  {
    FindIsFirst(todos, id, k);
  }

  /** When no reminder carries `id`, the history is kept. */
  lemma RecordedWhenAbsent(history: seq<Todo>, todos: seq<Todo>, id: int)
    requires forall t :: t in todos ==> t.id != id
    ensures Recorded(history, todos, id) == history
  {
  }

  // ---------------------------------------------------------------------------
  // Filtering: `todos.filter(keep)`
  // ---------------------------------------------------------------------------

  /** The reminders of `todos` that satisfy `keep`, in their original order. */
  function Filter(todos: seq<Todo>, keep: Todo -> bool): (r: seq<Todo>)
    ensures |r| <= |todos|
    ensures forall t :: t in r <==> t in todos && keep(t)
  {
    if todos == [] then []
    else (if keep(todos[0]) then [todos[0]] else []) + Filter(todos[1..], keep)
  }

  /** `sub` is `s` with some elements left out and the rest in order. */
  predicate IsSubsequence(sub: seq<Todo>, s: seq<Todo>)
    decreases |s|
  {
    if sub == [] then true
    else if s == [] then false
    else (sub[0] == s[0] && IsSubsequence(sub[1..], s[1..])) || IsSubsequence(sub, s[1..])
  }

  /** Filtering keeps the relative order of what it keeps. */
  lemma {:induction false} FilterIsSubsequence(todos: seq<Todo>, keep: Todo -> bool)
    ensures IsSubsequence(Filter(todos, keep), todos)
  {
    if todos != [] {
      FilterIsSubsequence(todos[1..], keep);
      var rest := Filter(todos[1..], keep);
      if keep(todos[0]) {
        assert Filter(todos, keep) == [todos[0]] + rest;
        assert ([todos[0]] + rest)[1..] == rest;
      } else {
        assert Filter(todos, keep) == rest;
        if rest != [] {
          assert IsSubsequence(rest, todos[1..]);
        }
      }
    }
  }

  /** Filtering keeps every kept reminder as often as it occurs, and drops the others entirely. */
  lemma {:induction false} FilterCounts(todos: seq<Todo>, keep: Todo -> bool, t: Todo)
    ensures multiset(Filter(todos, keep))[t] == if keep(t) then multiset(todos)[t] else 0
  {
    if todos != [] {
      FilterCounts(todos[1..], keep, t);
      assert todos == [todos[0]] + todos[1..];
      assert multiset(todos) == multiset([todos[0]]) + multiset(todos[1..]);
    }
  }

  /** A subsequence of `todos` made only of kept reminders is no longer than the filter. */
  lemma {:induction false} KeptSubsequenceBound(sub: seq<Todo>, todos: seq<Todo>, keep: Todo -> bool)
    requires IsSubsequence(sub, todos)
    requires forall t :: t in sub ==> keep(t)
    ensures |sub| <= |Filter(todos, keep)|
    decreases |todos|
  {
    if sub != [] {
      assert todos != [];
      if sub[0] == todos[0] && IsSubsequence(sub[1..], todos[1..]) {
        assert sub[0] in sub;
        KeptSubsequenceBound(sub[1..], todos[1..], keep);
      } else {
        KeptSubsequenceBound(sub, todos[1..], keep);
      }
    }
  }

  /** The filter is the one longest subsequence of `todos` whose reminders all
      satisfy `keep`: any kept subsequence at least as long equals it. */
  lemma {:induction false} FilterIsLongestKeptSubsequence(sub: seq<Todo>, todos: seq<Todo>, keep: Todo -> bool)
    requires IsSubsequence(sub, todos)
    requires forall t :: t in sub ==> keep(t)
    requires |sub| >= |Filter(todos, keep)|
    ensures sub == Filter(todos, keep)
    decreases |todos|
  {
    if todos == [] {
    } else if sub == [] {
      assert |Filter(todos, keep)| == 0;
    } else {
      var rest := Filter(todos[1..], keep);
      if sub[0] == todos[0] && IsSubsequence(sub[1..], todos[1..]) {
        assert sub[0] in sub;
        assert Filter(todos, keep) == [todos[0]] + rest;
        KeptSubsequenceBound(sub[1..], todos[1..], keep);
        FilterIsLongestKeptSubsequence(sub[1..], todos[1..], keep);
        assert sub == [sub[0]] + sub[1..];
      } else {
        assert IsSubsequence(sub, todos[1..]);
        KeptSubsequenceBound(sub, todos[1..], keep);
        if keep(todos[0]) {
          assert false;
        } else {
          assert Filter(todos, keep) == rest;
          FilterIsLongestKeptSubsequence(sub, todos[1..], keep);
        }
      }
    }
  }

  /** Filtering a list all of whose reminders are kept changes nothing. */
  lemma {:induction false} FilterKeepingAllIsNoOp(todos: seq<Todo>, keep: Todo -> bool)
    requires forall t :: t in todos ==> keep(t)
    ensures Filter(todos, keep) == todos
  {
    if todos != [] {
      assert todos[0] in todos;
      FilterKeepingAllIsNoOp(todos[1..], keep);
      assert todos == [todos[0]] + todos[1..];
    }
  }

  /** Filtering twice by the same test is filtering once. */
  lemma FilterIsIdempotent(todos: seq<Todo>, keep: Todo -> bool)
    ensures Filter(Filter(todos, keep), keep) == Filter(todos, keep)
  {
    FilterKeepingAllIsNoOp(Filter(todos, keep), keep);
  }

  // ---------------------------------------------------------------------------
  // Delete, expire and the derived counts
  // ---------------------------------------------------------------------------

  predicate IsPending(t: Todo) { !t.completed }

  predicate IsDone(t: Todo) { t.completed }

  /** `todos.filter(todo => todo.id !== id)`. */
  function Without(todos: seq<Todo>, id: int): (r: seq<Todo>)
    ensures forall t :: t in r <==> t in todos && t.id != id
  {
    Filter(todos, (t: Todo) => t.id != id)
  }

  /** `todos.filter(todo => !todo.completed)`: the timer's new list and the pending list. */
  function PendingOnly(todos: seq<Todo>): (r: seq<Todo>)
    ensures forall t :: t in r <==> t in todos && !t.completed
  {
    Filter(todos, IsPending)
  }

  /** The reminders of `todos` that are completed. */
  function DoneOnly(todos: seq<Todo>): (r: seq<Todo>)
    ensures forall t :: t in r <==> t in todos && t.completed
  {
    Filter(todos, IsDone)
  }

  /** Deleting removes every reminder carrying `id`, keeps every other one as
      often as it occurs, and keeps their relative order. */
  lemma WithoutSpec(todos: seq<Todo>, id: int)
    ensures forall t :: t in Without(todos, id) ==> t.id != id
    ensures IsSubsequence(Without(todos, id), todos)
    ensures forall t: Todo :: t.id != id ==> multiset(Without(todos, id))[t] == multiset(todos)[t]
  {
    FilterIsSubsequence(todos, (t: Todo) => t.id != id);
    forall t: Todo | t.id != id ensures multiset(Without(todos, id))[t] == multiset(todos)[t] {
      FilterCounts(todos, (t: Todo) => t.id != id, t);
    }
  }

  /** Deleting an id that no reminder carries changes nothing. */
  lemma WithoutAbsentIsNoOp(todos: seq<Todo>, id: int)
    requires forall t :: t in todos ==> t.id != id
    ensures Without(todos, id) == todos
  {
    FilterKeepingAllIsNoOp(todos, (t: Todo) => t.id != id);
  }

  /** Deleting ignores the completion flag: deleting after toggling the same
      id gives the same list as deleting directly. */
  lemma {:induction false} WithoutIgnoresCompleted(todos: seq<Todo>, id: int)
    ensures Without(Toggled(todos, id), id) == Without(todos, id)
  {
    if todos != [] {
      WithoutIgnoresCompleted(todos[1..], id);
      assert Toggled(todos, id)[1..] == Toggled(todos[1..], id);
    }
  }

  /** Expiring keeps exactly the pending reminders, in order, and leaves nothing completed. */
  lemma PendingOnlySpec(todos: seq<Todo>)
    ensures forall t :: t in PendingOnly(todos) ==> !t.completed
    ensures IsSubsequence(PendingOnly(todos), todos)
    ensures forall t: Todo :: !t.completed ==> multiset(PendingOnly(todos))[t] == multiset(todos)[t]
  {
    FilterIsSubsequence(todos, IsPending);
    forall t: Todo | !t.completed ensures multiset(PendingOnly(todos))[t] == multiset(todos)[t] {
      FilterCounts(todos, IsPending, t);
    }
  }

  /** Expiring twice is expiring once. */
  lemma PendingOnlyIsIdempotent(todos: seq<Todo>)
    ensures PendingOnly(PendingOnly(todos)) == PendingOnly(todos)
  {
    FilterIsIdempotent(todos, IsPending);
  }

  /** Pending and completed reminders together account for the whole list. */
  lemma {:induction false} PendingPlusDoneIsTotal(todos: seq<Todo>)
    ensures |PendingOnly(todos)| + |DoneOnly(todos)| == |todos|
  {
    if todos != [] {
      PendingPlusDoneIsTotal(todos[1..]);
    }
  }

  /** No reminder is completed exactly when the pending ones are the whole list. */
  lemma AllPendingIffNoneDone(todos: seq<Todo>)
    ensures |PendingOnly(todos)| == |todos| <==> forall t :: t in todos ==> !t.completed
    ensures |DoneOnly(todos)| == 0 <==> forall t :: t in todos ==> !t.completed
  {
    PendingPlusDoneIsTotal(todos);
    if exists t :: t in todos && t.completed {
      var t :| t in todos && t.completed;
      assert t in DoneOnly(todos);
    }
    if DoneOnly(todos) != [] {
      assert DoneOnly(todos)[0] in DoneOnly(todos);
    }
  }

  /** A history of completed entries is its own completed part. */
  lemma DoneOnlyOfAllCompleted(history: seq<Todo>)
    ensures AllCompleted(history) ==> DoneOnly(history) == history
  {
    if AllCompleted(history) {
      FilterKeepingAllIsNoOp(history, IsDone);
    }
  }

  /** After expiring, every remaining reminder is pending. */
  lemma PendingCountAfterExpire(todos: seq<Todo>)
    ensures |PendingOnly(PendingOnly(todos))| == |PendingOnly(todos)|
    ensures |DoneOnly(PendingOnly(todos))| == 0
  {
    PendingOnlyIsIdempotent(todos);
    PendingPlusDoneIsTotal(PendingOnly(todos));
  }
}
