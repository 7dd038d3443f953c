/** The browser task list of `script.js`: an ordered list of tasks that the
    user adds to, deletes from and ticks off, shown through an all / active /
    completed view with running totals. Each operation is a pure function
    from the old list to the new one; the DOM refresh and the localStorage
    write that follow every change in the source are not modelled.
 */
module TaskList {
  import opened Seqs
  import JsString

  /** One entry of the `tasks` array. */
  datatype Task = Task(id: int, text: string, completed: bool)

  /** The message of the `alert` shown when the input is empty. */
  const EmptyInputAlert: string := "Please enter a task!"

  datatype AddOutcome = Rejected(alert: string) | Added(task: Task)

  datatype AddResult = AddResult(tasks: seq<Task>, outcome: AddOutcome)

  ghost predicate HasId(tasks: seq<Task>, id: int)
  {
    exists k :: 0 <= k < |tasks| && tasks[k].id == id
  }

  /** No two tasks share an id. */
  ghost predicate UniqueIds(tasks: seq<Task>)
  {
    forall i, j :: 0 <= i < j < |tasks| ==> tasks[i].id != tasks[j].id
  }

  /** The test `task.id === taskId`. */
  function IdIs(id: int): Task -> bool
  {
    (t: Task) => t.id == id
  }

  /** The test `task.id !== taskId`. */
  function IdIsNot(id: int): Task -> bool
  {
    (t: Task) => t.id != id
  }

  function DistinctIds(a: Task, b: Task): bool { a.id != b.id }

  function IsCompleted(t: Task): bool { t.completed }

  function IsActive(t: Task): bool { !t.completed }

  /** `addTask`: the input text is trimmed; if nothing is left the user is
      alerted and the list stays as it was, otherwise a new unfinished task
      carrying the trimmed text and the id `now` (the value of `Date.now()`)
      goes at the end of the list. */
  function AddTask(tasks: seq<Task>, input: string, now: int): (r: AddResult)
    ensures r.outcome.Rejected? <==> JsString.AllWhitespace(input)
    ensures r.outcome.Rejected? ==> r.tasks == tasks && r.outcome.alert == EmptyInputAlert
    ensures r.outcome.Added? ==>
              && |r.tasks| == |tasks| + 1
              && r.tasks[..|tasks|] == tasks
              && r.tasks[|tasks|] == r.outcome.task
              && r.outcome.task.id == now
              && !r.outcome.task.completed
              && JsString.IsTrimOf(r.outcome.task.text, input)
              && r.outcome.task.text != []
  {
    var text := JsString.Trim(input);
    if text == [] then
      AddResult(tasks, Rejected(EmptyInputAlert))
    else
      var task := Task(now, text, false);
      AddResult(tasks + [task], Added(task))
  }

  /** `deleteTask`: every task with the given id goes, the others stay. */
  function DeleteTask(tasks: seq<Task>, id: int): (r: seq<Task>)
    ensures forall t :: t in r <==> t in tasks && t.id != id
    ensures !HasId(tasks, id) ==> r == tasks
  {
    var r := Filter(tasks, IdIsNot(id));
    assert !HasId(tasks, id) ==> r == tasks by {
      if !HasId(tasks, id) {
        FilterKeepsAll(tasks, IdIsNot(id));
      }
    }
    r
  }

  /** Deleting keeps the surviving tasks in their original order: deleting
      from a list made of two parts deletes from each part in place. */
  lemma DeleteTaskKeepsOrder(a: seq<Task>, b: seq<Task>, id: int)
    ensures DeleteTask(a + b, id) == DeleteTask(a, id) + DeleteTask(b, id)
  {
    FilterAppend(a, b, IdIsNot(id));
  }

  /** Deleting the same id twice is deleting it once. */
  lemma DeleteTaskIdempotent(tasks: seq<Task>, id: int)
    ensures DeleteTask(DeleteTask(tasks, id), id) == DeleteTask(tasks, id)
  {
    FilterIdempotent(tasks, IdIsNot(id));
  }

  /** `toggleTask`: `find` picks the first task with the id and its
      `completed` flag is flipped; with no such task nothing happens. */
  function ToggleTask(tasks: seq<Task>, id: int): (r: seq<Task>)
    ensures |r| == |tasks|
    ensures forall j :: 0 <= j < |r| ==> r[j].id == tasks[j].id && r[j].text == tasks[j].text
    ensures forall j :: 0 <= j < |r| ==>
              (r[j].completed != tasks[j].completed <==> IsFirst(tasks, IdIs(id), j))
    ensures !HasId(tasks, id) ==> r == tasks
  {
    match FirstIndex(tasks, IdIs(id))
    case None => tasks
    case Some(i) =>
      var r := tasks[i := tasks[i].(completed := !tasks[i].completed)];
      assert forall j :: 0 <= j < |r| && IsFirst(tasks, IdIs(id), j) ==> j == i by {
        forall j | 0 <= j < |r| && IsFirst(tasks, IdIs(id), j)
          ensures j == i
        {
          IsFirstUnique(tasks, IdIs(id), i, j);
        }
      }
      r
  }

  /** Toggling the same id twice gives back the original list. */
  lemma ToggleTaskTwice(tasks: seq<Task>, id: int)
    ensures ToggleTask(ToggleTask(tasks, id), id) == tasks
  {
    var once := ToggleTask(tasks, id);
    FirstIndexSameTests(tasks, once, IdIs(id));
  }

  const AllFilter: string := "all"
  const ActiveFilter: string := "active"
  const CompletedFilter: string := "completed"

  /** The filter step of `renderTasks`: "active" keeps the unfinished tasks,
      "completed" the finished ones, and any other value, "all" included,
      shows the whole list. */
  function View(tasks: seq<Task>, filter: string): (r: seq<Task>)
    ensures filter == ActiveFilter ==> forall t :: t in r <==> t in tasks && !t.completed
    ensures filter == CompletedFilter ==> forall t :: t in r <==> t in tasks && t.completed
    ensures filter != ActiveFilter && filter != CompletedFilter ==> r == tasks
  {
    if filter == ActiveFilter then Filter(tasks, IsActive)
    else if filter == CompletedFilter then Filter(tasks, IsCompleted)
    else tasks
  }

  /** Every view lists its tasks in insertion order: the view of a list made
      of two parts is the view of the first part followed by that of the
      second. */
  lemma ViewKeepsOrder(a: seq<Task>, b: seq<Task>, filter: string)
    ensures View(a + b, filter) == View(a, filter) + View(b, filter)
  {
    if filter == ActiveFilter {
      FilterAppend(a, b, IsActive);
    } else if filter == CompletedFilter {
      FilterAppend(a, b, IsCompleted);
    }
  }

  /** The three counters of `updateStatistics`. */
  datatype Stats = Stats(total: nat, active: nat, completed: nat)

  /** `updateStatistics`: the total is the list length, the completed count
      is the number of finished tasks and the active count is the rest, which
      is also the number of tasks the "active" view shows. */
  function Statistics(tasks: seq<Task>): (st: Stats)
    ensures st.total == |tasks|
    ensures st.completed == |View(tasks, CompletedFilter)| <= st.total
    ensures st.active == |View(tasks, ActiveFilter)|
    ensures st.total == st.active + st.completed
  {
    var completed := |Filter(tasks, IsCompleted)|;
    FilterComplementLength(tasks, IsCompleted, IsActive);
    Stats(|tasks|, |tasks| - completed, completed)
  }

  /** A successful add with an id that is not in use keeps the ids unique;
      deleting and toggling always do. */
  lemma AddTaskKeepsIdsUnique(tasks: seq<Task>, input: string, now: int)
    requires UniqueIds(tasks)
    requires !HasId(tasks, now)
    ensures UniqueIds(AddTask(tasks, input, now).tasks)
  {
    var r := AddTask(tasks, input, now);
    if r.outcome.Added? {
      forall i, j | 0 <= i < j < |r.tasks|
        ensures r.tasks[i].id != r.tasks[j].id
      {
        if j == |tasks| {
          assert r.tasks[i] == tasks[i];
        } else {
          assert r.tasks[i] == tasks[i] && r.tasks[j] == tasks[j];
        }
      }
    }
  }

  lemma DeleteTaskKeepsIdsUnique(tasks: seq<Task>, id: int)
    requires UniqueIds(tasks)
    ensures UniqueIds(DeleteTask(tasks, id))
    ensures !HasId(DeleteTask(tasks, id), id)
  {
    FilterKeepsPairwise(tasks, IdIsNot(id), DistinctIds);
    var r := DeleteTask(tasks, id);
    forall k | 0 <= k < |r|
      ensures r[k].id != id
    {
      assert r[k] in r;
    }
  }

  lemma ToggleTaskKeepsIdsUnique(tasks: seq<Task>, id: int)
    requires UniqueIds(tasks)
    ensures UniqueIds(ToggleTask(tasks, id))
  {
  }

  /** From an empty list, adding "Buy milk" gives one unfinished task and
      the counters 1 / 1 / 0. */
  lemma AddToEmptyScenario(now: int)
    ensures AddTask([], "Buy milk", now).tasks == [Task(now, "Buy milk", false)]
    ensures Statistics(AddTask([], "Buy milk", now).tasks) == Stats(1, 1, 0)
  {
    var input := "Buy milk";
    assert JsString.LeadingWhitespace(input) == 0 by {
      assert !JsString.IsWhitespace(input[0]);
    }
    assert JsString.TrailingWhitespace(input) == 8 by {
      assert !JsString.IsWhitespace(input[7]);
    }
    assert input[0..8] == input;
    assert JsString.Trim(input) == input;
    var r := AddTask([], input, now);
    assert r.tasks == [Task(now, input, false)];
    assert View(r.tasks, CompletedFilter) == [];
  }

  /** With two tasks added and the first toggled, the active view shows
      only the second and the completed view only the first. */
  lemma ToggleFirstOfTwoScenario(a: Task, b: Task)
    requires a.id != b.id && !a.completed && !b.completed
    ensures View(ToggleTask([a, b], a.id), ActiveFilter) == [b]
    ensures View(ToggleTask([a, b], a.id), CompletedFilter) == [a.(completed := true)]
  {
    var r := ToggleTask([a, b], a.id);
    assert IsFirst([a, b], IdIs(a.id), 0);
    var done := a.(completed := true);
    assert r == [done, b];
    assert r[1..] == [b] && [b][1..] == [];
    assert Filter(r, IsActive) == Filter([b], IsActive) == [b];
    assert Filter(r, IsCompleted) == [done] + Filter([b], IsCompleted) == [done];
  }
}
