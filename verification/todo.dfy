/**
 * The personal to-do list: a list of tasks held in component state, the
 * add / toggle / delete operations on it, the status-and-search view, the
 * progress bar and the overdue / due-soon highlighting of each task.
 *
 * Instants are integer milliseconds; `now` is passed in instead of read from a clock.
 */
module Todo {
  import opened Wrappers
  import opened Strings
  import Seqs
  import Arith

  /** A to-do item; `due` is the instant of its due date. */
  datatype Task = Task(
    id: int, title: string, description: string, due: int,
    category: string, priority: string, completed: bool)

  /** The fields of the add-task form. */
  datatype Draft = Draft(title: string, description: string, dueDate: string, category: string, priority: string)

  // ---------------------------------------------------------------------------
  // List operations

  /** The form's submit guard: title, description and due date must all be filled in. */
  function Submit(d: Draft): (r: Option<Draft>)
    ensures r.Some? <==> d.title != "" && d.description != "" && d.dueDate != ""
    ensures r.Some? ==> r.value == d
  {
    if d.title == "" || d.description == "" || d.dueDate == "" then None else Some(d)
  }

  /** The task built from a submitted form: not yet completed. */
  function NewTask(id: int, d: Draft, due: int): Task
  {
    Task(id, d.title, d.description, due, d.category, d.priority, false)
  }

  /** A new task goes to the front of the list. */
  function AddTask(tasks: seq<Task>, id: int, d: Draft, due: int): (r: seq<Task>)
    ensures |r| == |tasks| + 1
    ensures r[0] == NewTask(id, d, due) && !r[0].completed
    ensures r[0].id == id && r[0].due == due && r[0].title == d.title && r[0].description == d.description
    ensures r[0].category == d.category && r[0].priority == d.priority
    ensures r[1..] == tasks
  {
    [NewTask(id, d, due)] + tasks
  }

  /** The form submission as a whole: a rejected form leaves the list as it was. */
  function SubmitTask(tasks: seq<Task>, id: int, d: Draft, due: int): (r: seq<Task>)
    ensures Submit(d).None? ==> r == tasks
    ensures Submit(d).Some? ==> r == AddTask(tasks, id, d, due)
    ensures Submit(d).Some? ==> |r| == |tasks| + 1 && r[1..] == tasks && r[0].title == d.title
  {
    match Submit(d)
    case None => tasks
    case Some(accepted) => AddTask(tasks, id, accepted, due)
  }

  /** Flips `completed` on every task with the given id; nothing else changes. */
  function ToggleComplete(tasks: seq<Task>, id: int): (r: seq<Task>)
    ensures |r| == |tasks|
    ensures forall i :: 0 <= i < |r| && tasks[i].id == id ==>
      r[i] == tasks[i].(completed := !tasks[i].completed)
    ensures forall i :: 0 <= i < |r| && tasks[i].id != id ==> r[i] == tasks[i]
  {
    seq(|tasks|, i requires 0 <= i < |tasks| =>
      if tasks[i].id == id then tasks[i].(completed := !tasks[i].completed) else tasks[i])
  }

  /** Toggling the same id twice restores the list. */
  lemma ToggleTwice(tasks: seq<Task>, id: int)
    ensures ToggleComplete(ToggleComplete(tasks, id), id) == tasks
  {
  }

  function IdIsNot(id: int): Task -> bool
  {
    (t: Task) => t.id != id
  }

  /** Removes every task with the given id and keeps the others in order. */
  function DeleteTask(tasks: seq<Task>, id: int): (r: seq<Task>)
    ensures forall i :: 0 <= i < |r| ==> r[i].id != id && r[i] in tasks
    ensures forall i :: 0 <= i < |tasks| && tasks[i].id != id ==> tasks[i] in r
    ensures Seqs.IsSubsequence(r, tasks)
    ensures |r| == |tasks| - Seqs.Count((t: Task) => t.id == id, tasks)
  {
    var r := Seqs.Filter(IdIsNot(id), tasks);
    Seqs.CountComplement(IdIsNot(id), (t: Task) => t.id == id, tasks);
    r
  }

  // ---------------------------------------------------------------------------
  // The filtered view

  /** "Completed" keeps completed tasks, "Pending" keeps open ones, anything else keeps all. */
  predicate StatusMatches(filterStatus: string, t: Task)
  {
    if filterStatus == "Completed" then t.completed
    else if filterStatus == "Pending" then !t.completed
    else true
  }

  /** Title or description contains the search term, both compared in lower case. */
  predicate SearchMatches(term: string, t: Task)
  {
    Includes(ToLower(t.title), ToLower(term)) || Includes(ToLower(t.description), ToLower(term))
  }

  function ByStatus(filterStatus: string): Task -> bool
  {
    (t: Task) => StatusMatches(filterStatus, t)
  }

  function BySearch(term: string): Task -> bool
  {
    (t: Task) => SearchMatches(term, t)
  }

  function ByBoth(filterStatus: string, term: string): Task -> bool
  {
    (t: Task) => StatusMatches(filterStatus, t) && SearchMatches(term, t)
  }

  /** The status filter, then the search filter. */
  function FilteredTasks(tasks: seq<Task>, filterStatus: string, term: string): (r: seq<Task>)
    ensures Seqs.IsSubsequence(r, tasks)
    ensures forall i :: 0 <= i < |r| ==> r[i] in tasks && StatusMatches(filterStatus, r[i]) && SearchMatches(term, r[i])
    ensures forall i :: (0 <= i < |tasks| && StatusMatches(filterStatus, tasks[i]) && SearchMatches(term, tasks[i])
      ==> tasks[i] in r)
    ensures |r| == Seqs.Count(ByBoth(filterStatus, term), tasks)
  {
    var r := Seqs.Filter(BySearch(term), Seqs.Filter(ByStatus(filterStatus), tasks));
    Seqs.FilterTwice(ByStatus(filterStatus), BySearch(term), ByBoth(filterStatus, term), tasks);
    assert forall i :: (0 <= i < |tasks| && StatusMatches(filterStatus, tasks[i]) && SearchMatches(term, tasks[i])
      ==> ByBoth(filterStatus, term)(tasks[i]));
    r
  }

  /** With the "All" filter and an empty search every task is shown. */
  lemma {:induction false} NoFilterShowsAll(tasks: seq<Task>)
    ensures FilteredTasks(tasks, "All", "") == tasks
  {
    assert ToLower("") == "";
    forall i | 0 <= i < |tasks|
      ensures ByBoth("All", "")(tasks[i])
    {
      IncludesEmpty(ToLower(tasks[i].title));
    }
    Seqs.FilterKeepsAll(ByBoth("All", ""), tasks);
    Seqs.FilterTwice(ByStatus("All"), BySearch(""), ByBoth("All", ""), tasks);
  }

  // ---------------------------------------------------------------------------
  // Progress bar

  /** `total > 0 ? Math.round(completed / total * 100) : 0`, in exact arithmetic. */
  function Percentage(completed: nat, total: nat): (r: int)
    ensures total == 0 ==> r == 0
    // the nearest integer to 100 * completed / total, halves rounded up
    ensures total > 0 ==> 2 * r * total - total <= 200 * completed < 2 * r * total + total
    ensures completed <= total ==> 0 <= r <= 100
  {
    if total > 0 then
      var r := (200 * completed + total) / (2 * total);
      Arith.DivBounds(200 * completed + total, 2 * total);
      RoundedPercentBounds(completed, total, r);
      r
    else 0
  }

  /** A rounded share of at most the whole lies between 0 and 100. */
  lemma RoundedPercentBounds(completed: nat, total: nat, r: int)
    requires total > 0
    requires 2 * r * total - total <= 200 * completed < 2 * r * total + total
    ensures completed <= total ==> 0 <= r <= 100
  {
    Arith.PositiveFactor(total, 2 * r + 1);
    Arith.PositiveFactor(total, 2 * r - 201);
  }

  /** All done shows 100%, nothing done shows 0%. */
  lemma PercentageExtremes(n: nat)
    ensures n > 0 ==> Percentage(n, n) == 100
    ensures Percentage(0, n) == 0
  {
    if n > 0 {
      var r := Percentage(n, n);
      assert n * (2 * r - 201) <= 0 && n * (199 - 2 * r) < 0;
      Arith.PositiveFactor(n, 2 * r - 201);
      Arith.PositiveFactor(n, 199 - 2 * r);
      var z := Percentage(0, n);
      assert n * (2 * z - 1) <= 0 && n * (-1 - 2 * z) < 0;
      Arith.PositiveFactor(n, 2 * z - 1);
      Arith.PositiveFactor(n, -1 - 2 * z);
    }
  }

  function IsCompleted(t: Task): bool { t.completed }

  /** The percentage shown for a list: always between 0 and 100. */
  function Progress(tasks: seq<Task>): (r: int)
    ensures 0 <= r <= 100
    ensures tasks == [] ==> r == 0
    // the completed share of the list as a percentage, rounded to the nearest integer
    ensures var done := |Seqs.Filter(IsCompleted, tasks)|;
      tasks != [] ==> 2 * r * |tasks| - |tasks| <= 200 * done < 2 * r * |tasks| + |tasks|
  {
    Percentage(Seqs.Count(IsCompleted, tasks), |tasks|)
  }

  /** A non-empty list whose tasks are all completed shows 100%, one with none completed 0%. */
  lemma ProgressExtremes(tasks: seq<Task>)
    ensures (forall i :: 0 <= i < |tasks| ==> tasks[i].completed) && tasks != [] ==> Progress(tasks) == 100
    ensures (forall i :: 0 <= i < |tasks| ==> !tasks[i].completed) ==> Progress(tasks) == 0
  {
    if forall i :: 0 <= i < |tasks| ==> tasks[i].completed {
      Seqs.FilterKeepsAll(IsCompleted, tasks);
    }
    PercentageExtremes(|tasks|);
  }

  // ---------------------------------------------------------------------------
  // Deadline highlighting

  const OneDayMs: int := 86400000

  /** Not completed and due before now. */
  predicate IsOverdue(t: Task, now: int)
  {
    !t.completed && t.due < now
  }

  /** Not completed and due within the coming day. */
  predicate IsDueSoon(t: Task, now: int)
  {
    !t.completed && t.due > now && t.due - now < OneDayMs
  }

  datatype Border = RedBorder | YellowBorder | NoBorder

  /** The border of a task card: red when overdue, yellow when due soon. */
  function TaskBorder(t: Task, now: int): (b: Border)
    ensures b == RedBorder <==> IsOverdue(t, now)
    ensures b == YellowBorder <==> IsDueSoon(t, now)
    ensures !(IsOverdue(t, now) && IsDueSoon(t, now))
    ensures t.completed ==> b == NoBorder
  {
    if IsOverdue(t, now) then RedBorder
    else if IsDueSoon(t, now) then YellowBorder
    else NoBorder
  }
}
