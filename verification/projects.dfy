/**
 * The project dashboard: which projects a manager sees for the chosen team
 * member, the default project selection, and the metrics derived from the
 * selected project's task list (overdue tasks, workload per member, burndown),
 * plus the phase-update and team-checkbox rules of the project forms.
 *
 * Instants are integer milliseconds; `today` is local midnight of the current day.
 */
module Projects {
  import opened Wrappers
  import opened Strings
  import Seqs

  datatype Member = Member(id: int, name: string)

  /** A task of the selected project; `due` is `None` when its date does not parse. */
  datatype Task = Task(id: int, title: string, due: Option<int>, assignee: string)

  datatype Phase = Phase(status: string, progress: int)

  /** One key of the project's `phases` object, in key order. */
  datatype PhaseEntry = PhaseEntry(name: string, phase: Phase)

  /** A project; a missing or non-array `team` behaves as the empty team. */
  datatype Project = Project(id: int, name: string, team: seq<Member>, phases: seq<PhaseEntry>)

  // ---------------------------------------------------------------------------
  // Visible projects and default selection

  /** `p.team.some(member => member.name === name)`. */
  predicate HasMemberNamed(p: Project, name: string)
    ensures HasMemberNamed(p, name) <==> exists k :: 0 <= k < |p.team| && p.team[k].name == name
  {
    Seqs.Any((m: Member) => m.name == name, p.team)
  }

  function OnTeam(name: string): Project -> bool
  {
    (p: Project) => HasMemberNamed(p, name)
  }

  /**
   * Employees see every project the backend sent; so does a manager who has not
   * chosen a team member. Otherwise only the projects whose team has a member
   * with the chosen name are shown, in their original order.
   */
  function VisibleProjects(role: string, selectedUserName: string, projects: seq<Project>): (r: seq<Project>)
    ensures role == "EMPLOYEE" || selectedUserName == "" ==> r == projects
    ensures Seqs.IsSubsequence(r, projects)
    ensures role != "EMPLOYEE" && selectedUserName != "" ==>
      && (forall i :: 0 <= i < |r| ==> HasMemberNamed(r[i], selectedUserName))
      && (forall i :: 0 <= i < |projects| && HasMemberNamed(projects[i], selectedUserName) ==> projects[i] in r)
      && |r| == Seqs.Count(OnTeam(selectedUserName), projects)
  {
    if role == "EMPLOYEE" || selectedUserName == "" then
      Seqs.SubsequenceReflexive(projects);
      projects
    else
      var r := Seqs.Filter(OnTeam(selectedUserName), projects);
      assert forall i :: 0 <= i < |r| ==> HasMemberNamed(r[i], selectedUserName);
      r
  }

  /** JavaScript truthiness of the selected id: `null` and `0` both count as "nothing selected". */
  predicate IsSelected(selected: Option<int>)
  {
    selected.Some? && selected.value != 0
  }

  predicate IsVisibleId(visible: seq<Project>, id: int)
  {
    exists i :: 0 <= i < |visible| && visible[i].id == id
  }

  /**
   * One run of the default-selection effect: select the first visible project
   * when nothing is selected, and move off a selection that is no longer visible.
   */
  function SelectDefault(selected: Option<int>, visible: seq<Project>): (r: Option<int>)
    ensures |visible| > 0 ==> r.Some? && IsVisibleId(visible, r.value)
    ensures |visible| == 0 ==> !IsSelected(r)
    ensures IsSelected(selected) && IsVisibleId(visible, selected.value) ==> r == selected
    // nothing selected (null or the falsy id 0) picks the first visible project
    ensures !IsSelected(selected) && |visible| > 0 ==> r == Some(visible[0].id)
    // whenever the effect moves the selection, it moves to the first visible project
    ensures r != selected && |visible| > 0 ==> r == Some(visible[0].id)
    ensures r != selected && |visible| == 0 ==> r == None
    // with nothing visible a falsy selection is left alone and a real one is cleared
    ensures !IsSelected(selected) && |visible| == 0 ==> r == selected
    ensures IsSelected(selected) && |visible| == 0 ==> r == None
  {
    if !IsSelected(selected) && |visible| > 0 then Some(visible[0].id)
    else if IsSelected(selected) && !Seqs.Any((p: Project) => p.id == selected.value, visible) then
      (if |visible| > 0 then Some(visible[0].id) else None)
    else selected
  }

  /** The effect settles after one run: running it again changes nothing. */
  lemma SelectDefaultSettles(selected: Option<int>, visible: seq<Project>)
    ensures SelectDefault(SelectDefault(selected, visible), visible) == SelectDefault(selected, visible)
  {
  }

  // ---------------------------------------------------------------------------
  // Overdue tasks

  /** Milliseconds in a day, `1000 * 60 * 60 * 24`. */
  const DayMs: nat := 86400000

  /** `Math.ceil(a / b)` for non-negative `a` and positive `b`. */
  function CeilDiv(a: nat, b: nat): (q: nat)
    requires b > 0
    ensures (q - 1) * b < a <= q * b
    ensures a > 0 ==> q >= 1
  {
    var q := (a + b - 1) / b;
    assert a + b - 1 == q * b + (a + b - 1) % b;
    q
  }

  /** `new Date(t.due_date) < today`; an unparseable date compares false. */
  predicate OverdueAt(today: int, t: Task)
  {
    t.due.Some? && t.due.value < today
  }

  function IsOverdue(today: int): Task -> bool
  {
    (t: Task) => OverdueAt(today, t)
  }

  /** `"N Day"` for one day, `"N Days"` for more. */
  function DaysLabel(n: nat): string
  {
    NatToString(n) + " Day" + (if n > 1 then "s" else "")
  }

  /** Reading the label back gives the day count and the right singular or plural word. */
  lemma DaysLabelReadsBack(n: nat)
    ensures var parts := Split(DaysLabel(n), ' ');
      && |parts| == 2
      && DigitsValue(parts[0]) == n
      && parts[1] == (if n > 1 then "Days" else "Day")
  {
    var word := if n > 1 then "Days" else "Day";
    assert DaysLabel(n) == Join([NatToString(n), word], ' ');
    SplitJoin([NatToString(n), word], ' ');
    NatToStringRoundTrip(n);
  }

  datatype OverdueTask = OverdueTask(task: Task, days: nat, overdue: string)

  function MarkOverdue(today: int, t: Task): (r: OverdueTask)
    requires OverdueAt(today, t)
    ensures r.task == t && r.days >= 1 && r.overdue == DaysLabel(r.days)
    ensures (r.days - 1) * DayMs < today - t.due.value <= r.days * DayMs
  {
    var days := CeilDiv(today - t.due.value, DayMs);
    OverdueTask(t, days, DaysLabel(days))
  }

  /**
   * The tasks due strictly before today's midnight, in list order, each with the
   * whole number of days (rounded up) it is late.
   */
  function OverdueTasks(tasks: seq<Task>, today: int): (r: seq<OverdueTask>)
    ensures |r| == Seqs.Count(IsOverdue(today), tasks)
    ensures forall k :: 0 <= k < |r| ==> r[k].task == Seqs.Filter(IsOverdue(today), tasks)[k]
    ensures forall k :: 0 <= k < |r| ==> r[k].task in tasks && OverdueAt(today, r[k].task)
    ensures forall i :: 0 <= i < |tasks| && OverdueAt(today, tasks[i]) ==> exists k :: 0 <= k < |r| && r[k].task == tasks[i]
    ensures forall k :: 0 <= k < |r| ==>
      && r[k].days >= 1
      && (r[k].days - 1) * DayMs < today - r[k].task.due.value <= r[k].days * DayMs
      && r[k].overdue == DaysLabel(r[k].days)
  {
    var late := Seqs.Filter(IsOverdue(today), tasks);
    assert forall k :: 0 <= k < |late| ==> OverdueAt(today, late[k]);
    assert forall i :: 0 <= i < |tasks| && OverdueAt(today, tasks[i]) ==> IsOverdue(today)(tasks[i]);
    var r := seq(|late|, k requires 0 <= k < |late| => MarkOverdue(today, late[k]));
    assert forall k :: 0 <= k < |r| ==> r[k].task == late[k];
    r
  }

  /** A task due at today's midnight is not overdue; one due a day earlier is "1 Day" late. */
  lemma OverdueBoundaries(t: Task, today: int)
    ensures t.due == Some(today) ==> OverdueTasks([t], today) == []
    ensures t.due == Some(today - DayMs) ==> OverdueTasks([t], today) == [OverdueTask(t, 1, "1 Day")]
    ensures t.due == Some(today - 4 * DayMs) ==> OverdueTasks([t], today)[0].days == 4
  {
    if t.due == Some(today - DayMs) {
      assert CeilDiv(DayMs, DayMs) == 1;
      assert DaysLabel(1) == "1 Day";
    }
  }

  // ---------------------------------------------------------------------------
  // Workload per team member

  datatype WorkloadEntry = WorkloadEntry(name: string, tasks: nat)

  function TeamNames(team: seq<Member>): (names: seq<string>)
    ensures |names| == |team|
    ensures forall k :: 0 <= k < |team| ==> names[k] == team[k].name
  {
    seq(|team|, k requires 0 <= k < |team| => team[k].name)
  }

  function EntryNames(r: seq<WorkloadEntry>): (names: seq<string>)
    ensures |names| == |r|
    ensures forall i :: 0 <= i < |r| ==> names[i] == r[i].name
  {
    seq(|r|, i requires 0 <= i < |r| => r[i].name)
  }

  function AssignedTo(name: string): Task -> bool
  {
    (t: Task) => t.assignee == name
  }

  /** The number of tasks whose assignee name is exactly `name`. */
  function AssignedCount(tasks: seq<Task>, name: string): nat
  {
    Seqs.Count(AssignedTo(name), tasks)
  }

  /**
   * Empty when there are no tasks; otherwise one entry per distinct team-member
   * name, counting the tasks assigned to that name. Tasks assigned to a name
   * outside the team are not counted anywhere.
   */
  function Workload(tasks: seq<Task>, team: seq<Member>): (r: seq<WorkloadEntry>)
    ensures tasks == [] ==> r == []
    ensures tasks != [] ==>
      && Seqs.Distinct(EntryNames(r))
      && (forall k :: 0 <= k < |team| ==> team[k].name in EntryNames(r))
      && (forall i :: 0 <= i < |r| ==> r[i].name in TeamNames(team))
    ensures forall i :: 0 <= i < |r| ==> r[i].tasks == AssignedCount(tasks, r[i].name)
  {
    if tasks == [] then []
    else
      var names := Seqs.Dedup(TeamNames(team));
      var r := seq(|names|, i requires 0 <= i < |names| => WorkloadEntry(names[i], AssignedCount(tasks, names[i])));
      assert EntryNames(r) == names;
      r
  }

  /** The sum of the bars of the workload chart. */
  function TotalWorkload(r: seq<WorkloadEntry>): nat
  {
    if r == [] then 0 else r[0].tasks + TotalWorkload(r[1..])
  }

  /** `AssignedCount` summed over a list of names. */
  function SumCounts(tasks: seq<Task>, names: seq<string>): nat
  {
    if names == [] then 0 else AssignedCount(tasks, names[0]) + SumCounts(tasks, names[1..])
  }

  function AssigneeIn(names: seq<string>): Task -> bool
  {
    (t: Task) => t.assignee in names
  }

  lemma {:induction false} TotalIsSumCounts(r: seq<WorkloadEntry>, tasks: seq<Task>)
    requires forall i :: 0 <= i < |r| ==> r[i].tasks == AssignedCount(tasks, r[i].name)
    ensures TotalWorkload(r) == SumCounts(tasks, EntryNames(r))
  {
    if r != [] {
      assert EntryNames(r)[1..] == EntryNames(r[1..]);
      TotalIsSumCounts(r[1..], tasks);
    }
  }

  lemma {:induction false} SumCountsCons(t: Task, tasks: seq<Task>, names: seq<string>)
    ensures SumCounts([t] + tasks, names) == SumCounts(tasks, names) + Seqs.Occurrences(names, t.assignee)
  {
    if names != [] {
      assert ([t] + tasks)[1..] == tasks;
      SumCountsCons(t, tasks, names[1..]);
    }
  }

  lemma {:induction false} SumCountsEmpty(names: seq<string>)
    ensures SumCounts([], names) == 0
  {
    if names != [] {
      SumCountsEmpty(names[1..]);
    }
  }

  /** Over distinct names, the summed counts are the tasks assigned to any of the names. */
  lemma {:induction false} SumCountsDistinct(tasks: seq<Task>, names: seq<string>)
    requires Seqs.Distinct(names)
    ensures SumCounts(tasks, names) == Seqs.Count(AssigneeIn(names), tasks)
  {
    if tasks == [] {
      SumCountsEmpty(names);
    } else {
      assert tasks == [tasks[0]] + tasks[1..];
      SumCountsCons(tasks[0], tasks[1..], names);
      Seqs.DistinctOccurrences(names, tasks[0].assignee);
      SumCountsDistinct(tasks[1..], names);
    }
  }

  /**
   * The workload bars add up to the number of tasks assigned to some team
   * member, hence never to more than the number of tasks.
   */
  lemma WorkloadTotal(tasks: seq<Task>, team: seq<Member>)
    ensures TotalWorkload(Workload(tasks, team)) == Seqs.Count(AssigneeIn(EntryNames(Workload(tasks, team))), tasks)
    ensures TotalWorkload(Workload(tasks, team)) <= |tasks|
  {
    var r := Workload(tasks, team);
    TotalIsSumCounts(r, tasks);
    if tasks != [] {
      SumCountsDistinct(tasks, EntryNames(r));
    }
  }

  // ---------------------------------------------------------------------------
  // Burndown

  datatype BurndownPoint = BurndownPoint(day: string, remaining: nat)

  /** Two points, "Start" and "Current"; the current point is the number of tasks, the start one more. */
  function Burndown(tasks: seq<Task>): (r: seq<BurndownPoint>)
    ensures |r| == 2 && r[0].day == "Start" && r[1].day == "Current"
    ensures r[1].remaining == |tasks|
    ensures r[0].remaining == r[1].remaining + 1
  {
    [BurndownPoint("Start", |tasks| + 1), BurndownPoint("Current", |tasks|)]
  }

  // ---------------------------------------------------------------------------
  // Phase update

  /** The value of a number input after `Number(value)`. */
  datatype NumberInput = Numeric(n: int) | NotANumber

  /** The phase form's fields for one phase: its status select and, if rendered, its progress input. */
  datatype PhaseInput = PhaseInput(status: string, progress: Option<NumberInput>)

  /** "Completed" means 100, "Waiting" means 0, otherwise the progress input (`|| 0`) or the old value. */
  function NextProgress(previous: int, input: PhaseInput): (p: int)
    ensures input.status == "Completed" ==> p == 100
    ensures input.status == "Waiting" ==> p == 0
    ensures input.status != "Completed" && input.status != "Waiting" ==>
      p == (match input.progress
            case None => previous
            case Some(Numeric(n)) => n
            case Some(NotANumber) => 0)
  {
    if input.status == "Completed" then 100
    else if input.status == "Waiting" then 0
    else
      match input.progress
      case None => previous
      case Some(NotANumber) => 0
      case Some(Numeric(n)) => if n != 0 then n else 0
  }

  /** The form has one status select per phase, in key order. */
  function UpdatePhases(phases: seq<PhaseEntry>, inputs: seq<PhaseInput>): (r: seq<PhaseEntry>)
    requires |inputs| == |phases|
    ensures |r| == |phases|
    ensures forall i :: 0 <= i < |r| ==>
      && r[i].name == phases[i].name
      && r[i].phase.status == inputs[i].status
      && r[i].phase.progress == NextProgress(phases[i].phase.progress, inputs[i])
  {
    seq(|phases|, i requires 0 <= i < |phases| =>
      PhaseEntry(phases[i].name, Phase(inputs[i].status, NextProgress(phases[i].phase.progress, inputs[i]))))
  }

  predicate ProgressInRange(phases: seq<PhaseEntry>)
  {
    forall i :: 0 <= i < |phases| ==> 0 <= phases[i].phase.progress <= 100
  }

  predicate InputsInRange(inputs: seq<PhaseInput>)
  {
    forall i :: 0 <= i < |inputs| && inputs[i].progress.Some? && inputs[i].progress.value.Numeric?
      ==> 0 <= inputs[i].progress.value.n <= 100
  }

  /** Progress stays within 0..100 when the number inputs do; submitting the same form twice changes nothing more. */
  lemma UpdatePhasesInvariant(phases: seq<PhaseEntry>, inputs: seq<PhaseInput>)
    requires |inputs| == |phases|
    ensures ProgressInRange(phases) && InputsInRange(inputs) ==> ProgressInRange(UpdatePhases(phases, inputs))
    ensures UpdatePhases(UpdatePhases(phases, inputs), inputs) == UpdatePhases(phases, inputs)
  {
  }

  // ---------------------------------------------------------------------------
  // Team-member checkboxes of the project form

  function NotEqual(value: string): string -> bool
  {
    (id: string) => id != value
  }

  /** Checking appends the id; unchecking drops every copy of it and keeps the rest in order. */
  function ToggleTeamMember(ids: seq<string>, value: string, checked: bool): (r: seq<string>)
    ensures checked ==> r == ids + [value]
    ensures !checked ==>
      && value !in r
      && Seqs.IsSubsequence(r, ids)
      && (forall i :: 0 <= i < |ids| && ids[i] != value ==> ids[i] in r)
      && |r| == |ids| - Seqs.Count((id: string) => id == value, ids)
  {
    if checked then ids + [value]
    else
      Seqs.CountComplement(NotEqual(value), (id: string) => id == value, ids);
      Seqs.Filter(NotEqual(value), ids)
  }

  /** Checking a box that was off and unchecking it again restores the selection. */
  lemma {:induction false} ToggleTeamMemberUndo(ids: seq<string>, value: string)
    requires value !in ids
    ensures ToggleTeamMember(ToggleTeamMember(ids, value, true), value, false) == ids
  {
    Seqs.FilterAppendRejected(NotEqual(value), ids, value);
    Seqs.FilterKeepsAll(NotEqual(value), ids);
  }
}
