/**
 * The employee register of the admin dashboard: the list of employee
 * records held in component state, the add / edit / delete operations on it,
 * the search-and-filter view and the four statistics cards.
 *
 * The salary field of the forms is a string run through `parseInt(..) || 0`;
 * the parse itself is a parameter here (`None` for a string that does not parse).
 */
module EmployeeRegister {
  import opened Wrappers
  import opened Strings
  import Seqs

  datatype Employee = Employee(
    id: int, name: string, email: string, phone: string, position: string,
    department: string, salary: int, hireDate: string, status: string,
    location: string, avatar: string)

  /** The fields of the add-employee form (salary is parsed separately). */
  datatype Draft = Draft(
    name: string, email: string, phone: string, position: string,
    department: string, hireDate: string, status: string, location: string)

  /** The fixed portrait every new employee is given. */
  const DefaultAvatar: string :=
    "https://images.unsplash.com/photo-1535713875002-d1d0cf377fde?w=150&h=150&fit=crop&crop=face"

  /** `parseInt(salary) || 0`: an unparsable salary and a salary of 0 both become 0. */
  function SalaryOf(parsed: Option<int>): (s: int)
    ensures parsed.None? ==> s == 0
    ensures parsed.Some? ==> s == parsed.value
  {
    parsed.GetOr(0)
  }

  function IdOf(e: Employee): int { e.id }

  /** No two employees share an id. */
  predicate UniqueIds(employees: seq<Employee>)
  {
    Seqs.DistinctKeys(IdOf, employees)
  }

  // ---------------------------------------------------------------------------
  // Add

  /** The largest id in a non-empty register. */
  function MaxId(employees: seq<Employee>): (m: int)
    requires |employees| > 0
    ensures forall i :: 0 <= i < |employees| ==> employees[i].id <= m
    ensures exists i :: 0 <= i < |employees| && employees[i].id == m
  {
    if |employees| == 1 then employees[0].id
    else
      var rest := MaxId(employees[1..]);
      assert forall i :: 1 <= i < |employees| ==> employees[i] == employees[1..][i - 1];
      if employees[0].id >= rest then employees[0].id else rest
  }

  /** The id of the next employee: one more than the largest, or 1 for an empty register. */
  function NextId(employees: seq<Employee>): (id: int)
    ensures forall i :: 0 <= i < |employees| ==> employees[i].id < id
    ensures employees == [] ==> id == 1
    ensures employees != [] ==> exists i :: 0 <= i < |employees| && employees[i].id == id - 1
  {
    if |employees| > 0 then MaxId(employees) + 1 else 1
  }

  /** The form is accepted only when name, email and position are all filled in. */
  predicate Accepted(d: Draft)
  {
    d.name != "" && d.email != "" && d.position != ""
  }

  /** The record a form becomes once accepted. */
  function Hire(d: Draft, id: int, salary: Option<int>): Employee
  {
    Employee(id, d.name, d.email, d.phone, d.position, d.department,
             SalaryOf(salary), d.hireDate, d.status, d.location, DefaultAvatar)
  }

  /** An accepted form is appended with a fresh id; a rejected one changes nothing. */
  function AddEmployee(employees: seq<Employee>, d: Draft, salary: Option<int>): (r: seq<Employee>)
    ensures !Accepted(d) ==> r == employees
    ensures Accepted(d) ==> |r| == |employees| + 1 && r[..|employees|] == employees
    ensures Accepted(d) ==> var e := r[|employees|];
      e.name == d.name && e.email == d.email && e.position == d.position &&
      e.department == d.department && e.status == d.status &&
      e.phone == d.phone && e.hireDate == d.hireDate && e.location == d.location &&
      e.salary == SalaryOf(salary) && e.avatar == DefaultAvatar &&
      e.id == NextId(employees) &&
      (forall i :: 0 <= i < |employees| ==> employees[i].id < e.id)
  {
    if Accepted(d) then employees + [Hire(d, NextId(employees), salary)] else employees
  }

  /** Adding keeps ids unique. */
  lemma AddKeepsIdsUnique(employees: seq<Employee>, d: Draft, salary: Option<int>)
    requires UniqueIds(employees)
    ensures UniqueIds(AddEmployee(employees, d, salary))
  {
    var r := AddEmployee(employees, d, salary);
    if Accepted(d) {
      assert forall i :: 0 <= i < |employees| ==> r[i] == employees[i];
    }
  }

  // ---------------------------------------------------------------------------
  // Edit and delete

  /**
   * Saving the edit form: with no employee selected nothing changes; otherwise
   * every record with the selected id is replaced by the edited record (its
   * salary re-parsed), and all other records are kept.
   */
  function EditEmployee(employees: seq<Employee>, selected: Option<Employee>, salary: Option<int>)
    : (r: seq<Employee>)
    ensures selected.None? ==> r == employees
    ensures |r| == |employees|
    ensures forall i :: 0 <= i < |r| ==> r[i].id == employees[i].id
    ensures selected.Some? ==> forall i :: 0 <= i < |r| ==>
      r[i] == (if employees[i].id == selected.value.id
               then selected.value.(salary := SalaryOf(salary)) else employees[i])
  {
    match selected
    case None => employees
    case Some(edited) =>
      seq(|employees|, i requires 0 <= i < |employees| =>
        if employees[i].id == edited.id then edited.(salary := SalaryOf(salary)) else employees[i])
  }

  /** Editing never changes an id, so ids stay unique. */
  lemma EditKeepsIdsUnique(employees: seq<Employee>, selected: Option<Employee>, salary: Option<int>)
    requires UniqueIds(employees)
    ensures UniqueIds(EditEmployee(employees, selected, salary))
  {
  }

  /** An edit whose id is not in the register changes nothing. */
  lemma EditUnknownIdIsNoOp(employees: seq<Employee>, edited: Employee, salary: Option<int>)
    requires forall i :: 0 <= i < |employees| ==> employees[i].id != edited.id
    ensures EditEmployee(employees, Some(edited), salary) == employees
  {
  }

  function IdIsNot(id: int): Employee -> bool
  {
    (e: Employee) => e.id != id
  }

  /**
   * Deleting after the confirmation dialog: when confirmed every record with
   * the id goes and the others stay in order; when declined nothing changes.
   */
  function DeleteEmployee(employees: seq<Employee>, id: int, confirmed: bool): (r: seq<Employee>)
    ensures !confirmed ==> r == employees
    ensures confirmed ==> forall i :: 0 <= i < |r| ==> r[i].id != id && r[i] in employees
    ensures confirmed ==> forall i :: 0 <= i < |employees| && employees[i].id != id ==> employees[i] in r
    ensures Seqs.IsSubsequence(r, employees)
    ensures confirmed ==> |r| == |employees| - Seqs.Count((e: Employee) => e.id == id, employees)
  {
    if confirmed then
      Seqs.CountComplement(IdIsNot(id), (e: Employee) => e.id == id, employees);
      Seqs.Filter(IdIsNot(id), employees)
    else
      Seqs.SubsequenceReflexive(employees);
      employees
  }

  /** Deleting keeps ids unique. */
  lemma DeleteKeepsIdsUnique(employees: seq<Employee>, id: int, confirmed: bool)
    requires UniqueIds(employees)
    ensures UniqueIds(DeleteEmployee(employees, id, confirmed))
  {
    Seqs.SubsequenceKeepsDistinctKeys(IdOf, DeleteEmployee(employees, id, confirmed), employees);
  }

  // ---------------------------------------------------------------------------
  // The filtered view

  /** Name, email or position contains the search term, compared in lower case. */
  predicate SearchMatches(term: string, e: Employee)
  {
    var t := ToLower(term);
    Includes(ToLower(e.name), t) || Includes(ToLower(e.email), t) || Includes(ToLower(e.position), t)
  }

  /** An empty department / status filter keeps everyone; a non-empty one keeps exact matches. */
  predicate Matches(term: string, department: string, status: string, e: Employee)
  {
    SearchMatches(term, e) &&
    (department == "" || e.department == department) &&
    (status == "" || e.status == status)
  }

  function ByFilters(term: string, department: string, status: string): Employee -> bool
  {
    (e: Employee) => Matches(term, department, status, e)
  }

  /** The employees shown in the grid or table. */
  function FilteredEmployees(employees: seq<Employee>, term: string, department: string, status: string)
    : (r: seq<Employee>)
    ensures Seqs.IsSubsequence(r, employees)
    ensures forall i :: 0 <= i < |r| ==> r[i] in employees && Matches(term, department, status, r[i])
    ensures forall i :: 0 <= i < |employees| && Matches(term, department, status, employees[i]) ==>
      employees[i] in r
    ensures |r| == Seqs.Count(ByFilters(term, department, status), employees)
  {
    Seqs.Filter(ByFilters(term, department, status), employees)
  }

  /** With no search term and no filters every employee is shown. */
  lemma {:induction false} NoFilterShowsAll(employees: seq<Employee>)
    ensures FilteredEmployees(employees, "", "", "") == employees
  {
    assert ToLower("") == "";
    forall i | 0 <= i < |employees|
      ensures ByFilters("", "", "")(employees[i])
    {
      IncludesEmpty(ToLower(employees[i].name));
    }
    Seqs.FilterKeepsAll(ByFilters("", "", ""), employees);
  }

  // ---------------------------------------------------------------------------
  // Statistics cards

  function IsActive(e: Employee): bool { e.status == "Active" }

  /** The distinct departments of the register. */
  function Departments(employees: seq<Employee>): (r: set<string>)
    ensures forall i :: 0 <= i < |employees| ==> employees[i].department in r
    ensures forall d :: d in r ==> exists i :: 0 <= i < |employees| && employees[i].department == d
    ensures |r| <= |employees|
    ensures employees != [] ==> |r| >= 1
  {
    if employees == [] then {}
    else
      var rest := Departments(employees[1..]);
      assert forall i :: 1 <= i < |employees| ==> employees[i] == employees[1..][i - 1];
      var d0 := employees[0].department;
      InsertBound(rest, d0);
      assert forall d :: d in rest + {d0} ==> d == d0 || d in rest;
      rest + {d0}
  }

  /** Inserting one element grows a set by at most one. */
  lemma InsertBound(s: set<string>, x: string)
    ensures 1 <= |s + {x}| <= |s| + 1
  {
    if x in s {
      assert s + {x} == s;
    } else {
      assert |s + {x}| == |s| + 1;
    }
  }

  /** `employees.reduce((sum, e) => sum + Number(e.salary || 0), 0)`; a salary of 0 adds 0 either way. */
  function TotalSalary(employees: seq<Employee>): int
  {
    if employees == [] then 0 else employees[0].salary + TotalSalary(employees[1..])
  }

  datatype Stats = Stats(total: nat, active: nat, departments: nat, totalSalary: int)

  /** The four cards above the register. */
  function ComputeStats(employees: seq<Employee>): (s: Stats)
    ensures s.total == |employees|
    ensures s.active == Seqs.Count(IsActive, employees) && s.active <= s.total
    ensures s.departments == |Departments(employees)| && s.departments <= s.total
    ensures s.total > 0 ==> s.departments >= 1
    ensures s.totalSalary == TotalSalary(employees)
  {
    Stats(|employees|, Seqs.Count(IsActive, employees), |Departments(employees)|, TotalSalary(employees))
  }

  lemma {:induction false} TotalSalaryAppend(employees: seq<Employee>, e: Employee)
    ensures TotalSalary(employees + [e]) == TotalSalary(employees) + e.salary
    decreases |employees|
  {
    if employees == [] {
      assert [e][1..] == [];
    } else {
      assert (employees + [e])[1..] == employees[1..] + [e];
      TotalSalaryAppend(employees[1..], e);
    }
  }

  /** Adding an accepted employee moves every card by exactly that employee. */
  lemma AddEmployeeStats(employees: seq<Employee>, d: Draft, salary: Option<int>)
    requires Accepted(d)
    ensures ComputeStats(AddEmployee(employees, d, salary)).total == |employees| + 1
    ensures ComputeStats(AddEmployee(employees, d, salary)).active ==
      ComputeStats(employees).active + (if d.status == "Active" then 1 else 0)
    ensures ComputeStats(AddEmployee(employees, d, salary)).totalSalary ==
      ComputeStats(employees).totalSalary + SalaryOf(salary)
    ensures Departments(AddEmployee(employees, d, salary)) == Departments(employees) + {d.department}
  {
    var e := Hire(d, NextId(employees), salary);
    assert AddEmployee(employees, d, salary) == employees + [e];
    Seqs.CountAppend(IsActive, employees, e);
    TotalSalaryAppend(employees, e);
    DepartmentsAppend(employees, e);
  }

  lemma {:induction false} DepartmentsAppend(employees: seq<Employee>, e: Employee)
    ensures Departments(employees + [e]) == Departments(employees) + {e.department}
  {
    var r := employees + [e];
    forall x | x in Departments(r)
      ensures x in Departments(employees) + {e.department}
    {
      var i :| 0 <= i < |r| && r[i].department == x;
      if i < |employees| {
        assert r[i] == employees[i];
      }
    }
    forall x | x in Departments(employees)
      ensures x in Departments(r)
    {
      var i :| 0 <= i < |employees| && employees[i].department == x;
      assert r[i] == employees[i];
    }
    assert r[|employees|] == e;
  }
}
