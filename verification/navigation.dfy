/**
 * The shell of the signed-in area: which sidebar links a role sees and
 * which child routes exist under `/employee-dashboard` for that role.
 *
 * The role is the string the profile request returned (`"..."` while it is
 * loading); only "ADMIN", "HR" and "EMPLOYEE" are special.
 */
module Navigation {
  import opened Wrappers
  import opened Strings
  import Seqs

  /** The pages a route can render. */
  datatype Screen =
    | DashboardHome | Attendance | Projects | Performance | Todo
    | LeaveApprovalPage | FinancialDashboard | MonthSummary

  /** The sidebar entries, in display order. */
  datatype Link =
    | EmployeeManagementLink | AttendanceLink | LeaveApprovalLink | FinancialLink
    | AttendanceSummaryLink | ProjectsLink | PerformanceLink | TodoLink

  /** A child route: its path relative to the dashboard ("" for the index route) and its screen. */
  datatype Route = Route(path: string, screen: Screen)

  const Base: string := "/employee-dashboard"

  predicate AdminOrHr(role: string)
  {
    role == "ADMIN" || role == "HR"
  }

  /** The sidebar, in order; the logout button is not a link and is not listed. */
  function SidebarLinks(role: string): (links: seq<Link>)
    ensures EmployeeManagementLink in links <==> role == "ADMIN"
    ensures AttendanceLink in links <==> role == "HR" || role == "EMPLOYEE"
    ensures LeaveApprovalLink in links <==> AdminOrHr(role)
    ensures FinancialLink in links <==> AdminOrHr(role)
    ensures AttendanceSummaryLink in links <==> AdminOrHr(role)
    ensures ProjectsLink in links && PerformanceLink in links && TodoLink in links
    ensures Seqs.Distinct(links)
  {
    (if role == "ADMIN" then [EmployeeManagementLink] else []) +
    (if role == "HR" || role == "EMPLOYEE" then [AttendanceLink] else []) +
    (if AdminOrHr(role) then [LeaveApprovalLink, FinancialLink, AttendanceSummaryLink] else []) +
    [ProjectsLink, PerformanceLink, TodoLink]
  }

  /** The child path each link's target names, below the dashboard base path. */
  function LinkPath(l: Link): string
  {
    match l
    case EmployeeManagementLink => ""
    case AttendanceLink => "attendance"
    case LeaveApprovalLink => "leaveapprovalpage"
    case FinancialLink => "FinancialDashboard"
    case AttendanceSummaryLink => "MonthSummary"
    case ProjectsLink => "projects"
    case PerformanceLink => "performance"
    case TodoLink => "todo"
  }

  /** The absolute target of a link. */
  function LinkTarget(l: Link): (target: string)
    ensures StartsWith(target, Base)
  {
    if LinkPath(l) == "" then Base else Base + "/" + LinkPath(l)
  }

  /** The screen a link is labelled with. */
  function LinkScreen(l: Link): Screen
  {
    match l
    case EmployeeManagementLink => DashboardHome
    case AttendanceLink => Attendance
    case LeaveApprovalLink => LeaveApprovalPage
    case FinancialLink => FinancialDashboard
    case AttendanceSummaryLink => MonthSummary
    case ProjectsLink => Projects
    case PerformanceLink => Performance
    case TodoLink => Todo
  }

  /** The pages only ADMIN and HR may open. */
  predicate IsAdminScreen(s: Screen)
  {
    s == LeaveApprovalPage || s == FinancialDashboard || s == MonthSummary
  }

  function PathOf(r: Route): string { r.path }

  /** The route table for a role, in declaration order. */
  function Routes(role: string): (routes: seq<Route>)
    ensures |routes| == if AdminOrHr(role) then 8 else 5
    ensures routes[0] == Route("", if role == "ADMIN" then DashboardHome else Attendance)
    // no path is declared twice, so the first match is the only match
    ensures Seqs.DistinctKeys(PathOf, routes)
    ensures forall i :: 0 <= i < |routes| && IsAdminScreen(routes[i].screen) ==> AdminOrHr(role)
  {
    [Route("", if role == "ADMIN" then DashboardHome else Attendance),
     Route("attendance", Attendance),
     Route("projects", Projects),
     Route("performance", Performance),
     Route("todo", Todo)] +
    (if AdminOrHr(role) then
       [Route("leaveapprovalpage", LeaveApprovalPage),
        Route("FinancialDashboard", FinancialDashboard),
        Route("MonthSummary", MonthSummary)]
     else [])
  }

  function HasPath(path: string): Route -> bool
  {
    (r: Route) => r.path == path
  }

  /** The child path below the base, if `target` is the base or lies under it. */
  function ChildPath(target: string): (r: Option<string>)
    ensures r.Some? ==> StartsWith(target, Base)
    ensures target == Base ==> r == Some("")
    ensures forall p :: target == Base + "/" + p ==> r == Some(p)
  {
    if !StartsWith(target, Base) then None
    else
      var rest := target[|Base|..];
      if rest == "" then Some("")
      else if rest[0] == '/' then Some(rest[1..])
      else None
  }

  /** The screen rendered at an absolute path: the first route whose path matches, if any. */
  function Resolve(role: string, target: string): (r: Option<Screen>)
    ensures r.Some? ==> (ChildPath(target).Some? &&
      exists i :: 0 <= i < |Routes(role)| && Routes(role)[i] == Route(ChildPath(target).value, r.value))
    ensures ChildPath(target).Some? && r.None? ==>
      forall i :: 0 <= i < |Routes(role)| ==> Routes(role)[i].path != ChildPath(target).value
  {
    match ChildPath(target)
    case None => None
    case Some(p) =>
      match Seqs.Find(HasPath(p), Routes(role))
      case None => None
      case Some(route) => Some(route.screen)
  }

  /** A child path resolves to the screen of the first route declared with it. */
  lemma ResolveFirst(role: string, target: string, k: int)
    requires ChildPath(target).Some?
    requires 0 <= k < |Routes(role)| && Routes(role)[k].path == ChildPath(target).value
    requires forall j :: 0 <= j < k ==> Routes(role)[j].path != ChildPath(target).value
    ensures Resolve(role, target) == Some(Routes(role)[k].screen)
  {
    Seqs.FindFirst(HasPath(ChildPath(target).value), Routes(role), k);
  }

  /** The position of a link's route in the table. */
  function RouteIndex(l: Link): nat
  {
    match l
    case EmployeeManagementLink => 0
    case AttendanceLink => 1
    case ProjectsLink => 2
    case PerformanceLink => 3
    case TodoLink => 4
    case LeaveApprovalLink => 5
    case FinancialLink => 6
    case AttendanceSummaryLink => 7
  }

  /** Every link a role is shown opens the screen it is labelled with. */
  lemma {:induction false} EveryLinkResolves(role: string, l: Link)
    requires l in SidebarLinks(role)
    ensures Resolve(role, LinkTarget(l)) == Some(LinkScreen(l))
  {
    var routes := Routes(role);
    var p := LinkPath(l);
    var k := RouteIndex(l);
    assert ChildPath(LinkTarget(l)) == Some(p);
    assert k < |routes| && routes[k] == Route(p, LinkScreen(l));
    assert forall j :: 0 <= j < k ==> routes[j].path != p;
    ResolveFirst(role, LinkTarget(l), k);
  }

  /** The admin pages' links and routes agree: each link is shown exactly when its route exists. */
  lemma {:induction false} AdminPagesLinkIffRoute(role: string, l: Link)
    requires l == LeaveApprovalLink || l == FinancialLink || l == AttendanceSummaryLink
    ensures l in SidebarLinks(role) <==> Resolve(role, LinkTarget(l)).Some?
  {
    var p := LinkPath(l);
    assert ChildPath(LinkTarget(l)) == Some(p);
    if l in SidebarLinks(role) {
      EveryLinkResolves(role, l);
    } else {
      assert forall i :: 0 <= i < |Routes(role)| ==> Routes(role)[i].path != p;
    }
  }

  /**
   * The index route shows the employee register to ADMIN and the attendance
   * page to everybody else, and the attendance route exists for every role,
   * although only HR and EMPLOYEE are given a link to it.
   */
  lemma {:induction false} IndexAndAttendanceRoutes(role: string)
    ensures Resolve(role, Base) == Some(if role == "ADMIN" then DashboardHome else Attendance)
    ensures Resolve(role, Base + "/attendance") == Some(Attendance)
    ensures role == "ADMIN" ==> AttendanceLink !in SidebarLinks(role)
  {
    assert ChildPath(Base) == Some("");
    assert ChildPath(Base + "/attendance") == Some("attendance");
    assert Routes(role)[1] == Route("attendance", Attendance);
    assert Routes(role)[0].path != "attendance";
  }

  /** A role other than ADMIN, HR and EMPLOYEE (also the loading placeholder) sees only the three common links. */
  lemma {:induction false} OtherRolesSeeCommonLinks(role: string)
    requires role != "ADMIN" && role != "HR" && role != "EMPLOYEE"
    ensures SidebarLinks(role) == [ProjectsLink, PerformanceLink, TodoLink]
    ensures |Routes(role)| == 5
  {
  }
}
