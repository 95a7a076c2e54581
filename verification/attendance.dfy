/**
 * The attendance page of one employee: the day status derived from the list of
 * attendance records, the enabling of the Check-In / Check-Out / Leave buttons,
 * the optimistic list updates after a successful check-in or check-out, the
 * summary cards, the September calendar and the detailed-report labels.
 *
 * Timestamps are ISO strings; `today` is the `YYYY-MM-DD` prefix of the current
 * instant and `now` the full ISO instant, both passed in instead of read from a clock.
 */
module Attendance {
  import opened Wrappers
  import opened Strings
  import Seqs

  /** One attendance entry as the backend returns it; absent fields are `None`. */
  datatype Record = Record(checkInAt: Option<string>, checkOutAt: Option<string>, status: Option<string>)

  /** JavaScript truthiness of an optional string: present and not empty. */
  predicate Truthy(o: Option<string>)
  {
    o.Some? && o.value != ""
  }

  /** `o?.startsWith(prefix)`: an absent value never matches. */
  predicate OptStartsWith(o: Option<string>, prefix: string)
  {
    o.Some? && StartsWith(o.value, prefix)
  }

  /** `o?.includes(t)`: an absent value never matches. */
  predicate OptIncludes(o: Option<string>, t: string)
  {
    o.Some? && Includes(o.value, t)
  }

  /** `a.check_in_at && a.check_in_at.startsWith(day)`. */
  predicate CheckedInOn(a: Record, day: string)
  {
    Truthy(a.checkInAt) && StartsWith(a.checkInAt.value, day)
  }

  /** `a.check_out_at && a.check_out_at.startsWith(day)`. */
  predicate CheckedOutOn(a: Record, day: string)
  {
    Truthy(a.checkOutAt) && StartsWith(a.checkOutAt.value, day)
  }

  /** `a.status?.includes("Leave") && a.check_in_at?.startsWith(day)`. */
  predicate LeaveOn(a: Record, day: string)
  {
    OptIncludes(a.status, "Leave") && OptStartsWith(a.checkInAt, day)
  }

  /** The three facts the buttons depend on. */
  datatype DayStatus = DayStatus(checkedIn: bool, checkedOut: bool, onLeave: bool)

  /** `hasCheckedInToday`, `hasCheckedOutToday` and `hasLeaveToday`, each a scan with `some`. */
  function DeriveStatus(records: seq<Record>, today: string): (d: DayStatus)
    ensures d.checkedIn <==> exists i :: 0 <= i < |records| && CheckedInOn(records[i], today)
    ensures d.checkedOut <==> exists i :: 0 <= i < |records| && CheckedOutOn(records[i], today)
    ensures d.onLeave <==> exists i :: 0 <= i < |records| && LeaveOn(records[i], today)
  {
    DayStatus(
      checkedIn := Seqs.Any(a => CheckedInOn(a, today), records),
      checkedOut := Seqs.Any(a => CheckedOutOn(a, today), records),
      onLeave := Seqs.Any(a => LeaveOn(a, today), records))
  }

  /** A leave record that carries no check-in time never makes the day a leave day. */
  lemma LeaveWithoutCheckInIgnored(records: seq<Record>, today: string, out: Option<string>, status: string)
    ensures DeriveStatus(records + [Record(None, out, Some(status))], today).onLeave
        == DeriveStatus(records, today).onLeave
  {
    var extended := records + [Record(None, out, Some(status))];
    assert forall i :: 0 <= i < |records| ==> extended[i] == records[i];
  }

  /** The in-flight request flag and the two one-shot locks set after a success. */
  datatype Flags = Flags(isProcessing: bool, didCheckIn: bool, didCheckOut: bool)

  /** Which of the three buttons are enabled (the negation of each `disabled` expression). */
  datatype Buttons = Buttons(checkIn: bool, checkOut: bool, leave: bool)

  function EnabledButtons(d: DayStatus, f: Flags): (b: Buttons)
    ensures b.checkIn <==> !d.checkedIn && !d.onLeave && !f.isProcessing && !f.didCheckIn
    ensures b.checkOut <==> d.checkedIn && !d.checkedOut && !d.onLeave && !f.isProcessing && !f.didCheckOut
    ensures b.leave <==> !d.checkedIn && !d.checkedOut && !f.isProcessing
    // consequences the page relies on
    ensures b.checkOut ==> d.checkedIn
    ensures !(b.checkIn && b.checkOut) && !(b.checkOut && b.leave)
    ensures f.isProcessing ==> !b.checkIn && !b.checkOut && !b.leave
  {
    Buttons(
      checkIn := !(d.checkedIn || d.onLeave || f.isProcessing || f.didCheckIn),
      checkOut := !(!d.checkedIn || d.checkedOut || d.onLeave || f.isProcessing || f.didCheckOut),
      leave := !(d.checkedIn || d.checkedOut || f.isProcessing))
  }

  /** The lock flags are cleared whenever `today` changes; the in-flight flag is kept. */
  function NewDay(f: Flags): (g: Flags)
    ensures !g.didCheckIn && !g.didCheckOut && g.isProcessing == f.isProcessing
  {
    f.(didCheckIn := false, didCheckOut := false)
  }

  /** The record appended optimistically after a successful check-in. */
  function CheckInRecord(now: string): Record
  {
    Record(Some(now), None, Some("Present"))
  }

  /** Optimistic check-in: one record appended at the end, all earlier records kept. */
  function ApplyCheckIn(records: seq<Record>, now: string): (r: seq<Record>)
    ensures |r| == |records| + 1
    ensures r[..|records|] == records
    ensures r[|records|] == CheckInRecord(now)
  {
    records + [CheckInRecord(now)]
  }

  /** Optimistic check-out: every record whose check-in has today's prefix gets `now` as check-out. */
  function ApplyCheckOut(records: seq<Record>, today: string, now: string): (r: seq<Record>)
    ensures |r| == |records|
    ensures forall i :: 0 <= i < |r| ==> r[i].checkInAt == records[i].checkInAt && r[i].status == records[i].status
    ensures forall i :: 0 <= i < |r| && OptStartsWith(records[i].checkInAt, today) ==> r[i].checkOutAt == Some(now)
    ensures forall i :: 0 <= i < |r| && !OptStartsWith(records[i].checkInAt, today) ==> r[i] == records[i]
  {
    seq(|records|, i requires 0 <= i < |records| =>
      if OptStartsWith(records[i].checkInAt, today) then records[i].(checkOutAt := Some(now)) else records[i])
  }

  lemma PresentIsNotLeave()
    ensures !Includes("Present", "Leave")
  {
    NotIncludedWithoutFirstChar("Present", "Leave");
  }

  /**
   * After the optimistic check-in of an instant that falls on `today` the day
   * counts as checked in, check-out and leave are unchanged, and the one-shot
   * lock keeps Check-In and Leave disabled.
   */
  lemma {:induction false} CheckInEffects(records: seq<Record>, today: string, now: string, f: Flags)
    requires StartsWith(now, today) && now != ""
    ensures var d := DeriveStatus(ApplyCheckIn(records, now), today);
      && d.checkedIn
      && d.checkedOut == DeriveStatus(records, today).checkedOut
      && d.onLeave == DeriveStatus(records, today).onLeave
      && !EnabledButtons(d, f.(didCheckIn := true)).checkIn
      && !EnabledButtons(d, f.(didCheckIn := true)).leave
  {
    var r := ApplyCheckIn(records, now);
    assert CheckedInOn(r[|records|], today);
    assert forall i :: 0 <= i < |records| ==> r[i] == records[i];
    PresentIsNotLeave();
    assert !LeaveOn(r[|records|], today);
  }

  /**
   * The one-shot check-in lock keeps Check-In disabled whatever list a later
   * re-fetch returns, until the day changes.
   */
  lemma CheckInLockHolds(records: seq<Record>, today: string, f: Flags)
    requires f.didCheckIn
    ensures !EnabledButtons(DeriveStatus(records, today), f).checkIn
    ensures EnabledButtons(DeriveStatus(records, today), NewDay(f)).checkIn
        == EnabledButtons(DeriveStatus(records, today), f.(didCheckIn := false)).checkIn
  {
  }

  /**
   * After the optimistic check-out of an instant on `today`, having checked in
   * today, the day counts as checked out, the check-in and leave facts are
   * unchanged, and Check-Out is disabled.
   */
  lemma {:induction false} CheckOutEffects(records: seq<Record>, today: string, now: string, f: Flags)
    requires DeriveStatus(records, today).checkedIn
    requires StartsWith(now, today) && now != ""
    ensures var d := DeriveStatus(ApplyCheckOut(records, today, now), today);
      && d.checkedOut
      && d.checkedIn
      && d.onLeave == DeriveStatus(records, today).onLeave
      && !EnabledButtons(d, f).checkOut
  {
    var r := ApplyCheckOut(records, today, now);
    var i :| 0 <= i < |records| && CheckedInOn(records[i], today);
    assert CheckedOutOn(r[i], today);
    assert CheckedInOn(r[i], today);
    assert forall j :: 0 <= j < |records| ==> (LeaveOn(r[j], today) <==> LeaveOn(records[j], today));
  }

  /** Applying the same optimistic check-out twice is the same as applying it once. */
  lemma CheckOutIdempotent(records: seq<Record>, today: string, now: string)
    ensures ApplyCheckOut(ApplyCheckOut(records, today, now), today, now) == ApplyCheckOut(records, today, now)
  {
  }

  /** The four summary cards. */
  datatype Summary = Summary(totalDays: nat, present: nat, leave: nat, checkOuts: nat)

  predicate HasCheckIn(a: Record) { Truthy(a.checkInAt) }
  predicate HasLeaveStatus(a: Record) { OptIncludes(a.status, "Leave") }
  predicate HasCheckOut(a: Record) { Truthy(a.checkOutAt) }

  /** Total days is the fixed 30; the other cards count records by field. */
  function Summarize(records: seq<Record>): (s: Summary)
    ensures s.totalDays == 30
    // the number of records each card's `filter(...)` keeps
    ensures s.present == |Seqs.Filter(HasCheckIn, records)|
    ensures s.leave == |Seqs.Filter(HasLeaveStatus, records)|
    ensures s.checkOuts == |Seqs.Filter(HasCheckOut, records)|
    ensures s.present <= |records| && s.leave <= |records| && s.checkOuts <= |records|
    ensures s.present == 0 <==> forall i :: 0 <= i < |records| ==> !Truthy(records[i].checkInAt)
    ensures s.checkOuts == 0 <==> forall i :: 0 <= i < |records| ==> !Truthy(records[i].checkOutAt)
  {
    Summary(30, Seqs.Count(HasCheckIn, records), Seqs.Count(HasLeaveStatus, records), Seqs.Count(HasCheckOut, records))
  }

  /** The optimistic check-in adds one to Present and leaves Leave and Check-Outs alone. */
  lemma {:induction false} CheckInSummary(records: seq<Record>, now: string)
    requires now != ""
    ensures var before := Summarize(records);
      var after := Summarize(ApplyCheckIn(records, now));
      && after.present == before.present + 1
      && after.leave == before.leave
      && after.checkOuts == before.checkOuts
  {
    Seqs.CountAppend(HasCheckIn, records, CheckInRecord(now));
    Seqs.CountAppend(HasLeaveStatus, records, CheckInRecord(now));
    Seqs.CountAppend(HasCheckOut, records, CheckInRecord(now));
    PresentIsNotLeave();
  }

  /** The optimistic check-out changes neither Present nor Leave. */
  lemma {:induction false} CheckOutSummary(records: seq<Record>, today: string, now: string)
    ensures var before := Summarize(records);
      var after := Summarize(ApplyCheckOut(records, today, now));
      && after.present == before.present
      && after.leave == before.leave
  {
    var r := ApplyCheckOut(records, today, now);
    Seqs.CountPointwise(HasCheckIn, r, HasCheckIn, records);
    Seqs.CountPointwise(HasLeaveStatus, r, HasLeaveStatus, records);
  }

  /** Background of one calendar cell. */
  datatype CellColour = Green | Blue | Yellow | Grey

  /** `p(a) = a.check_in_at?.startsWith(date)`: the record a calendar cell looks up. */
  function CellMatch(date: string): Record -> bool
  {
    (a: Record) => OptStartsWith(a.checkInAt, date)
  }

  /**
   * The cell for `date`: the first record whose check-in starts with `date`,
   * green while it has no check-out, blue once it has one, yellow for a leave,
   * grey when there is no record.
   */
  function CalendarCell(records: seq<Record>, date: string): (c: CellColour)
    // a non-empty date never selects a record without check-in, so the leave colour never shows
    ensures date != "" ==> c != Yellow
    ensures date != "" ==> (c == Grey <==> forall i :: 0 <= i < |records| ==> !OptStartsWith(records[i].checkInAt, date))
    ensures c == Green ==> exists i :: 0 <= i < |records| && CheckedInOn(records[i], date) && !Truthy(records[i].checkOutAt)
    ensures c == Blue ==> exists i :: 0 <= i < |records| && CheckedInOn(records[i], date) && Truthy(records[i].checkOutAt)
  {
    match Seqs.Find(CellMatch(date), records)
    case Some(a) =>
      if Truthy(a.checkInAt) then (if !Truthy(a.checkOutAt) then Green else Blue)
      else if OptIncludes(a.status, "Leave") then Yellow
      else Grey
    case None => Grey
  }

  /**
   * The first record whose check-in starts with the date decides the cell,
   * whatever the records after it hold.
   */
  lemma {:induction false} CalendarCellFirstRecord(records: seq<Record>, date: string, k: int)
    requires 0 <= k < |records| && OptStartsWith(records[k].checkInAt, date)
    requires forall j :: 0 <= j < k ==> !OptStartsWith(records[j].checkInAt, date)
    ensures var a := records[k];
      CalendarCell(records, date) ==
        if Truthy(a.checkInAt) then (if Truthy(a.checkOutAt) then Blue else Green)
        else if OptIncludes(a.status, "Leave") then Yellow
        else Grey
  {
    Seqs.FindFirst(CellMatch(date), records, k);
  }

  /** `String(n).padStart(2, "0")`. */
  function Pad2(n: nat): (s: string)
    ensures 2 <= |s|
  {
    var d := NatToString(n);
    if |d| < 2 then "0" + d else d
  }

  /** The date of day `day` of the September 2025 grid. */
  function SeptemberDate(day: nat): (s: string)
    ensures StartsWith(s, "2025-09-") && |s| >= 10
  {
    "2025-09-" + Pad2(day)
  }

  /** The thirty cells of the September 2025 report. */
  function SeptemberGrid(records: seq<Record>): (g: seq<CellColour>)
    ensures |g| == 30
    ensures forall i :: 0 <= i < 30 ==> g[i] == CalendarCell(records, SeptemberDate(i + 1))
    ensures forall i :: 0 <= i < 30 ==> g[i] != Yellow
    ensures forall i :: 0 <= i < 30 ==> (g[i] == Grey <==> forall k :: 0 <= k < |records| ==> !OptStartsWith(records[k].checkInAt, SeptemberDate(i + 1)))
  {
    seq(30, i requires 0 <= i < 30 => CalendarCell(records, SeptemberDate(i + 1)))
  }

  /** The Status column of the detailed report. */
  datatype ReportStatus = OnLeave | CheckedOut | Present | Unmarked

  /** Decided in order: exact status "Leave", then a check-out, then a check-in. */
  function ReportStatusOf(a: Record): (s: ReportStatus)
    ensures s == OnLeave <==> a.status == Some("Leave")
    ensures s == CheckedOut <==> a.status != Some("Leave") && Truthy(a.checkOutAt)
    ensures s == Present <==> a.status != Some("Leave") && !Truthy(a.checkOutAt) && Truthy(a.checkInAt)
  {
    if a.status == Some("Leave") then OnLeave
    else if Truthy(a.checkOutAt) then CheckedOut
    else if Truthy(a.checkInAt) then Present
    else Unmarked
  }

  function ReportLabel(s: ReportStatus): string
  {
    match s
    case OnLeave => "Leave"
    case CheckedOut => "Check-Out"
    case Present => "Present"
    case Unmarked => "-"
  }

  function ReportTextColour(s: ReportStatus): string
  {
    match s
    case OnLeave => "text-yellow-400"
    case CheckedOut => "text-blue-400"
    case Present => "text-green-400"
    case Unmarked => "text-gray-400"
  }

  /** The label and its colour determine each other and the status. */
  lemma ReportLabelsDistinct(s: ReportStatus, t: ReportStatus)
    ensures ReportLabel(s) == ReportLabel(t) <==> s == t
    ensures ReportTextColour(s) == ReportTextColour(t) <==> s == t
  {
  }

  /**
   * The optimistic check-in row reads "Present"; after the optimistic check-out
   * every row checked in today whose status is not exactly "Leave" reads "Check-Out".
   */
  lemma ReportAfterOptimisticUpdates(records: seq<Record>, today: string, now: string)
    requires now != ""
    ensures ReportLabel(ReportStatusOf(ApplyCheckIn(records, now)[|records|])) == "Present"
    ensures var r := ApplyCheckOut(records, today, now);
      forall i :: 0 <= i < |r| && OptStartsWith(records[i].checkInAt, today) && records[i].status != Some("Leave")
        ==> ReportLabel(ReportStatusOf(r[i])) == "Check-Out"
  {
  }

  /** The Date column: `a.check_in_at?.split("T")[0]`. */
  function ReportDate(a: Record): (d: Option<string>)
    ensures d.None? <==> a.checkInAt.None?
    ensures d.Some? ==> StartsWith(a.checkInAt.value, d.value) && 'T' !in d.value
    ensures d.Some? && 'T' in a.checkInAt.value ==> a.checkInAt.value[|d.value|] == 'T'
    ensures d.Some? && 'T' !in a.checkInAt.value ==> d.value == a.checkInAt.value
  {
    match a.checkInAt
    case Some(c) => Some(Split(c, 'T')[0])
    case None => None
  }
}
