/** The daily attendance screen (components/Attendance/AttendanceMain.jsx):
    a date picker compared with today as `YYYY-MM-DD` text, the fetched
    records folded into a student-to-status map, the admin-only marking
    buttons with their write-once, no-future-date guard, and the links to
    the monthly summaries. */
module AttendanceMain {
  import opened JsCore

  // ---------------------------------------------------------------------
  // Date strings

  /** JavaScript's `<` on strings: lexicographic order of the characters. */
  predicate StrLess(a: string, b: string)
  {
    if a == [] then b != []
    else if b == [] then false
    else a[0] < b[0] || (a[0] == b[0] && StrLess(a[1..], b[1..]))
  }

  /** `isFutureDate = selectedDate > today` */
  predicate IsFutureDate(selectedDate: string, today: string)
  {
    StrLess(today, selectedDate)
  }

  predicate IsDigit(c: char) { '0' <= c <= '9' }

  predicate AllDigits(s: string)
  {
    forall i :: 0 <= i < |s| ==> IsDigit(s[i])
  }

  function DigitValue(c: char): nat
    requires IsDigit(c)
  {
    c as int - '0' as int
  }

  function Pow10(n: nat): (r: nat)
    ensures r >= 1
  {
    if n == 0 then 1 else 10 * Pow10(n - 1)
  }

  /** The number a string of decimal digits denotes. */
  function Num(s: string): (r: nat)
    requires AllDigits(s)
    ensures r < Pow10(|s|)
  {
    if s == [] then 0
    else
      assert AllDigits(s[1..]);
      NumStep(DigitValue(s[0]), Num(s[1..]), Pow10(|s| - 1));
      DigitValue(s[0]) * Pow10(|s| - 1) + Num(s[1..])
  }

  /** A leading digit d in front of a number below p gives a number below 10*p. */
  lemma NumStep(d: nat, rest: nat, p: nat)
    requires d <= 9 && rest < p
    ensures d * p + rest < 10 * p
  {
    assert d * p <= 9 * p;
  }

  /** A smaller leading digit decides the comparison of two numbers. */
  lemma LeadingDigitDecides(d: nat, e: nat, x: nat, y: nat, p: nat)
    requires d < e && x < p
    ensures d * p + x < e * p + y
  {
    assert (d + 1) * p <= e * p;
  }

  /** For digit strings of one length, text order is numeric order. */
  lemma {:induction false} DigitsCompare(a: string, b: string)
    requires |a| == |b| && AllDigits(a) && AllDigits(b)
    ensures StrLess(a, b) <==> Num(a) < Num(b)
    ensures a == b <==> Num(a) == Num(b)
  {
    if a != [] {
      assert AllDigits(a[1..]) && AllDigits(b[1..]);
      DigitsCompare(a[1..], b[1..]);
      var p := Pow10(|a| - 1);
      var da, db := DigitValue(a[0]), DigitValue(b[0]);
      if da < db {
        LeadingDigitDecides(da, db, Num(a[1..]), Num(b[1..]), p);
      } else if db < da {
        LeadingDigitDecides(db, da, Num(b[1..]), Num(a[1..]), p);
      } else {
        assert a[0] == b[0];
        if a[1..] == b[1..] {
          assert a == [a[0]] + a[1..] && b == [b[0]] + b[1..];
        }
      }
    }
  }

  /** Comparing two texts whose first parts have one length compares the
      first parts, and the rest only when the first parts are equal. */
  lemma {:induction false} StrLessAppend(p1: string, q1: string, p2: string, q2: string)
    requires |p1| == |p2|
    ensures StrLess(p1 + q1, p2 + q2) <==> StrLess(p1, p2) || (p1 == p2 && StrLess(q1, q2))
  {
    if p1 == [] {
      assert p1 + q1 == q1 && p2 + q2 == q2;
    } else {
      assert (p1 + q1)[0] == p1[0] && (p2 + q2)[0] == p2[0];
      assert (p1 + q1)[1..] == p1[1..] + q1 && (p2 + q2)[1..] == p2[1..] + q2;
      StrLessAppend(p1[1..], q1, p2[1..], q2);
      if p1[0] == p2[0] && p1[1..] == p2[1..] {
        assert p1 == [p1[0]] + p1[1..] && p2 == [p2[0]] + p2[1..];
      }
    }
  }

  /** A date as `toISOString().split("T")[0]` produces it: `YYYY-MM-DD`. */
  predicate IsIsoDate(d: string)
  {
    && |d| == 10
    && AllDigits(d[..4]) && d[4] == '-'
    && AllDigits(d[5..7]) && d[7] == '-'
    && AllDigits(d[8..])
  }

  function Year(d: string): nat requires IsIsoDate(d) { Num(d[..4]) }
  function Month(d: string): nat requires IsIsoDate(d) { Num(d[5..7]) }
  function Day(d: string): nat requires IsIsoDate(d) { Num(d[8..]) }

  /** Calendar order: by year, then month, then day. */
  predicate Before(a: string, b: string)
    requires IsIsoDate(a) && IsIsoDate(b)
  {
    || Year(a) < Year(b)
    || (Year(a) == Year(b) && Month(a) < Month(b))
    || (Year(a) == Year(b) && Month(a) == Month(b) && Day(a) < Day(b))
  }

  /** On ISO dates, text order is calendar order. */
  lemma IsoTextOrderIsCalendarOrder(a: string, b: string)
    requires IsIsoDate(a) && IsIsoDate(b)
    ensures StrLess(a, b) <==> Before(a, b)
  {
    assert a == a[..4] + (a[4..5] + (a[5..7] + (a[7..8] + a[8..])));
    assert b == b[..4] + (b[4..5] + (b[5..7] + (b[7..8] + b[8..])));
    DigitsCompare(a[..4], b[..4]);
    DigitsCompare(a[5..7], b[5..7]);
    DigitsCompare(a[8..], b[8..]);
    assert a[4..5] == b[4..5] == "-" && a[7..8] == b[7..8] == "-";
    assert !StrLess("-", "-");
    StrLessAppend(a[..4], a[4..5] + (a[5..7] + (a[7..8] + a[8..])), b[..4], b[4..5] + (b[5..7] + (b[7..8] + b[8..])));
    StrLessAppend(a[4..5], a[5..7] + (a[7..8] + a[8..]), b[4..5], b[5..7] + (b[7..8] + b[8..]));
    StrLessAppend(a[5..7], a[7..8] + a[8..], b[5..7], b[7..8] + b[8..]);
    StrLessAppend(a[7..8], a[8..], b[7..8], b[8..]);
  }

  /** The selected date is in the future exactly when today comes before
      it in the calendar. */
  lemma FutureDateIsCalendarLater(selectedDate: string, today: string)
    requires IsIsoDate(selectedDate) && IsIsoDate(today)
    ensures IsFutureDate(selectedDate, today) <==> Before(today, selectedDate)
  {
    IsoTextOrderIsCalendarOrder(today, selectedDate);
  }

  // ---------------------------------------------------------------------
  // Attendance records and the status map

  datatype Student = Student(id: string, name: string, email: string, photo: string)

  /** One record of GET /api/attendance/get/{date}: `record.student._id`
      and `record.status`. */
  datatype AttendanceRecord = AttendanceRecord(studentId: string, status: string)

  /** No record between positions k and n belongs to the student of record k. */
  predicate LastBefore(rs: seq<AttendanceRecord>, k: int, n: int)
    requires 0 <= k < n <= |rs|
  {
    forall j :: k < j < n ==> rs[j].studentId != rs[k].studentId
  }

  /** The `reduce` that folds the records into `{[studentId]: status}`:
      every student with a record has an entry, every entry comes from a
      record, and a student recorded twice keeps the later status. */
  method BuildStatusMap(rs: seq<AttendanceRecord>) returns (acc: map<string, string>)
    ensures forall k :: 0 <= k < |rs| ==> rs[k].studentId in acc
    ensures forall k :: 0 <= k < |rs| && LastBefore(rs, k, |rs|) ==>
              acc[rs[k].studentId] == rs[k].status
    ensures forall id :: id in acc ==>
              exists k :: 0 <= k < |rs| && rs[k].studentId == id && acc[id] == rs[k].status
  {
    acc := map[];
    var i := 0;
    while i < |rs|
      invariant 0 <= i <= |rs|
      invariant forall k :: 0 <= k < i ==> rs[k].studentId in acc
      invariant forall k :: 0 <= k < i && LastBefore(rs, k, i) ==>
                  acc[rs[k].studentId] == rs[k].status
      invariant forall id :: id in acc ==>
                  exists k :: 0 <= k < i && rs[k].studentId == id && acc[id] == rs[k].status
    {
      acc := acc[rs[i].studentId := rs[i].status];
      i := i + 1;
    }
  }

  // ---------------------------------------------------------------------
  // Marking

  datatype Mark = Present | Absent

  /** The status text each button sends. */
  function Label(m: Mark): (r: string)
    ensures r != ""
    ensures m == Present <==> r == "Present"
  {
    match m
    case Present => "Present"
    case Absent => "Absent"
  }

  /** `attendance[studentId]` is truthy: the student already has a status. */
  predicate IsMarked(attendance: map<string, string>, studentId: string)
  {
    studentId in attendance && attendance[studentId] != ""
  }

  /** The guard of `markAttendance`, negated: marking goes ahead. */
  predicate CanMark(attendance: map<string, string>, studentId: string,
                    selectedDate: string, today: string)
  {
    !IsMarked(attendance, studentId) && !IsFutureDate(selectedDate, today)
  }

  /** After a successful mark the student counts as marked, so every later
      click on either button for that date is turned away. */
  lemma MarkingIsWriteOnce(attendance: map<string, string>, studentId: string, m: Mark,
                           selectedDate: string, today: string)
    ensures !CanMark(attendance[studentId := Label(m)], studentId, selectedDate, today)
    ensures IsMarked(attendance[studentId := Label(m)], studentId)
  {
    assert Label(m) != "";
  }

  /** Body of POST /api/attendance/mark. */
  datatype MarkRequest = MarkRequest(studentId: string, date: string, status: string)

  /** The Present and Absent buttons of one student row. */
  datatype MarkButtons = MarkButtons(disabled: bool, showsPresent: bool, showsAbsent: bool)

  /** The buttons exist only for the admin and are disabled exactly when
      the guard of `markAttendance` would turn the click away. */
  function Buttons(isAdmin: bool, attendance: map<string, string>, studentId: string,
                   selectedDate: string, today: string): (r: Option<MarkButtons>)
    ensures r.Some? <==> isAdmin
    ensures r.Some? ==> (r.value.disabled <==> !CanMark(attendance, studentId, selectedDate, today))
    ensures r.Some? && r.value.showsPresent ==> r.value.disabled
    ensures r.Some? && r.value.showsAbsent ==> r.value.disabled
  {
    if !isAdmin then None
    else
      var status := if studentId in attendance then attendance[studentId] else "";
      Some(MarkButtons(status != "" || IsFutureDate(selectedDate, today),
                       status == "Present", status == "Absent"))
  }

  /** `classDetails?.admin?._id === user?._id`; an absent id on both sides
      compares equal (`undefined === undefined`). */
  function IsAdmin(adminId: Option<string>, userId: Option<string>): (r: bool)
    ensures adminId.Some? && userId.Some? ==> (r <==> adminId.value == userId.value)
    ensures adminId.Some? != userId.Some? ==> !r
    ensures adminId.None? && userId.None? ==> r
  {
    adminId == userId
  }

  // ---------------------------------------------------------------------
  // Months

  const Months: seq<string> := [
    "January", "February", "March", "April", "May", "June",
    "July", "August", "September", "October", "November", "December"]

  /** The route `goToMonthlyAttendance(monthIndex)` navigates to. */
  function MonthlyPath(classId: string, monthIndex: nat): string
    requires monthIndex < |Months|
  {
    "/classroom/" + classId + "/attendance/monthly/" + Months[monthIndex]
  }

  /** The first month from position `from` on whose name is given. */
  function IndexFrom(name: string, from: nat): (r: Option<nat>)
    requires from <= |Months|
    ensures r.Some? ==> from <= r.value < |Months| && Months[r.value] == name
    ensures r.Some? ==> forall j :: from <= j < r.value ==> Months[j] != name
    ensures r.None? ==> forall j :: from <= j < |Months| ==> Months[j] != name
    decreases |Months| - from
  {
    if from == |Months| then None
    else if Months[from] == name then Some(from)
    else IndexFrom(name, from + 1)
  }

  /** The inverse of the month table: the index of a month name. */
  function MonthIndex(name: string): (r: Option<nat>)
    ensures r.Some? ==> r.value < |Months| && Months[r.value] == name
    ensures r.None? ==> name !in Months
  {
    IndexFrom(name, 0)
  }

  /** There are twelve month names, no two alike. */
  lemma MonthsDistinct()
    ensures |Months| == 12
    ensures forall i, j :: 0 <= i < j < |Months| ==> Months[i] != Months[j]
  {
  }

  /** Each month name leads back to its own index. */
  lemma MonthIndexOfName(monthIndex: nat)
    requires monthIndex < |Months|
    ensures MonthIndex(Months[monthIndex]) == Some(monthIndex)
  {
    MonthsDistinct();
  }

  /** No month name holds a `/`. */
  lemma MonthNameHasNoSlash(monthIndex: nat)
    requires monthIndex < |Months|
    ensures '/' !in Months[monthIndex]
  {
  }

  /** The last segment of the monthly route is the month's name, and that
      name leads back to the same index. */
  lemma MonthlyPathRoundTrip(classId: string, monthIndex: nat)
    requires monthIndex < |Months|
    ensures LastSegment(MonthlyPath(classId, monthIndex), '/') == Months[monthIndex]
    ensures MonthIndex(LastSegment(MonthlyPath(classId, monthIndex), '/')) == Some(monthIndex)
  {
    MonthNameHasNoSlash(monthIndex);
    RouteEndsInName(classId, Months[monthIndex]);
    MonthIndexOfName(monthIndex);
  }

  /** A monthly route for a name without `/` ends in that name. */
  lemma RouteEndsInName(classId: string, name: string)
    requires '/' !in name
    ensures LastSegment("/classroom/" + classId + "/attendance/monthly/" + name, '/') == name
  {
    LastSegmentNoSep(name, '/');
    var prefix := "/classroom/" + classId + "/attendance/monthly";
    assert "/classroom/" + classId + "/attendance/monthly/" + name == prefix + ['/'] + name;
    LastSegmentAfterSep(prefix, '/', name);
  }

  // ---------------------------------------------------------------------
  // The component

  class AttendanceView {
    var students: seq<Student>
    var attendance: map<string, string>
    var selectedDate: string

    constructor (today: string)
      ensures students == [] && attendance == map[] && selectedDate == today
    {
      students := [];
      attendance := map[];
      selectedDate := today;
    }

    /** The effect on `classDetails`: the students are taken over only
        when the details carry a student list. */
    method LoadStudents(classStudents: Option<seq<Student>>)
      modifies this
      ensures students == (if classStudents.Some? then classStudents.value else old(students))
      ensures attendance == old(attendance) && selectedDate == old(selectedDate)
    {
      if classStudents.Some? {
        students := classStudents.value;
      }
    }

    /** The effect on `selectedDate`: the records of that date replace the
        map; an error leaves it as it was. */
    method FetchAttendance(reply: Reply<seq<AttendanceRecord>>)
      modifies this
      ensures reply.Ok? ==>
                (forall k :: 0 <= k < |reply.data| && LastBefore(reply.data, k, |reply.data|) ==>
                   reply.data[k].studentId in attendance &&
                   attendance[reply.data[k].studentId] == reply.data[k].status) &&
                (forall id :: id in attendance ==>
                   exists k :: 0 <= k < |reply.data| && reply.data[k].studentId == id &&
                               attendance[id] == reply.data[k].status)
      ensures reply.Fail? ==> attendance == old(attendance)
      ensures students == old(students) && selectedDate == old(selectedDate)
    {
      if reply.Ok? {
        attendance := BuildStatusMap(reply.data);
      }
    }

    /** `handleDateChange`: the new date is selected and its route opened. */
    method HandleDateChange(classId: string, newDate: string) returns (navigateTo: string)
      modifies this
      ensures selectedDate == newDate
      ensures navigateTo == "/classroom/" + classId + "/attendance/" + newDate
      ensures students == old(students) && attendance == old(attendance)
    {
      selectedDate := newDate;
      navigateTo := "/classroom/" + classId + "/attendance/" + newDate;
    }

    /** `markAttendance`: a student who already has a status, or a date
        after today, sends nothing and changes nothing; otherwise the mark
        is posted and only a 201 reply records it, for that student alone. */
    method MarkAttendance(studentId: string, m: Mark, today: string, reply: Reply<()>)
      returns (request: Option<MarkRequest>)
      modifies this
      ensures !CanMark(old(attendance), studentId, selectedDate, today) ==>
                request == None && attendance == old(attendance)
      ensures CanMark(old(attendance), studentId, selectedDate, today) ==>
                request == Some(MarkRequest(studentId, selectedDate, Label(m)))
      ensures CanMark(old(attendance), studentId, selectedDate, today) && reply.Ok? && reply.status == 201 ==>
                attendance == old(attendance)[studentId := Label(m)]
      ensures !(reply.Ok? && reply.status == 201) ==> attendance == old(attendance)
      ensures students == old(students) && selectedDate == old(selectedDate)
    {
      if IsMarked(attendance, studentId) || IsFutureDate(selectedDate, today) {
        return None;
      }
      request := Some(MarkRequest(studentId, selectedDate, Label(m)));
      if reply.Ok? && reply.status == 201 {
        attendance := attendance[studentId := Label(m)];
      }
    }
  }
}
