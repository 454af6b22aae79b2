/** The dashboard: unit counts by status over every course, logged hours,
    the activity of the last seven days, each module's effort and progress,
    the next pending evaluation and the next calendar events. */
module Dashboard {
  import opened Wrappers
  import opened Seqs
  import opened Text
  import opened Numbers
  import opened Dates
  import opened Types

  // --- Status counts -----------------------------------------------------------------

  /** `courses.flatMap(c => c.units)` */
  function AllUnits(courses: seq<Course>): (r: seq<Unit>)
    ensures forall c, u :: c in courses && u in c.units ==> u in r
    ensures forall u :: u in r ==> exists c :: c in courses && u in c.units
    ensures |r| == Sum(courses, UnitCount)
  {
    if courses == [] then [] else courses[0].units + AllUnits(courses[1..])
  }

  function UnitCount(c: Course): nat {
    |c.units|
  }

  /** Flattening two lists of courses is flattening each and joining. */
  lemma {:induction false} AllUnitsAppend(a: seq<Course>, b: seq<Course>)
    ensures AllUnits(a + b) == AllUnits(a) + AllUnits(b)
  {
    if a == [] {
      assert a + b == b;
    } else {
      assert (a + b)[0] == a[0];
      assert (a + b)[1..] == a[1..] + b;
      AllUnitsAppend(a[1..], b);
    }
  }

  datatype Stats = Stats(
    totalUnits: nat, completed: nat, inProgress: nat, delayed: nat, pending: nat,
    totalHoursPlanned: nat, totalHoursLogged: nat, examsCount: nat)

  /** `ex.duration || 0`: an exam without a duration counts nothing here. */
  function ExamDuration(e: Exam): nat {
    e.duration
  }

  /** The banner figures: the unit counts by status, the annual hours, the
      hours of every log and exam and the number of exams. */
  function DashboardStats(courses: seq<Course>, logs: seq<ClassLog>, exams: seq<Exam>): (st: Stats)
    ensures st.totalUnits == |AllUnits(courses)| && st.examsCount == |exams|
    ensures st.completed == CountStatus(AllUnits(courses), Completed)
    ensures st.inProgress == CountStatus(AllUnits(courses), InProgress)
    ensures st.delayed == CountStatus(AllUnits(courses), Delayed)
    ensures st.pending == CountStatus(AllUnits(courses), Pending)
    ensures st.completed + st.inProgress + st.delayed + st.pending == st.totalUnits
    ensures st.totalHoursPlanned == Sum(courses, AnnualHours)
    ensures st.totalHoursLogged == Sum(logs, LogHours) + Sum(exams, ExamDuration)
  {
    var allUnits := AllUnits(courses);
    StatusCountsAddUp(allUnits);
    Stats(|allUnits|, CountStatus(allUnits, Completed), CountStatus(allUnits, InProgress), CountStatus(allUnits, Delayed),
          CountStatus(allUnits, Pending), Sum(courses, AnnualHours),
          Sum(logs, LogHours) + Sum(exams, ExamDuration), |exams|)
  }

  /** Every unit has exactly one of the four statuses, so the counts add up
      to the number of units. */
  lemma {:induction false} StatusCountsAddUp(units: seq<Unit>)
    ensures CountStatus(units, Completed) + CountStatus(units, InProgress) + CountStatus(units, Delayed) + CountStatus(units, Pending) == |units|
  {
    if units != [] {
      StatusCountsAddUp(units[1..]);
      CountStatusCons(units, Completed);
      CountStatusCons(units, InProgress);
      CountStatusCons(units, Delayed);
      CountStatusCons(units, Pending);
    }
  }

  function Undated(e: Exam): bool {
    e.duration == 0
  }

  /** The report centre counts an exam without a duration as one hour and the
      dashboard as none: the two totals differ by the number of such exams. */
  lemma {:induction false} ExamHoursDefaults(exams: seq<Exam>)
    ensures Sum(exams, ExamHours) == Sum(exams, ExamDuration) + |Filter(exams, Undated)|
  {
    if exams != [] {
      ExamHoursDefaults(exams[1..]);
    }
  }

  // --- Last seven days ----------------------------------------------------------------

  datatype DayActivity = DayActivity(date: Day, hours: nat)

  /** The hours logged and examined on one day. */
  function HoursOn(d: Day, logs: seq<ClassLog>, exams: seq<Exam>): nat {
    Sum(Filter(logs, LogOnDate(d)), LogHours) + Sum(Filter(exams, ExamOnDate(d)), ExamDuration)
  }

  /** `last7DaysActivity`: one entry per day from six days ago to today,
      oldest first. */
  method Last7DaysActivity(today: Day, logs: seq<ClassLog>, exams: seq<Exam>) returns (data: seq<DayActivity>)
    ensures |data| == 7
    ensures forall k :: 0 <= k < 7 ==> data[k] == DayActivity(today - 6 + k, HoursOn(today - 6 + k, logs, exams))
  {
    data := [];
    var i := 6;
    while i >= 0
      invariant -1 <= i <= 6
      invariant |data| == 6 - i
      invariant forall k :: 0 <= k < |data| ==> data[k] == DayActivity(today - 6 + k, HoursOn(today - 6 + k, logs, exams))
    {
      var d := today - i;
      var hours := Sum(Filter(logs, LogOnDate(d)), LogHours) + Sum(Filter(exams, ExamOnDate(d)), ExamDuration);
      data := data + [DayActivity(d, hours)];
      i := i - 1;
    }
  }

  // --- Module effort ---------------------------------------------------------------------

  datatype Effort = Effort(name: string, theory: nat, practice: nat, exams: nat, total: nat, color: string)

  /** `c.color || '#8a6a5c'` */
  function CourseColor(c: Course): (s: string)
    ensures s != ""
    ensures c.color.Some? && c.color.value != "" ==> s == c.color.value
    ensures c.color.None? || c.color == Some("") ==> s == "#8a6a5c"
  {
    if c.color.Some? && c.color.value != "" then c.color.value else "#8a6a5c"
  }

  /** One bar of the effort chart: the course's logged theory and practice
      hours and its exam hours; the total counts every log of the course, and
      is the sum of the three since every log is theory or practice. */
  function ModuleEffort(c: Course, logs: seq<ClassLog>, exams: seq<Exam>): (e: Effort)
    ensures e.name == Before(c.name, ' ') && e.color == CourseColor(c)
    ensures e.theory == Sum(Filter(Filter(logs, LogOfCourse(c.id)), IsOfType(Theory)), LogHours)
    ensures e.practice == Sum(Filter(Filter(logs, LogOfCourse(c.id)), IsOfType(Practice)), LogHours)
    ensures e.exams == Sum(Filter(exams, ExamOfCourse(c.id)), ExamDuration)
    ensures e.total == e.theory + e.practice + e.exams
    ensures e.total == Sum(Filter(logs, LogOfCourse(c.id)), LogHours) + Sum(Filter(exams, ExamOfCourse(c.id)), ExamDuration)
  {
    var modLogs := Filter(logs, LogOfCourse(c.id));
    var modExams := Filter(exams, ExamOfCourse(c.id));
    SumSplit(modLogs, IsOfType(Theory), IsOfType(Practice), LogHours);
    Effort(Before(c.name, ' '),
           Sum(Filter(modLogs, IsOfType(Theory)), LogHours),
           Sum(Filter(modLogs, IsOfType(Practice)), LogHours),
           Sum(modExams, ExamDuration),
           Sum(modLogs, LogHours) + Sum(modExams, ExamDuration),
           CourseColor(c))
  }

  /** `ModuleIntelligenceCard`'s progress: the course's hours against its
      annual hours, rounded and capped at 100; an unplanned course divides by
      1. */
  function ModuleProgress(c: Course, logs: seq<ClassLog>, exams: seq<Exam>): (p: int)
    ensures var share := ModuleEffort(c, logs, exams).total as real / MaxInt(1, c.annualHours) as real * 100.0;
      (share < 99.5 ==> p as real - 0.5 <= share < p as real + 0.5) && (p == 100 <==> share >= 99.5)
    ensures 0 <= p <= 100
    ensures ModuleEffort(c, logs, exams).total == 0 ==> p == 0
    ensures ModuleEffort(c, logs, exams).total >= c.annualHours > 0 ==> p == 100
  {
    var effort := ModuleEffort(c, logs, exams);
    var totalRealHours := effort.theory + effort.practice + effort.exams;
    var whole := MaxInt(1, c.annualHours);
    ProgressFacts(totalRealHours, whole);
    MinInt(100, Round(totalRealHours as real / whole as real * 100.0))
  }

  lemma ProgressFacts(part: nat, whole: nat)
    requires whole > 0
    ensures var x := Round(part as real / whole as real * 100.0);
      x >= 0 && (part == 0 ==> x == 0) && (part >= whole ==> x >= 100)
  {
    RatioFacts(part, whole);
    var q := part as real / whole as real;
    if part >= whole {
      assert q * 100.0 >= 100.0;
    }
  }

  // --- Next evaluation -------------------------------------------------------------------

  function NotDone(e: Evaluation): bool {
    !e.completed
  }

  function EarlierEvaluation(a: Evaluation, b: Evaluation): bool {
    a.date <= b.date
  }

  /** `nextEvaluation`: the first pending evaluation by date, none when every
      evaluation is done. */
  function NextEvaluation(evaluations: seq<Evaluation>): Option<Evaluation> {
    var sorted := SortBy(Filter(evaluations, NotDone), EarlierEvaluation);
    if |sorted| > 0 then Some(sorted[0]) else None
  }

  /** The next evaluation is pending and no pending evaluation falls before
      it; there is none exactly when none is pending. */
  lemma NextEvaluationSpec(evaluations: seq<Evaluation>)
    ensures NextEvaluation(evaluations).None? <==> forall i :: 0 <= i < |evaluations| ==> evaluations[i].completed
    ensures NextEvaluation(evaluations).Some? ==>
      var e := NextEvaluation(evaluations).value;
      e in evaluations && !e.completed
      && forall i :: 0 <= i < |evaluations| && !evaluations[i].completed ==> e.date <= evaluations[i].date
  {
    var pending := Filter(evaluations, NotDone);
    var sorted := SortBy(pending, EarlierEvaluation);
    SortByMembers(pending, EarlierEvaluation);
    if pending != [] {
      SortByHeadLeast(pending, EarlierEvaluation);
      assert sorted[0] in pending;
      var k :| 0 <= k < |pending| && pending[k] == sorted[0];
    }
  }

  // --- Upcoming events ---------------------------------------------------------------------

  /** An event dated today or later; an undated one compares as an invalid
      date and never passes. */
  function FromDay(today: Day): CalendarEvent -> bool {
    (e: CalendarEvent) => e.date.Some? && e.date.value >= today
  }

  function EventKey(e: CalendarEvent): int {
    if e.date.Some? then e.date.value else 0
  }

  function EarlierEvent(a: CalendarEvent, b: CalendarEvent): bool {
    EventKey(a) <= EventKey(b)
  }

  /** The first `n` events from today on, by date. */
  function Upcoming(events: seq<CalendarEvent>, today: Day, n: nat): seq<CalendarEvent> {
    Take(SortBy(Filter(events, FromDay(today)), EarlierEvent), n)
  }

  /** At most `n` events, all among the given ones, dated today or later and
      in date order; fewer than `n` only when fewer are that recent; and no
      event left out from today on falls before one that was kept. */
  lemma UpcomingSpec(events: seq<CalendarEvent>, today: Day, n: nat)
    ensures var r := Upcoming(events, today, n);
      |r| <= n
      && (forall i :: 0 <= i < |r| ==> r[i] in events && r[i].date.Some? && r[i].date.value >= today)
      && (forall i, j :: 0 <= i < j < |r| ==> r[i].date.value <= r[j].date.value)
      && |r| == MinInt(n, |Filter(events, FromDay(today))|)
      && (forall e :: e in events && e.date.Some? && e.date.value >= today && e !in r ==>
            forall i :: 0 <= i < |r| ==> r[i].date.value <= e.date.value)
  {
    var f := Filter(events, FromDay(today));
    var sorted := SortBy(f, EarlierEvent);
    SortBySorted(f, EarlierEvent);
    SortByMembers(f, EarlierEvent);
    TakeSorted(sorted, n, EarlierEvent);
    var r := Take(sorted, n);
    forall i | 0 <= i < |r| ensures r[i] in events && r[i].date.Some? && r[i].date.value >= today {
      assert r[i] == sorted[i];
      assert r[i] in f;
    }
    forall e | e in events && e.date.Some? && e.date.value >= today && e !in r
      ensures forall i :: 0 <= i < |r| ==> r[i].date.value <= e.date.value
    {
      assert e in f;
      assert e in sorted;
      var k :| 0 <= k < |sorted| && sorted[k] == e;
      assert k >= |r|;
      forall i | 0 <= i < |r| ensures r[i].date.value <= e.date.value {
        assert r[i] == sorted[i];
        assert EarlierEvent(sorted[i], sorted[k]);
      }
    }
  }

  /** `upcomingEvents`: the next five. */
  function UpcomingEvents(events: seq<CalendarEvent>, today: Day): seq<CalendarEvent> {
    Upcoming(events, today, 5)
  }
}
