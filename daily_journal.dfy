/** The class journal of one day: the timetable of the day, the form that
    records a class (a course, a unit and an hour-by-hour split between
    theory and practice) or an exam, and the handlers that save and delete
    entries. */
module DailyJournal {
  import opened Seqs
  import opened Dates
  import opened Types

  /** The form's state: `""` stands for "nothing selected". */
  datatype JournalForm = JournalForm(
    selectedCourse: Id, selectedUnit: Id, status: AttendanceStatus, notes: string,
    totalDuration: nat, paintMode: SessionType, hourDistribution: seq<SessionType>,
    examType: ExamType, selectedExamUnits: seq<Id>, examTopics: string, examDuration: nat)

  /** The form when the journal opens. */
  const InitialForm: JournalForm :=
    JournalForm("", "", Delivered, "", 1, Practice, [Theory], TheoryExam, [], "", 1)

  // --- The day's timetable ----------------------------------------------------------

  /** `dailySchedule`: the slots of the date's weekday, Sunday counted as 7. */
  function DailySchedule(schedule: seq<ScheduleSlot>, d: Day): seq<ScheduleSlot> {
    Filter(schedule, SlotOnWeekday(IsoWeekday(d)))
  }

  /** A slot belongs to the day's timetable exactly when it is in the
      schedule and falls on the date's weekday. */
  lemma DailyScheduleSpec(schedule: seq<ScheduleSlot>, d: Day, slot: ScheduleSlot)
    ensures slot in DailySchedule(schedule, d) <==> slot in schedule && slot.dayOfWeek == IsoWeekday(d)
  {
  }

  /** Weekends have no timetable unless a slot is numbered 6 or 7: a
      Saturday or a Sunday under a Monday-to-Friday timetable has no slots. */
  lemma WeekendSchedule(schedule: seq<ScheduleSlot>, d: Day)
    requires JsWeekday(d) == 0 || JsWeekday(d) == 6
    requires forall i :: 0 <= i < |schedule| ==> 1 <= schedule[i].dayOfWeek <= 5
    ensures DailySchedule(schedule, d) == []
  {
    FilterNone(schedule, SlotOnWeekday(IsoWeekday(d)));
  }

  function OfCourse(courseId: Id): ScheduleSlot -> bool {
    (s: ScheduleSlot) => s.courseId == courseId
  }

  /** `Array(n).fill(t)` */
  function Repeat(t: SessionType, n: nat): (r: seq<SessionType>)
    ensures |r| == n && forall i :: 0 <= i < n ==> r[i] == t
  {
    seq(n, i => t)
  }

  /** The hours a class of the course lasts by default: a forced duration
      when one is given (0 meaning none), otherwise what the day's timetable
      gives the course, and 1 when it gives nothing. */
  function DefaultDuration(schedule: seq<ScheduleSlot>, d: Day, courseId: Id, forceDuration: nat): (n: nat)
    ensures n >= 1
    ensures forceDuration > 0 ==> n == forceDuration
    ensures forceDuration == 0 && Sum(Filter(DailySchedule(schedule, d), OfCourse(courseId)), SlotHours) > 0 ==>
      n == Sum(Filter(DailySchedule(schedule, d), OfCourse(courseId)), SlotHours)
    ensures forceDuration == 0 && Sum(Filter(DailySchedule(schedule, d), OfCourse(courseId)), SlotHours) == 0 ==> n == 1
  {
    if forceDuration > 0 then forceDuration
    else
      var totalScheduled := Sum(Filter(DailySchedule(schedule, d), OfCourse(courseId)), SlotHours);
      if totalScheduled > 0 then totalScheduled else 1
  }

  /** `selectCourseAndCalcHours`: the course is selected with no unit, the
      class and the exam last the default duration, every hour starts as
      theory, practice is the paint mode and no exam unit is selected. */
  function SelectCourse(form: JournalForm, schedule: seq<ScheduleSlot>, d: Day, courseId: Id, forceDuration: nat): (r: JournalForm)
    ensures r.selectedCourse == courseId && r.selectedUnit == "" && r.selectedExamUnits == []
    ensures r.totalDuration >= 1 && r.examDuration == r.totalDuration
    ensures r.totalDuration == DefaultDuration(schedule, d, courseId, forceDuration)
    ensures |r.hourDistribution| == r.totalDuration && forall i :: 0 <= i < r.totalDuration ==> r.hourDistribution[i] == Theory
    ensures r.paintMode == Practice
    ensures r.status == form.status && r.notes == form.notes && r.examType == form.examType && r.examTopics == form.examTopics
  {
    var duration := DefaultDuration(schedule, d, courseId, forceDuration);
    form.(selectedCourse := courseId, selectedUnit := "", totalDuration := duration, examDuration := duration,
          hourDistribution := Repeat(Theory, duration), paintMode := Practice, selectedExamUnits := [])
  }

  /** The duration field: `Math.max(1, Math.min(10, value))`. */
  function ClampDuration(value: int): (n: nat)
    ensures 1 <= n <= 10
    ensures 1 <= value <= 10 ==> n == value
    ensures value > 10 ==> n == 10
    ensures value < 1 ==> n == 1
  {
    if value < 1 then 1 else if value > 10 then 10 else value
  }

  /** The exam's duration field: `Math.max(1, value)`, with no upper cap. */
  function ClampExamDuration(value: int): (n: nat)
    ensures n >= 1
    ensures value >= 1 ==> n == value
    ensures value < 1 ==> n == 1
  {
    if value < 1 then 1 else value
  }

  /** The exam field accepts what the class field accepts, and more. */
  lemma ExamDurationAtLeastClass(value: int)
    ensures ClampDuration(value) <= ClampExamDuration(value)
    ensures value <= 10 ==> ClampDuration(value) == ClampExamDuration(value)
  {
  }

  // --- The hour-by-hour split ---------------------------------------------------------

  /** The distribution-resize effect: a list already of the right length is
      kept; a shorter one is padded with theory hours; a longer one is cut. */
  method ResizeDistribution(prev: seq<SessionType>, totalDuration: nat) returns (newDist: seq<SessionType>)
    ensures |newDist| == totalDuration
    ensures forall i :: 0 <= i < |prev| && i < totalDuration ==> newDist[i] == prev[i]
    ensures forall i :: |prev| <= i < totalDuration ==> newDist[i] == Theory
  {
    if |prev| == totalDuration {
      return prev;
    }
    newDist := prev;
    if totalDuration > |prev| {
      var i := |prev|;
      while i < totalDuration
        invariant |prev| <= i <= totalDuration
        invariant |newDist| == i
        invariant newDist[..|prev|] == prev
        invariant forall k :: |prev| <= k < i ==> newDist[k] == Theory
      {
        newDist := newDist + [Theory];
        i := i + 1;
      }
    } else {
      return newDist[..totalDuration];
    }
  }

  /** `toggleHourType(index)`: hour `index` takes the paint mode; nothing
      else changes. */
  function PaintHour(dist: seq<SessionType>, index: nat, paintMode: SessionType): (r: seq<SessionType>)
    requires index < |dist|
    ensures |r| == |dist| && r[index] == paintMode
    ensures forall i :: 0 <= i < |dist| && i != index ==> r[i] == dist[i]
  {
    dist[index := paintMode]
  }

  function IsSession(t: SessionType): SessionType -> bool {
    (x: SessionType) => x == t
  }

  /** How many hours of the split are of type `t`. */
  function HoursOf(dist: seq<SessionType>, t: SessionType): nat {
    |Filter(dist, IsSession(t))|
  }

  /** Every hour is either theory or practice. */
  lemma HoursAddUp(dist: seq<SessionType>)
    ensures HoursOf(dist, Theory) + HoursOf(dist, Practice) == |dist|
  {
    FilterPartition(dist, IsSession(Theory), IsSession(Practice));
    assert |multiset(Filter(dist, IsSession(Theory)))| + |multiset(Filter(dist, IsSession(Practice)))| == |multiset(dist)|;
  }

  // --- Saving a class -------------------------------------------------------------------

  /** A log of the form's class of one session type. */
  function PartLog(form: JournalForm, d: Day, id: Id, hours: nat, kind: SessionType, notes: string): ClassLog {
    ClassLog(id, d, form.selectedCourse, form.selectedUnit, hours, kind, form.status, notes)
  }

  /** The logs a class is saved as: the theory part first, then the practice
      part, each only when it has hours. Only a class of both kinds marks the
      notes of each part. */
  function ClassLogs(form: JournalForm, d: Day, now: Instant): seq<ClassLog> {
    TheoryPart(form, d, now) + PracticePart(form, d, now)
  }

  function TheoryPart(form: JournalForm, d: Day, now: Instant): seq<ClassLog> {
    var theoreticalHours := HoursOf(form.hourDistribution, Theory);
    var practicalHours := HoursOf(form.hourDistribution, Practice);
    if theoreticalHours > 0 then
      [PartLog(form, d, IntToString(now) + "-T", theoreticalHours, Theory,
               if practicalHours > 0 then "(Parte Teórica) " + form.notes else form.notes)]
    else []
  }

  function PracticePart(form: JournalForm, d: Day, now: Instant): seq<ClassLog> {
    var theoreticalHours := HoursOf(form.hourDistribution, Theory);
    var practicalHours := HoursOf(form.hourDistribution, Practice);
    if practicalHours > 0 then
      [PartLog(form, d, IntToString(now) + "-P", practicalHours, Practice,
               if theoreticalHours > 0 then "(Parte Práctica) " + form.notes else form.notes)]
    else []
  }

  function ClassHours(logs: seq<ClassLog>): nat {
    Sum(logs, LogHours)
  }

  /** A saved class is one log per session type it has hours of (at most
      two, none for an empty split), every log of that date, course, unit and
      attendance status, their hours adding up to the length of the split. */
  lemma ClassLogsSpec(form: JournalForm, d: Day, now: Instant)
    ensures var added := ClassLogs(form, d, now);
      |added| <= 2
      && (|added| == 0 <==> form.hourDistribution == [])
      && ClassHours(added) == |form.hourDistribution|
      && (forall i :: 0 <= i < |added| ==>
            added[i].date == d && added[i].courseId == form.selectedCourse
            && added[i].unitId == form.selectedUnit && added[i].status == form.status && added[i].hours > 0)
      && (|added| == 2 ==>
            added[0].kind == Theory && added[1].kind == Practice
            && added[0].notes == "(Parte Teórica) " + form.notes
            && added[1].notes == "(Parte Práctica) " + form.notes)
      && (|added| == 1 ==> added[0].notes == form.notes)
    ensures var added, dist := ClassLogs(form, d, now), form.hourDistribution;
      |added| == (if HoursOf(dist, Theory) > 0 then 1 else 0) + (if HoursOf(dist, Practice) > 0 then 1 else 0)
      && (forall i :: 0 <= i < |added| ==> added[i].hours == HoursOf(dist, added[i].kind))
      && (|added| == 1 ==> added[0].kind == if HoursOf(dist, Theory) > 0 then Theory else Practice)
  {
    var dist := form.hourDistribution;
    HoursAddUp(dist);
    var tp, pp := TheoryPart(form, d, now), PracticePart(form, d, now);
    SumAppend(tp, pp, LogHours);
    assert ClassHours(tp) == HoursOf(dist, Theory) by {
      assert tp != [] ==> tp[1..] == [];
    }
    assert ClassHours(pp) == HoursOf(dist, Practice) by {
      assert pp != [] ==> pp[1..] == [];
    }
  }

  /** The form after a class is saved: no unit, no notes, one theory hour. */
  function ClearedClassForm(form: JournalForm): JournalForm {
    form.(notes := "", totalDuration := 1, selectedUnit := "", hourDistribution := [Theory])
  }

  /** `handleSaveClass`: nothing without a course and a unit; otherwise the
      class's logs are pushed one by one after the existing ones and the class
      fields of the form are cleared. */
  method SaveClass(form: JournalForm, logs: seq<ClassLog>, d: Day, now: Instant)
    returns (newLogs: seq<ClassLog>, newForm: JournalForm)
    ensures form.selectedCourse == "" || form.selectedUnit == "" ==> newLogs == logs && newForm == form
    ensures form.selectedCourse != "" && form.selectedUnit != "" ==>
      newLogs == logs + ClassLogs(form, d, now) && newForm == ClearedClassForm(form)
  {
    if form.selectedCourse == "" || form.selectedUnit == "" {
      return logs, form;
    }
    var theoreticalHours := HoursOf(form.hourDistribution, Theory);
    var practicalHours := HoursOf(form.hourDistribution, Practice);
    var added: seq<ClassLog> := [];
    if theoreticalHours > 0 {
      added := added + [PartLog(form, d, IntToString(now) + "-T", theoreticalHours, Theory,
                                if practicalHours > 0 then "(Parte Teórica) " + form.notes else form.notes)];
    }
    if practicalHours > 0 {
      added := added + [PartLog(form, d, IntToString(now) + "-P", practicalHours, Practice,
                                if theoreticalHours > 0 then "(Parte Práctica) " + form.notes else form.notes)];
    }
    newLogs := logs + added;
    newForm := ClearedClassForm(form);
  }

  // --- Saving an exam ------------------------------------------------------------------

  /** `handleSaveExam`: nothing without a course and at least one unit;
      otherwise one exam of the form's course, units, type, topics and
      duration is appended on the date, and the exam fields are reset. */
  function SaveExam(form: JournalForm, exams: seq<Exam>, d: Day, now: Instant): (r: (seq<Exam>, JournalForm))
    ensures form.selectedCourse == "" || form.selectedExamUnits == [] ==> r == (exams, form)
    ensures form.selectedCourse != "" && form.selectedExamUnits != [] ==>
      |r.0| == |exams| + 1 && r.0[..|exams|] == exams
      && r.0[|exams|] == Exam("exam-" + IntToString(now), form.selectedCourse, d, form.examType,
                              form.selectedExamUnits, form.examTopics, form.examDuration)
      && r.1 == form.(selectedExamUnits := [], examTopics := "", examType := TheoryExam, examDuration := 1)
  {
    if form.selectedCourse == "" || form.selectedExamUnits == [] then (exams, form)
    else
      var newExam := Exam("exam-" + IntToString(now), form.selectedCourse, d, form.examType,
                          form.selectedExamUnits, form.examTopics, form.examDuration);
      (exams + [newExam],
       form.(selectedExamUnits := [], examTopics := "", examType := TheoryExam, examDuration := 1))
  }

  function NotUnit(unitId: Id): Id -> bool {
    (id: Id) => id != unitId
  }

  /** `toggleExamUnit`: a selected unit is deselected, any other is added at
      the end. */
  function ToggleExamUnit(units: seq<Id>, unitId: Id): (r: seq<Id>)
    ensures unitId in r <==> unitId !in units
    ensures forall x :: x != unitId ==> (x in r <==> x in units)
  {
    if unitId in units then Filter(units, NotUnit(unitId)) else units + [unitId]
  }

  /** Selecting a unit and deselecting it again gives the selection back. */
  lemma ToggleExamUnitTwice(units: seq<Id>, unitId: Id)
    requires unitId !in units
    ensures ToggleExamUnit(ToggleExamUnit(units, unitId), unitId) == units
  {
    FilterAppend(units, [unitId], NotUnit(unitId));
    FilterAll(units, NotUnit(unitId));
  }

  // --- Deleting entries -----------------------------------------------------------------

  function LogNotId(id: Id): ClassLog -> bool {
    (l: ClassLog) => l.id != id
  }

  function ExamNotId(id: Id): Exam -> bool {
    (e: Exam) => e.id != id
  }

  /** `handleDeleteLog`: every log with that id goes, the others stay in
      order. */
  function DeleteLog(logs: seq<ClassLog>, id: Id): (r: seq<ClassLog>)
    ensures forall i :: 0 <= i < |r| ==> r[i].id != id
    ensures forall i :: 0 <= i < |logs| && logs[i].id != id ==> logs[i] in r
  {
    Filter(logs, LogNotId(id))
  }

  /** With unique ids, deleting the log at index `k` removes exactly it. */
  lemma DeleteLogRemovesOne(logs: seq<ClassLog>, k: nat)
    requires k < |logs|
    requires forall i, j :: 0 <= i < j < |logs| ==> logs[i].id != logs[j].id
    ensures DeleteLog(logs, logs[k].id) == logs[..k] + logs[k + 1..]
  {
    FilterRemovesOne(logs, k, LogNotId(logs[k].id));
  }

  /** `handleDeleteExam` */
  function DeleteExam(exams: seq<Exam>, id: Id): (r: seq<Exam>)
    ensures forall i :: 0 <= i < |r| ==> r[i].id != id
    ensures forall i :: 0 <= i < |exams| && exams[i].id != id ==> exams[i] in r
  {
    Filter(exams, ExamNotId(id))
  }

  lemma DeleteExamRemovesOne(exams: seq<Exam>, k: nat)
    requires k < |exams|
    requires forall i, j :: 0 <= i < j < |exams| ==> exams[i].id != exams[j].id
    ensures DeleteExam(exams, exams[k].id) == exams[..k] + exams[k + 1..]
  {
    FilterRemovesOne(exams, k, ExamNotId(exams[k].id));
  }

  /** The logs and exams the journal lists for the selected date. */
  function LogsForDate(logs: seq<ClassLog>, d: Day): (r: seq<ClassLog>)
    ensures forall i :: 0 <= i < |r| ==> r[i].date == d && r[i] in logs
    ensures forall i :: 0 <= i < |logs| && logs[i].date == d ==> logs[i] in r
  {
    Filter(logs, LogOnDate(d))
  }

  function ExamsForDate(exams: seq<Exam>, d: Day): (r: seq<Exam>)
    ensures forall i :: 0 <= i < |r| ==> r[i].date == d && r[i] in exams
    ensures forall i :: 0 <= i < |exams| && exams[i].date == d ==> exams[i] in r
  {
    Filter(exams, ExamOnDate(d))
  }
}
