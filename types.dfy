/** The application's records: the curriculum (courses, units, learning
    results, criteria and their associations with units), the class journal
    (logs and exams), the weekly schedule, the calendar, the notebook and the
    backup file. Dates are day numbers, instants are milliseconds, hours are
    whole numbers and weights are reals. */
module Types {
  import opened Wrappers
  import opened Seqs
  import opened Dates

  type Id = string

  /** The four states a unit of work can be in. */
  datatype UnitStatus = Pending | InProgress | Completed | Delayed {
    function Label(): string {
      match this
      case Pending => "Pendiente"
      case InProgress => "En Progreso"
      case Completed => "Completado"
      case Delayed => "Retrasado"
    }
  }

  /** Each status has its own label. */
  lemma UnitStatusLabelsDistinct(a: UnitStatus, b: UnitStatus)
    requires a.Label() == b.Label()
    ensures a == b
  {
  }

  /** Links a criterion with one unit of work (`utId`, possibly empty) and the
      instruments used to assess it there. */
  datatype Association = Association(id: Id, utId: Id, instruments: seq<string>)

  /** An assessment criterion of a learning result; `weight` is its share of
      the learning result in percent. */
  datatype Criterion = Criterion(
    id: Id, code: string, description: string, weight: real, raId: Id,
    associations: seq<Association>)

  /** A learning result ("RA") of a course; `weight` is its share of the
      course in percent. */
  datatype LearningResult = LearningResult(
    id: Id, code: string, description: string, weight: real, criteria: seq<Criterion>)

  /** A unit of work; `hoursRealized` and `status` are derived from the class
      logs. */
  datatype Unit = Unit(
    id: Id, title: string, description: string,
    hoursPlannedTheory: nat, hoursPlannedPractice: nat, hoursRealized: nat,
    status: UnitStatus, terms: seq<int>)
  {
    function PlannedHours(): nat {
      hoursPlannedTheory + hoursPlannedPractice
    }
  }

  datatype Course = Course(
    id: Id, name: string, cycle: string, grade: string,
    weeklyHours: nat, annualHours: nat, color: Option<string>,
    units: seq<Unit>, learningResults: seq<LearningResult>)

  datatype EvaluationType = Partial | Final | Extraordinary

  datatype Evaluation = Evaluation(id: Id, title: string, date: Day, kind: EvaluationType, completed: bool)

  /** `'Teórico' | 'Práctico'` */
  datatype ExamType = TheoryExam | PracticeExam {
    function Label(): string {
      match this
      case TheoryExam => "Teórico"
      case PracticeExam => "Práctico"
    }
  }

  /** An exam of a course covering some of its units; `duration` is in hours. */
  datatype Exam = Exam(
    id: Id, courseId: Id, date: Day, kind: ExamType, unitIds: seq<Id>,
    topics: string, duration: nat)

  /** A calendar legend entry (`label` in the application). */
  datatype LegendItem = LegendItem(id: Id, labelText: string, color: string)

  datatype EventType = Academic | Service | Order | Menu | Holiday | Note | Other

  /** A calendar entry. Only the id and the date are always there; an empty
      date string is `None`. */
  datatype CalendarEvent = CalendarEvent(
    id: Id, date: Option<Day>, title: Option<string>, description: Option<string>,
    kind: Option<EventType>, legendItemId: Option<Id>, linkedEventId: Option<Id>,
    completed: Option<bool>)

  datatype Priority = Low | Medium | High

  datatype NotebookTask = NotebookTask(
    id: Id, title: string, description: Option<string>, dueDate: Option<Day>,
    completed: bool, completedDate: Option<Instant>, createdDate: Instant,
    priority: Option<Priority>)

  /** A task as the notebook hands it over, before it is given an id. */
  datatype TaskDraft = TaskDraft(
    title: string, description: Option<string>, dueDate: Option<Day>,
    completed: bool, createdDate: Instant, priority: Option<Priority>)

  /** `'Teórica' | 'Práctica'` */
  datatype SessionType = Theory | Practice

  /** `'Impartida' | 'Falta Profesor' | 'Falta Alumnos' | 'Otras Incidencias'` */
  datatype AttendanceStatus = Delivered | TeacherAbsent | StudentsAbsent | OtherIncident

  /** One recorded class session of a unit. */
  datatype ClassLog = ClassLog(
    id: Id, date: Day, courseId: Id, unitId: Id, hours: nat,
    kind: SessionType, status: AttendanceStatus, notes: string)

  function LogHours(l: ClassLog): nat {
    l.hours
  }

  /** `exam.duration || 1`: the hours an exam counts for, one when no
      duration was recorded. */
  function ExamHours(e: Exam): (h: nat)
    ensures h >= 1 && (e.duration > 0 ==> h == e.duration)
  {
    if e.duration == 0 then 1 else e.duration
  }

  /** A weekly timetable slot; `dayOfWeek` is 1 for Monday up to 7. */
  datatype ScheduleSlot = ScheduleSlot(
    dayOfWeek: int, startTime: string, endTime: string, courseId: Id,
    defaultHours: nat, labelText: string)

  datatype SchoolInfo = SchoolInfo(name: string, logoUrl: string, academicYear: string, department: string)

  datatype TeacherInfo = TeacherInfo(name: string, role: string, avatarUrl: string)

  /** The backup file: a timestamp (`""` when a file left it out) and any
      subset of the collections. */
  datatype BackupData = BackupData(
    timestamp: string,
    schoolInfo: Option<SchoolInfo>, teacherInfo: Option<TeacherInfo>,
    courses: Option<seq<Course>>, schedule: Option<seq<ScheduleSlot>>,
    logs: Option<seq<ClassLog>>, calendarEvents: Option<seq<CalendarEvent>>,
    exams: Option<seq<Exam>>, notebookTasks: Option<seq<NotebookTask>>)

  /** The application's persistent state. */
  datatype AppState = AppState(
    courses: seq<Course>, schedule: seq<ScheduleSlot>, logs: seq<ClassLog>,
    schoolInfo: SchoolInfo, teacherInfo: TeacherInfo,
    calendarEvents: seq<CalendarEvent>, exams: seq<Exam>, notebookTasks: seq<NotebookTask>)

  /** The tests "is dated `d`" on logs and exams, and "falls on weekday `w`"
      on schedule slots. */
  function LogOnDate(d: Day): ClassLog -> bool {
    (l: ClassLog) => l.date == d
  }

  function ExamOnDate(d: Day): Exam -> bool {
    (e: Exam) => e.date == d
  }

  function SlotOnWeekday(w: int): ScheduleSlot -> bool {
    (s: ScheduleSlot) => s.dayOfWeek == w
  }

  function SlotHours(s: ScheduleSlot): nat {
    s.defaultHours
  }

  /** The tests "is of status `s`" on units, "belongs to course `id`" on logs
      and exams, and "is a session of type `t`" on logs. */
  function HasStatus(s: UnitStatus): Unit -> bool {
    (u: Unit) => u.status == s
  }

  function LogOfCourse(id: Id): ClassLog -> bool {
    (l: ClassLog) => l.courseId == id
  }

  function ExamOfCourse(id: Id): Exam -> bool {
    (e: Exam) => e.courseId == id
  }

  function AnnualHours(c: Course): nat {
    c.annualHours
  }

  function IsOfType(t: SessionType): ClassLog -> bool {
    (l: ClassLog) => l.kind == t
  }

  /** `units.filter(u => u.status === s).length` */
  function CountStatus(units: seq<Unit>, s: UnitStatus): (n: nat)
    ensures n <= |units|
    ensures n == 0 <==> forall i :: 0 <= i < |units| ==> units[i].status != s
  {
    FilterEmptyIff(units, HasStatus(s));
    |Filter(units, HasStatus(s))|
  }

  /** Counting over two lists of units adds up. */
  lemma {:induction false} CountStatusAppend(a: seq<Unit>, b: seq<Unit>, s: UnitStatus)
    ensures CountStatus(a + b, s) == CountStatus(a, s) + CountStatus(b, s)
  {
    FilterAppend(a, b, HasStatus(s));
  }

  /** One unit counts once for its own status and not at all for another. */
  lemma CountStatusSingle(u: Unit, s: UnitStatus)
    ensures CountStatus([u], s) == if u.status == s then 1 else 0
  {
    assert [u][0] == u;
  }

  /** The first unit counts once for its status, the rest count as before. */
  lemma CountStatusCons(units: seq<Unit>, s: UnitStatus)
    requires units != []
    ensures CountStatus(units, s) == (if units[0].status == s then 1 else 0) + CountStatus(units[1..], s)
  {
    assert units == [units[0]] + units[1..];
    CountStatusAppend([units[0]], units[1..], s);
    CountStatusSingle(units[0], s);
  }

  /** `units.find(u => u.id === id)` */
  function FindUnit(units: seq<Unit>, id: Id): (r: Option<Unit>)
    ensures r.Some? ==> r.value in units && r.value.id == id
    ensures r.None? <==> forall i :: 0 <= i < |units| ==> units[i].id != id
  {
    if units == [] then None
    else if units[0].id == id then Some(units[0])
    else FindUnit(units[1..], id)
  }

  /** The unit found is the first one with that id. */
  lemma {:induction false} FindUnitFirst(units: seq<Unit>, id: Id)
    requires FindUnit(units, id).Some?
    ensures exists i :: 0 <= i < |units| && units[i] == FindUnit(units, id).value && forall j :: 0 <= j < i ==> units[j].id != id
  {
    if units[0].id != id {
      FindUnitFirst(units[1..], id);
      var i :| 0 <= i < |units[1..]| && units[1..][i] == FindUnit(units[1..], id).value
        && forall j :: 0 <= j < i ==> units[1..][j].id != id;
      assert units[i + 1] == FindUnit(units, id).value;
    } else {
      assert units[0] == FindUnit(units, id).value;
    }
  }
}
