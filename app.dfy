/** The application shell: bringing each unit's realised hours and status up
    to date with the class logs, the notebook task handlers and the import of
    a backup. */
module App {
  import opened Wrappers
  import opened Seqs
  import opened Dates
  import opened Types

  // --- Import ----------------------------------------------------------------

  /** `handleImportData`: every collection the backup holds replaces the
      current one; the others stay. */
  function ImportData(s: AppState, data: BackupData): (r: AppState)
    ensures data.courses.Some? ==> r.courses == data.courses.value
    ensures data.courses.None? ==> r.courses == s.courses
    ensures data.schedule.Some? ==> r.schedule == data.schedule.value
    ensures data.schedule.None? ==> r.schedule == s.schedule
    ensures data.logs.Some? ==> r.logs == data.logs.value
    ensures data.logs.None? ==> r.logs == s.logs
    ensures data.schoolInfo.Some? ==> r.schoolInfo == data.schoolInfo.value
    ensures data.schoolInfo.None? ==> r.schoolInfo == s.schoolInfo
    ensures data.teacherInfo.Some? ==> r.teacherInfo == data.teacherInfo.value
    ensures data.teacherInfo.None? ==> r.teacherInfo == s.teacherInfo
    ensures data.calendarEvents.Some? ==> r.calendarEvents == data.calendarEvents.value
    ensures data.calendarEvents.None? ==> r.calendarEvents == s.calendarEvents
    ensures data.exams.Some? ==> r.exams == data.exams.value
    ensures data.exams.None? ==> r.exams == s.exams
    ensures data.notebookTasks.Some? ==> r.notebookTasks == data.notebookTasks.value
    ensures data.notebookTasks.None? ==> r.notebookTasks == s.notebookTasks
  {
    AppState(
      data.courses.GetOr(s.courses), data.schedule.GetOr(s.schedule), data.logs.GetOr(s.logs),
      data.schoolInfo.GetOr(s.schoolInfo), data.teacherInfo.GetOr(s.teacherInfo),
      data.calendarEvents.GetOr(s.calendarEvents), data.exams.GetOr(s.exams),
      data.notebookTasks.GetOr(s.notebookTasks))
  }

  /** Importing the same backup twice is the same as importing it once. */
  lemma ImportIdempotent(s: AppState, data: BackupData)
    ensures ImportData(ImportData(s, data), data) == ImportData(s, data)
  {
  }

  // --- Logs to units -----------------------------------------------------------

  /** The test "is a log of unit `unitId` of course `courseId`". */
  function IsUnitLog(courseId: Id, unitId: Id): ClassLog -> bool {
    (l: ClassLog) => l.courseId == courseId && l.unitId == unitId
  }

  /** The logs of one unit of one course. */
  function UnitLogs(logs: seq<ClassLog>, courseId: Id, unitId: Id): (r: seq<ClassLog>)
    ensures forall i :: 0 <= i < |r| ==> r[i].courseId == courseId && r[i].unitId == unitId
  {
    Filter(logs, IsUnitLog(courseId, unitId))
  }

  /** Theory hours plus practice hours of a unit's logs. */
  function RealizedHours(logs: seq<ClassLog>, courseId: Id, unitId: Id): nat {
    var unitLogs := UnitLogs(logs, courseId, unitId);
    Sum(Filter(unitLogs, IsOfType(Theory)), LogHours) + Sum(Filter(unitLogs, IsOfType(Practice)), LogHours)
  }

  /** Every session is theory or practice, so a unit's realised hours are the
      hours of all its logs. */
  lemma RealizedHoursAllLogs(logs: seq<ClassLog>, courseId: Id, unitId: Id)
    ensures RealizedHours(logs, courseId, unitId) == Sum(UnitLogs(logs, courseId, unitId), LogHours)
  {
    SumSplit(UnitLogs(logs, courseId, unitId), IsOfType(Theory), IsOfType(Practice), LogHours);
  }

  /** Logs added later only add hours. */
  lemma RealizedHoursGrow(logs: seq<ClassLog>, more: seq<ClassLog>, courseId: Id, unitId: Id)
    ensures RealizedHours(logs + more, courseId, unitId)
         == RealizedHours(logs, courseId, unitId) + RealizedHours(more, courseId, unitId)
  {
    RealizedHoursAllLogs(logs, courseId, unitId);
    RealizedHoursAllLogs(more, courseId, unitId);
    RealizedHoursAllLogs(logs + more, courseId, unitId);
    FilterAppend(logs, more, IsUnitLog(courseId, unitId));
    SumAppend(UnitLogs(logs, courseId, unitId), UnitLogs(more, courseId, unitId), LogHours);
  }

  /** The status the logs give a unit: completed once the planned hours (if
      any) are reached, in progress once any hour is logged, pending
      otherwise. It is never `Delayed`. */
  function DerivedStatus(realized: nat, planned: nat): (s: UnitStatus)
    ensures s == Completed <==> realized >= planned && planned > 0
    ensures s == InProgress <==> 0 < realized && (realized < planned || planned == 0)
    ensures s == Pending <==> realized == 0
    ensures s != Delayed
  {
    if realized >= planned && planned > 0 then Completed
    else if realized > 0 then InProgress
    else Pending
  }

  /** A unit brought up to date with the logs; an up-to-date unit is returned
      as it is. */
  function SyncedUnit(u: Unit, logs: seq<ClassLog>, courseId: Id): Unit {
    var totalRealized := RealizedHours(logs, courseId, u.id);
    var newStatus := DerivedStatus(totalRealized, u.PlannedHours());
    if u.hoursRealized != totalRealized || u.status != newStatus then
      u.(hoursRealized := totalRealized, status := newStatus)
    else u
  }

  /** Reconciling a unit sets its realised hours to the hours logged for it
      and its status to the derived one, and changes nothing else. */
  lemma SyncedUnitSpec(u: Unit, logs: seq<ClassLog>, courseId: Id)
    ensures var r := SyncedUnit(u, logs, courseId);
      r.hoursRealized == Sum(UnitLogs(logs, courseId, u.id), LogHours)
      && r.status == DerivedStatus(r.hoursRealized, u.PlannedHours())
      && r.(hoursRealized := u.hoursRealized, status := u.status) == u
  {
    RealizedHoursAllLogs(logs, courseId, u.id);
  }

  function SyncedUnits(units: seq<Unit>, logs: seq<ClassLog>, courseId: Id): (r: seq<Unit>)
    ensures |r| == |units|
    ensures forall i :: 0 <= i < |units| ==> r[i] == SyncedUnit(units[i], logs, courseId)
  {
    seq(|units|, i requires 0 <= i < |units| => SyncedUnit(units[i], logs, courseId))
  }

  function SyncedCourse(c: Course, logs: seq<ClassLog>): Course {
    c.(units := SyncedUnits(c.units, logs, c.id))
  }

  /** The courses after the reconciliation pass. */
  function SyncedCourses(courses: seq<Course>, logs: seq<ClassLog>): (r: seq<Course>)
    ensures |r| == |courses|
    ensures forall i :: 0 <= i < |courses| ==> r[i] == SyncedCourse(courses[i], logs)
  {
    seq(|courses|, i requires 0 <= i < |courses| => SyncedCourse(courses[i], logs))
  }

  /** The callback that reconciles one unit: it recomputes the realised
      hours and the status, and reports whether either differs. */
  method SyncUnit(unit: Unit, logs: seq<ClassLog>, courseId: Id) returns (newUnit: Unit, changed: bool)
    ensures newUnit == SyncedUnit(unit, logs, courseId)
    ensures changed <==> newUnit != unit
  {
    var unitLogs := UnitLogs(logs, courseId, unit.id);
    var theoryHours := Sum(Filter(unitLogs, IsOfType(Theory)), LogHours);
    var practiceHours := Sum(Filter(unitLogs, IsOfType(Practice)), LogHours);
    var totalRealized := theoryHours + practiceHours;
    var totalPlanned := unit.hoursPlannedTheory + unit.hoursPlannedPractice;
    var newStatus := unit.status;
    if totalRealized >= totalPlanned && totalPlanned > 0 {
      newStatus := Completed;
    } else if totalRealized > 0 {
      newStatus := InProgress;
    } else {
      newStatus := Pending;
    }
    if unit.hoursRealized != totalRealized || unit.status != newStatus {
      changed := true;
      newUnit := unit.(hoursRealized := totalRealized, status := newStatus);
    } else {
      changed := false;
      newUnit := unit;
    }
  }

  /** The callback that reconciles one course: it reconciles each unit and
      reports whether any unit changed. */
  method SyncCourseUnits(course: Course, logs: seq<ClassLog>) returns (newUnits: seq<Unit>, courseChanged: bool)
    ensures newUnits == SyncedUnits(course.units, logs, course.id)
    ensures courseChanged <==> newUnits != course.units
  {
    var units := course.units;
    ghost var target := SyncedUnits(units, logs, course.id);
    courseChanged := false;
    newUnits := [];
    for j := 0 to |units|
      invariant newUnits == target[..j]
      invariant courseChanged <==> newUnits != units[..j]
    {
      var newUnit, changed := SyncUnit(units[j], logs, course.id);
      if changed {
        courseChanged := true;
      }
      PrefixStep(target, units, j, newUnits, newUnit);
      newUnits := newUnits + [newUnit];
    }
    assert units[..|units|] == units && target[..|units|] == target;
  }

  /** The reconciliation effect: each course is reconciled, and the course
      list is replaced only if some unit changed (`hasChanges`). */
  method SyncUnitsWithLogs(courses: seq<Course>, logs: seq<ClassLog>) returns (result: seq<Course>, hasChanges: bool)
    ensures result == SyncedCourses(courses, logs)
    ensures hasChanges <==> SyncedCourses(courses, logs) != courses
  {
    ghost var target := SyncedCourses(courses, logs);
    hasChanges := false;
    var newCourses: seq<Course> := [];
    for i := 0 to |courses|
      invariant newCourses == target[..i]
      invariant hasChanges <==> newCourses != courses[..i]
    {
      var course := courses[i];
      var newUnits, courseChanged := SyncCourseUnits(course, logs);
      var newCourse := course;
      if courseChanged {
        hasChanges := true;
        newCourse := course.(units := newUnits);
      }
      PrefixStep(target, courses, i, newCourses, newCourse);
      newCourses := newCourses + [newCourse];
    }
    assert courses[..|courses|] == courses && target[..|courses|] == target;
    if hasChanges {
      result := newCourses;
    } else {
      result := courses;
    }
  }

  /** Running the pass on its own output changes nothing. */
  lemma SyncIdempotent(courses: seq<Course>, logs: seq<ClassLog>)
    ensures SyncedCourses(SyncedCourses(courses, logs), logs) == SyncedCourses(courses, logs)
  {
    var once := SyncedCourses(courses, logs);
    forall i | 0 <= i < |courses|
      ensures SyncedCourse(once[i], logs) == once[i]
    {
      SyncedCourseStable(courses[i], logs);
    }
  }

  /** A reconciled course is left alone by a second reconciliation. */
  lemma SyncedCourseStable(c: Course, logs: seq<ClassLog>)
    ensures SyncedCourse(SyncedCourse(c, logs), logs) == SyncedCourse(c, logs)
  {
    var units := SyncedUnits(c.units, logs, c.id);
    forall j | 0 <= j < |units|
      ensures SyncedUnit(units[j], logs, c.id) == units[j]
    {
      SyncedUnitStable(c.units[j], logs, c.id);
    }
    assert SyncedUnits(units, logs, c.id) == units;
  }

  lemma SyncedUnitStable(u: Unit, logs: seq<ClassLog>, courseId: Id)
    ensures SyncedUnit(SyncedUnit(u, logs, courseId), logs, courseId) == SyncedUnit(u, logs, courseId)
  {
    var once := SyncedUnit(u, logs, courseId);
    assert once.id == u.id && once.PlannedHours() == u.PlannedHours();
  }

  /** With the planned hours fixed, more logs never take a completed unit out
      of `Completed`. */
  lemma CompletedStaysCompleted(u: Unit, logs: seq<ClassLog>, more: seq<ClassLog>, courseId: Id)
    requires SyncedUnit(u, logs, courseId).status == Completed
    ensures SyncedUnit(u, logs + more, courseId).status == Completed
  {
    RealizedHoursGrow(logs, more, courseId, u.id);
  }

  // --- Notebook tasks ------------------------------------------------------------

  /** `handleAddTask`: the draft with its id, appended. */
  function AddTask(tasks: seq<NotebookTask>, draft: TaskDraft, id: Id): (r: seq<NotebookTask>)
    ensures |r| == |tasks| + 1 && r[..|tasks|] == tasks
    ensures var t := r[|tasks|];
      t.id == id && t.title == draft.title && t.description == draft.description
      && t.dueDate == draft.dueDate && t.completed == draft.completed && t.completedDate.None?
      && t.createdDate == draft.createdDate && t.priority == draft.priority
  {
    tasks + [NotebookTask(id, draft.title, draft.description, draft.dueDate, draft.completed,
                          None, draft.createdDate, draft.priority)]
  }

  /** `handleDeleteTask` */
  function DeleteTask(tasks: seq<NotebookTask>, id: Id): (r: seq<NotebookTask>)
    ensures forall i :: 0 <= i < |r| ==> r[i].id != id
    ensures forall i :: 0 <= i < |tasks| && tasks[i].id != id ==> tasks[i] in r
  {
    Filter(tasks, TaskNotId(id))
  }

  function TaskNotId(id: Id): NotebookTask -> bool {
    (t: NotebookTask) => t.id != id
  }

  /** With unique ids, deleting the task at index `k` removes exactly it. */
  lemma DeleteTaskRemovesOne(tasks: seq<NotebookTask>, k: nat)
    requires k < |tasks|
    requires forall i, j :: 0 <= i < j < |tasks| ==> tasks[i].id != tasks[j].id
    ensures DeleteTask(tasks, tasks[k].id) == tasks[..k] + tasks[k + 1..]
  {
    FilterRemovesOne(tasks, k, TaskNotId(tasks[k].id));
  }

  /** Deleting a task just added under a fresh id gives the list back. */
  lemma DeleteAddedTask(tasks: seq<NotebookTask>, draft: TaskDraft, id: Id)
    requires forall i :: 0 <= i < |tasks| ==> tasks[i].id != id
    ensures DeleteTask(AddTask(tasks, draft, id), id) == tasks
  {
    var p := TaskNotId(id);
    var added := AddTask(tasks, draft, id);
    assert added == tasks + [added[|tasks|]];
    FilterAppend(tasks, [added[|tasks|]], p);
    FilterAll(tasks, p);
  }

  /** The calendar note that records a completed task. */
  function CompletionEvent(t: NotebookTask, now: Instant): CalendarEvent {
    CalendarEvent(
      "task-completed-" + t.id, Some(DayOfInstant(now)), Some("✓ " + t.title),
      Some(if t.description.Some? && t.description.value != "" then t.description.value else "Tarea completada"),
      Some(Note), None, None, Some(true))
  }

  /** One task toggled: done becomes pending with no completion date, pending
      becomes done at `now`. */
  function ToggledTask(t: NotebookTask, now: Instant): (r: NotebookTask)
    ensures r.completed == !t.completed
    ensures r.completedDate == if r.completed then Some(now) else None
    ensures r.(completed := t.completed, completedDate := t.completedDate) == t
  {
    var isCompleting := !t.completed;
    t.(completed := isCompleting, completedDate := if isCompleting then Some(now) else None)
  }

  /** The notes that completing the tasks with id `taskId` adds, in task
      order. */
  function CompletionEvents(tasks: seq<NotebookTask>, taskId: Id, now: Instant): seq<CalendarEvent> {
    if tasks == [] then []
    else
      (if tasks[0].id == taskId && !tasks[0].completed then [CompletionEvent(tasks[0], now)] else [])
      + CompletionEvents(tasks[1..], taskId, now)
  }

  /** `handleToggleTask`: every task with that id is toggled, every other
      task is kept, and a note is appended to the calendar for each task that
      becomes completed. */
  function ToggleTask(s: AppState, taskId: Id, now: Instant): (r: AppState)
    ensures |r.notebookTasks| == |s.notebookTasks|
    ensures forall i :: 0 <= i < |s.notebookTasks| ==>
      r.notebookTasks[i] == (if s.notebookTasks[i].id == taskId then ToggledTask(s.notebookTasks[i], now)
                             else s.notebookTasks[i])
    ensures r.calendarEvents == s.calendarEvents + CompletionEvents(s.notebookTasks, taskId, now)
    ensures |r.calendarEvents| >= |s.calendarEvents| && r.calendarEvents[..|s.calendarEvents|] == s.calendarEvents
    ensures r.(notebookTasks := s.notebookTasks, calendarEvents := s.calendarEvents) == s
  {
    var tasks := s.notebookTasks;
    var toggled := seq(|tasks|, i requires 0 <= i < |tasks| =>
      if tasks[i].id == taskId then ToggledTask(tasks[i], now) else tasks[i]);
    s.(notebookTasks := toggled, calendarEvents := s.calendarEvents + CompletionEvents(tasks, taskId, now))
  }

  /** No task with that id: no note. */
  lemma {:induction false} NoCompletionEvents(tasks: seq<NotebookTask>, taskId: Id, now: Instant)
    requires forall i :: 0 <= i < |tasks| ==> tasks[i].id != taskId
    ensures CompletionEvents(tasks, taskId, now) == []
  {
    if tasks != [] {
      NoCompletionEvents(tasks[1..], taskId, now);
    }
  }

  /** With ids unique, toggling a pending task appends exactly its completion
      note, and toggling a done task appends nothing. */
  lemma {:induction false} OneCompletionEvent(tasks: seq<NotebookTask>, k: nat, now: Instant)
    requires k < |tasks|
    requires forall i :: 0 <= i < |tasks| && i != k ==> tasks[i].id != tasks[k].id
    ensures CompletionEvents(tasks, tasks[k].id, now)
         == if tasks[k].completed then [] else [CompletionEvent(tasks[k], now)]
  {
    if k == 0 {
      NoCompletionEvents(tasks[1..], tasks[k].id, now);
    } else {
      assert tasks[0].id != tasks[k].id;
      OneCompletionEvent(tasks[1..], k - 1, now);
    }
  }
}
