/** Backups: choosing what to export, the record that is written, and the
    check a file must pass before its contents replace the application's. */
module BackupManager {
  import opened Wrappers
  import opened Dates
  import opened Types
  import App

  // --- Export selection -------------------------------------------------------------

  /** Which collections go into the backup; `settings` covers the school and
      the teacher, and `logs` covers the exams as well. */
  datatype ExportSelection = ExportSelection(
    courses: bool, schedule: bool, logs: bool, calendar: bool, tasks: bool, settings: bool)

  /** Everything is selected at first. */
  const INITIAL_SELECTION := ExportSelection(true, true, true, true, true, true)

  datatype ExportKey = CoursesKey | ScheduleKey | LogsKey | CalendarKey | TasksKey | SettingsKey

  function Selected(sel: ExportSelection, key: ExportKey): bool {
    match key
    case CoursesKey => sel.courses
    case ScheduleKey => sel.schedule
    case LogsKey => sel.logs
    case CalendarKey => sel.calendar
    case TasksKey => sel.tasks
    case SettingsKey => sel.settings
  }

  /** `handleToggleExport`: that flag is flipped and every other flag kept. */
  function ToggleExport(sel: ExportSelection, key: ExportKey): (r: ExportSelection)
    ensures Selected(r, key) == !Selected(sel, key)
    ensures forall k :: k != key ==> Selected(r, k) == Selected(sel, k)
  {
    match key
    case CoursesKey => sel.(courses := !sel.courses)
    case ScheduleKey => sel.(schedule := !sel.schedule)
    case LogsKey => sel.(logs := !sel.logs)
    case CalendarKey => sel.(calendar := !sel.calendar)
    case TasksKey => sel.(tasks := !sel.tasks)
    case SettingsKey => sel.(settings := !sel.settings)
  }

  /** Toggling the same flag twice restores the selection. */
  lemma ToggleTwice(sel: ExportSelection, key: ExportKey)
    ensures ToggleExport(ToggleExport(sel, key), key) == sel
  {
  }

  // --- The backup record ------------------------------------------------------------------

  function When<T>(b: bool, x: T): (r: Option<T>)
    ensures r.Some? <==> b
    ensures b ==> r.value == x
  {
    if b then Some(x) else None
  }

  /** `handleExport`'s record: stamped with the moment of the export, each
      collection present exactly when its flag is on. */
  function BuildBackup(s: AppState, sel: ExportSelection, now: Instant): (b: BackupData)
    ensures b.timestamp == IsoTimestamp(now) && b.timestamp != ""
    ensures b.schoolInfo == When(sel.settings, s.schoolInfo) && b.teacherInfo == When(sel.settings, s.teacherInfo)
    ensures b.courses == When(sel.courses, s.courses) && b.schedule == When(sel.schedule, s.schedule)
    ensures b.logs == When(sel.logs, s.logs) && b.exams == When(sel.logs, s.exams)
    ensures b.calendarEvents == When(sel.calendar, s.calendarEvents)
    ensures b.notebookTasks == When(sel.tasks, s.notebookTasks)
  {
    BackupData(
      IsoTimestamp(now),
      When(sel.settings, s.schoolInfo), When(sel.settings, s.teacherInfo),
      When(sel.courses, s.courses), When(sel.schedule, s.schedule),
      When(sel.logs, s.logs), When(sel.calendar, s.calendarEvents),
      When(sel.logs, s.exams), When(sel.tasks, s.notebookTasks))
  }

  /** The downloaded file's name: `backup_culiplan_` and the export's date. */
  function BackupFileName(now: Instant): (name: string)
    ensures name == "backup_culiplan_" + IsoDate(DayOfInstant(now)) + ".json"
    ensures |name| >= 16 + 10 + 5
  {
    "backup_culiplan_" + IsoDate(DayOfInstant(now)) + ".json"
  }

  // --- Importing ------------------------------------------------------------------------------

  /** The file's contents as read: `None` when it is not JSON. */
  type Parsed = Option<BackupData>

  /** `handleFileImport`'s gate: a file that parses, carries a timestamp and
      whose restoring is confirmed is imported; anything else imports
      nothing. */
  function ImportGate(parsed: Parsed, confirmed: bool): (r: Option<BackupData>)
    ensures r.Some? <==> parsed.Some? && parsed.value.timestamp != "" && confirmed
    ensures r.Some? ==> r == parsed
  {
    match parsed
    case None => None
    case Some(json) => if json.timestamp != "" && confirmed then Some(json) else None
  }

  /** The application's state after a file is offered. */
  function RestoreFrom(s: AppState, parsed: Parsed, confirmed: bool): (r: AppState)
    ensures ImportGate(parsed, confirmed).None? ==> r == s
    ensures ImportGate(parsed, confirmed).Some? ==> r == App.ImportData(s, ImportGate(parsed, confirmed).value)
  {
    match ImportGate(parsed, confirmed)
    case None => s
    case Some(data) => App.ImportData(s, data)
  }

  /** Every exported backup carries a timestamp, so the gate lets it through
      once confirmed. */
  lemma ExportedPassesGate(s: AppState, sel: ExportSelection, now: Instant)
    ensures ImportGate(Some(BuildBackup(s, sel, now)), true) == Some(BuildBackup(s, sel, now))
  {
  }

  /** Exporting everything and restoring the file brings back every
      collection, whatever the application held in between. */
  lemma FullRoundTrip(s: AppState, other: AppState, now: Instant)
    ensures RestoreFrom(other, Some(BuildBackup(s, INITIAL_SELECTION, now)), true) == s
  {
    var b := BuildBackup(s, INITIAL_SELECTION, now);
    var r := App.ImportData(other, b);
    assert r.courses == s.courses && r.schedule == s.schedule && r.logs == s.logs;
    assert r.schoolInfo == s.schoolInfo && r.teacherInfo == s.teacherInfo;
    assert r.calendarEvents == s.calendarEvents && r.exams == s.exams && r.notebookTasks == s.notebookTasks;
  }

  /** Restoring a partial backup replaces the selected collections and keeps
      the rest of the current state: the exams go with the logs, the teacher
      with the school. */
  lemma PartialRoundTrip(s: AppState, other: AppState, sel: ExportSelection, now: Instant)
    ensures var r := RestoreFrom(other, Some(BuildBackup(s, sel, now)), true);
      r.courses == (if sel.courses then s.courses else other.courses)
      && r.schedule == (if sel.schedule then s.schedule else other.schedule)
      && r.logs == (if sel.logs then s.logs else other.logs)
      && r.exams == (if sel.logs then s.exams else other.exams)
      && r.calendarEvents == (if sel.calendar then s.calendarEvents else other.calendarEvents)
      && r.notebookTasks == (if sel.tasks then s.notebookTasks else other.notebookTasks)
      && r.schoolInfo == (if sel.settings then s.schoolInfo else other.schoolInfo)
      && r.teacherInfo == (if sel.settings then s.teacherInfo else other.teacherInfo)
  {
  }
}
