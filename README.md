# CuliPlan (GastroAgenda) derived-state engine in Dafny

CuliPlan is a planning notebook for vocational cookery teachers. The
teacher keeps a curriculum of courses (modules), each with its units of
work, its learning results (RA), their evaluation criteria and the
associations that tie a criterion to units. Beside the curriculum the
teacher keeps a class journal of session logs and exams, a weekly
timetable, a calendar of events, and a notebook of tasks. Everything else
the application shows is derived from these records:

- the realized hours and status of every unit, reconciled from the
  journal;
- the progress of each learning result and each criterion;
- the dashboard counters, charts and upcoming events;
- the reports;
- the calendar's day colouring and ICS export;
- the kitchen-logistics reminders generated for a service;
- the backup file.

This project models those derivations and the editing handlers that feed
them, as Dafny values, functions and methods, and proves what they
promise.

The modules follow the program's files:

| module | models |
|---|---|
| `Types` | the records of `types.ts` |
| `Dates` | day numbers, weekdays, ISO dates and timestamps |
| `Text` | digits, trimming, padding and splitting of strings |
| `Seqs` | filter, sums, stable insertion sort, take |
| `Numbers` | `Math.round`, ratios and percentages |
| `Wrappers` | `Option` |
| `App` | `App.tsx`: unit/log reconciliation, backup import, notebook task handlers |
| `CourseConfigurator` | the curriculum editor |
| `UnitsTracker` | per-RA criterion progress and per-unit progress |
| `ReportsCenter` | global and per-module reports, achieved criteria, incidents |
| `Dashboard` | the dashboard statistics, effort chart, next evaluation, upcoming events |
| `NotebookPanel` | task lists, urgency and the add-task form |
| `ScheduleConfigurator` | the timetable editor and grid placement |
| `DailyJournal` | the class journal: default durations, hour distribution, saving classes and exams |
| `CalendarView` | day status, legend markers, event creation, reminders and ICS export |
| `KitchenLogic` | `utils/kitchenLogic.ts`: the logistics reminders of a service |
| `BackupManager` | export selection, the backup record and the import gate |

Conventions:

- A date is an `int` count of days since 1970-01-01, which was a
  Thursday. An instant is an `int` count of milliseconds.
- A date field that may be empty is `Option<Day>`.
- Hours are `nat`. Weights and percentages are `real`.
- `Math.round` of a non-negative real `x` is `(x + 0.5).Floor`.
- New ids, `Date.now()` and today's date are parameters of the handlers
  that use them.
- Handlers that build their result step by step are methods (among them
  the event creation, the terms toggle and the logistics generator). Those
  that loop in the source carry loop invariants:
  - the reconciliation of units with logs;
  - `getRaStats`' accumulation;
  - the resize of the hour distribution;
  - the last-seven-days chart;
  - the ICS writer.

  Each is proved equal to a specification function. The properties are
  stated as lemmas about that function.

## Model

| member | source | states |
|---|---|---|
| Types.UnitStatusLabelsDistinct | types.ts:2-7 | the four unit statuses have four different labels |
| Types.ExamHours | components/ReportsCenter.tsx:28 | `duration \|\| 1`: an exam counts at least one hour, and its duration when one is recorded |
| Types.CountStatus | components/ReportsCenter.tsx:23-24 | the count is at most the number of units, and zero exactly when no unit has that status |
| Types.CountStatusAppend | components/ReportsCenter.tsx:23-24 | counting over two lists of units is the sum of the two counts |
| Types.CountStatusSingle | components/ReportsCenter.tsx:23-24 | one unit counts 1 for its own status and 0 for any other |
| Types.CountStatusCons | components/ReportsCenter.tsx:23-24 | the first unit counts for its status, and the rest count as they would alone |
| Types.FindUnit | components/ReportsCenter.tsx:239-242 | the unit found has that id; none is found exactly when no unit has it |
| Types.FindUnitFirst | components/ReportsCenter.tsx:239-242 | the unit found is the first with that id |
| Dates.JsWeekday | utils/kitchenLogic.ts:23 | `getDay()` is in 0..6 |
| Dates.IsoWeekday | components/CalendarView.tsx:162-163 | Sunday becomes 7; every other day keeps its `getDay()` number |
| Dates.WeekdayStep | utils/kitchenLogic.ts:23 | the next day's weekday is one more, wrapping modulo 7; a week later it is the same |
| Dates.DayOfInstant | components/Dashboard.tsx:104-105 | the day of an instant is the one whose 24 hours contain it |
| Dates.StartOfDay | components/Dashboard.tsx:104-105 | the midnight that starts a day belongs to that day |
| Dates.CivilFromDays | utils/kitchenLogic.ts:16-18 | the civil date of a day number is a valid proleptic Gregorian date: month in 1..12, day within the month's length |
| Dates.MonthLength | utils/kitchenLogic.ts:16-18 | a month has 28 to 31 days, and 29 exactly in February of a leap year |
| Dates.DaysFromCivilOfCivil | utils/kitchenLogic.ts:16-18 | converting a day number to its date and back gives the day number |
| Dates.CivilOfDaysFromCivil | utils/kitchenLogic.ts:16-18 | converting a valid date to its day number and back gives the date |
| Dates.DayOfMonthOffset | components/CalendarView.tsx:93 | day d of a month is d - 1 days after its first |
| Dates.FebruaryStep | components/CalendarView.tsx:93 | 1 March is 1 February plus 29 days in a leap year and 28 otherwise, in every year of the proleptic Gregorian calendar |
| Dates.MonthStep | components/CalendarView.tsx:93 | the first of the next month is the first of this month plus its length; December is followed by January of the next year |
| Dates.NextDateDays | utils/kitchenLogic.ts:16-18 | the date after a valid date is valid and one day number later |
| Dates.NextDay | utils/kitchenLogic.ts:16-18 | the date of the next day number is the next calendar date: the next day of the month, the first of the next month, or New Year's Day |
| Dates.IsoYear | utils/kitchenLogic.ts:16-18 | a year in 0..9999 is written as four digits whose value is the year |
| Dates.IsoDateParts | utils/kitchenLogic.ts:16-18 | `formatDate` is the year, the two-digit month and the two-digit day joined by dashes |
| Dates.IsoDateShape | utils/kitchenLogic.ts:16-18 | for years 0..9999 the ISO date has 10 characters, dashes at 4 and 7 and digits elsewhere |
| Dates.IsoTimestamp | components/BackupManager.tsx:38 | the export timestamp is at least 24 characters long, so never empty |
| Dates.CompactIsoDate | components/CalendarView.tsx:312-335 | removing the dashes of an ISO date leaves year, month and day; for years 0..9999 that is 8 digits |
| Dates.GoldenServiceDay | constants.ts:188-224 | 25 November 2025 is day 20417, a Tuesday |
| Dates.GoldenServiceCivil | constants.ts:188-224 | day 20417 converts back to 25 November 2025 |
| Text.DigitsValueOfNatToString | components/CourseConfigurator.tsx:131 | writing a number in decimal and reading it back gives the number |
| Text.DigitsValueOfZeroPad | components/ScheduleConfigurator.tsx:22-28 | a zero-padded number reads back as the number |
| Text.TrimStart | components/NotebookPanel.tsx:69-84 | `trim` drops exactly the leading white space |
| Text.TrimEnd | components/NotebookPanel.tsx:69-84 | `trim` drops exactly the trailing white space |
| Text.TrimEnds | components/NotebookPanel.tsx:69-84 | a non-blank text trims to one that starts and ends with a non-space |
| Text.BlankIffAllSpace | components/NotebookPanel.tsx:69-84 | `!title.trim()` holds exactly when every character is white space |
| Text.Before | components/Dashboard.tsx:89 | `split(c)[0]` is the longest prefix without `c` |
| Text.After | components/ScheduleConfigurator.tsx:32-35 | the text is the part before the first `c`, then `c`, then the rest |
| Text.SplitAtFirst | components/ScheduleConfigurator.tsx:32-35 | splitting `a + c + b`, where `a` has no `c`, gives back `a` and `b` |
| Numbers.Round | components/Dashboard.tsx:496 | `Math.round` of a non-negative real is the nearest integer, with halves rounded up |
| Numbers.RoundedPercentBounds | components/ReportsCenter.tsx:174-176 | a rounded share of a whole lies in 0..100, and is 0 or 100 at the ends |
| App.ImportData | App.tsx:92-101 | importing replaces each collection the backup carries and keeps each one it lacks |
| App.ImportIdempotent | App.tsx:92-101 | importing the same backup twice equals importing it once |
| App.UnitLogs | App.tsx:113 | the unit's logs all belong to that course and that unit |
| App.RealizedHoursAllLogs | App.tsx:113-116 | a unit's realized hours are the sum of the hours of its logs |
| App.RealizedHoursGrow | App.tsx:113-116 | the realized hours over two journals are the sum of the realized hours over each |
| App.DerivedStatus | App.tsx:122-130 | Completed exactly when the planned hours are met and positive; InProgress exactly when some hours are logged and the plan is not met; Pending exactly when nothing is logged; never Delayed |
| App.SyncedUnitSpec | App.tsx:113-130 | a reconciled unit takes its hours from its logs and its status from those hours; every other field is kept |
| App.SyncedUnits | App.tsx:140-144 | every unit of the course is reconciled, in place |
| App.SyncedCourses | App.tsx:104-151 | every course is reconciled, in place |
| App.SyncUnit | App.tsx:112-138 | the loop body yields the reconciled unit, and its change flag is set exactly when the unit changed |
| App.SyncCourseUnits | App.tsx:111-144 | the course's units are reconciled, and `courseChanged` is set exactly when some unit changed |
| App.SyncUnitsWithLogs | App.tsx:104-151 | the effect computes the reconciled courses, and `hasChanges` is set exactly when they differ from the stored ones |
| App.SyncIdempotent | App.tsx:147-150 | reconciling reconciled courses changes nothing, so the effect settles after one update |
| App.SyncedCourseStable | App.tsx:140-144 | a reconciled course is a fixed point of reconciliation |
| App.SyncedUnitStable | App.tsx:113-130 | a reconciled unit is a fixed point of reconciliation |
| App.CompletedStaysCompleted | App.tsx:122-130 | a completed unit stays completed when more logs are recorded |
| App.AddTask | App.tsx:167-173 | the new task is appended, carrying its id and every field of the draft, with no completion date; the old tasks are kept in order |
| App.DeleteTask | App.tsx:204-206 | no remaining task has the id; every other task remains |
| App.DeleteTaskRemovesOne | App.tsx:204-206 | with distinct ids, deleting a task removes exactly it and keeps the others in order |
| App.DeleteAddedTask | App.tsx:167-173 | deleting a just-added task with a fresh id restores the notebook |
| App.ToggledTask | App.tsx:175-202 | completion is flipped, the completion date is now or cleared, and nothing else changes |
| App.ToggleTask | App.tsx:175-202 | the matching tasks are toggled and the others kept; the calendar gains exactly the completion notes of the matching open tasks, after the old events; the rest of the state is kept |
| App.NoCompletionEvents | App.tsx:182-192 | toggling an id no task has adds no event |
| App.OneCompletionEvent | App.tsx:182-192 | toggling a task with a unique id adds one event if it was open, and none if it was done |
| CourseConfigurator.FindCourse | components/CourseConfigurator.tsx:17 | the active course found has that id; none is found exactly when no course has it |
| CourseConfigurator.FindCourseFirst | components/CourseConfigurator.tsx:17 | the course found is the first with that id |
| CourseConfigurator.UpdateCourse | components/CourseConfigurator.tsx:21-24 | the course with that id is replaced and the others kept |
| CourseConfigurator.AddCourse | components/CourseConfigurator.tsx:33-47 | a new empty course is appended and becomes the active one |
| CourseConfigurator.DeleteCourse | components/CourseConfigurator.tsx:49-59 | without confirmation nothing changes; with it the course goes, the others stay and the first remaining course becomes active |
| CourseConfigurator.DeleteCourseRemovesOne | components/CourseConfigurator.tsx:49-59 | with distinct ids, exactly that course is removed with the others kept in order, and the first of the others becomes active |
| CourseConfigurator.SetCourseField | components/CourseConfigurator.tsx:323-395 | editing one course field changes just that field |
| CourseConfigurator.EditCourse | components/CourseConfigurator.tsx:323-395 | the edit applies to the active course only, and to nothing when none is active |
| CourseConfigurator.NewUnit | components/CourseConfigurator.tsx:65-74 | a new unit is titled `UD<n+1>: Título`, plans 5 theory and 10 practice hours, and starts pending in term 1 |
| CourseConfigurator.AddUnit | components/CourseConfigurator.tsx:63-80 | the new unit is appended to the active course |
| CourseConfigurator.SetUnitField | components/CourseConfigurator.tsx:82-88 | editing one unit field changes just that field and keeps the id, hours realized and status |
| CourseConfigurator.EditUnits | components/CourseConfigurator.tsx:82-88 | the unit with that id is edited and the others kept |
| CourseConfigurator.UpdateUnit | components/CourseConfigurator.tsx:82-88 | the unit edit lands in the active course only |
| CourseConfigurator.DeleteUnit | components/CourseConfigurator.tsx:108-116 | the active course loses the units with that id |
| CourseConfigurator.ToggleTerms | components/CourseConfigurator.tsx:90-106 | the method computes the toggled, sorted terms |
| CourseConfigurator.ToggledTermsSpec | components/CourseConfigurator.tsx:90-106 | the terms come out sorted; the term is present afterwards exactly when it was absent or was the only term; other terms are kept |
| CourseConfigurator.ToggledTermsNonEmpty | components/CourseConfigurator.tsx:95-97 | a unit with distinct terms never ends up with no term |
| CourseConfigurator.ToggledTermsRepeated | components/CourseConfigurator.tsx:95-97 | with a repeated term the guard cannot stop the list from becoming empty |
| CourseConfigurator.ToggleTrimestre | components/CourseConfigurator.tsx:90-106 | without an active course or without the unit nothing changes; otherwise the unit's toggled terms are saved through the unit edit |
| CourseConfigurator.NewRa | components/CourseConfigurator.tsx:127-141 | a new RA is coded `RA<n+1>`, weighs 0 and has no criteria |
| CourseConfigurator.AddRa | components/CourseConfigurator.tsx:127-141 | the new RA is appended to the active course |
| CourseConfigurator.SetRaField | components/CourseConfigurator.tsx:143-149 | editing one RA field changes just that field |
| CourseConfigurator.EditRas | components/CourseConfigurator.tsx:143-149 | the RA with that id is edited and the others kept |
| CourseConfigurator.ApplyRaEdit | components/CourseConfigurator.tsx:161-201 | adding, deleting or editing a criterion touches just the criteria of that RA |
| CourseConfigurator.UpdateRas | components/CourseConfigurator.tsx:143-149 | RA edits land in the active course only |
| CourseConfigurator.DeleteRa | components/CourseConfigurator.tsx:151-157 | the active course loses the RAs with that id |
| CourseConfigurator.CodeLetter | components/CourseConfigurator.tsx:168 | the n-th criterion letter is `a` + n |
| CourseConfigurator.CriterionCode | components/CourseConfigurator.tsx:168 | a criterion code is the RA number, a dot and the criterion's letter |
| CourseConfigurator.CriterionCodeGolden | components/CourseConfigurator.tsx:168 | the first criterion of `RA1` is `1.a`, and the third is `1.c` |
| CourseConfigurator.CriterionCodesDistinct | components/CourseConfigurator.tsx:168 | within an RA the first 26 criteria get different codes |
| CourseConfigurator.NewCriterion | components/CourseConfigurator.tsx:166-173 | a new criterion gets the next code, its RA's id, weight 0 and no associations |
| CourseConfigurator.FindRa | components/CourseConfigurator.tsx:161-180 | the RA found has that id; none is found exactly when no RA has it |
| CourseConfigurator.FindRaFirst | components/CourseConfigurator.tsx:161-180 | the RA found is the first with that id |
| CourseConfigurator.AddCriterion | components/CourseConfigurator.tsx:161-180 | the criterion is added to the RA when the course and the RA exist; otherwise nothing changes |
| CourseConfigurator.SetCriterionField | components/CourseConfigurator.tsx:182-192 | editing one criterion field changes just that field |
| CourseConfigurator.EditCriteria | components/CourseConfigurator.tsx:182-192 | the criterion with that id is edited and the others kept |
| CourseConfigurator.ApplyCriterionEdit | components/CourseConfigurator.tsx:194-257 | adding or deleting an association touches just that criterion's associations |
| CourseConfigurator.NewAssociation | components/CourseConfigurator.tsx:207-211 | a new association links the course's first unit, or none without units, and has no instruments |
| CourseConfigurator.AddAssociation | components/CourseConfigurator.tsx:205-224 | the association is appended to that criterion of that RA in the active course |
| CourseConfigurator.SetAssociationField | components/CourseConfigurator.tsx:226-242 | editing the linked unit or the instruments changes just that field |
| CourseConfigurator.EditAssociations | components/CourseConfigurator.tsx:226-242 | the association with that id is edited and the others kept |
| CourseConfigurator.AssociationEditIsLocal | components/CourseConfigurator.tsx:226-242 | every other association, in every criterion and RA, is untouched |
| CourseConfigurator.Balance | components/CourseConfigurator.tsx:261-265 | excess exactly when the planned hours exceed the annual hours; perfect exactly when they match and are positive; otherwise the hours still to assign |
| CourseConfigurator.BalanceStatus | components/CourseConfigurator.tsx:267-278 | the status colour and text shown for each of the three balances |
| UnitsTracker.LinkedUnitIdsSpec | components/UnitsTracker.tsx:37 | a unit id is linked exactly when it is non-empty and some association names it |
| UnitsTracker.LinkedUnits | components/UnitsTracker.tsx:38 | the linked units are among the course's units |
| UnitsTracker.LinkedUnitsSpec | components/UnitsTracker.tsx:38 | a unit is linked exactly when it is in the course and its id is linked |
| UnitsTracker.LinkedUnitsSubsequence | components/UnitsTracker.tsx:38 | filtering never duplicates a unit |
| UnitsTracker.ProgressOf | components/UnitsTracker.tsx:41-47 | linked progress is in 0..1: 0 without planned hours, otherwise realized over planned, capped at 1 |
| UnitsTracker.CriterionProgress | components/UnitsTracker.tsx:41-47 | a criterion's progress is a share in 0..1 |
| UnitsTracker.CriterionProgressSpec | components/UnitsTracker.tsx:37-47 | a criterion's progress is its linked units' realized hours over their planned hours, capped, and 0 without planned hours |
| UnitsTracker.Detail | components/UnitsTracker.tsx:53-61 | each detail carries the criterion's id, code, description and weight, its progress times 100 (in 0..100), its contribution and its linked units |
| UnitsTracker.Details | components/UnitsTracker.tsx:53-61 | there is one detail per criterion |
| UnitsTracker.DetailsAt | components/UnitsTracker.tsx:53-61 | the i-th detail is that of the i-th criterion |
| UnitsTracker.GetRaStats | components/UnitsTracker.tsx:31-65 | the loop's accumulated percentage is the sum of the contributions, and its details are those of each criterion in order |
| UnitsTracker.AccumulateStep | components/UnitsTracker.tsx:50-51 | one more criterion adds its own contribution and appends its own detail |
| UnitsTracker.PercentSnoc | components/UnitsTracker.tsx:50-51 | the RA percentage over one more criterion grows by that criterion's contribution |
| UnitsTracker.RaPercentBounds | components/UnitsTracker.tsx:50-51 | with non-negative weights the RA percentage lies between 0 and the sum of the weights |
| UnitsTracker.ContributionBounds | components/UnitsTracker.tsx:50-51 | a criterion contributes between 0 and its weight |
| UnitsTracker.ZeroSum | components/UnitsTracker.tsx:50-51 | criteria that contribute nothing add up to 0 |
| UnitsTracker.RaPercentAllDone | components/UnitsTracker.tsx:50-51 | when every criterion is fully done, the RA percentage is the sum of the weights |
| UnitsTracker.UnlinkedUnitIrrelevant | components/UnitsTracker.tsx:37-51 | changing a unit the criterion does not link leaves its progress and contribution unchanged |
| UnitsTracker.CompleteWhenAllDone | components/UnitsTracker.tsx:265 | an RA whose weights sum to 100 shows as complete once every criterion is done |
| UnitsTracker.UnitPercent | components/UnitsTracker.tsx:185-187 | a unit's progress is 0 without a plan, 100 once the plan is met, and realized over planned times 100 (below 100) before that |
| UnitsTracker.UnitDeviation | components/UnitsTracker.tsx:185-187 | the deviation is realized minus planned, non-negative exactly when the plan is met |
| UnitsTracker.ModulePercent | components/UnitsTracker.tsx:80-82 | the module percentage is the total realized hours over the total planned hours (at least 1) times 100, rounded half up from the exact share; non-negative, at most 100 unless over-realized, 100 when realized equals a positive plan, 0 when nothing is realized |
| ReportsCenter.CountTwoStatuses | components/ReportsCenter.tsx:23-24 | the units of two different statuses number at most all the units |
| ReportsCenter.GlobalSummary | components/ReportsCenter.tsx:21-32 | the global totals are the sums over courses, logs and exams, with exams counting at least one hour |
| ReportsCenter.GlobalCountsBounded | components/ReportsCenter.tsx:22-24 | completed plus delayed units never exceed the total units |
| ReportsCenter.ExamHoursAtLeastCount | components/ReportsCenter.tsx:28 | the exam hours are at least the number of exams |
| ReportsCenter.ModuleSummary | components/ReportsCenter.tsx:34-42 | a module's completed units, hours logged and logs count are those of its own units, logs and exams |
| ReportsCenter.ModuleWithinGlobal | components/ReportsCenter.tsx:21-42 | a module's hours and completed units never exceed the global ones |
| ReportsCenter.CoursePercent | components/ReportsCenter.tsx:174-176 | the course percentage is the completed units over all units times 100, rounded half up from the exact share, and 0 without units; it is in 0..100, 100 when every unit is completed, 0 when none is |
| ReportsCenter.AnyLinksCompletedIff | components/ReportsCenter.tsx:329-332 | the `some` over associations holds exactly when one association links a completed unit |
| ReportsCenter.AchievedIff | components/ReportsCenter.tsx:329-332 | with distinct unit ids, a criterion is achieved exactly when one of its associations names a completed unit |
| ReportsCenter.AchievedPercent | components/ReportsCenter.tsx:287-296 | the achieved percentage is the achieved criteria over all criteria times 100, rounded half up from the exact share, and 0 without criteria; it is in 0..100, 0 when nothing is achieved, 100 when everything is |
| ReportsCenter.AchievedCount | components/ReportsCenter.tsx:287-296 | all criteria achieved means all are counted, and none achieved means none are |
| ReportsCenter.CompletingKeepsAchieved | components/ReportsCenter.tsx:329-332 | completing another unit never un-achieves a criterion |
| ReportsCenter.IncidentsSpec | components/ReportsCenter.tsx:384-400 | the incidents are the course's non-delivered logs, each as often as it occurs, latest date first |
| ReportsCenter.NoIncidentsIff | components/ReportsCenter.tsx:384 | there are no incidents exactly when every log of the course was delivered |
| ReportsCenter.UnitBreakdown | components/ReportsCenter.tsx:437-446 | the row's theory and practice hours are the sums of the unit's theory and practice logs; it carries the planned hours, and its percentage is their total over the plan times 100, rounded half up from the exact share, when there is a plan, 0 without a plan or hours, 100 when the plan is met exactly, at most 100 below it |
| ReportsCenter.MakeRow | components/ReportsCenter.tsx:437-446 | a row keeps its four hour counts, and its percentage is the realised total over the planned total times 100, rounded half up from the exact share; 0 without a plan or hours, 100 when the plan is met exactly, at most 100 below it |
| ReportsCenter.BreakdownAgreesWithSync | components/ReportsCenter.tsx:437-446 | the breakdown's theory plus practice hours equal the reconciled realized hours |
| ReportsCenter.UnitLabel | components/ReportsCenter.tsx:239-242 | the label is `U?` exactly when no unit has the id; otherwise it is a prefix of the title without `:` that stops at the first `:` or at the end of the title |
| ReportsCenter.UnitLabelOfTitle | components/ReportsCenter.tsx:239-242 | a title `code:rest` whose code has no `:` is labelled with the code |
| ReportsCenter.UnitLabelWithoutColon | components/ReportsCenter.tsx:239-242 | a title without `:` is its own label |
| ReportsCenter.ExamUnitLabels | components/ReportsCenter.tsx:239-242 | one label per unit id of the exam, in order |
| Dashboard.AllUnits | components/Dashboard.tsx:45 | a unit is in the flattened list exactly when it is a unit of one of the courses; its length is the sum of the courses' unit counts |
| Dashboard.AllUnitsAppend | components/Dashboard.tsx:45 | flattening two lists of courses is flattening each and joining the results |
| Dashboard.DashboardStats | components/Dashboard.tsx:44-57 | each of the four counts is the number of units of all courses with that status, and together they add up to the total units; planned hours are the sum of the courses' annual hours; hours logged are the log hours plus the recorded exam durations; the exam count is the number of exams |
| Dashboard.StatusCountsAddUp | components/Dashboard.tsx:49-52 | every unit has exactly one of the four statuses |
| Dashboard.ExamHoursDefaults | components/Dashboard.tsx:54 | the reports' exam hours exceed the dashboard's by one per exam without a duration |
| Dashboard.Last7DaysActivity | components/Dashboard.tsx:60-74 | seven entries, from six days ago to today, each with that day's log and exam hours |
| Dashboard.CourseColor | components/Dashboard.tsx:94 | a course's own colour is used when set and non-empty, `#8a6a5c` otherwise; never empty |
| Dashboard.ModuleEffort | components/Dashboard.tsx:85-96 | the chart name is the first word and the colour the course's; theory and practice are the hours of the course's logs of each type, exams the course's exam durations; the total is their sum, and equals the course's log hours plus exam durations |
| Dashboard.ModuleProgress | components/Dashboard.tsx:488-496 | the card's progress is the course's hours over its annual hours (at least 1) times 100, rounded half up from the exact share and capped at 100; 100 exactly when that share reaches 99.5; 0 with no hours |
| Dashboard.ProgressFacts | components/Dashboard.tsx:496 | the rounded ratio is 0 for nothing and at least 100 for the whole |
| Dashboard.NextEvaluationSpec | components/Dashboard.tsx:98-100 | none exactly when all evaluations are done; otherwise a pending one no later than any other pending one |
| Dashboard.UpcomingSpec | components/Dashboard.tsx:107-113 | at most n dated events from today on, in date order, taken from the events, as many as there are up to n, and no event left out from today on is earlier than one kept: they are the n earliest |
| NotebookPanel.PendingLeOrders | components/NotebookPanel.tsx:37-48 | the pending comparator is total and transitive |
| NotebookPanel.ListsPartitionTasks | components/NotebookPanel.tsx:34-59 | every task is in exactly one list, as often as in the notebook: open tasks in the pending list, done ones in the completed list |
| NotebookPanel.PendingOrder | components/NotebookPanel.tsx:37-48 | dated tasks come first, by due date; undated ones come after, newest first |
| NotebookPanel.CompletedOrder | components/NotebookPanel.tsx:51-59 | completed tasks go latest completion first |
| NotebookPanel.UpcomingEventsSpec | components/NotebookPanel.tsx:62-67 | at most three dated events from today on, in date order; they are the first of the dashboard's five |
| NotebookPanel.CeilDiv | components/NotebookPanel.tsx:86-95 | `Math.ceil(x / d)` is the least q with x at most q times d |
| NotebookPanel.UrgencyOf | components/NotebookPanel.tsx:86-95 | overdue exactly when the day difference is negative; urgent for 0..2; soon for 3..7; later beyond; no class without a due date |
| NotebookPanel.DaysUntilWholeDays | components/NotebookPanel.tsx:86-95 | from a midnight, the rounded-up difference is the plain difference of days |
| NotebookPanel.UrgencyMonotone | components/NotebookPanel.tsx:86-95 | a later due date is never more urgent |
| NotebookPanel.HandleAddTask | components/NotebookPanel.tsx:69-84 | a blank title adds nothing and keeps the form; otherwise the trimmed, open, medium-priority task is created now and the form is cleared |
| NotebookPanel.AddedTaskIsPending | components/NotebookPanel.tsx:69-84 | an added task shows in the pending list, not the completed one |
| NotebookPanel.AddedTitleTrimmed | components/NotebookPanel.tsx:69-84 | the added title is non-empty and already trimmed |
| ScheduleConfigurator.NumberOf | components/ScheduleConfigurator.tsx:32-35 | a digit string, possibly empty, is a number with its decimal value; anything else is not a number |
| ScheduleConfigurator.TimeToMinutes | components/ScheduleConfigurator.tsx:32-35 | a time without a colon has no value |
| ScheduleConfigurator.TimeToMinutesOfFormat | components/ScheduleConfigurator.tsx:32-35 | reading an `HH:MM` time gives hours times 60 plus minutes |
| ScheduleConfigurator.DefaultTimes | components/ScheduleConfigurator.tsx:22-28 | the default times read as 480 and 540 minutes |
| ScheduleConfigurator.SlotStyle | components/ScheduleConfigurator.tsx:37-51 | the offset is the share of the eight hours since 08:00, and 0 at or before 08:00; the height is the share of the eight hours the slot lasts, at least 2 percent |
| ScheduleConfigurator.SlotStyleMonotone | components/ScheduleConfigurator.tsx:37-51 | a slot starting no earlier sits no higher, and one no longer is no taller |
| ScheduleConfigurator.SlotFitsGrid | components/ScheduleConfigurator.tsx:12-14 | a slot within 08:00-16:00 tall enough not to be stretched ends by the bottom of the grid |
| ScheduleConfigurator.DefaultSlotBox | components/ScheduleConfigurator.tsx:37-51 | the default slot sits at the top and takes 12.5 percent |
| ScheduleConfigurator.NewSlot | components/ScheduleConfigurator.tsx:87-94 | the slot is on the active day; blank fields become 08:00, 09:00 and one hour |
| ScheduleConfigurator.SaveSlot | components/ScheduleConfigurator.tsx:84-108 | without a course nothing changes; editing replaces that slot only; otherwise the slot is appended |
| ScheduleConfigurator.DeleteSlot | components/ScheduleConfigurator.tsx:77-82 | the edited slot is removed; with none edited nothing changes |
| ScheduleConfigurator.DeleteAddedSlot | components/ScheduleConfigurator.tsx:77-104 | deleting a slot just added restores the timetable |
| ScheduleConfigurator.SaveTwice | components/ScheduleConfigurator.tsx:96-104 | saving the edited slot again with the same form changes nothing more |
| DailyJournal.DailyScheduleSpec | components/DailyJournal.tsx:44-49 | a slot is in the day's schedule exactly when it is in the timetable on that weekday |
| DailyJournal.WeekendSchedule | components/DailyJournal.tsx:44-49 | on a Saturday or a Sunday a Monday-to-Friday timetable yields no slots |
| DailyJournal.Repeat | components/DailyJournal.tsx:69-89 | n copies of one session type |
| DailyJournal.DefaultDuration | components/DailyJournal.tsx:69-89 | a forced duration wins; otherwise the course's slot hours on that day, and 1 when nothing is forced or scheduled; at least 1 |
| DailyJournal.SelectCourse | components/DailyJournal.tsx:69-89 | selecting a course clears the unit and exam units, sets both durations, paints every hour as theory and selects practice as the brush |
| DailyJournal.ClampDuration | components/DailyJournal.tsx:401 | the duration entered is clamped to 1..10: 10 above, 1 below, kept when inside |
| DailyJournal.ClampExamDuration | components/DailyJournal.tsx:555 | the exam duration entered is at least 1, and kept when it is |
| DailyJournal.ExamDurationAtLeastClass | components/DailyJournal.tsx:401-555 | the exam field accepts every class duration and also longer ones |
| DailyJournal.ResizeDistribution | components/DailyJournal.tsx:52-65 | the distribution gets the new length; it keeps the old hours and pads with theory |
| DailyJournal.PaintHour | components/DailyJournal.tsx:99-103 | that hour takes the brush, and the others are kept |
| DailyJournal.HoursAddUp | components/DailyJournal.tsx:110-111 | theory hours plus practice hours are all the hours |
| DailyJournal.ClassLogsSpec | components/DailyJournal.tsx:110-138 | one log per type with hours (so none for an empty distribution), each carrying its type's hours; a lone log has the type that has hours; together they carry every hour, the date, course, unit and status; a split is theory then practice with the notes prefixed |
| DailyJournal.SaveClass | components/DailyJournal.tsx:107-145 | without a course and unit nothing changes; otherwise the logs are appended and the form reset |
| DailyJournal.SaveExam | components/DailyJournal.tsx:147-167 | without a course or units nothing changes; otherwise the exam is appended and the exam fields reset |
| DailyJournal.ToggleExamUnit | components/DailyJournal.tsx:172-176 | the unit's membership flips and the others stay |
| DailyJournal.ToggleExamUnitTwice | components/DailyJournal.tsx:172-176 | adding then removing a unit restores the selection |
| DailyJournal.DeleteLog | components/DailyJournal.tsx:169 | no remaining log has the id; the others remain |
| DailyJournal.DeleteLogRemovesOne | components/DailyJournal.tsx:169 | with distinct ids exactly that log is removed |
| DailyJournal.DeleteExam | components/DailyJournal.tsx:170 | no remaining exam has the id; the others remain |
| DailyJournal.DeleteExamRemovesOne | components/DailyJournal.tsx:170 | with distinct ids exactly that exam is removed |
| DailyJournal.LogsForDate | components/DailyJournal.tsx:40 | exactly the day's logs |
| DailyJournal.ExamsForDate | components/DailyJournal.tsx:41 | exactly the day's exams |
| CalendarView.FindLegend | components/CalendarView.tsx:109 | the legend item found has the id; none is found without an id or a match |
| CalendarView.FindLegendFirst | components/CalendarView.tsx:109 | the legend item found is the first with that id |
| CalendarView.AnyHolidayEventIff | components/CalendarView.tsx:168-171 | the `some` holds exactly when one event is a holiday event |
| CalendarView.HolidayIff | components/CalendarView.tsx:166-171 | a day is a holiday exactly when an event on it has a red, `festivo` or `inicio` legend |
| CalendarView.GetDayStatus | components/CalendarView.tsx:160-199 | free exactly on weekends, holidays and days without planned hours; otherwise planned and logged hours, done when met, partly done when some, missing when none |
| CalendarView.MoreLogsNeverDowngrade | components/CalendarView.tsx:183-198 | more logs and exams never turn a day free or lower its status |
| CalendarView.FirstOfMonthDate | components/CalendarView.tsx:97 | the first of the month has as its date day 1 of that month, a month index past December rolling into the next year, and years 0..99 read as 1900..1999 |
| CalendarView.DaysInMonth | components/CalendarView.tsx:93 | the days in a month are the Gregorian length of that month, in the year the index rolls into |
| CalendarView.FirstOfMonthStep | components/CalendarView.tsx:93-97 | the first of the next month index is the first of this month plus this month's length |
| CalendarView.ColumnShift | components/CalendarView.tsx:94-99 | moving k days on moves a day's Monday-first column k places on, around the week |
| CalendarView.FirstDayOfMonth | components/CalendarView.tsx:94-99 | the column of the month's first day in a Monday-first week: in 0..6, and that many days before the first is a Monday |
| CalendarView.FirstDayOfMonthStep | components/CalendarView.tsx:93-99 | a month's first column is the previous month's plus that month's length, modulo 7 |
| CalendarView.TwoDigitYears | components/CalendarView.tsx:93-99 | years 0..99 lay out as 1900..1999 |
| CalendarView.DaysInFebruary | components/CalendarView.tsx:93 | February has 29 days in 2024 and 2000, and 28 in 2025 and 1900 |
| CalendarView.FirstDayOfMonthGolden | components/CalendarView.tsx:94-99 | September 2025 starts on a Monday |
| CalendarView.FirstDayOfMonthRollsOver | components/CalendarView.tsx:94-99 | month 13 of 2025 is February 2026, which starts on a Sunday |
| CalendarView.FindMarker | components/CalendarView.tsx:220-232 | the first marker of that legend on that day, or none when there is none |
| CalendarView.ToggleEventOnDate | components/CalendarView.tsx:220-232 | locked days are untouched; a missing marker is appended; an existing marker is removed |
| CalendarView.ToggleRemovesMarker | components/CalendarView.tsx:220-232 | with distinct ids exactly that marker is removed |
| CalendarView.ToggleTwiceRestores | components/CalendarView.tsx:220-232 | toggling a marker on and off restores the events |
| CalendarView.DeleteLegendItem | components/CalendarView.tsx:214-218 | no remaining item has the id and no remaining event refers to it; every other item and event is kept |
| CalendarView.DeleteUnusedLegendItem | components/CalendarView.tsx:214-218 | deleting an unused item keeps every event |
| CalendarView.DeleteLegendItemEventsAppend | components/CalendarView.tsx:214-218 | the events are cleaned one by one: over two lists of events the kept events are those of each, in order |
| CalendarView.DeleteLegendItemOneEvent | components/CalendarView.tsx:214-218 | a single event goes exactly when it refers to the deleted item |
| CalendarView.DeleteLegendItemRemovesOne | components/CalendarView.tsx:214-218 | with distinct ids, exactly that item leaves the legend and the others stay in order |
| CalendarView.DateChange | components/CalendarView.tsx:116-126 | the date is set; a service date recomputes the three logistics reminders, titled 🛒 Hacer Pedido, 📦 Cerrar Stock and 📝 Crear Menú, with their dates; nothing else changes |
| CalendarView.DateChangeMatchesLogistics | components/CalendarView.tsx:116-126 | the form's suggested reminders fall on the same days and kinds as the generated logistics |
| CalendarView.UpdateAutoReminderTitle | components/CalendarView.tsx:128-132 | that reminder's title is set, and nothing else changes |
| CalendarView.UpdateAutoReminderDate | components/CalendarView.tsx:134-138 | that reminder's date is set, and nothing else changes |
| CalendarView.RemoveAutoReminder | components/CalendarView.tsx:140-142 | that reminder is removed; an index out of range changes nothing |
| CalendarView.AddAutoReminder | components/CalendarView.tsx:144-146 | a note reminder titled 📌 Nuevo Aviso, with id `manual-<now>`, on the form's date is appended |
| CalendarView.SetManualReminder | components/CalendarView.tsx:711-715 | that reminder date is set, and nothing else changes |
| CalendarView.RemoveManualReminder | components/CalendarView.tsx:719 | that reminder is removed |
| CalendarView.AddManualReminder | components/CalendarView.tsx:727 | an empty reminder date is appended |
| CalendarView.AutoEvents | components/CalendarView.tsx:250-260 | one event per reminder, with its date and kind, titled `<reminder> - <title>`, described `Logística para: <title>`, linked to the main event and open |
| CalendarView.ReminderEvents | components/CalendarView.tsx:268-279 | one note per reminder date, with id `reminder-<id>-<i>`, titled `📌 Recordatorio: <title>` and described with the event's date, linked to the main event and open |
| CalendarView.MainEvent | components/CalendarView.tsx:237-245 | the main event has the trimmed title, the form's date and kind, is open, and has a description exactly when one was written |
| CalendarView.LogisticsFor | components/CalendarView.tsx:250-265 | a service gets its edited reminders, or the three generated ones when there are none; other kinds get none; all are linked |
| CalendarView.CreateEvent | components/CalendarView.tsx:234-291 | missing title or date changes nothing; otherwise main, logistics and reminders are appended, all linked to the main one, and the form is reset |
| CalendarView.CreatedLayout | components/CalendarView.tsx:234-281 | the old events come first, then the main event, then (for a plain service) the three logistics events |
| CalendarView.ExamBlocks | components/CalendarView.tsx:312-335 | one block per exam |
| CalendarView.WriteLegendEvent | components/CalendarView.tsx:312-335 | appending an event's block to the text |
| CalendarView.WriteExamEvent | components/CalendarView.tsx:312-335 | appending an exam's block to the text |
| CalendarView.WriteEventBlocks | components/CalendarView.tsx:312-335 | the loop appends the blocks of the events with a legend, in order |
| CalendarView.WriteExamBlocks | components/CalendarView.tsx:312-335 | the loop appends every exam's block, in order |
| CalendarView.DownloadIcs | components/CalendarView.tsx:312-335 | the written file is the calendar text |
| CalendarView.EventBlocksCount | components/CalendarView.tsx:312-335 | one block per event with a legend item |
| CalendarView.IcsFraming | components/CalendarView.tsx:312-335 | the file begins with the calendar header and ends with its footer |
| CalendarView.IcsBlockCount | components/CalendarView.tsx:312-335 | as many blocks as events with a legend plus exams |
| CalendarView.VEventDate | components/CalendarView.tsx:312-335 | for years 0..9999 the start date is 8 digits |
| CalendarView.SingleEventIcs | components/CalendarView.tsx:293-302 | the file is the calendar header, one VEVENT with the event's start date, `SUMMARY:` with the title or "Evento", a `DESCRIPTION:` line only for a non-empty description, then `END:VCALENDAR` |
| CalendarView.SingleEventIcsAsLegendBlock | components/CalendarView.tsx:293-302 | without a description, the event's VEVENT is the block the full export writes for a legend label equal to the title |
| CalendarView.SingleEventIcsDescription | components/CalendarView.tsx:299 | a non-empty description inserts exactly its DESCRIPTION line before the END:VEVENT line and changes nothing else |
| KitchenLogic.WeekStart | utils/kitchenLogic.ts:21-27 | the Monday that starts the week of the day |
| KitchenLogic.PreviousMonday | utils/kitchenLogic.ts:21-27 | a Monday from 13 to 7 days before, the start of the previous week |
| KitchenLogic.PreviousMondayUnique | utils/kitchenLogic.ts:21-27 | it is the only Monday in that window |
| KitchenLogic.FridayTwoWeeksBefore | utils/kitchenLogic.ts:30-35 | a Friday, three days before the previous Monday, from 16 to 10 days before |
| KitchenLogic.DaysBefore24 | utils/kitchenLogic.ts:38-42 | exactly 24 days before |
| KitchenLogic.GenerateLogisticEvents | utils/kitchenLogic.ts:44-91 | no date, no events; otherwise order, stock and menu events on those days, linked to the service and open |
| KitchenLogic.LogisticEvents | utils/kitchenLogic.ts:44-91 | three events for a dated service and none otherwise |
| KitchenLogic.LogisticEventsPrecedeService | utils/kitchenLogic.ts:44-91 | every logistics event falls from 24 to 7 days before the service |
| KitchenLogic.GoldenService | constants.ts:188-224 | the service of 25 November 2025 orders on 17 November, closes stock on 14 November and designs the menu on 1 November |
| KitchenLogic.GoldenSaturdayService | utils/kitchenLogic.ts:21-27 | a Saturday service on 28 February 2026 orders on Monday 16 February |
| BackupManager.ToggleExport | components/BackupManager.tsx:32-34 | that flag flips and the others are kept |
| BackupManager.ToggleTwice | components/BackupManager.tsx:32-34 | toggling twice restores the selection |
| BackupManager.When | components/BackupManager.tsx:36-47 | a collection is present exactly when selected |
| BackupManager.BuildBackup | components/BackupManager.tsx:36-47 | the record is timestamped; each collection is present exactly when selected; exams go with logs and the teacher with the school |
| BackupManager.BackupFileName | components/BackupManager.tsx:52 | the file is named `backup_culiplan_<date>.json` |
| BackupManager.ImportGate | components/BackupManager.tsx:58-80 | a parsed, timestamped and confirmed file is imported; anything else is not |
| BackupManager.RestoreFrom | components/BackupManager.tsx:58-80 | a rejected file leaves the state unchanged; an accepted one replaces the data as the import does |
| BackupManager.ExportedPassesGate | components/BackupManager.tsx:36-80 | an exported file passes the gate once confirmed |
| BackupManager.FullRoundTrip | components/BackupManager.tsx:36-80 | exporting everything then restoring brings back the whole state |
| BackupManager.PartialRoundTrip | components/BackupManager.tsx:36-80 | restoring a partial export replaces the selected collections and keeps the rest |

## Left out

- File reading, JSON parsing, `Blob` downloads, the DOM, `confirm` and
  `alert`, printing and `localStorage`:
  - a file's parse result and the user's confirmation are parameters of
    `BackupManager.ImportGate`;
  - the calendar events the dashboard reads from `localStorage` are a
    parameter.
- `handleResetApp` (App.tsx:154-164) and `handleDangerReset`
  (components/BackupManager.tsx:82 on) are not modelled. They clear
  storage and reload the page, which is I/O.
- `handleAddLegendItem` (components/CalendarView.tsx:203-212) is not
  modelled: it only appends a user-entered item.
- Time zones:
  - the source mixes UTC midnights (`new Date("YYYY-MM-DD")`) with local
    midnights (`setHours(0,0,0,0)`);
  - the model counts whole days, so the comparisons read as the same day
    in UTC;
  - locale rendering (`toLocaleDateString`) is not modelled.
- React state, effects and strict mode are not modelled. A handler's
  result is the new state that the setter receives.
- `Date.now()`, `new Date()` and generated ids are parameters.
- AIAssistant, SettingsPanel, LandingPage, services/, index.tsx,
  vite.config.ts and the sample data of constants.ts are not part of this
  model. Only one sample service date is used, as a golden case.
- CourseConfigurator.ToggleTerms: terms are compared as numbers. The
  source's default `sort()` compares them as strings, which agrees only
  for one-digit terms (the only ones the UI offers).
- CourseConfigurator.ToggledTermsNonEmpty: the never-empty guarantee
  needs the terms to be distinct. `CourseConfigurator.ToggledTermsRepeated`
  shows that a repeated term can empty the list.
- CourseConfigurator.CodeLetter: the letters past `z` (more than 26
  criteria in one RA) are not characterised.
- CourseConfigurator.EditCourse: the annual-hours edit receives a whole
  number. How `Number()` reads the field's text is not modelled.
- ScheduleConfigurator.NumberOf: `Number()` on time fields is modelled
  on digit strings (the empty one reads as 0). Other numeric spellings
  read as no number.
- Text.Trim: white space is the ASCII set, the no-break space and the
  byte-order mark. Other Unicode space separators are not recognised.
- Text.ToLower: only ASCII letters are lowered.
- Dates.IsoDate and Dates.IsoYear: years outside 0..9999, which JS
  writes with a sign and six digits, are not characterised.
- Hours are whole and non-negative. Fractional or negative hours, and
  `NaN` from empty number fields, are not modelled.
- ScheduleConfigurator.SaveSlot: requires the edited index to exist. The
  source only edits slots it found.
- DailyJournal.PaintHour: requires the painted hour to exist. The source
  only paints hours it renders.
- CalendarView.UpdateAutoReminderTitle, CalendarView.UpdateAutoReminderDate
  and CalendarView.SetManualReminder: require the edited index to exist.
  The source only edits rows it renders.
- CalendarView.UpdateAutoReminderTitle and
  CalendarView.UpdateAutoReminderDate: the source writes into the shared
  reminder object before copying the array. That aliasing is not modelled;
  the model returns a fresh sequence.
- ReportsCenter.ExamUnitLabels: the labels are modelled as a sequence.
  Their join with `", "` is not modelled.
- CalendarView.SingleEventIcs: the download's file name is not modelled.
- Numbers.RoundedPercent: rounds the exact rational share. The program
  rounds the double `p / q * 100`, which lands just below a half for
  23/40, 46/80, 69/120, 92/160, 29/200, 57/200, 113/200, 115/200, 138/240,
  161/280 and 184/320 (the pairs with q up to 320). For 69/120 the program
  shows 57 and the model 58.
- UnitsTracker.ModulePercent: uses Numbers.RoundedPercent, so it differs
  from the program's double rounding on the pairs listed there (69 of 120
  hours shows 57 in the program, 58 here).
- Dashboard.ModuleProgress: the same exact rounding as
  Numbers.RoundedPercent; 69 of 120 hours reads 57 in the program and 58
  here.
- ReportsCenter.CoursePercent: the same exact rounding as
  Numbers.RoundedPercent, not the double rounding (69/120: 57 there, 58
  here).
- ReportsCenter.AchievedPercent: the same exact rounding as
  Numbers.RoundedPercent, not the double rounding (69/120: 57 there, 58
  here).
- ReportsCenter.UnitBreakdown: its percentages use the exact rounding of
  Numbers.RoundedPercent, not the double rounding (69/120: 57 there, 58
  here).
- ReportsCenter.MakeRow: its percentage uses the exact rounding of
  Numbers.RoundedPercent, not the double rounding (69/120: 57 there, 58
  here).
