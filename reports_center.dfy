/** The report centre: the global summary over every course, the module
    report (its statistics, how far each learning result is achieved, the
    incident register and the per-unit hour breakdown) and the labels of the
    units an exam covers. */
module ReportsCenter {
  import opened Wrappers
  import opened Seqs
  import opened Text
  import opened Numbers
  import opened Types
  import App

  // --- Counting units ----------------------------------------------------------------

  /** No two statuses count the same unit, so two counts never exceed the
      number of units. */
  lemma {:induction false} CountTwoStatuses(units: seq<Unit>, a: UnitStatus, b: UnitStatus)
    requires a != b
    ensures CountStatus(units, a) + CountStatus(units, b) <= |units|
  {
    if units != [] {
      CountTwoStatuses(units[1..], a, b);
    }
  }

  function UnitCount(c: Course): nat {
    |c.units|
  }

  function CompletedCount(c: Course): nat {
    CountStatus(c.units, Completed)
  }

  function DelayedCount(c: Course): nat {
    CountStatus(c.units, Delayed)
  }

  // --- Global summary -------------------------------------------------------------------

  datatype GlobalStats = GlobalStats(
    totalUnits: nat, completedUnits: nat, delayedUnits: nat,
    totalHoursPlanned: nat, totalHoursLogged: nat)

  /** `generateGlobalStats`: unit counts summed over the courses, the annual
      hours summed, and the hours of every log plus every exam (an exam
      without a duration counting one hour). */
  function GlobalSummary(courses: seq<Course>, logs: seq<ClassLog>, exams: seq<Exam>): (g: GlobalStats)
    ensures g.totalUnits == Sum(courses, UnitCount)
    ensures g.completedUnits == Sum(courses, CompletedCount) && g.delayedUnits == Sum(courses, DelayedCount)
    ensures g.totalHoursPlanned == Sum(courses, AnnualHours)
    ensures g.totalHoursLogged == Sum(logs, LogHours) + Sum(exams, ExamHours)
  {
    var totalUnits := Sum(courses, UnitCount);
    var completedUnits := Sum(courses, CompletedCount);
    var delayedUnits := Sum(courses, DelayedCount);
    var totalHoursPlanned := Sum(courses, AnnualHours);
    var logsHours := Sum(logs, LogHours);
    var examsHours := Sum(exams, ExamHours);
    GlobalStats(totalUnits, completedUnits, delayedUnits, totalHoursPlanned, logsHours + examsHours)
  }

  /** Completed and delayed units together never outnumber the units. */
  lemma {:induction false} GlobalCountsBounded(courses: seq<Course>)
    ensures Sum(courses, CompletedCount) + Sum(courses, DelayedCount) <= Sum(courses, UnitCount)
  {
    if courses != [] {
      GlobalCountsBounded(courses[1..]);
      CountTwoStatuses(courses[0].units, Completed, Delayed);
    }
  }

  /** Every exam counts at least one hour. */
  lemma {:induction false} ExamHoursAtLeastCount(exams: seq<Exam>)
    ensures Sum(exams, ExamHours) >= |exams|
  {
    if exams != [] {
      ExamHoursAtLeastCount(exams[1..]);
    }
  }

  // --- Module statistics -------------------------------------------------------------------

  datatype ModuleStats = ModuleStats(completedUnits: nat, hoursLogged: nat, logsCount: nat)

  /** `generateModuleStats`: the same figures restricted to one course's
      logs and exams. */
  function ModuleSummary(course: Course, logs: seq<ClassLog>, exams: seq<Exam>): (m: ModuleStats)
    ensures m.completedUnits == CountStatus(course.units, Completed) <= |course.units|
    ensures m.hoursLogged == Sum(Filter(logs, LogOfCourse(course.id)), LogHours) + Sum(Filter(exams, ExamOfCourse(course.id)), ExamHours)
    ensures m.logsCount == |Filter(logs, LogOfCourse(course.id))| <= |logs|
  {
    var completedUnits := CountStatus(course.units, Completed);
    var modLogsHours := Sum(Filter(logs, LogOfCourse(course.id)), LogHours);
    var modExamsHours := Sum(Filter(exams, ExamOfCourse(course.id)), ExamHours);
    var logsCount := |Filter(logs, LogOfCourse(course.id))|;
    ModuleStats(completedUnits, modLogsHours + modExamsHours, logsCount)
  }

  /** A module's logged hours are part of the global ones, and its
      completed units part of the global count when it is one of the
      courses. */
  lemma ModuleWithinGlobal(courses: seq<Course>, k: nat, logs: seq<ClassLog>, exams: seq<Exam>)
    requires k < |courses|
    ensures ModuleSummary(courses[k], logs, exams).hoursLogged <= GlobalSummary(courses, logs, exams).totalHoursLogged
    ensures ModuleSummary(courses[k], logs, exams).completedUnits <= GlobalSummary(courses, logs, exams).completedUnits
  {
    SumFilterLe(logs, LogOfCourse(courses[k].id), LogHours);
    SumFilterLe(exams, ExamOfCourse(courses[k].id), ExamHours);
    SumAtLeastTerm(courses, k, CompletedCount);
  }

  lemma {:induction false} SumAtLeastTerm<T>(s: seq<T>, k: nat, f: T -> nat)
    requires k < |s|
    ensures f(s[k]) <= Sum(s, f)
  {
    if k > 0 {
      SumAtLeastTerm(s[1..], k - 1, f);
    }
  }

  /** The summary's percentage for one course: the rounded share of its
      units that are completed, 0 for a course without units. */
  function CoursePercent(c: Course): (p: int)
    ensures |c.units| > 0 ==>
      var share := CountStatus(c.units, Completed) as real / |c.units| as real * 100.0;
      p as real - 0.5 <= share < p as real + 0.5
    ensures |c.units| == 0 ==> p == 0
    ensures 0 <= p <= 100
    ensures |c.units| > 0 && CountStatus(c.units, Completed) == |c.units| ==> p == 100
    ensures CountStatus(c.units, Completed) == 0 ==> p == 0
  {
    var completed := CountStatus(c.units, Completed);
    var total := |c.units|;
    if total > 0 then RoundedPercent(completed, total) else 0
  }

  // --- Learning results ---------------------------------------------------------------------

  /** `unit?.status === UnitStatus.COMPLETED` for the unit an association
      names. */
  predicate LinksCompleted(a: Association, units: seq<Unit>) {
    var u := FindUnit(units, a.utId);
    u.Some? && u.value.status == Completed
  }

  /** `criterio.asociaciones.some(...)` */
  predicate AnyLinksCompleted(assocs: seq<Association>, units: seq<Unit>) {
    assocs != [] && (LinksCompleted(assocs[0], units) || AnyLinksCompleted(assocs[1..], units))
  }

  /** A criterion is achieved when some association of it names a unit of
      the module that is completed. */
  predicate Achieved(c: Criterion, units: seq<Unit>) {
    AnyLinksCompleted(c.associations, units)
  }

  lemma {:induction false} AnyLinksCompletedIff(assocs: seq<Association>, units: seq<Unit>)
    ensures AnyLinksCompleted(assocs, units) <==> exists i :: 0 <= i < |assocs| && LinksCompleted(assocs[i], units)
  {
    if assocs != [] {
      AnyLinksCompletedIff(assocs[1..], units);
      if exists i :: 0 <= i < |assocs| && LinksCompleted(assocs[i], units) {
        var i :| 0 <= i < |assocs| && LinksCompleted(assocs[i], units);
        if i > 0 {
          assert assocs[1..][i - 1] == assocs[i];
        }
      }
    }
  }

  /** With distinct unit ids, a criterion is achieved exactly when one of its
      associations names a completed unit of the module; an association
      naming no unit counts for nothing. */
  lemma AchievedIff(c: Criterion, units: seq<Unit>)
    requires forall i, j :: 0 <= i < j < |units| ==> units[i].id != units[j].id
    ensures Achieved(c, units) <==>
      exists i, k :: 0 <= i < |c.associations| && 0 <= k < |units|
        && units[k].id == c.associations[i].utId && units[k].status == Completed
  {
    AnyLinksCompletedIff(c.associations, units);
    if exists i, k :: 0 <= i < |c.associations| && 0 <= k < |units|
        && units[k].id == c.associations[i].utId && units[k].status == Completed {
      var i, k :| 0 <= i < |c.associations| && 0 <= k < |units|
        && units[k].id == c.associations[i].utId && units[k].status == Completed;
      var u := FindUnit(units, c.associations[i].utId);
      FindUnitFirst(units, c.associations[i].utId);
      var m :| 0 <= m < |units| && units[m] == u.value && forall j :: 0 <= j < m ==> units[j].id != c.associations[i].utId;
      assert m == k;
      assert LinksCompleted(c.associations[i], units);
    }
    if Achieved(c, units) {
      var i :| 0 <= i < |c.associations| && LinksCompleted(c.associations[i], units);
      var u := FindUnit(units, c.associations[i].utId);
      FindUnitFirst(units, c.associations[i].utId);
      var m :| 0 <= m < |units| && units[m] == u.value && forall j :: 0 <= j < m ==> units[j].id != c.associations[i].utId;
      assert units[m].id == c.associations[i].utId && units[m].status == Completed;
    }
  }

  function AchievedIn(units: seq<Unit>): Criterion -> bool {
    (c: Criterion) => Achieved(c, units)
  }

  /** `porcentajeRA`: the rounded share of the learning result's criteria
      that are achieved, 0 without criteria. */
  function AchievedPercent(ra: LearningResult, units: seq<Unit>): (p: int)
    ensures |ra.criteria| > 0 ==>
      var share := |Filter(ra.criteria, AchievedIn(units))| as real / |ra.criteria| as real * 100.0;
      p as real - 0.5 <= share < p as real + 0.5
    ensures |ra.criteria| == 0 ==> p == 0
    ensures 0 <= p <= 100
    ensures p == 0 <== forall i :: 0 <= i < |ra.criteria| ==> !Achieved(ra.criteria[i], units)
    ensures |ra.criteria| > 0 && (forall i :: 0 <= i < |ra.criteria| ==> Achieved(ra.criteria[i], units)) ==> p == 100
  {
    var totalCriterios := |ra.criteria|;
    var criteriosConseguidos := |Filter(ra.criteria, AchievedIn(units))|;
    AchievedCount(ra.criteria, units);
    if totalCriterios > 0 then RoundedPercent(criteriosConseguidos, totalCriterios) else 0
  }

  lemma AchievedCount(criteria: seq<Criterion>, units: seq<Unit>)
    ensures (forall i :: 0 <= i < |criteria| ==> Achieved(criteria[i], units)) ==>
      |Filter(criteria, AchievedIn(units))| == |criteria|
    ensures (forall i :: 0 <= i < |criteria| ==> !Achieved(criteria[i], units)) ==>
      |Filter(criteria, AchievedIn(units))| == 0
  {
    if forall i :: 0 <= i < |criteria| ==> Achieved(criteria[i], units) {
      FilterAll(criteria, AchievedIn(units));
    }
    if forall i :: 0 <= i < |criteria| ==> !Achieved(criteria[i], units) {
      FilterNone(criteria, AchievedIn(units));
    }
  }

  /** Completing a unit never makes a criterion stop being achieved. */
  lemma {:induction false} CompletingKeepsAchieved(assocs: seq<Association>, units: seq<Unit>, k: nat)
    requires k < |units| && (forall i, j :: 0 <= i < j < |units| ==> units[i].id != units[j].id)
    requires AnyLinksCompleted(assocs, units)
    ensures AnyLinksCompleted(assocs, units[k := units[k].(status := Completed)])
  {
    var after := units[k := units[k].(status := Completed)];
    if LinksCompleted(assocs[0], units) {
      var u := FindUnit(units, assocs[0].utId);
      FindUnitFirst(units, assocs[0].utId);
      var m :| 0 <= m < |units| && units[m] == u.value && forall j :: 0 <= j < m ==> units[j].id != assocs[0].utId;
      var v := FindUnit(after, assocs[0].utId);
      assert after[m].id == assocs[0].utId && after[m].status == Completed;
      assert v.Some?;
      FindUnitFirst(after, assocs[0].utId);
      var n :| 0 <= n < |after| && after[n] == v.value && forall j :: 0 <= j < n ==> after[j].id != assocs[0].utId;
      assert n == m;
    } else {
      CompletingKeepsAchieved(assocs[1..], units, k);
    }
  }

  // --- Incidents ------------------------------------------------------------------------------

  /** A log of the course whose class was not delivered as planned. */
  function IsIncidentOf(courseId: Id): ClassLog -> bool {
    (l: ClassLog) => l.courseId == courseId && l.status != Delivered
  }

  /** `(a, b) => b.date - a.date`: later dates first. */
  function LatestFirst(a: ClassLog, b: ClassLog): bool {
    a.date >= b.date
  }

  /** The incident register: the course's incident logs, latest first. */
  function Incidents(courseId: Id, logs: seq<ClassLog>): seq<ClassLog> {
    SortBy(Filter(logs, IsIncidentOf(courseId)), LatestFirst)
  }

  /** The register holds exactly the course's undelivered classes, each as
      often as it was logged, with dates never increasing. */
  lemma IncidentsSpec(courseId: Id, logs: seq<ClassLog>)
    ensures var r := Incidents(courseId, logs);
      multiset(r) == multiset(Filter(logs, IsIncidentOf(courseId)))
      && (forall l :: l in r <==> l in logs && l.courseId == courseId && l.status != Delivered)
      && (forall i, j :: 0 <= i < j < |r| ==> r[i].date >= r[j].date)
  {
    var f := Filter(logs, IsIncidentOf(courseId));
    SortBySorted(f, LatestFirst);
    SortByMembers(f, LatestFirst);
    FilterMembers(logs, IsIncidentOf(courseId));
  }

  /** The register is empty exactly when the course has no incident. */
  lemma NoIncidentsIff(courseId: Id, logs: seq<ClassLog>)
    ensures Incidents(courseId, logs) == [] <==>
      forall i :: 0 <= i < |logs| ==> logs[i].courseId != courseId || logs[i].status == Delivered
  {
    IncidentsSpec(courseId, logs);
    if Incidents(courseId, logs) != [] {
      var l := Incidents(courseId, logs)[0];
      assert l in Incidents(courseId, logs);
      var i :| 0 <= i < |logs| && logs[i] == l;
    }
  }

  // --- Unit breakdown ---------------------------------------------------------------------------

  datatype UnitRow = UnitRow(planT: nat, planP: nat, realT: nat, realP: nat, percTotal: int) {
    /** The percentage is the total realised hours over the total planned
        hours times 100, rounded; 0 without a plan or without hours; 100
        when the plan is met exactly; at most 100 below it. */
    predicate WellFormed() {
      && (planT + planP > 0 ==> RoundsShare(percTotal, realT + realP, planT + planP))
      && percTotal >= 0
      && (planT + planP == 0 || realT + realP == 0 ==> percTotal == 0)
      && (realT + realP == planT + planP > 0 ==> percTotal == 100)
      && (realT + realP <= planT + planP ==> percTotal <= 100)
    }
  }

  /** One row of the unit breakdown: the unit's logged theory and practice
      hours against the planned ones, and the rounded percentage of the
      totals (0 when nothing is planned; above 100 when more was given). */
  function UnitBreakdown(u: Unit, courseId: Id, logs: seq<ClassLog>): (row: UnitRow)
    ensures row.planT == u.hoursPlannedTheory && row.planP == u.hoursPlannedPractice
    ensures row.realT == Sum(Filter(App.UnitLogs(logs, courseId, u.id), IsOfType(Theory)), LogHours)
    ensures row.realP == Sum(Filter(App.UnitLogs(logs, courseId, u.id), IsOfType(Practice)), LogHours)
    ensures row.WellFormed()
  {
    var unitLogs := App.UnitLogs(logs, courseId, u.id);
    var realT := Sum(Filter(unitLogs, IsOfType(Theory)), LogHours);
    var realP := Sum(Filter(unitLogs, IsOfType(Practice)), LogHours);
    MakeRow(u.hoursPlannedTheory, u.hoursPlannedPractice, realT, realP)
  }

  /** A row from its four hour counts, with the rounded percentage of the
      totals. */
  function MakeRow(planT: nat, planP: nat, realT: nat, realP: nat): (row: UnitRow)
    ensures row.planT == planT && row.planP == planP && row.realT == realT && row.realP == realP
    ensures row.WellFormed()
  {
    var planTotal := planT + planP;
    var realTotal := realT + realP;
    UnitRow(planT, planP, realT, realP, if planTotal > 0 then RoundedPercent(realTotal, planTotal) else 0)
  }

  /** The breakdown recomputes what reconciling the units stores: its
      realised total is the unit's realised hours once brought up to date
      with the logs. */
  lemma BreakdownAgreesWithSync(u: Unit, courseId: Id, logs: seq<ClassLog>)
    ensures var row := UnitBreakdown(u, courseId, logs);
      row.realT + row.realP == App.SyncedUnit(u, logs, courseId).hoursRealized
  {
    App.SyncedUnitSpec(u, logs, courseId);
    App.RealizedHoursAllLogs(logs, courseId, u.id);
  }

  // --- Exam unit labels ---------------------------------------------------------------------------

  /** `u ? u.title.split(':')[0] : 'U?'`: a unit is named by its title up to
      the first colon; an id of no unit of the module reads "U?". */
  function UnitLabel(units: seq<Unit>, uid: Id): (s: string)
    ensures FindUnit(units, uid).None? <==> s == "U?" && forall i :: 0 <= i < |units| ==> units[i].id != uid
    ensures FindUnit(units, uid).Some? ==>
      var title := FindUnit(units, uid).value.title;
      s <= title && ':' !in s && (|s| < |title| ==> title[|s|] == ':')
  {
    match FindUnit(units, uid)
    case None => "U?"
    case Some(u) => Before(u.title, ':')
  }

  /** A unit titled `code: rest` is labelled `code`. */
  lemma UnitLabelOfTitle(units: seq<Unit>, uid: Id, code: string, rest: string)
    requires FindUnit(units, uid).Some? && FindUnit(units, uid).value.title == code + ":" + rest
    requires ':' !in code
    ensures UnitLabel(units, uid) == code
  {
    SplitAtFirst(code, ':', rest);
  }

  /** A title without a colon is its own label. */
  lemma UnitLabelWithoutColon(units: seq<Unit>, uid: Id)
    requires FindUnit(units, uid).Some? && ':' !in FindUnit(units, uid).value.title
    ensures UnitLabel(units, uid) == FindUnit(units, uid).value.title
  {
  }

  /** The labels of the units an exam covers, in the exam's order. */
  function ExamUnitLabels(units: seq<Unit>, e: Exam): (r: seq<string>)
    ensures |r| == |e.unitIds|
    ensures forall i :: 0 <= i < |r| ==> r[i] == UnitLabel(units, e.unitIds[i])
  {
    seq(|e.unitIds|, i requires 0 <= i < |e.unitIds| => UnitLabel(units, e.unitIds[i]))
  }
}
