/** Curriculum editing: adding, editing and deleting courses, their units,
    their learning results, the criteria of each learning result and the
    associations of each criterion with units, plus the check of the planned
    hours against the course's annual hours. Every edit replaces the active
    course and nothing else. */
module CourseConfigurator {
  import opened Wrappers
  import opened Seqs
  import opened Text
  import opened Dates
  import opened Types

  // --- Courses ---------------------------------------------------------------------

  /** `courses.find(c => c.id === id)` */
  function FindCourse(courses: seq<Course>, id: Id): (r: Option<Course>)
    ensures r.Some? ==> r.value in courses && r.value.id == id
    ensures r.None? <==> forall i :: 0 <= i < |courses| ==> courses[i].id != id
  {
    if courses == [] then None
    else if courses[0].id == id then Some(courses[0])
    else FindCourse(courses[1..], id)
  }

  /** The course found is the first one with that id. */
  lemma {:induction false} FindCourseFirst(courses: seq<Course>, id: Id)
    requires FindCourse(courses, id).Some?
    ensures exists i :: 0 <= i < |courses| && courses[i] == FindCourse(courses, id).value && forall j :: 0 <= j < i ==> courses[j].id != id
  {
    if courses[0].id != id {
      FindCourseFirst(courses[1..], id);
      var i :| 0 <= i < |courses[1..]| && courses[1..][i] == FindCourse(courses[1..], id).value
        && forall j :: 0 <= j < i ==> courses[1..][j].id != id;
      assert courses[i + 1] == FindCourse(courses, id).value;
    } else {
      assert courses[0] == FindCourse(courses, id).value;
    }
  }

  /** `updateGlobalCourse`: the course with the updated course's id is
      replaced by it; every other course is kept in place. */
  function UpdateCourse(courses: seq<Course>, updated: Course): (r: seq<Course>)
    ensures |r| == |courses|
    ensures forall i :: 0 <= i < |courses| ==> r[i] == if courses[i].id == updated.id then updated else courses[i]
  {
    seq(|courses|, i requires 0 <= i < |courses| => if courses[i].id == updated.id then updated else courses[i])
  }

  /** `r` is `courses` with `edited` in place of the active course(s). */
  predicate ReplacesActive(courses: seq<Course>, r: seq<Course>, activeId: Id, edited: Course) {
    |r| == |courses| && forall i :: 0 <= i < |courses| ==> r[i] == if courses[i].id == activeId then edited else courses[i]
  }

  /** `handleAddNewCourse`: an empty course is appended and becomes active. */
  function AddCourse(courses: seq<Course>, newId: Id): (r: (seq<Course>, Id))
    ensures |r.0| == |courses| + 1 && r.0[..|courses|] == courses
    ensures r.1 == newId && r.0[|courses|].id == newId
    ensures r.0[|courses|].units == [] && r.0[|courses|].learningResults == []
  {
    var newCourse := Course(newId, "Nuevo Módulo", "Ciclo Formativo", "1º", 0, 0, Some("#a18072"), [], []);
    (courses + [newCourse], newCourse.id)
  }

  function CourseNotId(id: Id): Course -> bool {
    (c: Course) => c.id != id
  }

  /** `handleDeleteCourse`: once confirmed, every course with that id goes and
      the first remaining one (or none) becomes active. */
  function DeleteCourse(courses: seq<Course>, activeId: Id, id: Id, confirmed: bool): (r: (seq<Course>, Id))
    ensures !confirmed ==> r == (courses, activeId)
    ensures confirmed ==>
      (forall i :: 0 <= i < |r.0| ==> r.0[i].id != id)
      && (forall i :: 0 <= i < |courses| && courses[i].id != id ==> courses[i] in r.0)
      && r.1 == (if r.0 == [] then "" else r.0[0].id)
  {
    if !confirmed then (courses, activeId)
    else
      var updated := Filter(courses, CourseNotId(id));
      (updated, if |updated| > 0 then updated[0].id else "")
  }

  /** With unique ids, deleting the course at index `k` removes exactly it,
      and the active course becomes the first of the others. */
  lemma DeleteCourseRemovesOne(courses: seq<Course>, activeId: Id, k: nat)
    requires k < |courses|
    requires forall i, j :: 0 <= i < j < |courses| ==> courses[i].id != courses[j].id
    ensures DeleteCourse(courses, activeId, courses[k].id, true).0 == courses[..k] + courses[k + 1..]
    ensures DeleteCourse(courses, activeId, courses[k].id, true).1 ==
      if |courses| == 1 then "" else if k == 0 then courses[1].id else courses[0].id
  {
    FilterRemovesOne(courses, k, CourseNotId(courses[k].id));
    var rest := courses[..k] + courses[k + 1..];
    if |courses| > 1 {
      assert rest[0] == if k == 0 then courses[1] else courses[0];
    }
  }

  /** The editable fields of a course. */
  datatype CourseField = Name(name: string) | Cycle(cycle: string) | Grade(grade: string) | AnnualHours(hours: nat)

  function SetCourseField(c: Course, f: CourseField): (r: Course)
    ensures r.id == c.id && r.units == c.units && r.learningResults == c.learningResults
    ensures f.Name? ==> r == c.(name := f.name)
    ensures f.Cycle? ==> r == c.(cycle := f.cycle)
    ensures f.Grade? ==> r == c.(grade := f.grade)
    ensures f.AnnualHours? ==> r == c.(annualHours := f.hours)
  {
    match f
    case Name(v) => c.(name := v)
    case Cycle(v) => c.(cycle := v)
    case Grade(v) => c.(grade := v)
    case AnnualHours(v) => c.(annualHours := v)
  }

  /** The course header edits: one field of the active course. */
  function EditCourse(courses: seq<Course>, activeId: Id, f: CourseField): (r: seq<Course>)
    ensures FindCourse(courses, activeId).None? ==> r == courses
    ensures FindCourse(courses, activeId).Some? ==>
      ReplacesActive(courses, r, activeId, SetCourseField(FindCourse(courses, activeId).value, f))
  {
    match FindCourse(courses, activeId)
    case None => courses
    case Some(c) => UpdateCourse(courses, SetCourseField(c, f))
  }

  // --- Units -----------------------------------------------------------------------

  /** `handleAddUnit`'s new unit: numbered after the existing ones, pending,
      in the first term, with 5 theory and 10 practice hours planned. */
  function NewUnit(id: Id, count: nat): (u: Unit)
    ensures u.title == "UD" + NatToString(count + 1) + ": Título"
    ensures u.hoursRealized == 0 && u.status == Pending && u.terms == [1]
    ensures u.hoursPlannedTheory == 5 && u.hoursPlannedPractice == 10
  {
    Unit(id, "UD" + NatToString(count + 1) + ": Título", "Descripción breve...", 5, 10, 0, Pending, [1])
  }

  /** `handleAddUnit` */
  function AddUnit(courses: seq<Course>, activeId: Id, newId: Id): (r: seq<Course>)
    ensures FindCourse(courses, activeId).None? ==> r == courses
    ensures FindCourse(courses, activeId).Some? ==>
      var c := FindCourse(courses, activeId).value;
      ReplacesActive(courses, r, activeId, c.(units := c.units + [NewUnit(newId, |c.units|)]))
  {
    match FindCourse(courses, activeId)
    case None => courses
    case Some(c) => UpdateCourse(courses, c.(units := c.units + [NewUnit(newId, |c.units|)]))
  }

  /** The fields of a unit the configurator edits. */
  datatype UnitField =
    | Title(title: string) | Description(description: string)
    | PlannedTheory(theory: nat) | PlannedPractice(practice: nat) | Terms(terms: seq<int>)

  /** `{ ...u, [field]: value }`: that field takes the value, every other
      field keeps its own. */
  function SetUnitField(u: Unit, f: UnitField): (r: Unit)
    ensures r.id == u.id && r.hoursRealized == u.hoursRealized && r.status == u.status
    ensures f.Title? ==> r == u.(title := f.title)
    ensures f.Description? ==> r == u.(description := f.description)
    ensures f.PlannedTheory? ==> r == u.(hoursPlannedTheory := f.theory)
    ensures f.PlannedPractice? ==> r == u.(hoursPlannedPractice := f.practice)
    ensures f.Terms? ==> r == u.(terms := f.terms)
  {
    match f
    case Title(v) => u.(title := v)
    case Description(v) => u.(description := v)
    case PlannedTheory(v) => u.(hoursPlannedTheory := v)
    case PlannedPractice(v) => u.(hoursPlannedPractice := v)
    case Terms(v) => u.(terms := v)
  }

  /** The units with the field of the unit(s) of that id edited. */
  function EditUnits(units: seq<Unit>, unitId: Id, f: UnitField): (r: seq<Unit>)
    ensures |r| == |units|
    ensures forall i :: 0 <= i < |units| ==> r[i] == if units[i].id == unitId then SetUnitField(units[i], f) else units[i]
  {
    seq(|units|, i requires 0 <= i < |units| => if units[i].id == unitId then SetUnitField(units[i], f) else units[i])
  }

  /** `handleUpdateUnit`: only that field of that unit of the active course
      changes; its other units and its learning results stay. */
  function UpdateUnit(courses: seq<Course>, activeId: Id, unitId: Id, f: UnitField): (r: seq<Course>)
    ensures FindCourse(courses, activeId).None? ==> r == courses
    ensures FindCourse(courses, activeId).Some? ==>
      var c := FindCourse(courses, activeId).value;
      ReplacesActive(courses, r, activeId, c.(units := EditUnits(c.units, unitId, f)))
  {
    match FindCourse(courses, activeId)
    case None => courses
    case Some(c) => UpdateCourse(courses, c.(units := EditUnits(c.units, unitId, f)))
  }

  function UnitNotId(id: Id): Unit -> bool {
    (u: Unit) => u.id != id
  }

  /** `handleDeleteUnit`: the unit goes; the learning results, and with them
      every association naming it, are left as they were. */
  function DeleteUnit(courses: seq<Course>, activeId: Id, unitId: Id): (r: seq<Course>)
    ensures FindCourse(courses, activeId).None? ==> r == courses
    ensures FindCourse(courses, activeId).Some? ==>
      var c := FindCourse(courses, activeId).value;
      ReplacesActive(courses, r, activeId, c.(units := Filter(c.units, UnitNotId(unitId))))
  {
    match FindCourse(courses, activeId)
    case None => courses
    case Some(c) => UpdateCourse(courses, c.(units := Filter(c.units, UnitNotId(unitId))))
  }

  // --- Terms -------------------------------------------------------------------------

  function TermLe(a: int, b: int): bool {
    a <= b
  }

  function NotTerm(t: int): int -> bool {
    (x: int) => x != t
  }

  /** The terms after `toggleTrimestre`: an absent term is added; a present
      one is removed only while others remain; the result is sorted. */
  function ToggledTerms(terms: seq<int>, trim: int): seq<int> {
    var newTrims :=
      if trim in terms then (if |terms| > 1 then Filter(terms, NotTerm(trim)) else terms)
      else terms + [trim];
    SortBy(newTrims, TermLe)
  }

  /** `toggleTrimestre` on the unit's list of terms: copied, the term pushed or
      filtered out, then sorted. */
  method ToggleTerms(terms: seq<int>, trim: int) returns (newTrims: seq<int>)
    ensures newTrims == ToggledTerms(terms, trim)
  {
    newTrims := terms;
    if trim in newTrims {
      if |newTrims| > 1 {
        newTrims := Filter(newTrims, NotTerm(trim));
      }
    } else {
      newTrims := newTrims + [trim];
    }
    newTrims := SortBy(newTrims, TermLe);
  }

  /** `toggleTrimestre`: with an active course that has the unit, the first
      unit of that id has its terms toggled and the result saved through
      `handleUpdateUnit`; otherwise nothing changes. */
  method ToggleTrimestre(courses: seq<Course>, activeId: Id, unitId: Id, trim: int) returns (r: seq<Course>)
    ensures FindCourse(courses, activeId).None? ==> r == courses
    ensures FindCourse(courses, activeId).Some? && FindUnit(FindCourse(courses, activeId).value.units, unitId).None? ==> r == courses
    ensures FindCourse(courses, activeId).Some? && FindUnit(FindCourse(courses, activeId).value.units, unitId).Some? ==>
      var u := FindUnit(FindCourse(courses, activeId).value.units, unitId).value;
      r == UpdateUnit(courses, activeId, unitId, Terms(ToggledTerms(u.terms, trim)))
  {
    var active := FindCourse(courses, activeId);
    if active.None? {
      return courses;
    }
    var unit := FindUnit(active.value.units, unitId);
    if unit.None? {
      return courses;
    }
    var newTrims := ToggleTerms(unit.value.terms, trim);
    r := UpdateUnit(courses, activeId, unitId, Terms(newTrims));
  }

  /** The toggled list is sorted; the term is in it exactly when it was absent
      or was the only term; every other term keeps its membership. */
  lemma ToggledTermsSpec(terms: seq<int>, trim: int)
    ensures SortedBy(ToggledTerms(terms, trim), TermLe)
    ensures trim in ToggledTerms(terms, trim) <==> trim !in terms || |terms| <= 1
    ensures forall x :: x != trim ==> (x in ToggledTerms(terms, trim) <==> x in terms)
  {
    var newTrims :=
      if trim in terms then (if |terms| > 1 then Filter(terms, NotTerm(trim)) else terms)
      else terms + [trim];
    SortBySorted(newTrims, TermLe);
    SortByMembers(newTrims, TermLe);
    FilterMembers(terms, NotTerm(trim));
  }

  /** A list of distinct terms never becomes empty. */
  lemma ToggledTermsNonEmpty(terms: seq<int>, trim: int)
    requires terms != []
    requires forall i, j :: 0 <= i < j < |terms| ==> terms[i] != terms[j]
    ensures ToggledTerms(terms, trim) != []
  {
    ToggledTermsSpec(terms, trim);
    if trim in terms && |terms| > 1 {
      var k :| 0 <= k < |terms| && terms[k] == trim;
      var other := if k == 0 then terms[1] else terms[0];
      assert other != trim;
      assert other in terms;
    } else if trim !in terms {
      assert trim in ToggledTerms(terms, trim);
    } else {
      assert trim in ToggledTerms(terms, trim);
    }
  }

  /** With a repeated term the guard on the length is not enough: `[2, 2]`
      toggled at 2 loses every term. */
  lemma ToggledTermsRepeated()
    ensures ToggledTerms([2, 2], 2) == []
  {
    assert Filter([2, 2], NotTerm(2)) == [];
  }

  // --- Learning results ----------------------------------------------------------------

  /** `handleAddRa`'s new learning result: numbered after the existing ones,
      weightless and without criteria. */
  function NewRa(id: Id, count: nat): (ra: LearningResult)
    ensures ra.code == "RA" + NatToString(count + 1) && ra.weight == 0.0 && ra.criteria == []
  {
    LearningResult(id, "RA" + NatToString(count + 1), "Nuevo Resultado de Aprendizaje...", 0.0, [])
  }

  function AddRa(courses: seq<Course>, activeId: Id, newId: Id): (r: seq<Course>)
    ensures FindCourse(courses, activeId).None? ==> r == courses
    ensures FindCourse(courses, activeId).Some? ==>
      var c := FindCourse(courses, activeId).value;
      ReplacesActive(courses, r, activeId,
                     c.(learningResults := c.learningResults + [NewRa(newId, |c.learningResults|)]))
  {
    match FindCourse(courses, activeId)
    case None => courses
    case Some(c) => UpdateCourse(courses, c.(learningResults := c.learningResults + [NewRa(newId, |c.learningResults|)]))
  }

  datatype RaField = RaCode(code: string) | RaDescription(description: string) | RaWeight(weight: real)

  function SetRaField(ra: LearningResult, f: RaField): (r: LearningResult)
    ensures r.id == ra.id && r.criteria == ra.criteria
    ensures f.RaCode? ==> r == ra.(code := f.code)
    ensures f.RaDescription? ==> r == ra.(description := f.description)
    ensures f.RaWeight? ==> r == ra.(weight := f.weight)
  {
    match f
    case RaCode(v) => ra.(code := v)
    case RaDescription(v) => ra.(description := v)
    case RaWeight(v) => ra.(weight := v)
  }

  /** `learningResults.map(ra => ra.id === raId ? edit(ra) : ra)` for the
      edits below: the learning result(s) with that id are rebuilt, the others
      are kept in place. */
  datatype RaEdit =
    | EditRaField(field: RaField)
    | AddCriterionTo(newCriterion: Criterion)
    | EditCriterion(critId: Id, criterionEdit: CriterionEdit)
    | DeleteCriterionFrom(critId: Id)

  /** The edits of one criterion. */
  datatype CriterionEdit =
    | EditCriterionField(cfield: CriterionField)
    | AddAssociationTo(association: Association)
    | EditAssociation(assocId: Id, afield: AssociationField)
    | DeleteAssociationFrom(assocId: Id)

  datatype CriterionField = CritCode(code: string) | CritDescription(description: string) | CritWeight(weight: real)

  datatype AssociationField = UnitLink(utId: Id) | Instruments(instruments: seq<string>)

  function SetAssociationField(a: Association, f: AssociationField): (r: Association)
    ensures r.id == a.id
    ensures f.UnitLink? ==> r == a.(utId := f.utId)
    ensures f.Instruments? ==> r == a.(instruments := f.instruments)
  {
    match f
    case UnitLink(v) => a.(utId := v)
    case Instruments(v) => a.(instruments := v)
  }

  function SetCriterionField(c: Criterion, f: CriterionField): (r: Criterion)
    ensures r.id == c.id && r.raId == c.raId && r.associations == c.associations
    ensures f.CritCode? ==> r == c.(code := f.code)
    ensures f.CritDescription? ==> r == c.(description := f.description)
    ensures f.CritWeight? ==> r == c.(weight := f.weight)
  {
    match f
    case CritCode(v) => c.(code := v)
    case CritDescription(v) => c.(description := v)
    case CritWeight(v) => c.(weight := v)
  }

  function AssocNotId(id: Id): Association -> bool {
    (a: Association) => a.id != id
  }

  /** The associations with the one(s) of that id edited. */
  function EditAssociations(assocs: seq<Association>, assocId: Id, f: AssociationField): (r: seq<Association>)
    ensures |r| == |assocs|
    ensures forall i :: 0 <= i < |assocs| ==>
      r[i] == if assocs[i].id == assocId then SetAssociationField(assocs[i], f) else assocs[i]
  {
    seq(|assocs|, i requires 0 <= i < |assocs| =>
      if assocs[i].id == assocId then SetAssociationField(assocs[i], f) else assocs[i])
  }

  /** One criterion edited: a field, or its associations (one appended, one
      edited, or those of an id removed). The id and the learning result it
      belongs to never change. */
  function ApplyCriterionEdit(c: Criterion, e: CriterionEdit): (r: Criterion)
    ensures r.id == c.id && r.raId == c.raId
    ensures !e.EditCriterionField? ==> r.code == c.code && r.description == c.description && r.weight == c.weight
    ensures e.AddAssociationTo? ==> r.associations == c.associations + [e.association]
    ensures e.DeleteAssociationFrom? ==>
      (forall i :: 0 <= i < |r.associations| ==> r.associations[i].id != e.assocId)
      && (forall a :: a in c.associations && a.id != e.assocId ==> a in r.associations)
  {
    match e
    case EditCriterionField(f) => SetCriterionField(c, f)
    case AddAssociationTo(a) => c.(associations := c.associations + [a])
    case EditAssociation(assocId, f) => c.(associations := EditAssociations(c.associations, assocId, f))
    case DeleteAssociationFrom(assocId) => c.(associations := Filter(c.associations, AssocNotId(assocId)))
  }

  function CritNotId(id: Id): Criterion -> bool {
    (c: Criterion) => c.id != id
  }

  /** The criteria with the one(s) of that id edited. */
  function EditCriteria(criteria: seq<Criterion>, critId: Id, e: CriterionEdit): (r: seq<Criterion>)
    ensures |r| == |criteria|
    ensures forall i :: 0 <= i < |criteria| ==>
      r[i] == if criteria[i].id == critId then ApplyCriterionEdit(criteria[i], e) else criteria[i]
  {
    seq(|criteria|, i requires 0 <= i < |criteria| =>
      if criteria[i].id == critId then ApplyCriterionEdit(criteria[i], e) else criteria[i])
  }

  /** One learning result edited: a field, or its criteria. */
  function ApplyRaEdit(ra: LearningResult, e: RaEdit): (r: LearningResult)
    ensures r.id == ra.id
    ensures !e.EditRaField? ==> r.code == ra.code && r.description == ra.description && r.weight == ra.weight
    ensures e.AddCriterionTo? ==> r.criteria == ra.criteria + [e.newCriterion]
    ensures e.DeleteCriterionFrom? ==>
      (forall i :: 0 <= i < |r.criteria| ==> r.criteria[i].id != e.critId)
      && (forall c :: c in ra.criteria && c.id != e.critId ==> c in r.criteria)
    ensures e.EditCriterion? ==> |r.criteria| == |ra.criteria|
  {
    match e
    case EditRaField(f) => SetRaField(ra, f)
    case AddCriterionTo(c) => ra.(criteria := ra.criteria + [c])
    case EditCriterion(critId, ce) => ra.(criteria := EditCriteria(ra.criteria, critId, ce))
    case DeleteCriterionFrom(critId) => ra.(criteria := Filter(ra.criteria, CritNotId(critId)))
  }

  /** The learning results with the one(s) of that id edited. */
  function EditRas(ras: seq<LearningResult>, raId: Id, e: RaEdit): (r: seq<LearningResult>)
    ensures |r| == |ras|
    ensures forall i :: 0 <= i < |ras| ==> r[i] == if ras[i].id == raId then ApplyRaEdit(ras[i], e) else ras[i]
  {
    seq(|ras|, i requires 0 <= i < |ras| => if ras[i].id == raId then ApplyRaEdit(ras[i], e) else ras[i])
  }

  /** `handleUpdateRa`, `handleUpdateCriterion`, `handleUpdateAssociation`,
      `handleAddAssociation`, `handleDeleteCriterion` and
      `handleDeleteAssociation`: the edit reaches the learning result of that
      id in the active course; its units, the other learning results and every
      other course stay as they were. */
  function UpdateRas(courses: seq<Course>, activeId: Id, raId: Id, e: RaEdit): (r: seq<Course>)
    ensures FindCourse(courses, activeId).None? ==> r == courses
    ensures FindCourse(courses, activeId).Some? ==>
      var c := FindCourse(courses, activeId).value;
      ReplacesActive(courses, r, activeId, c.(learningResults := EditRas(c.learningResults, raId, e)))
  {
    match FindCourse(courses, activeId)
    case None => courses
    case Some(c) => UpdateCourse(courses, c.(learningResults := EditRas(c.learningResults, raId, e)))
  }

  function RaNotId(id: Id): LearningResult -> bool {
    (ra: LearningResult) => ra.id != id
  }

  /** `handleDeleteRa` */
  function DeleteRa(courses: seq<Course>, activeId: Id, raId: Id): (r: seq<Course>)
    ensures FindCourse(courses, activeId).None? ==> r == courses
    ensures FindCourse(courses, activeId).Some? ==>
      var c := FindCourse(courses, activeId).value;
      ReplacesActive(courses, r, activeId, c.(learningResults := Filter(c.learningResults, RaNotId(raId))))
  {
    match FindCourse(courses, activeId)
    case None => courses
    case Some(c) => UpdateCourse(courses, c.(learningResults := Filter(c.learningResults, RaNotId(raId))))
  }

  // --- Criterion codes -------------------------------------------------------------------

  /** `String.fromCharCode(97 + n)`: the n-th letter from `a`. Code points
      from the surrogate range on have no `char` and are written `?`. */
  function CodeLetter(n: nat): (c: char)
    ensures n < 26 ==> 'a' <= c <= 'z' && c as int == 97 + n
  {
    if 97 + n < 0xD800 then (97 + n) as char else '?'
  }

  /** The code of a learning result's next criterion: its own code without
      the first "RA" and trimmed, a dot, and the letter of the criterion's
      position. */
  function CriterionCode(raCode: string, count: nat): (code: string)
    ensures |code| >= 2 && code[|code| - 2] == '.' && code[|code| - 1] == CodeLetter(count)
    ensures code[..|code| - 2] == CodePrefix(raCode)
  {
    var prefix := CodePrefix(raCode);
    LastTwo(prefix, '.', CodeLetter(count));
    prefix + "." + [CodeLetter(count)]
  }

  /** `ra.codigo.replace('RA', '').trim()` */
  function CodePrefix(raCode: string): string {
    Trim(ReplaceFirst(raCode, "RA", ""))
  }

  lemma LastTwo<T>(p: seq<T>, a: T, b: T)
    ensures var s := p + [a] + [b]; |s| == |p| + 2 && s[|p|] == a && s[|p| + 1] == b && s[..|p|] == p
  {
  }

  /** The first criterion of "RA1" is "1.a", its third "1.c". */
  lemma CriterionCodeGolden()
    ensures CriterionCode("RA1", 0) == "1.a"
    ensures CriterionCode("RA1", 2) == "1.c"
  {
    CodePrefixRa1();
    assert CodeLetter(0) == 'a' && CodeLetter(2) == 'c';
    assert "1" + "." + ['a'] == "1.a";
    assert "1" + "." + ['c'] == "1.c";
  }

  lemma CodePrefixRa1()
    ensures CodePrefix("RA1") == "1"
  {
    ReplaceRa1();
    TrimOne();
  }

  lemma ReplaceRa1()
    ensures ReplaceFirst("RA1", "RA", "") == "1"
  {
    assert "RA" <= "RA1";
    assert "RA1"[2..] == "1";
  }

  lemma TrimOne()
    ensures Trim("1") == "1"
  {
    TrimUntouched("1");
  }

  /** Consecutive criteria of a learning result get distinct codes. */
  lemma CriterionCodesDistinct(raCode: string, m: nat, n: nat)
    requires m < n < 26
    ensures CriterionCode(raCode, m) != CriterionCode(raCode, n)
  {
    var a, b := CriterionCode(raCode, m), CriterionCode(raCode, n);
    assert a[|a| - 1] != b[|b| - 1];
  }

  /** `handleAddCriterion`'s new criterion. */
  function NewCriterion(id: Id, ra: LearningResult): (c: Criterion)
    ensures c.code == CriterionCode(ra.code, |ra.criteria|) && c.raId == ra.id
    ensures c.weight == 0.0 && c.associations == []
  {
    Criterion(id, CriterionCode(ra.code, |ra.criteria|), "Descripción del criterio...", 0.0, ra.id, [])
  }

  /** `ra`'s first learning result of that id. */
  function FindRa(ras: seq<LearningResult>, id: Id): (r: Option<LearningResult>)
    ensures r.Some? ==> r.value in ras && r.value.id == id
    ensures r.None? <==> forall i :: 0 <= i < |ras| ==> ras[i].id != id
  {
    if ras == [] then None
    else if ras[0].id == id then Some(ras[0])
    else FindRa(ras[1..], id)
  }

  /** The learning result found is the first one with that id. */
  lemma {:induction false} FindRaFirst(ras: seq<LearningResult>, id: Id)
    requires FindRa(ras, id).Some?
    ensures exists i :: 0 <= i < |ras| && ras[i] == FindRa(ras, id).value && forall j :: 0 <= j < i ==> ras[j].id != id
  {
    if ras[0].id != id {
      FindRaFirst(ras[1..], id);
      var i :| 0 <= i < |ras[1..]| && ras[1..][i] == FindRa(ras[1..], id).value
        && forall j :: 0 <= j < i ==> ras[1..][j].id != id;
      assert ras[i + 1] == FindRa(ras, id).value;
    } else {
      assert ras[0] == FindRa(ras, id).value;
    }
  }

  /** `handleAddCriterion`: nothing without an active course or a learning
      result of that id; otherwise a criterion coded after it is appended to
      it. */
  function AddCriterion(courses: seq<Course>, activeId: Id, raId: Id, newId: Id): (r: seq<Course>)
    ensures FindCourse(courses, activeId).None? ==> r == courses
    ensures FindCourse(courses, activeId).Some? && FindRa(FindCourse(courses, activeId).value.learningResults, raId).None? ==>
      r == courses
    ensures FindCourse(courses, activeId).Some? && FindRa(FindCourse(courses, activeId).value.learningResults, raId).Some? ==>
      var ra := FindRa(FindCourse(courses, activeId).value.learningResults, raId).value;
      r == UpdateRas(courses, activeId, raId, AddCriterionTo(NewCriterion(newId, ra)))
  {
    match FindCourse(courses, activeId)
    case None => courses
    case Some(c) =>
      match FindRa(c.learningResults, raId)
      case None => courses
      case Some(ra) => UpdateRas(courses, activeId, raId, AddCriterionTo(NewCriterion(newId, ra)))
  }

  /** `handleAddAssociation`'s new association: linked to the course's first
      unit, or to nothing when it has none. */
  function NewAssociation(id: Id, units: seq<Unit>): (a: Association)
    ensures a.utId == (if units == [] then "" else units[0].id) && a.instruments == []
  {
    Association(id, if units == [] then "" else units[0].id, [])
  }

  /** `handleAddAssociation` */
  function AddAssociation(courses: seq<Course>, activeId: Id, raId: Id, critId: Id, newId: Id): (r: seq<Course>)
    ensures FindCourse(courses, activeId).None? ==> r == courses
    ensures FindCourse(courses, activeId).Some? ==>
      var c := FindCourse(courses, activeId).value;
      r == UpdateRas(courses, activeId, raId, EditCriterion(critId, AddAssociationTo(NewAssociation(newId, c.units))))
  {
    match FindCourse(courses, activeId)
    case None => courses
    case Some(c) => UpdateRas(courses, activeId, raId, EditCriterion(critId, AddAssociationTo(NewAssociation(newId, c.units))))
  }

  /** Editing one association changes no other criterion or learning result
      and no other association of its criterion. */
  lemma AssociationEditIsLocal(ras: seq<LearningResult>, raId: Id, critId: Id, assocId: Id, f: AssociationField,
                               i: nat, j: nat, k: nat)
    requires i < |ras| && j < |ras[i].criteria| && k < |ras[i].criteria[j].associations|
    requires ras[i].id != raId || ras[i].criteria[j].id != critId || ras[i].criteria[j].associations[k].id != assocId
    ensures var r := EditRas(ras, raId, EditCriterion(critId, EditAssociation(assocId, f)));
      |r[i].criteria| == |ras[i].criteria| && |r[i].criteria[j].associations| == |ras[i].criteria[j].associations|
      && r[i].criteria[j].associations[k] == ras[i].criteria[j].associations[k]
  {
  }

  // --- Hour balance ----------------------------------------------------------------------

  function TheoryPlanned(u: Unit): nat {
    u.hoursPlannedTheory
  }

  function PracticePlanned(u: Unit): nat {
    u.hoursPlannedPractice
  }

  /** The hours the course's units plan in all. */
  function TotalPlannedHours(c: Course): nat {
    Sum(c.units, TheoryPlanned) + Sum(c.units, PracticePlanned)
  }

  datatype HourBalance = Excess(over: nat) | Perfect | Unassigned(remaining: int)

  /** The verdict on the planned hours against the annual hours. */
  function Balance(c: Course): (b: HourBalance)
    ensures b.Excess? <==> TotalPlannedHours(c) > c.annualHours
    ensures b.Excess? ==> b.over == TotalPlannedHours(c) - c.annualHours > 0
    ensures b.Perfect? <==> TotalPlannedHours(c) == c.annualHours > 0
    ensures b.Unassigned? ==> b.remaining == c.annualHours - TotalPlannedHours(c) >= 0
  {
    var total := TotalPlannedHours(c);
    if total > c.annualHours then Excess(total - c.annualHours)
    else if total == c.annualHours && c.annualHours > 0 then Perfect
    else Unassigned(c.annualHours - total)
  }

  /** The status line: its colour and text, chosen by reassigning the
      defaults. */
  method BalanceStatus(c: Course) returns (statusColor: string, statusText: string)
    ensures Balance(c).Excess? ==> statusColor == "text-red-500" && statusText == "Exceso (" + NatToString(Balance(c).over) + "h)"
    ensures Balance(c).Perfect? ==> statusColor == "text-green-600" && statusText == "Cuadre Perfecto"
    ensures Balance(c).Unassigned? ==>
      statusColor == "text-gray-600" && statusText == "Faltan asignar " + IntToString(Balance(c).remaining) + "h"
  {
    var sumTheory := Sum(c.units, TheoryPlanned);
    var sumPractice := Sum(c.units, PracticePlanned);
    var totalPlannedHours := sumTheory + sumPractice;
    var annualHours := c.annualHours;
    var hoursDiff := annualHours as int - totalPlannedHours as int;
    assert totalPlannedHours == TotalPlannedHours(c);
    statusColor := "text-gray-600";
    statusText := "Cuadre Pendiente";
    if totalPlannedHours > annualHours {
      assert Balance(c) == Excess(-hoursDiff);
      statusColor := "text-red-500";
      statusText := "Exceso (" + NatToString(-hoursDiff) + "h)";
    } else if totalPlannedHours == annualHours && annualHours > 0 {
      assert Balance(c) == Perfect;
      statusColor := "text-green-600";
      statusText := "Cuadre Perfecto";
    } else {
      assert Balance(c) == Unassigned(hoursDiff);
      statusText := "Faltan asignar " + IntToString(hoursDiff) + "h";
    }
  }
}
