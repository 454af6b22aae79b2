/** Academic progress: how far each criterion of a learning result has got,
    judged by the hours realised in the units it is linked to, the weighted
    progress of the learning result, and the unit and module percentages. */
module UnitsTracker {
  import opened Seqs
  import opened Numbers
  import opened Types

  // --- Linked units ------------------------------------------------------------

  function AssociationUnit(a: Association): Id {
    a.utId
  }

  function NonEmpty(id: Id): bool {
    id != ""
  }

  /** The unit ids a criterion's associations name, empty ones left out. */
  function LinkedUnitIds(c: Criterion): seq<Id> {
    Filter(seq(|c.associations|, i requires 0 <= i < |c.associations| => c.associations[i].utId), NonEmpty)
  }

  /** An id is linked exactly when it is not empty and some association of
      the criterion names it. */
  lemma LinkedUnitIdsSpec(c: Criterion, id: Id)
    ensures id in LinkedUnitIds(c) <==> id != "" && exists a :: a in c.associations && a.utId == id
  {
    var all := seq(|c.associations|, i requires 0 <= i < |c.associations| => c.associations[i].utId);
    if id != "" && exists a :: a in c.associations && a.utId == id {
      var a :| a in c.associations && a.utId == id;
      var k :| 0 <= k < |c.associations| && c.associations[k] == a;
      assert all[k] == id;
    }
  }

  function IsLinkedTo(ids: seq<Id>): Unit -> bool {
    (u: Unit) => u.id in ids
  }

  /** The course's units a criterion is linked to, in course order. */
  function LinkedUnits(c: Criterion, units: seq<Unit>): (r: seq<Unit>)
    ensures |r| <= |units|
  {
    Filter(units, IsLinkedTo(LinkedUnitIds(c)))
  }

  /** A unit is linked exactly when it is one of the course's units and its
      id is linked, so an id of no unit gives nothing. */
  lemma LinkedUnitsSpec(c: Criterion, units: seq<Unit>, u: Unit)
    ensures u in LinkedUnits(c, units) <==> u in units && u.id in LinkedUnitIds(c)
  {
  }

  /** A unit linked twice still appears once: the linked units never repeat an
      index of the course's list. */
  lemma LinkedUnitsSubsequence(c: Criterion, units: seq<Unit>)
    ensures multiset(LinkedUnits(c, units)) <= multiset(units)
  {
    FilterSubMultiset(units, IsLinkedTo(LinkedUnitIds(c)));
  }

  function Planned(u: Unit): nat {
    u.hoursPlannedTheory + u.hoursPlannedPractice
  }

  function Realized(u: Unit): nat {
    u.hoursRealized
  }

  // --- Criterion progress ------------------------------------------------------

  /** The share of the planned hours of some units already realised,
      capped at 1: 0 when there are no units or they plan no hours. */
  function ProgressOf(linkedUnits: seq<Unit>): (p: real)
    ensures 0.0 <= p <= 1.0
    ensures Sum(linkedUnits, Planned) == 0 ==> p == 0.0
    ensures Sum(linkedUnits, Planned) > 0 ==>
      p == CappedRatio(Sum(linkedUnits, Realized), Sum(linkedUnits, Planned))
  {
    if |linkedUnits| > 0 then
      var totalPlanned := Sum(linkedUnits, Planned);
      var totalRealized := Sum(linkedUnits, Realized);
      if totalPlanned > 0 then CappedRatio(totalRealized, totalPlanned) else 0.0
    else 0.0
  }

  /** A criterion's progress: that of the units it is linked to. */
  function CriterionProgress(c: Criterion, units: seq<Unit>): (p: real)
    ensures 0.0 <= p <= 1.0
  {
    ProgressOf(LinkedUnits(c, units))
  }

  /** A criterion's progress is 0 when its linked units plan no hours, and
      otherwise their realised share of the planned hours, capped at 1. */
  lemma CriterionProgressSpec(c: Criterion, units: seq<Unit>)
    ensures var linked := LinkedUnits(c, units);
      (Sum(linked, Planned) == 0 ==> CriterionProgress(c, units) == 0.0)
      && (Sum(linked, Planned) > 0 ==>
            CriterionProgress(c, units) == CappedRatio(Sum(linked, Realized), Sum(linked, Planned)))
  {
    var linked := LinkedUnits(c, units);
    assert CriterionProgress(c, units) == ProgressOf(linked);
  }

  /** A criterion's weight times its progress. */
  function Contribution(c: Criterion, units: seq<Unit>): real {
    Scaled(CriterionProgress(c, units), c.weight)
  }

  function ContributionIn(units: seq<Unit>): Criterion -> real {
    (c: Criterion) => Contribution(c, units)
  }

  function Weight(c: Criterion): real {
    c.weight
  }

  /** One row of the learning result's breakdown. */
  datatype CriterionDetail = CriterionDetail(
    id: Id, code: string, description: string, weight: real,
    realProgressPercent: real, contribution: real, linkedUnits: seq<Unit>)

  datatype RaStats = RaStats(percent: real, criteriaDetails: seq<CriterionDetail>)

  function Detail(c: Criterion, units: seq<Unit>): (d: CriterionDetail)
    ensures d.id == c.id && d.code == c.code && d.description == c.description && d.weight == c.weight
    ensures d.realProgressPercent == CriterionProgress(c, units) * 100.0
    ensures 0.0 <= d.realProgressPercent <= 100.0
    ensures d.contribution == Contribution(c, units)
    ensures d.linkedUnits == LinkedUnits(c, units)
  {
    var p := CriterionProgress(c, units);
    CriterionDetail(c.id, c.code, c.description, c.weight, p * 100.0, Contribution(c, units), LinkedUnits(c, units))
  }

  /** The learning result's percentage: the plain sum of the contributions,
      with no rescaling by the total weight. */
  function RaPercent(criteria: seq<Criterion>, units: seq<Unit>): real {
    SumReal(criteria, ContributionIn(units))
  }

  /** The breakdown rows of a list of criteria, one per criterion. */
  function Details(criteria: seq<Criterion>, units: seq<Unit>): (r: seq<CriterionDetail>)
    ensures |r| == |criteria|
  {
    if criteria == [] then []
    else Details(criteria[..|criteria| - 1], units) + [Detail(criteria[|criteria| - 1], units)]
  }

  /** Row `i` of the breakdown belongs to criterion `i`. */
  lemma {:induction false} DetailsAt(criteria: seq<Criterion>, units: seq<Unit>, i: nat)
    requires i < |criteria|
    ensures Details(criteria, units)[i] == Detail(criteria[i], units)
  {
    if i < |criteria| - 1 {
      DetailsAt(criteria[..|criteria| - 1], units, i);
    }
  }

  /** `getRaStats`: the percentage accumulated criterion by criterion, with one
      breakdown row per criterion in order. */
  method GetRaStats(ra: LearningResult, units: seq<Unit>) returns (stats: RaStats)
    ensures stats.percent == RaPercent(ra.criteria, units)
    ensures stats.criteriaDetails == Details(ra.criteria, units)
  {
    var criteria := ra.criteria;
    var totalRaPercent := 0.0;
    var criteriaDetails: seq<CriterionDetail> := [];
    for i := 0 to |criteria|
      invariant totalRaPercent == RaPercent(criteria[..i], units)
      invariant criteriaDetails == Details(criteria[..i], units)
    {
      var detail := Detail(criteria[i], units);
      AccumulateStep(criteria, i, units);
      totalRaPercent := totalRaPercent + detail.contribution;
      criteriaDetails := criteriaDetails + [detail];
    }
    assert criteria[..|criteria|] == criteria;
    stats := RaStats(totalRaPercent, criteriaDetails);
  }

  /** One more criterion adds its contribution to the percentage and its row
      to the breakdown. */
  lemma AccumulateStep(criteria: seq<Criterion>, i: nat, units: seq<Unit>)
    requires i < |criteria|
    ensures RaPercent(criteria[..i + 1], units) == RaPercent(criteria[..i], units) + Detail(criteria[i], units).contribution
    ensures Details(criteria[..i + 1], units) == Details(criteria[..i], units) + [Detail(criteria[i], units)]
  {
    var prefix := criteria[..i + 1];
    assert prefix == criteria[..i] + [criteria[i]];
    PercentSnoc(criteria[..i], criteria[i], units);
    assert prefix[..i] == criteria[..i];
  }

  lemma PercentSnoc(criteria: seq<Criterion>, c: Criterion, units: seq<Unit>)
    ensures RaPercent(criteria + [c], units) == RaPercent(criteria, units) + Detail(c, units).contribution
  {
    SumRealSnoc(criteria, c, ContributionIn(units));
    assert ContributionIn(units)(c) == Detail(c, units).contribution;
  }

  /** With non-negative weights the percentage lies between 0 and the sum of
      the weights; weights that add up to 100 keep it within 0-100. */
  lemma RaPercentBounds(criteria: seq<Criterion>, units: seq<Unit>)
    requires forall i :: 0 <= i < |criteria| ==> criteria[i].weight >= 0.0
    ensures 0.0 <= RaPercent(criteria, units) <= SumReal(criteria, Weight)
  {
    forall i | 0 <= i < |criteria|
      ensures Zero(criteria[i]) <= ContributionIn(units)(criteria[i]) <= Weight(criteria[i])
    {
      ContributionBounds(criteria[i], units);
    }
    SumRealLe(criteria, ContributionIn(units), Weight);
    SumRealLe(criteria, Zero, ContributionIn(units));
    ZeroSum(criteria);
  }

  /** A criterion of non-negative weight contributes between nothing and its
      whole weight. */
  lemma ContributionBounds(c: Criterion, units: seq<Unit>)
    requires c.weight >= 0.0
    ensures 0.0 <= Contribution(c, units) <= c.weight
  {
    ScaleLe(CriterionProgress(c, units), c.weight);
  }

  function Zero(c: Criterion): real {
    0.0
  }

  lemma {:induction false} ZeroSum(criteria: seq<Criterion>)
    ensures SumReal(criteria, Zero) == 0.0
  {
    if criteria != [] {
      ZeroSum(criteria[1..]);
    }
  }

  /** When every criterion is fully realised the percentage is the sum of the
      weights. */
  lemma {:induction false} RaPercentAllDone(criteria: seq<Criterion>, units: seq<Unit>)
    requires forall i :: 0 <= i < |criteria| ==> CriterionProgress(criteria[i], units) == 1.0
    ensures RaPercent(criteria, units) == SumReal(criteria, Weight)
  {
    if criteria != [] {
      var rest := criteria[1..];
      assert forall i :: 0 <= i < |rest| ==> CriterionProgress(rest[i], units) == 1.0 by {
        forall i | 0 <= i < |rest| ensures CriterionProgress(rest[i], units) == 1.0 {
          assert rest[i] == criteria[i + 1];
        }
      }
      RaPercentAllDone(rest, units);
      assert CriterionProgress(criteria[0], units) == 1.0;
      assert ContributionIn(units)(criteria[0]) == Weight(criteria[0]);
    }
  }

  /** Changing a unit the criterion is not linked to (its hours, its status,
      anything but an id that would link it) leaves the criterion's progress
      and contribution as they were. */
  lemma UnlinkedUnitIrrelevant(c: Criterion, units: seq<Unit>, j: nat, u: Unit)
    requires j < |units| && units[j].id !in LinkedUnitIds(c) && u.id !in LinkedUnitIds(c)
    ensures CriterionProgress(c, units[j := u]) == CriterionProgress(c, units)
    ensures Contribution(c, units[j := u]) == Contribution(c, units)
  {
    FilterUpdateDropped(units, j, u, IsLinkedTo(LinkedUnitIds(c)));
    assert LinkedUnits(c, units[j := u]) == LinkedUnits(c, units);
  }

  /** `stats.percent >= 99.9`: shown as complete, with a tolerance for the
      rounding of the weights. */
  predicate RaComplete(stats: RaStats) {
    stats.percent >= 99.9
  }

  /** A learning result whose criteria weigh 100 in total and are all fully
      realised is complete. */
  lemma CompleteWhenAllDone(ra: LearningResult, units: seq<Unit>, stats: RaStats)
    requires SumReal(ra.criteria, Weight) == 100.0
    requires forall i :: 0 <= i < |ra.criteria| ==> CriterionProgress(ra.criteria[i], units) == 1.0
    requires stats.percent == RaPercent(ra.criteria, units)
    ensures RaComplete(stats)
  {
    RaPercentAllDone(ra.criteria, units);
  }

  // --- Unit and module percentages -----------------------------------------------

  /** A unit's progress bar: 0 without planned hours, otherwise the realised
      share in percent, capped at 100. */
  function UnitPercent(u: Unit): (p: real)
    ensures 0.0 <= p <= 100.0
    ensures Planned(u) == 0 ==> p == 0.0
    ensures Planned(u) > 0 && Realized(u) >= Planned(u) ==> p == 100.0
    ensures Planned(u) > 0 && Realized(u) < Planned(u) ==>
      p == Realized(u) as real / Planned(u) as real * 100.0 && p < 100.0
  {
    var uPlanned := Planned(u);
    if uPlanned > 0 then
      RatioFacts(Realized(u), uPlanned);
      MinReal(100.0, Realized(u) as real / uPlanned as real * 100.0)
    else 0.0
  }

  /** How far the realised hours are above (positive) or below (negative) the
      planned ones. */
  function UnitDeviation(u: Unit): (d: int)
    ensures d >= 0 <==> Realized(u) >= Planned(u)
    ensures Planned(u) + d == Realized(u)
  {
    Realized(u) - Planned(u)
  }

  /** A module card's percentage: the realised share of all its units'
      planned hours, rounded; a module that plans no hours divides by 1. */
  function ModulePercent(course: Course): (p: int)
    ensures var share := Sum(course.units, Realized) as real / MaxInt(1, Sum(course.units, Planned)) as real * 100.0;
      p as real - 0.5 <= share < p as real + 0.5
    ensures p >= 0
    ensures Sum(course.units, Realized) <= MaxInt(1, Sum(course.units, Planned)) ==> p <= 100
    ensures Sum(course.units, Realized) == Sum(course.units, Planned) > 0 ==> p == 100
    ensures Sum(course.units, Realized) == 0 ==> p == 0
  {
    var totalRealized := Sum(course.units, Realized);
    var totalPlanned := Sum(course.units, Planned);
    RoundedPercent(totalRealized, MaxInt(1, totalPlanned))
  }
}
