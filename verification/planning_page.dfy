/** The planning page: the yearly planners and the month-keyed plans it
    keeps, their defaults, the two update reducers, and the planner shown
    for the selected year. */
module PlanningPage {
  import opened Common
  import opened YearlyGoalsCard
  import opened MonthlyPlanCard

  datatype YearlyPlanner = YearlyPlanner(year: int, goals: seq<YearlyGoal>)

  /** The planners when nothing is stored: this year and the next, no goals. */
  function DefaultPlanners(currentYear: int): (r: seq<YearlyPlanner>)
    ensures |r| == 2 && r[0].year == currentYear && r[1].year == currentYear + 1
    ensures forall i :: 0 <= i < |r| ==> r[i].goals == []
  {
    [YearlyPlanner(currentYear, []), YearlyPlanner(currentYear + 1, [])]
  }

  /** The plans when nothing is stored, built month by month: one empty
      plan under each of the twelve month names and nothing else. */
  method DefaultMonthlyPlans() returns (plans: map<string, MonthlyPlan>)
    ensures forall m :: m in plans <==> m in Months
    ensures forall m :: m in plans ==> plans[m] == EmptyPlan
  {
    plans := map[];
    for i := 0 to |Months|
      invariant forall m :: m in plans <==> m in Months[..i]
      invariant forall m :: m in plans ==> plans[m] == EmptyPlan
    {
      assert Months[..i + 1] == Months[..i] + [Months[i]];
      plans := plans[Months[i] := EmptyPlan];
    }
    assert Months[..|Months|] == Months;
  }

  /** `updateYearlyGoals`: the goals of every planner for that year are
      replaced. */
  function UpdateYearlyGoals(planners: seq<YearlyPlanner>, year: int, goals: seq<YearlyGoal>): (r: seq<YearlyPlanner>)
    ensures |r| == |planners|
    ensures forall i :: 0 <= i < |planners| ==> r[i].year == planners[i].year
    ensures forall i :: 0 <= i < |planners| ==>
      r[i].goals == if planners[i].year == year then goals else planners[i].goals
  {
    seq(|planners|, i requires 0 <= i < |planners| =>
      if planners[i].year == year then planners[i].(goals := goals) else planners[i])
  }

  /** `updateMonthlyPlan`: `{ ...monthlyPlans, [month]: plan }`. */
  function UpdateMonthlyPlan(plans: map<string, MonthlyPlan>, month: string, plan: MonthlyPlan): (r: map<string, MonthlyPlan>)
    ensures month in r && r[month] == plan
    ensures forall m :: m != month ==> (m in r <==> m in plans)
    ensures forall m :: m != month && m in plans ==> r[m] == plans[m]
  {
    plans[month := plan]
  }

  /** `selectedYearPlanner`: the first planner for the year, else an empty
      one for it. */
  function SelectedPlanner(planners: seq<YearlyPlanner>, year: int): (r: YearlyPlanner)
    ensures r.year == year
    ensures r in planners || r.goals == []
  {
    match Find(planners, (p: YearlyPlanner) => p.year == year)
    case Some(p) => p
    case None => YearlyPlanner(year, [])
  }

  /** `availableYears`. */
  function AvailableYears(planners: seq<YearlyPlanner>): (r: seq<int>)
    ensures |r| == |planners| && forall i :: 0 <= i < |planners| ==> r[i] == planners[i].year
  {
    seq(|planners|, i requires 0 <= i < |planners| => planners[i].year)
  }

  /** The planner passed to the goals card is always for the selected year:
      the first stored one when there is one, otherwise an empty one. */
  lemma SelectedPlannerSpec(planners: seq<YearlyPlanner>, year: int)
    ensures SelectedPlanner(planners, year).year == year
    ensures year in AvailableYears(planners) ==> SelectedPlanner(planners, year) in planners
    ensures year !in AvailableYears(planners) ==> SelectedPlanner(planners, year).goals == []
    ensures forall i :: 0 <= i < |planners| && planners[i].year == year ==>
      exists j :: 0 <= j <= i && SelectedPlanner(planners, year) == planners[j]
  {
    var ys := AvailableYears(planners);
    if year in ys {
      var k :| 0 <= k < |ys| && ys[k] == year;
      assert planners[k].year == year;
    }
  }

  /** A year with no planner is left alone: saving goals for the fallback
      planner of such a year changes nothing, so those goals are not kept. */
  lemma UpdateUnknownYearChangesNothing(planners: seq<YearlyPlanner>, year: int, goals: seq<YearlyGoal>)
    requires year !in AvailableYears(planners)
    ensures UpdateYearlyGoals(planners, year, goals) == planners
    ensures SelectedPlanner(UpdateYearlyGoals(planners, year, goals), year).goals == []
  {
    SelectedPlannerSpec(planners, year);
    assert forall i :: 0 <= i < |planners| ==> planners[i].year != year by {
      var ys := AvailableYears(planners);
      assert forall i :: 0 <= i < |planners| ==> ys[i] == planners[i].year;
    }
  }

  /** Saving goals for a stored year makes them the goals passed to the goals
      card for that year, and keeps the list of years as it was. */
  lemma UpdateThenSelect(planners: seq<YearlyPlanner>, year: int, goals: seq<YearlyGoal>)
    requires year in AvailableYears(planners)
    ensures SelectedPlanner(UpdateYearlyGoals(planners, year, goals), year).goals == goals
    ensures AvailableYears(UpdateYearlyGoals(planners, year, goals)) == AvailableYears(planners)
  {
    var r := UpdateYearlyGoals(planners, year, goals);
    assert AvailableYears(r) == AvailableYears(planners);
    SelectedPlannerSpec(r, year);
  }

  /** Updating a month of the default plans keeps exactly the twelve keys. */
  lemma UpdateKeepsMonthKeys(plans: map<string, MonthlyPlan>, month: string, plan: MonthlyPlan)
    requires forall m :: m in plans <==> m in Months
    requires month in Months
    ensures forall m :: m in UpdateMonthlyPlan(plans, month, plan) <==> m in Months
  {
  }

  /** The goals card is rendered without a `key`, so its buffer keeps the
      goals of the year it was mounted on. Mounted on `y` with goals `[g]`,
      switched to `y + 1` (no goals) and saved, it stores `[g]` under
      `y + 1`. */
  lemma UnkeyedSwitchCopiesGoals(planners: seq<YearlyPlanner>, y: int, g: YearlyGoal)
    requires planners == [YearlyPlanner(y, [g]), YearlyPlanner(y + 1, [])]
    ensures SelectedPlanner(planners, y + 1).goals == []
    ensures SelectedPlanner(UpdateYearlyGoals(planners, y + 1, SelectedPlanner(planners, y).goals), y + 1).goals == [g]
  {
    assert SelectedPlanner(planners, y).goals == [g];
    assert AvailableYears(planners)[1] == y + 1;
    UpdateThenSelect(planners, y + 1, [g]);
  }

  /** Saving goals for one year never changes the planner passed to the
      goals card for another year. */
  lemma SelectOtherYear(planners: seq<YearlyPlanner>, year: int, goals: seq<YearlyGoal>, y: int)
    requires y != year
    ensures SelectedPlanner(UpdateYearlyGoals(planners, year, goals), y) == SelectedPlanner(planners, y)
  {
    var r := UpdateYearlyGoals(planners, year, goals);
    assert forall i :: 0 <= i < |r| && planners[i].year == y ==> r[i] == planners[i];
    var a := SelectedPlanner(planners, y);
    var b := SelectedPlanner(r, y);
    if a in planners {
      var k :| 0 <= k < |planners| && planners[k] == a && planners[k].year == y;
    }
  }

  /** A card rebuilt for the selected year starts from that year's goals, so
      saving it untouched leaves the planner of every year as it was. */
  lemma KeyedSwitchSaveKeepsGoals(planners: seq<YearlyPlanner>, year: int)
    ensures var saved := UpdateYearlyGoals(planners, year, SelectedPlanner(planners, year).goals);
            forall y :: SelectedPlanner(saved, y) == SelectedPlanner(planners, y)
  {
    var goals := SelectedPlanner(planners, year).goals;
    var saved := UpdateYearlyGoals(planners, year, goals);
    forall y ensures SelectedPlanner(saved, y) == SelectedPlanner(planners, y) {
      if y != year {
        SelectOtherYear(planners, year, goals, y);
      } else if year in AvailableYears(planners) {
        UpdateThenSelect(planners, year, goals);
      } else {
        UpdateUnknownYearChangesNothing(planners, year, goals);
      }
    }
  }

  /** The planning page component, with the goals card it renders. */
  class Page {
    var yearlyPlanners: seq<YearlyPlanner>
    var monthlyPlans: map<string, MonthlyPlan>
    var selectedYear: int
    var goalsCard: YearlyGoalsCard.Card

    /** Mount: the stored planners and plans if any, else the defaults; the
        current year selected. */
    constructor (savedPlanners: Option<seq<YearlyPlanner>>, savedPlans: Option<map<string, MonthlyPlan>>,
                 currentYear: int)
      ensures yearlyPlanners == if savedPlanners.Some? then savedPlanners.value else DefaultPlanners(currentYear)
      ensures savedPlans.Some? ==> monthlyPlans == savedPlans.value
      ensures savedPlans.None? ==> (forall m :: m in monthlyPlans <==> m in Months) &&
                                   forall m :: m in monthlyPlans ==> monthlyPlans[m] == EmptyPlan
      ensures selectedYear == currentYear
      ensures fresh(goalsCard) && !goalsCard.isEditing
      ensures goalsCard.editedGoals == SelectedPlanner(yearlyPlanners, currentYear).goals
    {
      var plans: map<string, MonthlyPlan>;
      if savedPlans.Some? {
        plans := savedPlans.value;
      } else {
        plans := DefaultMonthlyPlans();
      }
      var planners := if savedPlanners.Some? then savedPlanners.value else DefaultPlanners(currentYear);
      yearlyPlanners := planners;
      monthlyPlans := plans;
      selectedYear := currentYear;
      goalsCard := new YearlyGoalsCard.Card(SelectedPlanner(planners, currentYear).goals);
    }

    method HandleUpdateYearlyGoals(year: int, goals: seq<YearlyGoal>)
      modifies this
      ensures yearlyPlanners == UpdateYearlyGoals(old(yearlyPlanners), year, goals)
      ensures monthlyPlans == old(monthlyPlans) && selectedYear == old(selectedYear)
      ensures goalsCard == old(goalsCard)
    {
      yearlyPlanners := UpdateYearlyGoals(yearlyPlanners, year, goals);
    }

    method HandleUpdateMonthlyPlan(month: string, plan: MonthlyPlan)
      modifies this
      ensures monthlyPlans == UpdateMonthlyPlan(old(monthlyPlans), month, plan)
      ensures yearlyPlanners == old(yearlyPlanners) && selectedYear == old(selectedYear)
      ensures goalsCard == old(goalsCard)
    {
      monthlyPlans := monthlyPlans[month := plan];
    }

    /** The year selector. The goals card is rendered without a `key`, so
        React keeps it, and with it the buffer seeded from the year it was
        mounted on. */
    method SetSelectedYear(year: int)
      modifies this
      ensures selectedYear == year
      ensures yearlyPlanners == old(yearlyPlanners) && monthlyPlans == old(monthlyPlans)
      ensures goalsCard == old(goalsCard)
    {
      selectedYear := year;
    }

    /** The year selector with the goals card keyed by the year: the card
        is rebuilt from the planner of the newly selected year. */
    method SetSelectedYearKeyed(year: int)
      modifies this
      ensures selectedYear == year
      ensures yearlyPlanners == old(yearlyPlanners) && monthlyPlans == old(monthlyPlans)
      ensures fresh(goalsCard) && !goalsCard.isEditing
      ensures goalsCard.editedGoals == SelectedPlanner(yearlyPlanners, year).goals
    {
      selectedYear := year;
      goalsCard := new YearlyGoalsCard.Card(SelectedPlanner(yearlyPlanners, year).goals);
    }

    /** The goals card's Edit/Save button; Save hands the card's buffer to
        `updateYearlyGoals` for the selected year. */
    method HandleGoalsEditOrSave()
      modifies this, goalsCard
      ensures goalsCard == old(goalsCard) && goalsCard.editedGoals == old(goalsCard.editedGoals)
      ensures goalsCard.isEditing == !old(goalsCard.isEditing)
      ensures selectedYear == old(selectedYear) && monthlyPlans == old(monthlyPlans)
      ensures old(goalsCard.isEditing) ==>
        yearlyPlanners == UpdateYearlyGoals(old(yearlyPlanners), selectedYear, old(goalsCard.editedGoals))
      ensures !old(goalsCard.isEditing) ==> yearlyPlanners == old(yearlyPlanners)
    {
      var update := goalsCard.HandleEditOrSave();
      if update.Some? {
        yearlyPlanners := UpdateYearlyGoals(yearlyPlanners, selectedYear, update.value);
      }
    }

    function SelectedYearPlanner(): YearlyPlanner
      reads this
    {
      SelectedPlanner(yearlyPlanners, selectedYear)
    }

    function Years(): seq<int>
      reads this
    {
      AvailableYears(yearlyPlanners)
    }
  }

  /** As written: mounted on `y`, whose planner holds `[g]`, switched to
      `y + 1`, whose planner holds nothing, the card's Edit and then Save
      store `[g]` under `y + 1`. */
  method UnkeyedSwitchScenario(y: int, g: YearlyGoal) returns (before: seq<YearlyGoal>, after: seq<YearlyGoal>)
    ensures before == [] && after == [g]
  {
    var planners := [YearlyPlanner(y, [g]), YearlyPlanner(y + 1, [])];
    UnkeyedSwitchCopiesGoals(planners, y, g);
    var page := new Page(Some(planners), None, y);
    page.SetSelectedYear(y + 1);
    before := SelectedPlanner(page.yearlyPlanners, y + 1).goals;
    page.HandleGoalsEditOrSave();
    page.HandleGoalsEditOrSave();
    after := SelectedPlanner(page.yearlyPlanners, y + 1).goals;
  }

  /** With the card keyed by the year, the same steps (mount, switch, Edit,
      Save) leave the planner of every year as it was. */
  method KeyedSwitchScenario(planners: seq<YearlyPlanner>, from: int, to: int) returns (saved: seq<YearlyPlanner>)
    ensures forall y :: SelectedPlanner(saved, y) == SelectedPlanner(planners, y)
  {
    KeyedSwitchSaveKeepsGoals(planners, to);
    var page := new Page(Some(planners), None, from);
    page.SetSelectedYearKeyed(to);
    page.HandleGoalsEditOrSave();
    page.HandleGoalsEditOrSave();
    saved := page.yearlyPlanners;
  }
}
