/** The monthly plan card: the month that follows the card's month, and the
    buffered plan whose three text fields the card edits. */
module MonthlyPlanCard {
  import opened Common

  datatype MonthlyPlan = MonthlyPlan(goals: string, actions: string, reflections: string)

  /** A plan with nothing written yet. */
  const EmptyPlan: MonthlyPlan := MonthlyPlan("", "", "")

  const Months: seq<string> := ["January", "February", "March", "April", "May", "June",
                                "July", "August", "September", "October", "November", "December"]

  lemma MonthsDistinct()
    ensures |Months| == 12 && Distinct(Months)
  {
  }

  /** `names.findIndex(m => m === month)`: -1 for a name not in the list. */
  function IndexIn(names: seq<string>, month: string): (r: int)
    ensures -1 <= r < |names|
    ensures r >= 0 ==> names[r] == month
    ensures r == -1 <==> month !in names
  {
    FindIndex(names, (m: string) => m == month)
  }

  /** `names[(monthIndex + 1) % 12]`. */
  function NextIn(names: seq<string>, month: string): (r: string)
    requires |names| == 12
    ensures r in names
    ensures month !in names ==> r == names[0]
  {
    names[(IndexIn(names, month) + 1) % 12]
  }

  /** `NextIn` applied `n` times. */
  function NextInN(names: seq<string>, month: string, n: nat): string
    requires |names| == 12
    decreases n
  {
    if n == 0 then month else NextInN(names, NextIn(names, month), n - 1)
  }

  /** The card's `nextMonth`. */
  function NextMonth(month: string): (r: string)
    ensures r in Months
    ensures month !in Months ==> r == "January"
  {
    NextIn(Months, month)
  }

  function NextMonthN(month: string, n: nat): string {
    NextInN(Months, month, n)
  }

  lemma Succ12(k: int)
    requires -1 <= k < 12
    ensures (k + 1) % 12 == if k == 11 then 0 else k + 1
  {
  }

  lemma ShiftMod12(i: nat, k: nat)
    requires i < 12 && k > 0
    ensures ((if i == 11 then 0 else i + 1) + (k - 1)) % 12 == (i + k) % 12
  {
    if i == 11 {
      assert i + k == (k - 1) + 12;
    }
  }

  lemma ModWhole(i: nat, k: nat)
    requires i < 12 && k % 12 == 0
    ensures (i + k) % 12 == i
  {
    var q := k / 12;
    assert k == 12 * q;
  }

  /** In a list without repeats the name at position `i` is found at `i`. */
  lemma {:induction false} IndexInAt(names: seq<string>, i: nat)
    requires Distinct(names) && i < |names|
    ensures IndexIn(names, names[i]) == i
  {
    var k := IndexIn(names, names[i]);
    assert names[k] == names[i];
  }

  /** Each name is followed by the next one, and the last by the first. */
  lemma NextInAt(names: seq<string>, i: nat)
    requires |names| == 12 && Distinct(names) && i < 12
    ensures NextIn(names, names[i]) == names[if i == 11 then 0 else i + 1]
  {
    IndexInAt(names, i);
    Succ12(i);
  }

  /** The position `k` steps after position `i` of a twelve-name cycle. */
  function Advance(i: nat, k: nat): (r: nat)
    requires i < 12
    ensures r < 12
    decreases k
  {
    if k == 0 then i else Advance(if i == 11 then 0 else i + 1, k - 1)
  }

  /** Stepping round the cycle is adding modulo twelve. */
  lemma {:induction false} AdvanceMod(i: nat, k: nat)
    requires i < 12
    ensures Advance(i, k) == (i + k) % 12
    decreases k
  {
    if k > 0 {
      AdvanceMod(if i == 11 then 0 else i + 1, k - 1);
      ShiftMod12(i, k);
    } else {
      assert (i + k) % 12 == i;
    }
  }

  /** Stepping `k` times from the `i`th name lands `k` places further
      round the cycle. */
  lemma {:induction false} NextInSteps(names: seq<string>, i: nat, k: nat)
    requires |names| == 12 && Distinct(names) && i < 12
    ensures NextInN(names, names[i], k) == names[Advance(i, k)]
    decreases k
  {
    if k > 0 {
      NextInAt(names, i);
      NextInSteps(names, if i == 11 then 0 else i + 1, k - 1);
    }
  }

  /** A whole number of years of steps comes back to the start. */
  lemma WholeYears(names: seq<string>, i: nat, k: nat)
    requires |names| == 12 && Distinct(names) && i < 12
    requires k % 12 == 0
    ensures NextInN(names, names[i], k) == names[i]
  {
    NextInSteps(names, i, k);
    AdvanceMod(i, k);
    ModWhole(i, k);
  }

  /** Each month is followed by the next one, and December by January. */
  lemma NextMonthAt(i: nat)
    requires i < 12
    ensures NextMonth(Months[i]) == Months[if i == 11 then 0 else i + 1]
    ensures NextMonth("December") == "January"
  {
    MonthsDistinct();
    NextInAt(Months, i);
    NextInAt(Months, 11);
  }

  /** A name that is not a month is followed by January, so the next month
      is always one of the twelve. */
  lemma NextOfUnknownIsJanuary(name: string)
    ensures name !in Months ==> NextMonth(name) == "January"
    ensures NextMonth(name) in Months
  {
    var k := IndexIn(Months, name);
    Succ12(k);
  }

  /** Twelve steps from any month come back to it. */
  lemma TwelveStepsReturn(i: nat)
    requires i < 12
    ensures NextMonthN(Months[i], 12) == Months[i]
  {
    MonthsDistinct();
    WholeYears(Months, i, 12);
  }

  /** The plan's three text areas. */
  datatype PlanField = Goals | Actions | Reflections

  /** One text area's `onChange`: `{ ...editedPlan, field: value }`. */
  function SetField(plan: MonthlyPlan, field: PlanField, text: string): (r: MonthlyPlan)
    ensures Field(r, field) == text
    ensures forall other :: other != field ==> Field(r, other) == Field(plan, other)
  {
    match field
    case Goals => plan.(goals := text)
    case Actions => plan.(actions := text)
    case Reflections => plan.(reflections := text)
  }

  function Field(plan: MonthlyPlan, field: PlanField): string {
    match field
    case Goals => plan.goals
    case Actions => plan.actions
    case Reflections => plan.reflections
  }

  /** Writing a field back with its own value changes nothing, and the last
      of two writes to the same field wins. */
  lemma SetFieldLaws(plan: MonthlyPlan, field: PlanField, a: string, b: string)
    ensures SetField(plan, field, Field(plan, field)) == plan
    ensures SetField(SetField(plan, field, a), field, b) == SetField(plan, field, b)
  {
  }

  /** The monthly plan card component. */
  class Card {
    var isEditing: bool
    var editedPlan: MonthlyPlan

    constructor (plan: MonthlyPlan)
      ensures !isEditing && editedPlan == plan
    {
      isEditing, editedPlan := false, plan;
    }

    method HandleFieldChange(field: PlanField, text: string)
      modifies this
      ensures editedPlan == SetField(old(editedPlan), field, text)
      ensures isEditing == old(isEditing)
    {
      match field {
        case Goals => editedPlan := editedPlan.(goals := text);
        case Actions => editedPlan := editedPlan.(actions := text);
        case Reflections => editedPlan := editedPlan.(reflections := text);
      }
    }

    /** The Edit/Save button: saving hands the edited plan to `onUpdate`. */
    method HandleEditOrSave() returns (update: Option<MonthlyPlan>)
      modifies this
      ensures old(isEditing) ==> update == Some(editedPlan) && !isEditing
      ensures !old(isEditing) ==> update.None? && isEditing
      ensures editedPlan == old(editedPlan)
    {
      if isEditing {
        update := Some(editedPlan);
        isEditing := false;
      } else {
        update := None;
        isEditing := true;
      }
    }
  }
}
