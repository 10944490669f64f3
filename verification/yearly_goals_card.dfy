/** The yearly goals card: a buffered copy of the year's goals that the
    card edits (add, toggle, remove, change text or category) and hands
    back to the page only on save. */
module YearlyGoalsCard {
  import opened Common

  datatype YearlyGoal = YearlyGoal(id: string, text: string, completed: bool, category: string)

  /** The category given to a goal added with an empty one. */
  const DefaultCategory: string := "General"

  predicate UniqueIds(goals: seq<YearlyGoal>) {
    UniqueKeys(goals, (g: YearlyGoal) => g.id)
  }

  /** `addGoal`: nothing for blank text; otherwise one new, uncompleted goal
      at the end, with the text as typed and "General" for an empty
      category. */
  function AddGoal(goals: seq<YearlyGoal>, id: string, text: string, category: string): (r: seq<YearlyGoal>)
    ensures Blank(text) ==> r == goals
    ensures !Blank(text) ==> |r| == |goals| + 1 && r[..|goals|] == goals
    ensures !Blank(text) ==> r[|goals|] == YearlyGoal(id, text, false, if category == "" then DefaultCategory else category)
  {
    if Blank(text) then goals
    else goals + [YearlyGoal(id, text, false, if category != "" then category else DefaultCategory)]
  }

  /** `toggleGoalCompletion`. */
  function ToggleGoal(goals: seq<YearlyGoal>, id: string): (r: seq<YearlyGoal>)
    ensures |r| == |goals|
    ensures forall i :: 0 <= i < |goals| ==>
      r[i] == if goals[i].id == id then goals[i].(completed := !goals[i].completed) else goals[i]
  {
    seq(|goals|, i requires 0 <= i < |goals| =>
      if goals[i].id == id then goals[i].(completed := !goals[i].completed) else goals[i])
  }

  /** `removeGoal`. */
  function RemoveGoal(goals: seq<YearlyGoal>, id: string): (r: seq<YearlyGoal>)
    ensures |r| <= |goals| && forall i :: 0 <= i < |r| ==> r[i] in goals && r[i].id != id
    ensures forall i :: 0 <= i < |goals| && goals[i].id != id ==> goals[i] in r
  {
    Filter(goals, (g: YearlyGoal) => g.id != id)
  }

  /** `updateGoalText`. */
  function UpdateGoalText(goals: seq<YearlyGoal>, id: string, text: string): (r: seq<YearlyGoal>)
    ensures |r| == |goals|
    ensures forall i :: 0 <= i < |goals| ==>
      r[i].id == goals[i].id && r[i].completed == goals[i].completed && r[i].category == goals[i].category
    ensures forall i :: 0 <= i < |goals| ==> r[i].text == if goals[i].id == id then text else goals[i].text
  {
    seq(|goals|, i requires 0 <= i < |goals| => if goals[i].id == id then goals[i].(text := text) else goals[i])
  }

  /** `updateGoalCategory`. */
  function UpdateGoalCategory(goals: seq<YearlyGoal>, id: string, category: string): (r: seq<YearlyGoal>)
    ensures |r| == |goals|
    ensures forall i :: 0 <= i < |goals| ==>
      r[i].id == goals[i].id && r[i].completed == goals[i].completed && r[i].text == goals[i].text
    ensures forall i :: 0 <= i < |goals| ==> r[i].category == if goals[i].id == id then category else goals[i].category
  {
    seq(|goals|, i requires 0 <= i < |goals| => if goals[i].id == id then goals[i].(category := category) else goals[i])
  }

  /** Toggling the same goal twice restores the list; an unknown id leaves it
      as it is. */
  lemma ToggleTwiceRestores(goals: seq<YearlyGoal>, id: string)
    ensures ToggleGoal(ToggleGoal(goals, id), id) == goals
    ensures (forall g :: g in goals ==> g.id != id) ==> ToggleGoal(goals, id) == goals
  {
  }

  /** Removal drops exactly the goals with that id, keeps the order of the
      rest, and a second removal changes nothing. */
  lemma RemoveSpec(goals: seq<YearlyGoal>, id: string)
    ensures forall g :: g in RemoveGoal(goals, id) <==> g in goals && g.id != id
    ensures Subsequence(RemoveGoal(goals, id), goals)
    ensures RemoveGoal(RemoveGoal(goals, id), id) == RemoveGoal(goals, id)
  {
    FilterIsSubsequence(goals, (g: YearlyGoal) => g.id != id);
    FilterIdempotent(goals, (g: YearlyGoal) => g.id != id);
  }

  /** A goal added with a fresh id can be removed again, giving back the
      original list, and a fresh id keeps the ids unique. */
  lemma AddThenRemove(goals: seq<YearlyGoal>, id: string, text: string, category: string)
    requires forall g :: g in goals ==> g.id != id
    ensures RemoveGoal(AddGoal(goals, id, text, category), id) == goals
    ensures UniqueIds(goals) ==> UniqueIds(AddGoal(goals, id, text, category))
  {
    var p := (g: YearlyGoal) => g.id != id;
    FilterKeepsAll(goals, p);
    if !Blank(text) {
      var g := YearlyGoal(id, text, false, if category != "" then category else DefaultCategory);
      FilterAppend(goals, [g], p);
      assert Filter([g], p) == [];
      if UniqueIds(goals) {
        AppendKeepsUniqueKeys(goals, g, (x: YearlyGoal) => x.id);
      }
    }
  }

  /** The edit buttons keep the set of ids. */
  lemma EditsKeepUniqueIds(goals: seq<YearlyGoal>, id: string, s: string)
    requires UniqueIds(goals)
    ensures UniqueIds(ToggleGoal(goals, id)) && UniqueIds(RemoveGoal(goals, id))
    ensures UniqueIds(UpdateGoalText(goals, id, s)) && UniqueIds(UpdateGoalCategory(goals, id, s))
  {
    FilterKeepsUniqueKeys(goals, (g: YearlyGoal) => g.id != id, (g: YearlyGoal) => g.id);
  }

  /** The yearly goals card component. `goals` is the list the page last
      handed it; `editedGoals` is the card's own copy. */
  class Card {
    var isEditing: bool
    var newGoalText: string
    var newGoalCategory: string
    var editedGoals: seq<YearlyGoal>

    constructor (goals: seq<YearlyGoal>)
      ensures !isEditing && newGoalText == "" && newGoalCategory == "" && editedGoals == goals
    {
      isEditing, newGoalText, newGoalCategory, editedGoals := false, "", "", goals;
    }

    method SetNewGoal(text: string, category: string)
      modifies this
      ensures newGoalText == text && newGoalCategory == category
      ensures editedGoals == old(editedGoals) && isEditing == old(isEditing)
    {
      newGoalText, newGoalCategory := text, category;
    }

    /** `addGoal` with `id` as the random id; the inputs are cleared only
        when a goal was added. */
    method HandleAddGoal(id: string)
      modifies this
      ensures editedGoals == AddGoal(old(editedGoals), id, old(newGoalText), old(newGoalCategory))
      ensures Blank(old(newGoalText)) ==> newGoalText == old(newGoalText) && newGoalCategory == old(newGoalCategory)
      ensures !Blank(old(newGoalText)) ==> newGoalText == "" && newGoalCategory == ""
      ensures isEditing == old(isEditing)
    {
      if Blank(newGoalText) {
        return;
      }
      var category := if newGoalCategory != "" then newGoalCategory else DefaultCategory;
      var goals := editedGoals + [YearlyGoal(id, newGoalText, false, category)];
      assert goals == AddGoal(editedGoals, id, newGoalText, newGoalCategory);
      editedGoals, newGoalText, newGoalCategory := goals, "", "";
    }

    method HandleToggleGoal(id: string)
      modifies this
      ensures editedGoals == ToggleGoal(old(editedGoals), id)
      ensures newGoalText == old(newGoalText) && newGoalCategory == old(newGoalCategory) && isEditing == old(isEditing)
    {
      editedGoals := ToggleGoal(editedGoals, id);
    }

    method HandleRemoveGoal(id: string)
      modifies this
      ensures editedGoals == RemoveGoal(old(editedGoals), id)
      ensures newGoalText == old(newGoalText) && newGoalCategory == old(newGoalCategory) && isEditing == old(isEditing)
    {
      editedGoals := Filter(editedGoals, (g: YearlyGoal) => g.id != id);
    }

    method HandleUpdateGoalText(id: string, text: string)
      modifies this
      ensures editedGoals == UpdateGoalText(old(editedGoals), id, text)
      ensures newGoalText == old(newGoalText) && newGoalCategory == old(newGoalCategory) && isEditing == old(isEditing)
    {
      editedGoals := UpdateGoalText(editedGoals, id, text);
    }

    method HandleUpdateGoalCategory(id: string, category: string)
      modifies this
      ensures editedGoals == UpdateGoalCategory(old(editedGoals), id, category)
      ensures newGoalText == old(newGoalText) && newGoalCategory == old(newGoalCategory) && isEditing == old(isEditing)
    {
      editedGoals := UpdateGoalCategory(editedGoals, id, category);
    }

    /** The Edit/Save button: in edit mode it hands the buffered list to
        `onUpdate` and leaves edit mode; otherwise it enters edit mode and
        hands nothing. */
    method HandleEditOrSave() returns (update: Option<seq<YearlyGoal>>)
      modifies this
      ensures old(isEditing) ==> update == Some(editedGoals) && !isEditing
      ensures !old(isEditing) ==> update.None? && isEditing
      ensures editedGoals == old(editedGoals)
      ensures newGoalText == old(newGoalText) && newGoalCategory == old(newGoalCategory)
    {
      if isEditing {
        update := Some(editedGoals);
        isEditing := false;
      } else {
        update := None;
        isEditing := true;
      }
    }
  }
}
