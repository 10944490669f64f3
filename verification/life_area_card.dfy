/** The life area card: the progress bar computed from the area's saved
    milestones, and the buffered vision text and milestones it edits and
    hands back on save. */
module LifeAreaCard {
  import opened Common
  import opened VisionTypes

  /** What the card hands to `onUpdate`. */
  datatype AreaUpdate = AreaUpdate(vision: string, milestones: seq<Milestone>)

  /** `progress`: the rounded share of completed milestones, 0 with none. */
  function Progress(ms: seq<Milestone>): (r: nat)
    ensures r <= 100
    ensures ms == [] ==> r == 0
  {
    PercentBounds(CompletedCount(ms), |ms|);
    Percent(CompletedCount(ms), |ms|)
  }

  /** Progress stays within 0..100; it is the nearest whole percentage of
      completed milestones; all completed gives 100 and none gives 0. */
  lemma ProgressSpec(ms: seq<Milestone>)
    ensures Progress(ms) <= 100
    ensures |ms| == 0 ==> Progress(ms) == 0
    ensures |ms| > 0 ==> 2 * |ms| * Progress(ms) <= 200 * CompletedCount(ms) + |ms| < 2 * |ms| * (Progress(ms) + 1)
    ensures |ms| > 0 && (forall i :: 0 <= i < |ms| ==> ms[i].completed) ==> Progress(ms) == 100
    ensures (forall i :: 0 <= i < |ms| ==> !ms[i].completed) ==> Progress(ms) == 0
  {
    CountAllOrNone(ms, (m: Milestone) => m.completed);
    PercentBounds(CompletedCount(ms), |ms|);
  }

  /** `toggleMilestoneCompletion`: flips the milestones of that year. */
  function ToggleMilestone(ms: seq<Milestone>, year: int): (r: seq<Milestone>)
    ensures |r| == |ms|
    ensures forall i :: 0 <= i < |ms| ==>
      r[i] == if ms[i].year == year then ms[i].(completed := !ms[i].completed) else ms[i]
  {
    seq(|ms|, i requires 0 <= i < |ms| => if ms[i].year == year then ms[i].(completed := !ms[i].completed) else ms[i])
  }

  /** `updateMilestoneText`: rewrites the text of that year's milestones. */
  function UpdateMilestoneText(ms: seq<Milestone>, year: int, text: string): (r: seq<Milestone>)
    ensures |r| == |ms|
    ensures forall i :: 0 <= i < |ms| ==> r[i].year == ms[i].year && r[i].completed == ms[i].completed
    ensures forall i :: 0 <= i < |ms| ==> r[i].text == if ms[i].year == year then text else ms[i].text
  {
    seq(|ms|, i requires 0 <= i < |ms| => if ms[i].year == year then ms[i].(text := text) else ms[i])
  }

  /** Toggling a year twice restores the milestones. */
  lemma ToggleTwiceRestores(ms: seq<Milestone>, year: int)
    ensures ToggleMilestone(ToggleMilestone(ms, year), year) == ms
  {
  }

  /** Rewriting a milestone's text never moves the progress bar. */
  lemma TextEditKeepsProgress(ms: seq<Milestone>, year: int, text: string)
    ensures CompletedCount(UpdateMilestoneText(ms, year, text)) == CompletedCount(ms)
    ensures Progress(UpdateMilestoneText(ms, year, text)) == Progress(ms)
  {
    CountSameFlags(ms, UpdateMilestoneText(ms, year, text), (m: Milestone) => m.completed);
  }

  /** With one milestone per year, completing an open milestone counts
      exactly one more completed milestone and never lowers the progress. */
  lemma CompletingCountsOneMore(ms: seq<Milestone>, k: nat)
    requires UniqueYears(ms) && k < |ms| && !ms[k].completed
    ensures CompletedCount(ToggleMilestone(ms, ms[k].year)) == CompletedCount(ms) + 1
    ensures Progress(ToggleMilestone(ms, ms[k].year)) >= Progress(ms)
  {
    var r := ToggleMilestone(ms, ms[k].year);
    forall i | 0 <= i < |ms| && i != k ensures r[i].completed == ms[i].completed {
      assert ms[i].year != ms[k].year;
    }
    CountFlipOne(ms, r, (m: Milestone) => m.completed, k);
    PercentMonotone(CompletedCount(ms), CompletedCount(r), |ms|);
  }

  /** The life area card component. `milestones` is the area's saved list,
      which the progress bar reads; the edits go to `editedMilestones`. */
  class Card {
    var milestones: seq<Milestone>
    var isEditing: bool
    var editedVision: string
    var editedMilestones: seq<Milestone>

    constructor (vision: string, milestones: seq<Milestone>)
      ensures this.milestones == milestones && editedMilestones == milestones
      ensures editedVision == vision && !isEditing
    {
      this.milestones := milestones;
      editedMilestones := milestones;
      editedVision := vision;
      isEditing := false;
    }

    function CardProgress(): nat
      reads this
    {
      Progress(milestones)
    }

    method SetVision(text: string)
      modifies this
      ensures editedVision == text
      ensures editedMilestones == old(editedMilestones) && milestones == old(milestones) && isEditing == old(isEditing)
    {
      editedVision := text;
    }

    /** Toggling edits the buffered list only; the bar keeps showing the
        saved milestones' progress. */
    method HandleToggleMilestone(year: int)
      modifies this
      ensures editedMilestones == ToggleMilestone(old(editedMilestones), year)
      ensures milestones == old(milestones) && CardProgress() == old(CardProgress())
      ensures editedVision == old(editedVision) && isEditing == old(isEditing)
    {
      editedMilestones := ToggleMilestone(editedMilestones, year);
    }

    method HandleUpdateMilestoneText(year: int, text: string)
      modifies this
      ensures editedMilestones == UpdateMilestoneText(old(editedMilestones), year, text)
      ensures milestones == old(milestones) && editedVision == old(editedVision) && isEditing == old(isEditing)
    {
      editedMilestones := UpdateMilestoneText(editedMilestones, year, text);
    }

    /** The Edit/Save button: saving hands the buffered vision and
        milestones to `onUpdate`. */
    method HandleEditOrSave() returns (update: Option<AreaUpdate>)
      modifies this
      ensures old(isEditing) ==> update == Some(AreaUpdate(editedVision, editedMilestones)) && !isEditing
      ensures !old(isEditing) ==> update.None? && isEditing
      ensures editedVision == old(editedVision) && editedMilestones == old(editedMilestones)
      ensures milestones == old(milestones)
    {
      if isEditing {
        update := Some(AreaUpdate(editedVision, editedMilestones));
        isEditing := false;
      } else {
        update := None;
        isEditing := true;
      }
    }
  }
}
