/** The vision page: the seven default life areas, the update reducer
    behind every card's save, and the overall progress across all
    milestones. */
module VisionPage {
  import opened Common
  import opened VisionTypes
  import opened LifeAreaCard

  const AreaNames: seq<string> :=
    ["Health", "Career", "Finances", "Relationships", "Spirituality", "Growth", "Leisure"]

  const AreaDescriptions: seq<string> := [
    "Physical, mental, and emotional well-being",
    "Professional growth and fulfillment",
    "Financial security and freedom",
    "Meaningful connections with others",
    "Connection to something larger than yourself",
    "Personal development and learning",
    "Recreation, hobbies, and enjoyment"]

  const AreaColors: seq<string> := ["green", "blue", "amber", "pink", "purple", "cyan", "orange"]

  /** Ten open milestones for years 1..10, with no text. */
  function DefaultMilestones(): (r: seq<Milestone>)
    ensures |r| == 10 && forall i :: 0 <= i < 10 ==> r[i] == Milestone(i + 1, "", false)
  {
    seq(10, i requires 0 <= i < 10 => Milestone(i + 1, "", false))
  }

  /** The areas when nothing is stored; `ids` are the seven generated ids. */
  function DefaultLifeAreas(ids: seq<string>): (r: seq<LifeArea>)
    requires |ids| == 7
    ensures |r| == 7
    ensures forall i :: 0 <= i < 7 ==>
      r[i] == LifeArea(ids[i], AreaNames[i], AreaDescriptions[i], "", DefaultMilestones(), AreaColors[i])
  {
    seq(7, i requires 0 <= i < 7 =>
      LifeArea(ids[i], AreaNames[i], AreaDescriptions[i], "", DefaultMilestones(), AreaColors[i]))
  }

  /** `updateLifeArea`: `{ ...area, ...data }` on the area with that id. */
  function UpdateLifeArea(areas: seq<LifeArea>, id: string, data: AreaUpdate): (r: seq<LifeArea>)
    ensures |r| == |areas|
    ensures forall i :: 0 <= i < |areas| ==>
      r[i].id == areas[i].id && r[i].name == areas[i].name &&
      r[i].description == areas[i].description && r[i].iconColor == areas[i].iconColor
    ensures forall i :: 0 <= i < |areas| ==>
      if areas[i].id == id then r[i].vision == data.vision && r[i].milestones == data.milestones
      else r[i] == areas[i]
  {
    seq(|areas|, i requires 0 <= i < |areas| =>
      if areas[i].id == id then areas[i].(vision := data.vision, milestones := data.milestones) else areas[i])
  }

  /** `lifeAreas.reduce((acc, area) => acc + area.milestones.length, 0)`. */
  function TotalMilestones(areas: seq<LifeArea>): (r: nat)
    ensures r == 0 <==> forall i :: 0 <= i < |areas| ==> areas[i].milestones == []
    decreases |areas|
  {
    if areas == [] then 0
    else TotalMilestones(areas[..|areas| - 1]) + |areas[|areas| - 1].milestones|
  }

  /** The same reduce over the completed milestones of each area. */
  function CompletedMilestones(areas: seq<LifeArea>): (r: nat)
    ensures r <= TotalMilestones(areas)
    decreases |areas|
  {
    if areas == [] then 0
    else CompletedMilestones(areas[..|areas| - 1]) + CompletedCount(areas[|areas| - 1].milestones)
  }

  /** `calculateOverallProgress`. */
  function OverallProgress(areas: seq<LifeArea>): (r: nat)
    ensures r <= 100
  {
    CompletedAtMostTotal(areas);
    PercentBounds(CompletedMilestones(areas), TotalMilestones(areas));
    Percent(CompletedMilestones(areas), TotalMilestones(areas))
  }

  lemma {:induction false} CompletedAtMostTotal(areas: seq<LifeArea>)
    ensures CompletedMilestones(areas) <= TotalMilestones(areas)
    decreases |areas|
  {
    if areas != [] {
      CompletedAtMostTotal(areas[..|areas| - 1]);
    }
  }

  /** Overall progress stays in 0..100, is 0 with no milestones at all or
      none completed, and 100 when every milestone is completed. */
  lemma OverallProgressBounds(areas: seq<LifeArea>)
    ensures OverallProgress(areas) <= 100
    ensures TotalMilestones(areas) == 0 ==> OverallProgress(areas) == 0
    ensures CompletedMilestones(areas) == 0 ==> OverallProgress(areas) == 0
    ensures TotalMilestones(areas) > 0 && CompletedMilestones(areas) == TotalMilestones(areas) ==>
      OverallProgress(areas) == 100
  {
    CompletedAtMostTotal(areas);
    PercentBounds(CompletedMilestones(areas), TotalMilestones(areas));
  }

  /** When every area has the same milestones, the totals are that list's
      counts times the number of areas. */
  lemma {:induction false} UniformTotals(areas: seq<LifeArea>, ms: seq<Milestone>)
    requires forall i :: 0 <= i < |areas| ==> areas[i].milestones == ms
    ensures TotalMilestones(areas) == |areas| * |ms|
    ensures CompletedMilestones(areas) == |areas| * CompletedCount(ms)
    decreases |areas|
  {
    if areas != [] {
      var n := |areas|;
      UniformTotals(areas[..n - 1], ms);
      MulSucc(n - 1, |ms|);
      MulSucc(n - 1, CompletedCount(ms));
    }
  }

  /** The ten default milestones are all open. */
  lemma DefaultMilestonesOpen()
    ensures |DefaultMilestones()| == 10 && CompletedCount(DefaultMilestones()) == 0
  {
    CountAllOrNone(DefaultMilestones(), (m: Milestone) => m.completed);
  }

  /** The seven default areas hold 70 milestones, none completed, for an
      overall progress of 0. */
  lemma DefaultsSpec(ids: seq<string>)
    requires |ids| == 7
    ensures TotalMilestones(DefaultLifeAreas(ids)) == 70
    ensures CompletedMilestones(DefaultLifeAreas(ids)) == 0
    ensures OverallProgress(DefaultLifeAreas(ids)) == 0
  {
    var areas := DefaultLifeAreas(ids);
    DefaultMilestonesOpen();
    UniformTotals(areas, DefaultMilestones());
    PercentBounds(0, 70);
  }

  /** An update for an id that no area has changes nothing. */
  lemma UpdateUnknownId(areas: seq<LifeArea>, id: string, data: AreaUpdate)
    requires forall a :: a in areas ==> a.id != id
    ensures UpdateLifeArea(areas, id, data) == areas
  {
  }

  /** The vision page component. */
  class Page {
    var lifeAreas: seq<LifeArea>

    /** Mount: the stored areas if any, else the seven defaults built with
        `ids`. */
    constructor (saved: Option<seq<LifeArea>>, ids: seq<string>)
      requires |ids| == 7
      ensures lifeAreas == if saved.Some? then saved.value else DefaultLifeAreas(ids)
    {
      lifeAreas := if saved.Some? then saved.value else DefaultLifeAreas(ids);
    }

    method HandleUpdateLifeArea(id: string, data: AreaUpdate)
      modifies this
      ensures lifeAreas == UpdateLifeArea(old(lifeAreas), id, data)
    {
      lifeAreas := UpdateLifeArea(lifeAreas, id, data);
    }

    function Overall(): nat
      reads this
    {
      OverallProgress(lifeAreas)
    }
  }
}
