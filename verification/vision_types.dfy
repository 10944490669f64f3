/** The records of the ten-year vision: a life area and its yearly
    milestones. */
module VisionTypes {
  import opened Common

  datatype Milestone = Milestone(year: int, text: string, completed: bool)

  datatype LifeArea = LifeArea(
    id: string,
    name: string,
    description: string,
    vision: string,
    milestones: seq<Milestone>,
    iconColor: string)

  /** `milestones.filter(m => m.completed).length`. */
  function CompletedCount(ms: seq<Milestone>): (r: nat)
    ensures r <= |ms|
  {
    Count(ms, (m: Milestone) => m.completed)
  }

  predicate UniqueYears(ms: seq<Milestone>) {
    UniqueKeys(ms, (m: Milestone) => m.year)
  }
}
