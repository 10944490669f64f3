/** The journal filter panel: search text, a day, and a set of selected tags,
    emitted together to the page on every change. */
module JournalFilters {
  import opened Common

  /** The triple the panel emits through `onFilterChange`. */
  datatype Filters = Filters(search: string, selectedDate: Option<Date>, selectedTags: seq<string>)

  /** No search, no date, no tags. */
  const Cleared: Filters := Filters("", None, [])

  /** `toggleTag`'s new selection: remove the tag if selected, else append it. */
  function ToggleTag(selected: seq<string>, tag: string): (r: seq<string>)
    ensures tag in r <==> tag !in selected
    ensures forall t :: t != tag ==> (t in r <==> t in selected)
    ensures tag !in selected ==> r == selected + [tag]
    ensures tag in selected ==> Subsequence(r, selected)
  {
    if tag in selected then
      FilterIsSubsequence(selected, (t: string) => t != tag);
      Filter(selected, (t: string) => t != tag)
    else selected + [tag]
  }

  /** The selection never holds a tag twice. */
  lemma ToggleKeepsDistinct(selected: seq<string>, tag: string)
    requires Distinct(selected)
    ensures Distinct(ToggleTag(selected, tag))
  {
    if tag in selected {
      FilterKeepsDistinct(selected, (t: string) => t != tag);
    }
  }

  /** Selecting a tag and deselecting it again restores the selection. */
  lemma ToggleTwiceRestores(selected: seq<string>, tag: string)
    requires tag !in selected
    ensures ToggleTag(ToggleTag(selected, tag), tag) == selected
  {
    FilterAppend(selected, [tag], (t: string) => t != tag);
    FilterKeepsAll(selected, (t: string) => t != tag);
  }

  /** The filter panel component. */
  class Panel {
    var search: string
    var selectedDate: Option<Date>
    var selectedTags: seq<string>

    function Current(): Filters
      reads this
    {
      Filters(search, selectedDate, selectedTags)
    }

    constructor ()
      ensures Current() == Cleared
    {
      search, selectedDate, selectedTags := "", None, [];
    }

    method HandleSearchChange(text: string) returns (emitted: Filters)
      modifies this
      ensures Current() == old(Current()).(search := text) && emitted == Current()
    {
      search := text;
      emitted := Filters(text, selectedDate, selectedTags);
    }

    method HandleDateChange(date: Option<Date>) returns (emitted: Filters)
      modifies this
      ensures Current() == old(Current()).(selectedDate := date) && emitted == Current()
    {
      selectedDate := date;
      emitted := Filters(search, date, selectedTags);
    }

    method HandleToggleTag(tag: string) returns (emitted: Filters)
      modifies this
      ensures Current() == old(Current()).(selectedTags := ToggleTag(old(selectedTags), tag))
      ensures emitted == Current()
    {
      var next := if tag in selectedTags then Filter(selectedTags, (t: string) => t != tag)
                  else selectedTags + [tag];
      selectedTags := next;
      emitted := Filters(search, selectedDate, next);
    }

    method HandleClearFilters() returns (emitted: Filters)
      modifies this
      ensures Current() == Cleared && emitted == Cleared
    {
      search, selectedDate, selectedTags := "", None, [];
      emitted := Filters("", None, []);
    }
  }
}
