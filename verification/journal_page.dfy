/** The journal page: the entry list it keeps, the reducers behind save,
    edit and delete, the tag list offered to the filters, and the
    conjunctive entry filter. */
module JournalPage {
  import opened Common
  import opened JournalEditor
  import opened JournalFilters

  datatype JournalEntry = JournalEntry(id: string, title: string, content: string, date: Date, tags: seq<string>)

  /** The page's two tabs. */
  datatype Tab = EntriesTab | WriteTab

  predicate UniqueIds(entries: seq<JournalEntry>) {
    UniqueKeys(entries, (e: JournalEntry) => e.id)
  }

  /** Adding: a new entry with a fresh id in front of the list. */
  function AddEntry(entries: seq<JournalEntry>, id: string, d: EntryData): (r: seq<JournalEntry>)
    ensures |r| == |entries| + 1 && r[1..] == entries
    ensures r[0] == JournalEntry(id, d.title, d.content, d.date, d.tags)
  {
    [JournalEntry(id, d.title, d.content, d.date, d.tags)] + entries
  }

  /** Editing: `{ ...entry, ...entryData }` on the entry with the edited id,
      which also moves its date to the time of the save. */
  function UpdateEntry(entries: seq<JournalEntry>, id: string, d: EntryData): (r: seq<JournalEntry>)
    ensures |r| == |entries|
    ensures forall i :: 0 <= i < |entries| ==> r[i].id == entries[i].id
    ensures forall i :: 0 <= i < |entries| && entries[i].id != id ==> r[i] == entries[i]
    ensures forall i :: 0 <= i < |entries| && entries[i].id == id ==>
      r[i] == JournalEntry(id, d.title, d.content, d.date, d.tags)
  {
    seq(|entries|, i requires 0 <= i < |entries| =>
      if entries[i].id == id then entries[i].(title := d.title, content := d.content, date := d.date, tags := d.tags)
      else entries[i])
  }

  /** `handleDelete`. */
  function DeleteEntry(entries: seq<JournalEntry>, id: string): (r: seq<JournalEntry>)
    ensures |r| <= |entries| && forall i :: 0 <= i < |r| ==> r[i] in entries && r[i].id != id
    ensures forall i :: 0 <= i < |entries| && entries[i].id != id ==> entries[i] in r
  {
    Filter(entries, (e: JournalEntry) => e.id != id)
  }

  /** `entries.flatMap(entry => entry.tags)`. */
  function FlatTags(entries: seq<JournalEntry>): (r: seq<string>)
    ensures forall tag :: tag in r <==> exists i :: 0 <= i < |entries| && tag in entries[i].tags
    decreases |entries|
  {
    if entries == [] then []
    else
      var rest := FlatTags(entries[1..]);
      assert forall tag :: (exists i :: 1 <= i < |entries| && tag in entries[i].tags) ==> tag in rest by {
        forall tag | exists i :: 1 <= i < |entries| && tag in entries[i].tags ensures tag in rest {
          var i :| 1 <= i < |entries| && tag in entries[i].tags;
          assert entries[1..][i - 1] == entries[i];
        }
      }
      entries[0].tags + rest
  }

  /** `Array.from(new Set(s))`: every value once, in order of first
      occurrence. */
  function Dedup(s: seq<string>): (r: seq<string>)
    ensures forall x :: x in r <==> x in s
    ensures Distinct(r)
    decreases |s|
  {
    if s == [] then []
    else
      var init := s[..|s| - 1];
      var d := Dedup(init);
      if s[|s| - 1] in init then d else d + [s[|s| - 1]]
  }

  /** Later values never disturb the order of earlier ones. */
  lemma {:induction false} DedupPrefix(a: seq<string>, b: seq<string>)
    ensures Dedup(a) <= Dedup(a + b)
    decreases |b|
  {
    if b == [] {
      assert a + b == a;
    } else {
      var ab := a + b;
      assert ab[..|ab| - 1] == a + b[..|b| - 1];
      DedupPrefix(a, b[..|b| - 1]);
    }
  }

  /** `flatMap` works entry by entry: the tags of a concatenation are the
      tags of each part in turn, and one entry contributes its own tags. */
  lemma {:induction false} FlatTagsAppend(a: seq<JournalEntry>, b: seq<JournalEntry>)
    ensures FlatTags(a + b) == FlatTags(a) + FlatTags(b)
    ensures forall e :: FlatTags([e]) == e.tags
    decreases |a|
  {
    if a == [] {
      assert a + b == b;
    } else {
      assert (a + b)[0] == a[0] && (a + b)[1..] == a[1..] + b;
      FlatTagsAppend(a[1..], b);
    }
    forall e ensures FlatTags([e]) == e.tags {
      assert [e][1..] == [];
    }
  }

  /** The position of the first `x` in `s`. */
  function FirstAt(s: seq<string>, x: string): (k: nat)
    requires x in s
    ensures k < |s| && s[k] == x && forall j :: 0 <= j < k ==> s[j] != x
  {
    if s[0] == x then 0 else 1 + FirstAt(s[1..], x)
  }

  /** Appending never moves the first occurrence of a value already there. */
  lemma FirstAtPrefix(s: seq<string>, t: seq<string>, x: string)
    requires x in s
    ensures FirstAt(s + t, x) == FirstAt(s, x)
  {
    assert (s + t)[FirstAt(s, x)] == x;
  }

  /** `Dedup` lists the values in the order of their first occurrences. */
  lemma {:induction false} DedupFirstOrder(s: seq<string>)
    ensures forall i, j :: 0 <= i < j < |Dedup(s)| ==> FirstAt(s, Dedup(s)[i]) < FirstAt(s, Dedup(s)[j])
    decreases |s|
  {
    if s != [] {
      var init := s[..|s| - 1];
      var last := s[|s| - 1];
      var d := Dedup(init);
      DedupFirstOrder(init);
      assert s == init + [last];
      forall y | y in init ensures FirstAt(s, y) == FirstAt(init, y) && FirstAt(s, y) < |init| {
        FirstAtPrefix(init, [last], y);
      }
      if last !in init {
        assert FirstAt(s, last) == |init|;
      }
    }
  }

  /** `allTags`. */
  function AllTags(entries: seq<JournalEntry>): (r: seq<string>)
    ensures Distinct(r)
  {
    Dedup(FlatTags(entries))
  }

  /** The filter panel offers every tag of every entry, each once, in the
      order the tags first appear when the entries are read front to back. */
  lemma AllTagsSpec(entries: seq<JournalEntry>)
    ensures forall tag :: tag in AllTags(entries) <==> exists e :: e in entries && tag in e.tags
    ensures Distinct(AllTags(entries))
    ensures forall i, j :: 0 <= i < j < |AllTags(entries)| ==>
      FirstAt(FlatTags(entries), AllTags(entries)[i]) < FirstAt(FlatTags(entries), AllTags(entries)[j])
  {
    forall tag ensures tag in AllTags(entries) <==> exists e :: e in entries && tag in e.tags {
      if exists e :: e in entries && tag in e.tags {
        var e :| e in entries && tag in e.tags;
        var i :| 0 <= i < |entries| && entries[i] == e;
      }
    }
    DedupFirstOrder(FlatTags(entries));
  }

  /** Search: empty, or found case-insensitively in the title or content. */
  predicate MatchesSearch(e: JournalEntry, search: string) {
    search == "" || Contains(Lower(e.title), Lower(search)) || Contains(Lower(e.content), Lower(search))
  }

  /** Day: none selected, or the same calendar day (time of day ignored). */
  predicate MatchesDate(e: JournalEntry, day: Option<Date>) {
    day.None? || SameDay(e.date, day.value)
  }

  /** Tags: none selected, or the entry carries every selected tag. */
  predicate MatchesTags(e: JournalEntry, selected: seq<string>) {
    |selected| == 0 || forall tag :: tag in selected ==> tag in e.tags
  }

  predicate Matches(e: JournalEntry, f: Filters) {
    MatchesSearch(e, f.search) && MatchesDate(e, f.selectedDate) && MatchesTags(e, f.selectedTags)
  }

  /** `filteredEntries`. */
  function FilterEntries(entries: seq<JournalEntry>, f: Filters): (r: seq<JournalEntry>)
    ensures |r| <= |entries|
    ensures forall i :: 0 <= i < |r| ==> r[i] in entries && Matches(r[i], f)
  {
    Filter(entries, (e: JournalEntry) => Matches(e, f))
  }

  /** An entry is shown iff it passes all three tests; the shown entries keep
      their order. */
  lemma FilterEntriesSpec(entries: seq<JournalEntry>, f: Filters)
    ensures forall e :: e in FilterEntries(entries, f) <==>
      e in entries && MatchesSearch(e, f.search) && MatchesDate(e, f.selectedDate) && MatchesTags(e, f.selectedTags)
    ensures Subsequence(FilterEntries(entries, f), entries)
  {
    FilterIsSubsequence(entries, (e: JournalEntry) => Matches(e, f));
  }

  /** With the filters cleared every entry is shown. */
  lemma ClearedShowsAll(entries: seq<JournalEntry>)
    ensures FilterEntries(entries, Cleared) == entries
  {
    FilterKeepsAll(entries, (e: JournalEntry) => Matches(e, Cleared));
  }

  /** Selecting one more tag can only hide entries. */
  lemma MoreTagsShowFewer(entries: seq<JournalEntry>, f: Filters, tag: string)
    ensures forall e :: e in FilterEntries(entries, f.(selectedTags := f.selectedTags + [tag])) ==>
      e in FilterEntries(entries, f)
  {
  }

  /** The day filter ignores the time of day, and the search ignores case. */
  lemma FilterIgnoresTimeAndCase(e: JournalEntry, f: Filters, otherTime: nat)
    ensures Matches(e.(date := e.date.(millisOfDay := otherTime)), f) == Matches(e, f)
    ensures MatchesSearch(e, Lower(f.search)) == MatchesSearch(e, f.search)
  {
    LowerIdempotent(f.search);
  }

  /** A newly added entry has the new tags on offer alongside the old ones. */
  lemma AddEntryTags(entries: seq<JournalEntry>, id: string, d: EntryData)
    ensures forall tag :: tag in AllTags(AddEntry(entries, id, d)) <==> tag in d.tags || tag in AllTags(entries)
  {
    var r := AddEntry(entries, id, d);
    assert r[1..] == entries;
  }

  /** Every edit keeps the entry ids, so a list with unique ids keeps them. */
  lemma ReducersKeepUniqueIds(entries: seq<JournalEntry>, id: string, d: EntryData, newId: string)
    requires UniqueIds(entries)
    ensures UniqueIds(UpdateEntry(entries, id, d))
    ensures UniqueIds(DeleteEntry(entries, id))
    ensures (forall e :: e in entries ==> e.id != newId) ==> UniqueIds(AddEntry(entries, newId, d))
  {
    FilterKeepsUniqueKeys(entries, (e: JournalEntry) => e.id != id, (e: JournalEntry) => e.id);
    var r := AddEntry(entries, newId, d);
    if forall e :: e in entries ==> e.id != newId {
      forall i, j | 0 <= i < j < |r| ensures r[i].id != r[j].id {
        if i == 0 {
          assert r[j] == entries[j - 1];
        }
      }
    }
  }

  /** Deleting removes exactly the entries with that id and keeps the order. */
  lemma DeleteSpec(entries: seq<JournalEntry>, id: string)
    ensures forall e :: e in DeleteEntry(entries, id) <==> e in entries && e.id != id
    ensures Subsequence(DeleteEntry(entries, id), entries)
  {
    FilterIsSubsequence(entries, (e: JournalEntry) => e.id != id);
  }

  /** The editor's starting values: `editingEntry?.x || default`. */
  function EditorStart(editing: Option<JournalEntry>): (r: (string, string, seq<string>))
    ensures editing.None? ==> r == ("", "", [])
    ensures editing.Some? ==> r == (editing.value.content, editing.value.title, editing.value.tags)
  {
    if editing.Some? then (editing.value.content, editing.value.title, editing.value.tags) else ("", "", [])
  }

  /** Opening an entry in the editor and saving it unchanged at `now` gives
      the entry back, with its date moved to `now`. */
  lemma EditUnchangedRestampsDate(entries: seq<JournalEntry>, i: nat, now: Date)
    requires i < |entries|
    requires !Blank(entries[i].title) && !Blank(entries[i].content)
    ensures var e := entries[i];
            var start := EditorStart(Some(e));
            var v := Validate(start.1, start.0, start.2, now);
            v.Saved? && UpdateEntry(entries, e.id, v.entry)[i] == e.(date := now)
  {
  }

  /** The journal page component. */
  class Page {
    var entries: seq<JournalEntry>
    var editingEntry: Option<JournalEntry>
    var filters: Filters
    var activeTab: Tab

    /** Mount: the stored entries if any, else none; nothing being edited. */
    constructor (saved: Option<seq<JournalEntry>>)
      ensures entries == (if saved.Some? then saved.value else [])
      ensures editingEntry.None? && filters == Cleared && activeTab == EntriesTab
    {
      entries := if saved.Some? then saved.value else [];
      editingEntry := None;
      filters := Cleared;
      activeTab := EntriesTab;
    }

    /** `handleSaveEntry`: update the edited entry and leave edit mode, or add
        one with `newId`; then show the entries tab. */
    method HandleSaveEntry(d: EntryData, newId: string)
      modifies this
      ensures entries == if old(editingEntry).Some? then UpdateEntry(old(entries), old(editingEntry).value.id, d)
                         else AddEntry(old(entries), newId, d)
      ensures editingEntry.None? && activeTab == EntriesTab && filters == old(filters)
    {
      if editingEntry.Some? {
        entries := UpdateEntry(entries, editingEntry.value.id, d);
        editingEntry := None;
      } else {
        entries := [JournalEntry(newId, d.title, d.content, d.date, d.tags)] + entries;
      }
      activeTab := EntriesTab;
    }

    /** `handleEdit`: an entry with that id is opened in the write tab; an
        unknown id changes nothing. */
    method HandleEdit(id: string)
      modifies this
      ensures var f := Find(old(entries), (e: JournalEntry) => e.id == id);
              if f.Some? then editingEntry == f && activeTab == WriteTab
              else editingEntry == old(editingEntry) && activeTab == old(activeTab)
      ensures entries == old(entries) && filters == old(filters)
    {
      var found := Find(entries, (e: JournalEntry) => e.id == id);
      if found.Some? {
        editingEntry := found;
        activeTab := WriteTab;
      }
    }

    method HandleDelete(id: string)
      modifies this
      ensures entries == DeleteEntry(old(entries), id)
      ensures editingEntry == old(editingEntry) && filters == old(filters) && activeTab == old(activeTab)
    {
      entries := Filter(entries, (e: JournalEntry) => e.id != id);
    }

    /** The "New Entry" buttons. */
    method HandleNewEntry()
      modifies this
      ensures editingEntry.None? && activeTab == WriteTab
      ensures entries == old(entries) && filters == old(filters)
    {
      editingEntry := None;
      activeTab := WriteTab;
    }

    /** `onFilterChange`. */
    method SetFilters(f: Filters)
      modifies this
      ensures filters == f
      ensures entries == old(entries) && editingEntry == old(editingEntry) && activeTab == old(activeTab)
    {
      filters := f;
    }

    function Tags(): seq<string>
      reads this
    {
      AllTags(entries)
    }

    function Shown(): seq<JournalEntry>
      reads this
    {
      FilterEntries(entries, filters)
    }
  }
}
