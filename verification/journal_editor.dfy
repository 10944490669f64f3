/** The journal editor: its tag list (trimmed, duplicate-free additions and
    removal) and the validation a save goes through before `onSave`. */
module JournalEditor {
  import opened Common

  /** What the editor hands to `onSave`; `date` is the time of the save. */
  datatype EntryData = EntryData(content: string, title: string, tags: seq<string>, date: Date)

  /** The outcome of a save: one of the two error notices, or the record
      passed to `onSave`. */
  datatype SaveResult = MissingTitle | MissingContent | Saved(entry: EntryData)

  /** The add button's guard: a non-blank tag that is not yet in the list. */
  predicate CanAddTag(tags: seq<string>, newTag: string) {
    !Blank(newTag) && Trim(newTag) !in tags
  }

  /** The tag list after `addTag`. */
  function AddTag(tags: seq<string>, newTag: string): (r: seq<string>)
    ensures CanAddTag(tags, newTag) ==> r == tags + [Trim(newTag)]
    ensures !CanAddTag(tags, newTag) ==> r == tags
  {
    if CanAddTag(tags, newTag) then tags + [Trim(newTag)] else tags
  }

  /** The tag list after `removeTag`. */
  function RemoveTag(tags: seq<string>, tag: string): (r: seq<string>)
    ensures tag !in r && |r| <= |tags|
    ensures forall t :: t in r <==> t in tags && t != tag
  {
    Filter(tags, (t: string) => t != tag)
  }

  /** `handleSave`: the title is checked first, then the content; both are
      passed on untrimmed. */
  function Validate(title: string, content: string, tags: seq<string>, now: Date): (r: SaveResult)
    ensures r.MissingTitle? <==> Blank(title)
    ensures r.MissingContent? <==> !Blank(title) && Blank(content)
    ensures r.Saved? ==> r.entry == EntryData(content, title, tags, now)
  {
    if Blank(title) then MissingTitle
    else if Blank(content) then MissingContent
    else Saved(EntryData(content, title, tags, now))
  }

  /** Adding never creates a duplicate, and what it adds is trimmed and
      non-empty. */
  lemma AddTagKeepsDistinct(tags: seq<string>, newTag: string)
    requires Distinct(tags)
    ensures Distinct(AddTag(tags, newTag))
    ensures forall t :: t in AddTag(tags, newTag) && t !in tags ==> t == Trim(newTag) && t != ""
  {
  }

  /** Removal deletes every copy of the tag and keeps the others in order. */
  lemma RemoveTagSpec(tags: seq<string>, tag: string)
    ensures tag !in RemoveTag(tags, tag)
    ensures forall t :: t != tag ==> (t in RemoveTag(tags, tag) <==> t in tags)
    ensures Subsequence(RemoveTag(tags, tag), tags)
    ensures Distinct(tags) ==> Distinct(RemoveTag(tags, tag))
  {
    FilterIsSubsequence(tags, (t: string) => t != tag);
    if Distinct(tags) {
      FilterKeepsDistinct(tags, (t: string) => t != tag);
    }
  }

  /** Adding a new tag and removing it again gives the original list. */
  lemma AddThenRemoveRestores(tags: seq<string>, newTag: string)
    requires CanAddTag(tags, newTag)
    ensures RemoveTag(AddTag(tags, newTag), Trim(newTag)) == tags
  {
    var t := Trim(newTag);
    FilterAppend(tags, [t], (x: string) => x != t);
    FilterKeepsAll(tags, (x: string) => x != t);
  }

  /** A blank title is reported whatever the content is. */
  lemma TitleCheckedFirst(title: string, content: string, tags: seq<string>, now: Date)
    requires Blank(title)
    ensures Validate(title, content, tags, now) == MissingTitle
    ensures Validate(title, "", tags, now) == MissingTitle
  {
  }

  /** The journal editor component. */
  class Editor {
    var content: string
    var title: string
    var tags: seq<string>
    var newTag: string

    constructor (initialContent: string, initialTitle: string, initialTags: seq<string>)
      ensures content == initialContent && title == initialTitle
      ensures tags == initialTags && newTag == ""
    {
      content, title, tags, newTag := initialContent, initialTitle, initialTags, "";
    }

    method SetNewTag(text: string)
      modifies this
      ensures newTag == text
      ensures content == old(content) && title == old(title) && tags == old(tags)
    {
      newTag := text;
    }

    method SetTitle(text: string)
      modifies this
      ensures title == text
      ensures content == old(content) && tags == old(tags) && newTag == old(newTag)
    {
      title := text;
    }

    method SetContent(text: string)
      modifies this
      ensures content == text
      ensures title == old(title) && tags == old(tags) && newTag == old(newTag)
    {
      content := text;
    }

    /** `addTag`: on success the trimmed tag is appended and the input is
        cleared; otherwise neither changes. */
    method HandleAddTag()
      modifies this
      ensures tags == AddTag(old(tags), old(newTag))
      ensures newTag == if CanAddTag(old(tags), old(newTag)) then "" else old(newTag)
      ensures content == old(content) && title == old(title)
    {
      var trimmed := Trim(newTag);
      if trimmed != "" && trimmed !in tags {
        tags := tags + [trimmed];
        newTag := "";
      }
    }

    /** `removeTag`. */
    method HandleRemoveTag(tag: string)
      modifies this
      ensures tags == RemoveTag(old(tags), tag)
      ensures content == old(content) && title == old(title) && newTag == old(newTag)
    {
      tags := Filter(tags, (t: string) => t != tag);
    }

    /** `handleSave`: reports a notice, or the record `onSave` receives, with
        `now` as its date. The editor's own state is left as it is. */
    method HandleSave(now: Date) returns (r: SaveResult)
      ensures r == Validate(title, content, tags, now)
      ensures r.Saved? ==> r.entry.title == title && r.entry.content == content && r.entry.tags == tags
      ensures r.Saved? <==> !Blank(title) && !Blank(content)
    {
      if Trim(title) == "" {
        return MissingTitle;
      }
      if Trim(content) == "" {
        return MissingContent;
      }
      return Saved(EntryData(content, title, tags, now));
    }
  }
}
