# Serenity Life Compass — a verified model of its client-side logic

Serenity Life Compass is a single-page personal-planning app. It has a task
manager, a journal, yearly and monthly planners, a ten-year vision board,
a video-course tracker and a dashboard. All of its behaviour lives in the
browser: each page keeps its lists in component state and in
`localStorage`, and each user action replaces a list through a small
reducer (add, update by id, toggle by id, delete by id) or derives a value
from one (a filtered view, a tag list, a rounded percentage).

This project models those reducers, calculators, filters and string
helpers in Dafny and proves what the app relies on:

- lengths and order are preserved;
- "nothing else changes";
- toggling twice restores the list;
- deleting is idempotent;
- ids stay unique when the new id is fresh;
- every progress bar stays in 0..100;
- the video forms' in-place edits of the stored playlist array keep each playlist's stored progress equal to the share of watched videos (except the one case the YouTube sync does not, see `ResyncProgressStale`).

Layout: one module per source file, plus `Common` for shared vocabulary.

- **Pure code** (filters, reducers, calculators) is written as functions, with lemmas about them.
- **Stateful code** (components that keep and replace state) is a class whose fields are the component's state. It has one method per handler, and each method's postcondition ties the new state to the pure reducer.
- **The stored playlist array** that the video components read, mutate in place and write back is the class `VideoTypes.Store`. It is shared by the list and the three forms.

| file | module | models |
|---|---|---|
| common.dfy | `Common` | `Option`, calendar `Date`, `Math.round` percentages, ASCII `trim`/`toLowerCase`/`includes`, `filter`/`findIndex`/`find` |
| task_form.dfy | `TaskForm` | `Task`, the form's defaults, submit and reset |
| tasks_page.dfy | `TasksPage` | task reducers, project registration, search, the page |
| task_list.dfy | `TaskList` | project/priority/status filter, priority colour |
| journal_editor.dfy | `JournalEditor` | tag add/remove, save validation |
| journal_filters.dfy | `JournalFilters` | tag toggle, the emitted filter triple |
| journal_page.dfy | `JournalPage` | entry reducers, `allTags`, entry filter, the page |
| journal_entry_card.dfy | `JournalEntryCard` | preview, export text, file name |
| yearly_goals_card.dfy | `YearlyGoalsCard` | goal reducers and the buffered card |
| monthly_plan_card.dfy | `MonthlyPlanCard` | next month, plan field edits |
| planning_page.dfy | `PlanningPage` | default planners and plans, updates, selected planner, the goals card across a year switch |
| vision_types.dfy | `VisionTypes` | `Milestone`, `LifeArea` |
| life_area_card.dfy | `LifeAreaCard` | milestone progress and edits |
| vision_page.dfy | `VisionPage` | default areas, area update, overall progress |
| video_types.dfy | `VideoTypes` | `VideoItem`, `VideoPlaylist`, watched progress, the store |
| video_playlist_list.dfy | `VideoPlaylistList` | watched toggle, playlist delete |
| manual_video_form.dfy | `ManualVideoForm` | adding a video to a stored playlist |
| youtube_playlist_sync.dfy | `YoutubePlaylistSync` | `?list=` id, mock videos, sync upsert |
| add_video_playlist_form.dfy | `AddVideoPlaylistForm` | creating an empty playlist |
| today_tasks.dfy | `TodayTasks` | the dashboard's task list |

Percentages: each computed progress is `Math.round((w / n) * 100)`. The
model computes this as `(200*w + n) / (2*n)`, the nearest integer to
`100*w/n` with halves rounded up (`Common.RoundPercent`). Where the list
can be empty the source guards it to give 0 when `n` is 0, and
`Common.Percent` adds that guard. Adding a video rounds without a guard,
because the video was pushed first and the list is never empty
(`ManualVideoForm.WithVideo`). The first YouTube sync stores a fixed 40
rather than computing it.

## Model

| member | source | states |
|---|---|---|
| Common.RoundPercent | src/components/vision/LifeAreaCard.tsx:38 | the result is the nearest integer to 100·w/n, halves rounded up (`2n·r <= 200w + n < 2n·(r+1)`) |
| Common.Percent | src/components/vision/LifeAreaCard.tsx:37-39 | 0 when there is nothing to count; otherwise the rounded percentage |
| Common.PercentBounds | src/components/vision/LifeAreaCard.tsx:37-39 | with w <= n the percentage is within 0..100, is 100 when all are counted and 0 when none are |
| Common.PercentMonotone | src/components/videos/VideoPlaylistList.tsx:47-50 | more watched or completed items never lower the percentage |
| Common.PercentGrowingTotal | src/components/videos/ManualVideoForm.tsx:77-79 | one more uncounted item never raises the percentage |
| Common.LowerChar | src/pages/TasksPage.tsx:114 | a capital A–Z becomes its lower-case letter, every other character stays, no capital remains, and whitespace stays whitespace |
| Common.Lower | src/pages/TasksPage.tsx:114 | `toLowerCase` keeps the length and lower-cases each ASCII capital and nothing else |
| Common.LowerIdempotent | src/pages/TasksPage.tsx:114 | lower-casing twice is lower-casing once |
| Common.TrimStart | src/components/journal/JournalEditor.tsx:34 | the result is a suffix with no leading whitespace, and only whitespace was dropped |
| Common.TrimEnd | src/components/journal/JournalEditor.tsx:34 | the result is a prefix with no trailing whitespace, and only whitespace was dropped |
| Common.BlankIffAllSpace | src/components/journal/JournalEditor.tsx:45 | `!s.trim()` holds exactly when every character of s is whitespace |
| Common.TrimIdempotent | src/components/journal/JournalEditor.tsx:34 | trimming twice is trimming once |
| Common.IndexOf | src/pages/TasksPage.tsx:114 | `includes`: the pattern occurs at the returned index and at no earlier one, or nowhere |
| Common.Filter | src/pages/TasksPage.tsx:106 | `filter` keeps exactly the elements meeting the predicate and never grows the list |
| Common.FilterIsSubsequence | src/pages/TasksPage.tsx:106 | the filtered list keeps the order of the input |
| Common.FilterPartition | src/components/tasks/TaskList.tsx:50-53 | a predicate and its negation split the input, element for element |
| Common.FilterKeepsUniqueKeys | src/pages/TasksPage.tsx:106 | filtering never creates a repeated id |
| Common.CountFlipOne | src/components/vision/LifeAreaCard.tsx:36 | turning one flag on, and no other, counts exactly one more |
| Common.FilterKeepsAll | src/pages/TasksPage.tsx:111-117 | when every element meets the predicate, filtering gives the list back unchanged |
| Common.FilterIdempotent | src/components/tasks/TaskList.tsx:45-56 | filtering twice by the same predicate is filtering once |
| Common.FilterAppend | src/pages/JournalPage.tsx:44-46 | filtering a concatenation filters each part and concatenates the results |
| Common.Count | src/components/vision/LifeAreaCard.tsx:36 | `filter(...).length` never exceeds the length of the list |
| Common.CountAppend | src/components/videos/ManualVideoForm.tsx:77 | the count over a concatenation is the sum of the counts over its parts |
| Common.FindIndex | src/components/videos/ManualVideoForm.tsx:55-57 | `findIndex`: the first matching index, or -1 when no element matches |
| Common.Find | src/pages/TasksPage.tsx:97 | `find`: the first element of the list that matches, or none when no element matches |
| TaskForm.PriorityName | src/components/tasks/TaskForm.tsx:26 | a stored priority is always "low", "medium" or "high" |
| TaskForm.PriorityNameInjective | src/components/tasks/TaskForm.tsx:26 | the three priorities are stored as three different strings |
| TaskForm.FirstProject | src/components/tasks/TaskForm.tsx:42 | `projects[0] \|\| ""`: the first project, or "" when there is none |
| TaskForm.InitialFields | src/components/tasks/TaskForm.tsx:40-52 | project: the given one if non-empty, else the first project, else ""; priority medium and no due date when none is given; recurring only when the initial value is true; a pattern is always set |
| TaskForm.Submitted | src/components/tasks/TaskForm.tsx:70-78 | the record carries the form's fields and no id or completion flag; its pattern is present exactly when it recurs, and then equals the chosen pattern |
| TaskForm.EmptyFormIsResetForm | src/components/tasks/TaskForm.tsx:80-87 | after a submit the form looks like an empty form: empty texts, first project, medium, no due date, not recurring, "daily" |
| TaskForm.EditFormShowsTask | src/components/tasks/TaskForm.tsx:55-65 | opening a task that has a project shows its title, description, project, priority, due date and recurring flag |
| TaskForm.Form.constructor | src/components/tasks/TaskForm.tsx:40-52 | the seven state fields start at `InitialFields` |
| TaskForm.Form.ApplyInitialValues | src/components/tasks/TaskForm.tsx:55-65 | the effect overwrites all seven fields with `InitialFields` of the values passed; in create mode that is the empty form |
| TaskForm.Form.Submit | src/components/tasks/TaskForm.tsx:67-108 | runs only with a non-empty title, as the `required` title input demands; returns `Submitted` of the fields before the call, so a task with a non-empty title, and leaves the fields at the reset values |
| TasksPage.Merge | src/pages/TasksPage.tsx:61 | `{ ...task, ...taskData }`: the seven form fields are the form's, while the id and completion flag stay the task's |
| TasksPage.EditUnchangedKeepsTask | src/pages/TasksPage.tsx:57-64 | opening a task that has a project, and a pattern exactly when it recurs, and saving it untouched gives the same task back |
| TasksPage.AddTask | src/pages/TasksPage.tsx:66-73 | exactly one task is prepended, uncompleted, with the new id and the form's fields; the old list follows unchanged |
| TasksPage.UpdateTask | src/pages/TasksPage.tsx:57-64 | the length and every id are kept; tasks with the edited id take the form's fields, the others are unchanged |
| TasksPage.ToggleComplete | src/pages/TasksPage.tsx:87-93 | the length and ids are kept; tasks with that id flip `completed`, the others are unchanged |
| TasksPage.RegisterProject | src/pages/TasksPage.tsx:78-80 | a non-empty project not yet listed is appended once; otherwise the list is unchanged |
| TasksPage.ToggleTwiceRestores | src/pages/TasksPage.tsx:87-93 | toggling the same id twice restores the list |
| TasksPage.ToggleUnknownIdChangesNothing | src/pages/TasksPage.tsx:57-93 | an id no task has leaves the list unchanged under a toggle and under an edit with any form data |
| TasksPage.ToggleOnlyFlipsCompletion | src/pages/TasksPage.tsx:89-91 | a toggle changes only the completion flag, and only on tasks with that id |
| TasksPage.DeleteTask | src/pages/TasksPage.tsx:105-107 | deleting keeps exactly the tasks with another id |
| TasksPage.DeleteSpec | src/pages/TasksPage.tsx:105-107 | delete keeps exactly tasks with another id, in order, and deleting again changes nothing |
| TasksPage.AddThenDeleteRestores | src/pages/TasksPage.tsx:66-73 | deleting a task just created with a fresh id gives the old list back |
| TasksPage.AddKeepsUniqueIds | src/pages/TasksPage.tsx:66-73 | creating with a fresh id keeps the ids unique |
| TasksPage.EditsKeepUniqueIds | src/pages/TasksPage.tsx:57-64 | edit and toggle keep the ids unique |
| TasksPage.DeleteKeepsUniqueIds | src/pages/TasksPage.tsx:105-107 | delete keeps the ids unique |
| TasksPage.RegisterProjectKeepsDistinct | src/pages/TasksPage.tsx:78-80 | the project list never gains a duplicate, contains any non-empty saved project, and grows by at most one |
| TasksPage.SearchTasks | src/pages/TasksPage.tsx:111-117 | the search shows only stored tasks, and with a query only tasks matching it |
| TasksPage.SearchSpec | src/pages/TasksPage.tsx:111-117 | an empty query shows every task; otherwise exactly tasks whose lower-cased title or description contains the lower-cased query, in order |
| TasksPage.SearchIgnoresCase | src/pages/TasksPage.tsx:114-115 | a query and its lower-cased form match the same tasks |
| TasksPage.DraftReportScenario | src/pages/TasksPage.tsx:66-93 | creating "Draft report" (high priority) on an empty list and toggling it leaves one completed high-priority task |
| TasksPage.Page.constructor | src/pages/TasksPage.tsx:34-37 | the stored lists, else no tasks and the five default projects; nothing being edited; all filters at "all" and an empty search |
| TasksPage.Page.HandleSaveTask | src/pages/TasksPage.tsx:56-84 | the edited task is updated, or a task is created; the project is registered; edit mode ends; the filters are untouched |
| TasksPage.Page.HandleToggleComplete | src/pages/TasksPage.tsx:87-93 | tasks become `ToggleComplete` of the old ones; projects and the edited task are kept |
| TasksPage.Page.HandleEditTask | src/pages/TasksPage.tsx:96-102 | the first task with that id becomes the edited task; an unknown id changes nothing |
| TasksPage.Page.HandleDeleteTask | src/pages/TasksPage.tsx:105-107 | tasks become `DeleteTask` of the old ones; nothing else changes |
| TasksPage.Page.SetFilters | src/pages/TasksPage.tsx:40-43 | the four filter inputs take the new values; the lists are kept |
| TasksPage.VisibleIsSubsequence | src/pages/TasksPage.tsx:111-117 | what the page shows is always an ordered selection of its tasks, and all of them with no search and every filter at "all" |
| TaskList.FilterTasks | src/components/tasks/TaskList.tsx:45-56 | `filteredTasks` is no longer than the list and shows only listed tasks that pass all three tests |
| TaskList.FilterTasksSpec | src/components/tasks/TaskList.tsx:45-56 | a task is shown iff its project matches (or "all"), its priority matches (or "all") and its status matches; the order is kept |
| TaskList.FilterAllKeepsEverything | src/components/tasks/TaskList.tsx:46-53 | with every selection at "all" the list is shown unchanged |
| TaskList.StatusFiltersPartition | src/components/tasks/TaskList.tsx:50-53 | "completed" and "active" together show each task of "all" exactly once |
| TaskList.FilterTasksIdempotent | src/components/tasks/TaskList.tsx:45-56 | filtering the filtered list changes nothing |
| TaskList.PriorityColor | src/components/tasks/TaskList.tsx:58-69 | a colour class for "high", "medium" and "low", and "" for anything else |
| TaskList.PriorityColorsDistinct | src/components/tasks/TaskList.tsx:58-69 | every stored priority has a colour, and the three colours differ |
| JournalEditor.AddTag | src/components/journal/JournalEditor.tsx:33-38 | the trimmed tag is appended when it is non-empty and not yet present; otherwise the list is unchanged |
| JournalEditor.Validate | src/components/journal/JournalEditor.tsx:44-60 | a blank title is reported first, then a blank content; otherwise the untrimmed title and content and the tags are saved with the save time |
| JournalEditor.AddTagKeepsDistinct | src/components/journal/JournalEditor.tsx:33-38 | adding never creates a duplicate, and anything added is trimmed and non-empty |
| JournalEditor.RemoveTag | src/components/journal/JournalEditor.tsx:40-42 | removing a tag keeps exactly the other tags, so the tag is gone |
| JournalEditor.RemoveTagSpec | src/components/journal/JournalEditor.tsx:40-42 | removal deletes every copy of the tag, keeps all other tags in order, and keeps the list duplicate-free |
| JournalEditor.AddThenRemoveRestores | src/components/journal/JournalEditor.tsx:33-42 | adding a new tag and removing it again restores the list |
| JournalEditor.TitleCheckedFirst | src/components/journal/JournalEditor.tsx:45-48 | a blank title is reported whatever the content is |
| JournalEditor.Editor.constructor | src/components/journal/JournalEditor.tsx:28-31 | content, title and tags start from the initial values, the tag input empty |
| JournalEditor.Editor.SetNewTag | src/components/journal/JournalEditor.tsx:31 | only the tag input changes |
| JournalEditor.Editor.SetTitle | src/components/journal/JournalEditor.tsx:29 | only the title changes |
| JournalEditor.Editor.SetContent | src/components/journal/JournalEditor.tsx:28 | only the content changes |
| JournalEditor.Editor.HandleAddTag | src/components/journal/JournalEditor.tsx:33-38 | the tags become `AddTag`; the input is cleared only when the tag was added |
| JournalEditor.Editor.HandleRemoveTag | src/components/journal/JournalEditor.tsx:40-42 | the tags become `RemoveTag`; nothing else changes |
| JournalEditor.Editor.HandleSave | src/components/journal/JournalEditor.tsx:44-63 | the result is `Validate` of the current fields; a record is saved iff title and content are both non-blank |
| JournalFilters.ToggleTag | src/components/journal/JournalFilters.tsx:38-41 | the tag is removed if selected, keeping the other tags in order, and appended otherwise; no other tag changes |
| JournalFilters.ToggleKeepsDistinct | src/components/journal/JournalFilters.tsx:38-41 | the selection never holds a tag twice |
| JournalFilters.ToggleTwiceRestores | src/components/journal/JournalFilters.tsx:38-41 | selecting an unselected tag and deselecting it restores the selection |
| JournalFilters.Panel.constructor | src/components/journal/JournalFilters.tsx:23-25 | no search, no day, no tags |
| JournalFilters.Panel.HandleSearchChange | src/components/journal/JournalFilters.tsx:27-31 | only the search changes, and the full new triple is emitted |
| JournalFilters.Panel.HandleDateChange | src/components/journal/JournalFilters.tsx:33-36 | only the day changes, and the full new triple is emitted |
| JournalFilters.Panel.HandleToggleTag | src/components/journal/JournalFilters.tsx:38-45 | only the tags change, by `ToggleTag`, and the full new triple is emitted |
| JournalFilters.Panel.HandleClearFilters | src/components/journal/JournalFilters.tsx:47-52 | search "", no day, no tags, and that triple is emitted |
| JournalPage.AddEntry | src/pages/JournalPage.tsx:64-71 | one entry with the new id and the editor's data is prepended; the old list follows |
| JournalPage.UpdateEntry | src/pages/JournalPage.tsx:54-63 | the length and ids are kept; the edited entry takes the new title, content, tags and date, the others are unchanged |
| JournalPage.FlatTags | src/pages/JournalPage.tsx:45 | `flatMap`: holds exactly the tags of the entries |
| JournalPage.FlatTagsAppend | src/pages/JournalPage.tsx:45 | `flatMap` goes entry by entry: the tags of two lists joined are the tags of the first list followed by those of the second, and one entry gives its own tags in its own order |
| JournalPage.Dedup | src/pages/JournalPage.tsx:44-46 | `Array.from(new Set(s))` holds the same values without repeats |
| JournalPage.DedupPrefix | src/pages/JournalPage.tsx:44-46 | later values never disturb the first-occurrence order of earlier ones |
| JournalPage.FirstAt | src/pages/JournalPage.tsx:45 | the position of the first occurrence of a tag, before which the tag does not occur |
| JournalPage.FirstAtPrefix | src/pages/JournalPage.tsx:45 | appending tags never moves the first occurrence of a tag already present |
| JournalPage.DedupFirstOrder | src/pages/JournalPage.tsx:44-46 | `Array.from(new Set(...))` lists the values in the order of their first occurrences |
| JournalPage.AllTags | src/pages/JournalPage.tsx:44-46 | `allTags` never offers a tag twice |
| JournalPage.AllTagsSpec | src/pages/JournalPage.tsx:44-46 | `allTags` offers every tag of every entry, each once, nothing else, in the order in which the tags first appear in the entries |
| JournalPage.AddEntryTags | src/pages/JournalPage.tsx:64-71 | after adding an entry the tags on offer are its tags together with the old ones |
| JournalPage.FilterEntries | src/pages/JournalPage.tsx:87-105 | `filteredEntries` is no longer than the entries and shows only stored entries that pass the three tests |
| JournalPage.FilterEntriesSpec | src/pages/JournalPage.tsx:87-105 | an entry is shown iff it matches the search, the day and all selected tags; the order is kept |
| JournalPage.ClearedShowsAll | src/pages/JournalPage.tsx:87-105 | with the filters cleared every entry is shown |
| JournalPage.MoreTagsShowFewer | src/pages/JournalPage.tsx:101-102 | selecting one more tag can only hide entries |
| JournalPage.FilterIgnoresTimeAndCase | src/pages/JournalPage.tsx:89-98 | the day filter ignores the time of day, and the search ignores case |
| JournalPage.ReducersKeepUniqueIds | src/pages/JournalPage.tsx:54-85 | edit and delete keep the ids unique, and so does an add with a fresh id |
| JournalPage.DeleteEntry | src/pages/JournalPage.tsx:83-85 | deleting keeps exactly the entries with another id |
| JournalPage.DeleteSpec | src/pages/JournalPage.tsx:83-85 | delete keeps exactly the entries with another id, in order |
| JournalPage.EditorStart | src/pages/JournalPage.tsx:176-178 | the editor starts from the edited entry's content, title and tags, or from empty values |
| JournalPage.EditUnchangedRestampsDate | src/pages/JournalPage.tsx:54-63 | saving an opened entry unchanged gives it back with its date moved to the save time |
| JournalPage.Page.constructor | src/pages/JournalPage.tsx:22-36 | the stored entries, else none; nothing being edited; filters cleared; entries tab |
| JournalPage.Page.HandleSaveEntry | src/pages/JournalPage.tsx:48-73 | the edited entry is updated and edit mode ends, or an entry is added; the entries tab is shown |
| JournalPage.Page.HandleEdit | src/pages/JournalPage.tsx:75-81 | the entry with that id is opened in the write tab; an unknown id changes nothing |
| JournalPage.Page.HandleDelete | src/pages/JournalPage.tsx:83-85 | the entries become `DeleteEntry` of the old ones; nothing else changes |
| JournalPage.Page.HandleNewEntry | src/pages/JournalPage.tsx:112 | nothing is being edited and the write tab is shown |
| JournalPage.Page.SetFilters | src/pages/JournalPage.tsx:139 | the filters take the emitted triple; nothing else changes |
| JournalEntryCard.ContentPreview | src/components/journal/JournalEntryCard.tsx:22-25 | text within the limit is unchanged; longer text is its first `maxLength` characters followed by "..." |
| JournalEntryCard.PreviewBounds | src/components/journal/JournalEntryCard.tsx:22-25 | a preview is at most `maxLength` + 3 long and starts with as much of the text as fits |
| JournalEntryCard.Join | src/components/journal/JournalEntryCard.tsx:30 | `join` starts with the first part and ends with the last |
| JournalEntryCard.JoinLength | src/components/journal/JournalEntryCard.tsx:30 | a join is as long as its parts together plus one separator between each two, and joining nothing gives "" |
| JournalEntryCard.JoinSteps | src/components/journal/JournalEntryCard.tsx:30 | `join` of one part is that part, and each further part comes after one more separator |
| JournalEntryCard.JoinPrefix | src/components/journal/JournalEntryCard.tsx:30 | joining the first parts gives a prefix of joining them all |
| JournalEntryCard.ExportText | src/components/journal/JournalEntryCard.tsx:28-32 | the export starts with the "# title" line and ends with a blank line and the content |
| JournalEntryCard.ExportHasTagLine | src/components/journal/JournalEntryCard.tsx:28-32 | after the heading, date and "Tags: " comes exactly the tags joined with ", ", a blank line and the content |
| JournalEntryCard.Hyphenate | src/components/journal/JournalEntryCard.tsx:39 | `replace(/\s+/g, "-")` leaves no whitespace, never lengthens, and starts with "-" exactly where the text starts with whitespace; the lemmas below show it replaces each whitespace run with exactly one "-" |
| JournalEntryCard.HyphenateNoSpace | src/components/journal/JournalEntryCard.tsx:39 | text without whitespace is unchanged |
| JournalEntryCard.HyphenateCons | src/components/journal/JournalEntryCard.tsx:39 | a non-space first character is kept and a leading whitespace run becomes one "-" before the rest |
| JournalEntryCard.HyphenateSpaceRun | src/components/journal/JournalEntryCard.tsx:39 | a run made only of whitespace becomes exactly one "-" |
| JournalEntryCard.HyphenateAppend | src/components/journal/JournalEntryCard.tsx:39 | text can be hyphenated piece by piece when no whitespace run straddles the cut |
| JournalEntryCard.HyphenateExample | src/components/journal/JournalEntryCard.tsx:39 | "My  day", with two spaces, becomes "My-day" |
| JournalEntryCard.HyphenateNoDoubleHyphen | src/components/journal/JournalEntryCard.tsx:39 | in text without hyphens of its own, the result never holds two hyphens in a row |
| JournalEntryCard.HyphenateKeepsLower | src/components/journal/JournalEntryCard.tsx:39 | hyphenating introduces no capital letter |
| JournalEntryCard.FileName | src/components/journal/JournalEntryCard.tsx:39 | the file name is the day, "-", the lower-cased title with each whitespace run replaced by one hyphen, and ".md" |
| JournalEntryCard.FileNameSlug | src/components/journal/JournalEntryCard.tsx:39 | the title part of the name holds no whitespace and no capital, and is the title itself when that is already lower case without whitespace |
| YearlyGoalsCard.AddGoal | src/components/planning/YearlyGoalsCard.tsx:35-48 | blank text adds nothing; otherwise one uncompleted goal with the text as typed and the category, or "General", is appended |
| YearlyGoalsCard.ToggleGoal | src/components/planning/YearlyGoalsCard.tsx:50-56 | only the goals with that id flip `completed`; the length is kept |
| YearlyGoalsCard.UpdateGoalText | src/components/planning/YearlyGoalsCard.tsx:62-68 | only the text of the goals with that id changes |
| YearlyGoalsCard.UpdateGoalCategory | src/components/planning/YearlyGoalsCard.tsx:70-76 | only the category of the goals with that id changes |
| YearlyGoalsCard.ToggleTwiceRestores | src/components/planning/YearlyGoalsCard.tsx:50-56 | toggling twice restores the goals, and an unknown id changes nothing |
| YearlyGoalsCard.RemoveGoal | src/components/planning/YearlyGoalsCard.tsx:58-60 | removing keeps exactly the goals with another id |
| YearlyGoalsCard.RemoveSpec | src/components/planning/YearlyGoalsCard.tsx:58-60 | removal drops exactly the goals with that id, keeps the order, and a second removal changes nothing |
| YearlyGoalsCard.AddThenRemove | src/components/planning/YearlyGoalsCard.tsx:35-48 | a goal added with a fresh id can be removed again to give the old list, and the ids stay unique |
| YearlyGoalsCard.EditsKeepUniqueIds | src/components/planning/YearlyGoalsCard.tsx:50-76 | toggle, remove and both field edits keep the ids unique |
| YearlyGoalsCard.Card.constructor | src/components/planning/YearlyGoalsCard.tsx:25-28 | not editing, empty inputs, the buffer holds the page's goals |
| YearlyGoalsCard.Card.SetNewGoal | src/components/planning/YearlyGoalsCard.tsx:26-27 | only the two inputs change |
| YearlyGoalsCard.Card.HandleAddGoal | src/components/planning/YearlyGoalsCard.tsx:35-48 | the buffer becomes `AddGoal`; the inputs are cleared only when a goal was added |
| YearlyGoalsCard.Card.HandleToggleGoal | src/components/planning/YearlyGoalsCard.tsx:50-56 | the buffer becomes `ToggleGoal`; nothing else changes |
| YearlyGoalsCard.Card.HandleRemoveGoal | src/components/planning/YearlyGoalsCard.tsx:58-60 | the buffer becomes `RemoveGoal`; nothing else changes |
| YearlyGoalsCard.Card.HandleUpdateGoalText | src/components/planning/YearlyGoalsCard.tsx:62-68 | the buffer becomes `UpdateGoalText`; nothing else changes |
| YearlyGoalsCard.Card.HandleUpdateGoalCategory | src/components/planning/YearlyGoalsCard.tsx:70-76 | the buffer becomes `UpdateGoalCategory`; nothing else changes |
| YearlyGoalsCard.Card.HandleEditOrSave | src/components/planning/YearlyGoalsCard.tsx:85 | saving hands the buffered goals to the page and leaves edit mode; otherwise edit mode starts and nothing is handed |
| MonthlyPlanCard.MonthsDistinct | src/components/planning/MonthlyPlanCard.tsx:35-38 | twelve month names, no two alike |
| MonthlyPlanCard.IndexIn | src/components/planning/MonthlyPlanCard.tsx:40 | the position of the month, or -1 exactly when the name is not a month |
| MonthlyPlanCard.NextIn | src/components/planning/MonthlyPlanCard.tsx:40-41 | the next month is always one of the twelve, and the first when the month is not found |
| MonthlyPlanCard.NextInAt | src/components/planning/MonthlyPlanCard.tsx:40-41 | in twelve distinct names each is followed by the next, the last by the first |
| MonthlyPlanCard.NextInSteps | src/components/planning/MonthlyPlanCard.tsx:41 | stepping k times from a name lands k places further round the cycle |
| MonthlyPlanCard.WholeYears | src/components/planning/MonthlyPlanCard.tsx:41 | a multiple of twelve steps returns to the start |
| MonthlyPlanCard.NextMonth | src/components/planning/MonthlyPlanCard.tsx:40-41 | the next month is always a month name, and "January" when the month is not a month name |
| MonthlyPlanCard.NextMonthAt | src/components/planning/MonthlyPlanCard.tsx:40-41 | each month is followed by the next one, and December by January |
| MonthlyPlanCard.NextOfUnknownIsJanuary | src/components/planning/MonthlyPlanCard.tsx:40-41 | a name that is not a month is followed by January, so the next month is always a month |
| MonthlyPlanCard.TwelveStepsReturn | src/components/planning/MonthlyPlanCard.tsx:41 | twelve steps from any month return to it |
| MonthlyPlanCard.SetField | src/components/planning/MonthlyPlanCard.tsx:76-81 | the edited field takes the text and the other two are unchanged |
| MonthlyPlanCard.SetFieldLaws | src/components/planning/MonthlyPlanCard.tsx:101-106 | writing a field's own value changes nothing, and of two writes to a field the last wins |
| MonthlyPlanCard.Card.constructor | src/components/planning/MonthlyPlanCard.tsx:27-28 | not editing; the buffer holds the plan |
| MonthlyPlanCard.Card.HandleFieldChange | src/components/planning/MonthlyPlanCard.tsx:126-131 | the buffer becomes `SetField` of the old one |
| MonthlyPlanCard.Card.HandleEditOrSave | src/components/planning/MonthlyPlanCard.tsx:30-33 | saving hands the edited plan to the page and leaves edit mode; otherwise edit mode starts |
| PlanningPage.DefaultPlanners | src/pages/PlanningPage.tsx:35-38 | this year and the next, in that order, with no goals |
| PlanningPage.DefaultMonthlyPlans | src/pages/PlanningPage.tsx:54-61 | the loop builds exactly the twelve month keys, each holding an empty plan |
| PlanningPage.UpdateYearlyGoals | src/pages/PlanningPage.tsx:76-83 | planners of that year get the goals; years, length and the other planners are kept |
| PlanningPage.UpdateMonthlyPlan | src/pages/PlanningPage.tsx:86-92 | that month holds the plan; every other key and plan is kept |
| PlanningPage.AvailableYears | src/pages/PlanningPage.tsx:100 | the planners' years in planner order |
| PlanningPage.SelectedPlanner | src/pages/PlanningPage.tsx:95-97 | the planner passed to the goals card is for the selected year: a stored one, or an empty one |
| PlanningPage.SelectedPlannerSpec | src/pages/PlanningPage.tsx:95-97 | the planner passed to the goals card is for the selected year: the first stored one, else an empty one |
| PlanningPage.UpdateUnknownYearChangesNothing | src/pages/PlanningPage.tsx:76-81 | saving goals for a year without a planner changes nothing, so the fallback passed to the card stays empty |
| PlanningPage.UpdateThenSelect | src/pages/PlanningPage.tsx:76-97 | saving goals for a stored year makes them the goals passed to the card for that year, and keeps the years |
| PlanningPage.SelectOtherYear | src/pages/PlanningPage.tsx:76-97 | saving goals for one year never changes the planner passed to the card for another year |
| PlanningPage.UnkeyedSwitchCopiesGoals | src/pages/PlanningPage.tsx:136-140 | a card mounted on a year holding `[g]` and saved after a switch to a year holding nothing stores `[g]` there |
| PlanningPage.KeyedSwitchSaveKeepsGoals | src/pages/PlanningPage.tsx:136-140 | a card started from the selected year's goals and saved untouched leaves the planner of every year as it was |
| PlanningPage.UpdateKeepsMonthKeys | src/pages/PlanningPage.tsx:86-92 | updating a month keeps exactly the twelve month keys |
| PlanningPage.Page.constructor | src/pages/PlanningPage.tsx:28-67 | the stored planners and plans, else the defaults; the current year selected; a goals card, not editing, seeded with that year's goals |
| PlanningPage.Page.HandleUpdateYearlyGoals | src/pages/PlanningPage.tsx:76-83 | the planners become `UpdateYearlyGoals`; nothing else changes |
| PlanningPage.Page.HandleUpdateMonthlyPlan | src/pages/PlanningPage.tsx:86-92 | the plans become `UpdateMonthlyPlan`; nothing else changes |
| PlanningPage.Page.SetSelectedYear | src/pages/PlanningPage.tsx:67 | only the selected year changes; the goals card, with its buffer, is kept |
| PlanningPage.Page.SetSelectedYearKeyed | src/pages/PlanningPage.tsx:136-140 | the corrected switch: a new goals card, not editing, seeded with the goals of the newly selected year |
| PlanningPage.Page.HandleGoalsEditOrSave | src/pages/PlanningPage.tsx:136-140 | Edit starts editing; Save hands the card's buffer to `UpdateYearlyGoals` for the selected year; the buffer is kept |
| PlanningPage.UnkeyedSwitchScenario | src/pages/PlanningPage.tsx:136-140 | mount on `y` holding `[g]`, switch to `y + 1` holding nothing, Edit, Save: `y + 1` then holds `[g]` |
| PlanningPage.KeyedSwitchScenario | src/pages/PlanningPage.tsx:136-140 | with the keyed card the same steps leave the planner of every year as it was |
| VisionTypes.CompletedCount | src/components/vision/LifeAreaCard.tsx:36 | never more than the number of milestones |
| LifeAreaCard.Progress | src/components/vision/LifeAreaCard.tsx:36-39 | the progress never exceeds 100 and is 0 without milestones |
| LifeAreaCard.ProgressSpec | src/components/vision/LifeAreaCard.tsx:36-39 | progress is 0 with no milestones, else the nearest whole percentage of completed ones; it stays in 0..100, is 100 when all are done and 0 when none are |
| LifeAreaCard.ToggleMilestone | src/components/vision/LifeAreaCard.tsx:49-54 | only that year's milestones flip `completed`; count and order are kept |
| LifeAreaCard.UpdateMilestoneText | src/components/vision/LifeAreaCard.tsx:56-61 | only the text of that year's milestones changes; years and flags are kept |
| LifeAreaCard.ToggleTwiceRestores | src/components/vision/LifeAreaCard.tsx:49-54 | toggling a year twice restores the milestones |
| LifeAreaCard.TextEditKeepsProgress | src/components/vision/LifeAreaCard.tsx:56-61 | a text edit never moves the progress |
| LifeAreaCard.CompletingCountsOneMore | src/components/vision/LifeAreaCard.tsx:49-54 | with one milestone per year, completing an open one counts exactly one more and never lowers the progress |
| LifeAreaCard.Card.constructor | src/components/vision/LifeAreaCard.tsx:32-34 | not editing; the buffers hold the area's vision and milestones |
| LifeAreaCard.Card.SetVision | src/components/vision/LifeAreaCard.tsx:33 | only the buffered vision changes |
| LifeAreaCard.Card.HandleToggleMilestone | src/components/vision/LifeAreaCard.tsx:49-54 | the buffer becomes `ToggleMilestone`; the bar keeps showing the saved milestones' progress |
| LifeAreaCard.Card.HandleUpdateMilestoneText | src/components/vision/LifeAreaCard.tsx:56-61 | the buffer becomes `UpdateMilestoneText`; nothing else changes |
| LifeAreaCard.Card.HandleEditOrSave | src/components/vision/LifeAreaCard.tsx:41-47 | saving hands the buffered vision and milestones to the page and leaves edit mode; otherwise edit mode starts |
| VisionPage.DefaultMilestones | src/pages/VisionPage.tsx:25-29 | ten milestones for years 1..10, empty and open |
| VisionPage.DefaultLifeAreas | src/pages/VisionPage.tsx:19-104 | seven areas, Health to Leisure in order, with their descriptions and colours, an empty vision and the default milestones |
| VisionPage.UpdateLifeArea | src/pages/VisionPage.tsx:120-125 | the area with that id takes the new vision and milestones; ids, names, descriptions, colours and the other areas are kept |
| VisionPage.TotalMilestones | src/pages/VisionPage.tsx:130-133 | the total is 0 exactly when no area has a milestone |
| VisionPage.CompletedMilestones | src/pages/VisionPage.tsx:135-139 | never more milestones are completed than exist |
| VisionPage.OverallProgress | src/pages/VisionPage.tsx:129-144 | the overall progress never exceeds 100 |
| VisionPage.CompletedAtMostTotal | src/pages/VisionPage.tsx:131-140 | never more completed milestones than milestones |
| VisionPage.OverallProgressBounds | src/pages/VisionPage.tsx:130-145 | overall progress is in 0..100; 0 with no milestones or none completed; 100 when all are completed |
| VisionPage.UniformTotals | src/pages/VisionPage.tsx:131-140 | areas with the same milestones total that list's counts times the number of areas |
| VisionPage.DefaultMilestonesOpen | src/pages/VisionPage.tsx:25-29 | the ten default milestones are all open |
| VisionPage.DefaultsSpec | src/pages/VisionPage.tsx:19-104 | the default areas hold 70 milestones, none completed, for an overall progress of 0 |
| VisionPage.UpdateUnknownId | src/pages/VisionPage.tsx:120-125 | an id no area has changes nothing |
| VisionPage.Page.constructor | src/pages/VisionPage.tsx:110-112 | the stored areas, else the defaults |
| VisionPage.Page.HandleUpdateLifeArea | src/pages/VisionPage.tsx:120-125 | the areas become `UpdateLifeArea` of the old ones |
| VideoTypes.WatchedCount | src/components/videos/VideoPlaylistList.tsx:47 | never more than the number of videos |
| VideoTypes.WatchedProgress | src/components/videos/VideoPlaylistList.tsx:47-50 | the progress never exceeds 100 and is 0 without videos |
| VideoTypes.WatchedProgressBounds | src/components/videos/VideoPlaylistList.tsx:48-50 | a recomputed progress is in 0..100, and 0 for an empty playlist |
| VideoTypes.Store.constructor | src/components/videos/VideoPlaylistList.tsx:28-34 | the stored array, or the empty array when nothing is stored |
| VideoPlaylistList.ToggleVideos | src/components/videos/VideoPlaylistList.tsx:39-44 | only the videos with that id flip `watched`; count and order are kept |
| VideoPlaylistList.ToggleInPlaylist | src/components/videos/VideoPlaylistList.tsx:46-57 | the playlist's progress is recomputed to match its new videos and its update time is the current time; its identity is kept |
| VideoPlaylistList.ToggleVideoWatched | src/components/videos/VideoPlaylistList.tsx:36-60 | only playlists with that id change; the length is kept |
| VideoPlaylistList.ToggleSpec | src/components/videos/VideoPlaylistList.tsx:37-60 | accurate progress stays accurate, every video stays in place, and an unknown playlist id changes nothing |
| VideoPlaylistList.ToggleTwiceRestores | src/components/videos/VideoPlaylistList.tsx:39-44 | toggling a video twice restores every watched flag, and the progress of accurate playlists |
| VideoPlaylistList.WatchingRaisesProgress | src/components/videos/VideoPlaylistList.tsx:47-50 | with one video per id, watching an unwatched video counts one more and never lowers the progress |
| VideoPlaylistList.DeletePlaylist | src/components/videos/VideoPlaylistList.tsx:66-67 | deleting keeps exactly the playlists with another id |
| VideoPlaylistList.DeleteSpec | src/components/videos/VideoPlaylistList.tsx:66-67 | delete keeps exactly the playlists with another id, in order, and keeps progress accurate |
| VideoPlaylistList.PlaylistList.constructor | src/components/videos/VideoPlaylistList.tsx:28-34 | the list shows the stored playlists |
| VideoPlaylistList.PlaylistList.HandleToggleVideoWatched | src/components/videos/VideoPlaylistList.tsx:36-64 | the list becomes `ToggleVideoWatched` of the old one and the store holds the same list |
| VideoPlaylistList.PlaylistList.HandleDeletePlaylist | src/components/videos/VideoPlaylistList.tsx:66-75 | the list becomes `DeletePlaylist` of the old one and the store holds the same list |
| ManualVideoForm.WithVideo | src/components/videos/ManualVideoForm.tsx:73-79 | the video is appended, the update time is the current time, and the recomputed progress matches the videos |
| ManualVideoForm.AddVideo | src/components/videos/ManualVideoForm.tsx:55-79 | no result exactly when no playlist has that id; otherwise the length is kept |
| ManualVideoForm.AddVideoSpec | src/components/videos/ManualVideoForm.tsx:55-79 | exactly the first playlist with that id gains the video; the others are unchanged; ids, unique ids and accurate progress are kept |
| ManualVideoForm.AddUnwatchedNeverRaises | src/components/videos/ManualVideoForm.tsx:64-79 | adding an unwatched video keeps the watched count and never raises the progress |
| ManualVideoForm.CanSubmitSpec | src/components/videos/ManualVideoForm.tsx:162 | the button is enabled iff a playlist is chosen and title and URL each hold a non-space character |
| ManualVideoForm.Form.constructor | src/components/videos/ManualVideoForm.tsx:24-34 | empty inputs, nothing in flight, the stored playlists offered |
| ManualVideoForm.Form.HandleAddVideo | src/components/videos/ManualVideoForm.tsx:36-100 | no playlist chosen: a notice and nothing changes; unknown playlist: the error notice, the store and inputs unchanged; otherwise the store becomes `AddVideo` and the inputs are cleared |
| YoutubePlaylistSync.BeforeFirst | src/components/videos/YoutubePlaylistSync.tsx:34 | `split(sep)[0]` is a prefix without the separator, ending at the end or at the first separator |
| YoutubePlaylistSync.BeforeFirstChar | src/components/videos/YoutubePlaylistSync.tsx:34 | splitting at one character leaves that character out of the first piece |
| YoutubePlaylistSync.ListId | src/components/videos/YoutubePlaylistSync.tsx:34 | the id is a prefix of the text after the marker, holds no "&" and no second marker, and ends at the end, at an "&" or at a second marker |
| YoutubePlaylistSync.YoutubeId | src/components/videos/YoutubePlaylistSync.tsx:33-35 | with "?list=" in the URL, the id is the text after the first marker up to "&", a second marker or the end, and holds neither; otherwise "PL" and the random suffix |
| YoutubePlaylistSync.YoutubeIdExample | src/components/videos/YoutubePlaylistSync.tsx:33-34 | "y.com/p?list=PLa&i=2" yields "PLa" |
| YoutubePlaylistSync.MockVideos | src/components/videos/YoutubePlaylistSync.tsx:37-45 | five videos with the given ids, the first two watched |
| YoutubePlaylistSync.MockProgressIs40 | src/components/videos/YoutubePlaylistSync.tsx:57 | two of the five mock videos are watched, so their progress is 40, the stored value |
| YoutubePlaylistSync.SyncPlaylists | src/components/videos/YoutubePlaylistSync.tsx:60-81 | an unknown id appends one playlist; a known id keeps the length; either way a playlist with that id holds the new videos and time |
| YoutubePlaylistSync.SyncSpec | src/components/videos/YoutubePlaylistSync.tsx:65-76 | a new playlist is a YouTube one with accurate progress; a re-sync changes only that playlist's videos and update time |
| YoutubePlaylistSync.SyncKeepsUniqueIds | src/components/videos/YoutubePlaylistSync.tsx:61-81 | a sync never creates a second playlist with the same id |
| YoutubePlaylistSync.ResyncProgressStale | src/components/videos/YoutubePlaylistSync.tsx:66-70 | a re-sync keeps the stored progress, which matches the new videos exactly when it was already 40 |
| YoutubePlaylistSync.CanSyncSpec | src/components/videos/YoutubePlaylistSync.tsx:119 | the button is enabled iff the URL holds a non-space character |
| YoutubePlaylistSync.Sync.constructor | src/components/videos/YoutubePlaylistSync.tsx:16-17 | an empty URL and nothing in flight |
| YoutubePlaylistSync.Sync.SetPlaylistUrl | src/components/videos/YoutubePlaylistSync.tsx:16 | only the URL changes |
| YoutubePlaylistSync.Sync.HandleSyncPlaylist | src/components/videos/YoutubePlaylistSync.tsx:19-85 | the store becomes `SyncPlaylists` with the extracted id and the mock videos; the URL is cleared |
| AddVideoPlaylistForm.CreatePlaylist | src/components/videos/AddVideoPlaylistForm.tsx:32-44 | one playlist with the new id, the title and no videos is appended; the old playlists are unchanged |
| AddVideoPlaylistForm.CreateSpec | src/components/videos/AddVideoPlaylistForm.tsx:36-40 | the new playlist's progress of 0 matches its empty video list, so progress stays accurate; a fresh id keeps the ids unique |
| AddVideoPlaylistForm.CanCreateSpec | src/components/videos/AddVideoPlaylistForm.tsx:98 | the button is enabled iff the title holds a non-space character |
| AddVideoPlaylistForm.Form.constructor | src/components/videos/AddVideoPlaylistForm.tsx:18-20 | empty title and description, nothing in flight |
| AddVideoPlaylistForm.Form.HandleCreatePlaylist | src/components/videos/AddVideoPlaylistForm.tsx:22-63 | the store becomes `CreatePlaylist` of the old one; title and description are cleared |
| TodayTasks.InitialTasks | src/components/dashboard/TodayTasks.tsx:9-14 | four tasks with ids 1..4, none completed |
| TodayTasks.ToggleComplete | src/components/dashboard/TodayTasks.tsx:19-25 | only tasks with that id flip `completed`; length and order are kept |
| TodayTasks.AllCompleted | src/components/dashboard/TodayTasks.tsx:79 | `every`: true iff every task is completed |
| TodayTasks.PriorityColor | src/components/dashboard/TodayTasks.tsx:27-38 | a colour for "high", "medium" and "low", and "" for anything else |
| TodayTasks.InitialSpec | src/components/dashboard/TodayTasks.tsx:9-14 | at first the banner is hidden and every task has a colour |
| TodayTasks.ToggleSpec | src/components/dashboard/TodayTasks.tsx:19-25 | toggling twice restores the list, and a toggle changes only the flag |
| TodayTasks.CompletingLastOpenTask | src/components/dashboard/TodayTasks.tsx:79 | with distinct ids, ticking off the only open task shows the banner |
| TodayTasks.Card.constructor | src/components/dashboard/TodayTasks.tsx:17 | the card starts with the initial tasks |
| TodayTasks.Card.HandleToggleComplete | src/components/dashboard/TodayTasks.tsx:19-25 | tasks become `ToggleComplete` of the old ones |

## Left out

- Generated values are passed in whole: the YouTube sync takes its five mock video ids and the vision page its seven area ids as parameters.
- Browser storage and JSON: `localStorage` reads and writes and `JSON.parse`/`stringify` are not modelled as I/O. A page's stored value is a constructor parameter (`Option`: absent or parsed). The shared `videoPlaylists` entry is the `VideoTypes.Store` object. The effects that write page state back after every change are not modelled. Parse errors, and the `catch` branches they lead to, are left out.
- Ids, random values and clocks are parameters. This covers `uuidv4`, `Math.random` (goal ids, the YouTube fallback suffix) and `new Date()`. Fresh ids are a lemma precondition where uniqueness is claimed. A handler that reads the clock several times gets one `now` for all of those reads.
- Common.RoundPercent: `Math.round` on floating point is modelled as exact rounding of the rational 100·w/n, halves up. The two agree for the small counts a page holds, but floating-point error is not modelled.
- Strings are ASCII. `toLowerCase` folds only A–Z. `trim` and `\s` cover space, tab, newline, carriage return, vertical tab and form feed, not the Unicode spaces.
- Dates: `date-fns` `format` and locale month names are not modelled. The journal export and file name take the formatted date as text. A `Date` is a calendar day plus the time within it, and the day filter compares the day only.
- Timers, asynchronous flow and notifications are left out: the one-second sync delay, the `await`s and the toasts. `isSubmitting` and `isSyncing` are plain flags set before the work and cleared after it.
- The journal card's file download is left out: the Blob, the object URL and the anchor click.
- The callbacks that tell a parent page to reload (`onVideoAdded`, `onPlaylistAdded`, `onPlaylistsAdded`) are left out.
- Rendering is left out. This covers JSX, the dialogs and which tab or form is visible (`isFormVisible`, expanded playlists). The disabled states of the submit buttons are the predicates `CanSubmit`, `CanCreate` and `CanSync`, not a guard inside the handlers, because the handlers do not check them either.
- Presentational files are not part of this model: the filter bar of the tasks page, layout, sidebar, routing, login and auth, the dashboard quote, mood tracker and weekly summary, and the video tracking page.
- TaskForm.Form.ApplyInitialValues: when React runs the effect is not modelled. In create mode the tasks page passes a fresh `{}` on each of its renders (src/pages/TasksPage.tsx:140), so the effect also runs after a search, filter change or tick on the page. A half-typed new task is then replaced by the empty form. The model has no page renders, so it does not show that loss.
- Repeated next-month steps (`NextInN`, `NextMonthN`) exist only to state that twelve steps return to the start. The card itself computes a single step.

## Findings

| source | as written | input that shows it | evidently intended | confidence | as-written member | corrected member |
|---|---|---|---|---|---|---|
| src/pages/PlanningPage.tsx:136-140 | the goals card is rendered without a `key`, and its buffer is seeded only at mount (src/components/planning/YearlyGoalsCard.tsx:28), so it keeps the goals of the first year after a year switch | planners `[(y, [g]), (y + 1, [])]`, mounted on `y`, switch to `y + 1`, Edit, Save: `y + 1` then holds `[g]` | the card shows and saves the goals of the selected year, as with `key={selectedYear}` | not executed | PlanningPage.UnkeyedSwitchScenario | PlanningPage.KeyedSwitchScenario |
