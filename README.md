# NEXUS second brain — a verified model of its core logic

NEXUS is a single-page "second brain". It keeps notes (with folders, pins, tags and
`[[wiki-link]]` markers), tasks with three statuses and a status filter, daily or weekly
habits with streaks, quizzes, decisions and an identity profile. The top-level shell holds
the notes, tasks, habits, quizzes, identity profile and notifications; each page derives what
it shows from those or hands back a new copy of them. The pages keep their own form, search
and session state (the palette's query and highlight, the quiz session, the forms and the AI
recommendations), and the decision journal receives its entries from a caller that the shell
does not render. This project models, in Dafny, the logic those components compute:

- the link graph behind the knowledge map, including the exact semantics of the global regular
  expression `\[\[(.*?)\]\]` driven by `exec` and `lastIndex`;
- the habit log toggle, the streak walk, habit creation and the 30-day completion rate;
- the note editor's markdown renderer (escape, then a line-by-line state machine for tables and
  lists) and the toolbar's text splice;
- the dashboard figures, the vault's filter and pinned-first ordering, the command palette's
  item list and keyboard handling, quiz sessions, the task list and its filter, the identity lists, the
  decision journal and the normalisation of AI recommendations;
- the shell's note, import and notification handlers.

Pure derivations are Dafny functions with lemmas about them. Code that changes state step by
step is imperative Dafny:

- the `exec` loop, the graph build and the streak walk are methods with loop invariants, each
  proved equal to a specification function;
- the markdown loop is also such a method;
- the shell, the palette and the quiz session are classes whose methods state their whole new
  state.

Modules: `Types` (the records), `Seqs` and `Strings` (the JavaScript array and string
built-ins the code relies on), and then one module per source file.

Conventions:

- Clock readings (`Date.now()`, today's date) and fresh ids (`Math.random().toString(36)`) are
  parameters.
- Days are integers (day numbers).
- JavaScript numbers that stay whole are `int`s.
- The palette index is the one place where `NaN` can arise; that is modelled explicitly.

## Model

| member | source | states |
|---|---|---|
| KnowledgeGraph.CloseFrom | components/KnowledgeGraph.tsx:28 | the lazy group followed by `]]` ends at the first `]]` from k with no line terminator before it; none found means every later `]]` has a line terminator in between |
| KnowledgeGraph.NextMatch | components/KnowledgeGraph.tsx:30 | `exec` from `lastIndex` p: a match lies at or after p, with its capture and closing `]]` inside the string |
| KnowledgeGraph.NextMatchWellFormed | components/KnowledgeGraph.tsx:28-30 | the reported match starts with `[[`, ends with `]]` and captures no line terminator and no earlier `]]` |
| KnowledgeGraph.NextMatchLeftmost | components/KnowledgeGraph.tsx:28-30 | the match is the leftmost position from p where the pattern matches; no match means the pattern matches nowhere from p |
| KnowledgeGraph.ScanShape | components/KnowledgeGraph.tsx:30-36 | successive global matches are well formed, start after where the scan began and never overlap |
| KnowledgeGraph.CapturesPerMatch | components/KnowledgeGraph.tsx:30-31 | one capture per match of the global scan, in order |
| KnowledgeGraph.CaptureShape | components/KnowledgeGraph.tsx:28-31 | no capture holds a line terminator or `]]` |
| KnowledgeGraph.MatchCapturePlain | components/KnowledgeGraph.tsx:28 | a well-formed match captures plain text |
| KnowledgeGraph.MatchesDisjoint | components/KnowledgeGraph.tsx:30 | any two matches of one content are ordered and disjoint |
| KnowledgeGraph.FindClose | components/KnowledgeGraph.tsx:28 | the imperative search for the closing `]]` equals CloseFrom |
| KnowledgeGraph.Exec | components/KnowledgeGraph.tsx:30 | the imperative `exec` loop over start positions equals NextMatch |
| KnowledgeGraph.Resolve | components/KnowledgeGraph.tsx:31 | `find` by title: the first note with that title, or none when no note has it |
| KnowledgeGraph.LinksFor | components/KnowledgeGraph.tsx:31-35 | a note contributes at most one edge per marker |
| KnowledgeGraph.Ids | components/KnowledgeGraph.tsx:20 | the node ids are the note ids, in order |
| KnowledgeGraph.DegreeAppend | components/KnowledgeGraph.tsx:33-34 | a new edge adds one to its source's count and one to its target's (two for a self-link) |
| KnowledgeGraph.Bump | components/KnowledgeGraph.tsx:33-34 | `set(id, (get(id) \|\| 0) + 1)`: that key goes up by one and no other key changes |
| KnowledgeGraph.BumpBoth | components/KnowledgeGraph.tsx:32-35 | pushing an edge and bumping both its ends keeps every count equal to its number of edge ends |
| KnowledgeGraph.LinkStep | components/KnowledgeGraph.tsx:30-36 | one `exec` step: the found capture's edge, then the edges from after the match |
| KnowledgeGraph.AddLink | components/KnowledgeGraph.tsx:31-35 | the loop body appends the capture's edge, if it resolves, and keeps the counts matching the edges |
| KnowledgeGraph.InitNodes | components/KnowledgeGraph.tsx:20-24 | one node per note (id, title, folder), and every note id counted at 0 |
| KnowledgeGraph.LinkNote | components/KnowledgeGraph.tsx:29-37 | the `while (exec)` loop over one note appends exactly that note's edges and keeps the counts matching |
| KnowledgeGraph.BuildGraph | components/KnowledgeGraph.tsx:20-38 | the nodes are the notes, the links equal Edges(notes), and each note's count is its number of edge ends |
| KnowledgeGraph.EdgeEndsAreNotes | components/KnowledgeGraph.tsx:31-32 | every edge runs between existing note ids |
| KnowledgeGraph.LinksForEnds | components/KnowledgeGraph.tsx:31-32 | a note's edges leave that note and reach an existing note |
| KnowledgeGraph.HandshakeSum | components/KnowledgeGraph.tsx:32-35 | over distinct ids covering all edge ends, the counts sum to twice the number of edges |
| KnowledgeGraph.DegreeSum | components/KnowledgeGraph.tsx:20-38 | over the distinct note ids, the counts sum to twice the number of edges |
| KnowledgeGraph.LinksForCount | components/KnowledgeGraph.tsx:31-32 | a note yields exactly one edge per capture naming some note |
| KnowledgeGraph.EdgeCount | components/KnowledgeGraph.tsx:26-38 | the edge total is the number of resolving markers over all notes |
| KnowledgeGraph.SelfLinkAddsTwo | components/KnowledgeGraph.tsx:33-34 | a self-reference raises its note's count by two |
| KnowledgeGraph.RenameDropsLink | components/KnowledgeGraph.tsx:31 | once no note keeps the old title, a marker for it makes no edge |
| KnowledgeGraph.RenameAddsLink | components/KnowledgeGraph.tsx:31 | after a rename to t, a marker `[[t]]` reaches the renamed note when no earlier note has that title |
| KnowledgeGraph.SkipPlain | components/KnowledgeGraph.tsx:30 | a start that is not `[` is skipped |
| KnowledgeGraph.ExampleFirstMatch | components/KnowledgeGraph.tsx:30 | the first `exec` on "See [[B]] and [[B]]" finds the marker at 4 |
| KnowledgeGraph.ExampleSecondMatch | components/KnowledgeGraph.tsx:30 | the second `exec`, from `lastIndex` 9, finds the marker at 14 |
| KnowledgeGraph.ExampleCaptures | components/KnowledgeGraph.tsx:30-31 | that content captures "B" twice |
| KnowledgeGraph.ExampleNoCaptures | components/KnowledgeGraph.tsx:30 | text without markers captures nothing |
| KnowledgeGraph.NoMatchWithoutOpen | components/KnowledgeGraph.tsx:28-30 | text without `[` has no match |
| KnowledgeGraph.ExampleEdges | components/KnowledgeGraph.tsx:26-38 | two markers to one note give two parallel edges |
| KnowledgeGraph.ExampleCounts | components/KnowledgeGraph.tsx:32-35 | and each of the two notes then counts 2 |
| KnowledgeGraph.CapturesShift | components/KnowledgeGraph.tsx:28-31 | a scan that starts inside the text after a prefix finds exactly the captures of that text alone, since matching only looks ahead |
| KnowledgeGraph.SkipFree | components/KnowledgeGraph.tsx:28-30 | a prefix with no `[` adds no capture |
| KnowledgeGraph.SkipBracket | components/KnowledgeGraph.tsx:28-30 | a single `[` not followed by another `[`, like a checklist box, adds no capture |
| KnowledgeGraph.TakeMarker | components/KnowledgeGraph.tsx:28-31 | a leading `[[t]]`, with `t` free of `]` and line terminators, adds exactly the capture `t` before the rest's captures |
| KnowledgeGraph.SeedCaptures | constants.tsx:8-17 | the vision note captures only "Development Roadmap", the roadmap note only "Project NEXUS Vision"; the `[x]` and `[ ]` boxes capture nothing |
| KnowledgeGraph.SeedEdges | constants.tsx:4-23 | the seed vault's graph has exactly the edges (1,2) and (2,1), in that order |
| KnowledgeGraph.SeedCounts | constants.tsx:4-23 | both seed notes count 2, so both circles have radius 10 |
| KnowledgeGraph.NodeRadius | components/KnowledgeGraph.tsx:73 | the radius `6 + 2·count` is at least 6 and even; RadiusGrows states how it grows |
| KnowledgeGraph.LabelOffset | components/KnowledgeGraph.tsx:84 | the label sits 12 below the circle's radius |
| KnowledgeGraph.RadiusGrows | components/KnowledgeGraph.tsx:73-84 | a node with more links has a strictly larger circle and a strictly lower label, two pixels per link |
| KnowledgeGraph.Fill | components/KnowledgeGraph.tsx:74-78 | teal exactly for Engineering, blue exactly for Product, grey exactly otherwise |
| KnowledgeGraph.Stroke | components/KnowledgeGraph.tsx:79 | light grey exactly for General, white exactly otherwise |
| HabitTracker.ToggleLogsSpec | components/HabitTracker.tsx:27-28 | an absent day is appended; a present day loses every occurrence; other days are unaffected |
| HabitTracker.ToggleTwice | components/HabitTracker.tsx:27-28 | toggling a day twice restores the set of logged days |
| HabitTracker.ToggleKeepsDistinct | components/HabitTracker.tsx:27-28 | a log without repeats stays without repeats |
| HabitTracker.Run | components/HabitTracker.tsx:29-41 | the run ending at d: every day in it is logged and the day before it is not |
| HabitTracker.WalkStreak | components/HabitTracker.tsx:29-41 | the `while (true)` walk back from today, with its grace day, computes Streak |
| HabitTracker.RunMembership | components/HabitTracker.tsx:29-41 | a run depends only on which days are logged |
| HabitTracker.StreakMembership | components/HabitTracker.tsx:29-41 | so does the streak |
| HabitTracker.ToggleTwiceStreak | components/HabitTracker.tsx:24-46 | toggling a day twice restores the streak |
| HabitTracker.SpanSpec | components/HabitTracker.tsx:68-72 | a span of n days holds exactly the n days ending at d, each once |
| HabitTracker.StreakBound | components/HabitTracker.tsx:29-41 | a streak never exceeds the number of distinct logged days |
| HabitTracker.StreakExamples | components/HabitTracker.tsx:29-41 | today only gives 1; today and yesterday give 2; yesterday only gives 1 (grace); two days ago gives 0 |
| HabitTracker.ToggleHabit | components/HabitTracker.tsx:25-44 | one habit's update: new logs with the recomputed streak, identity fields kept |
| HabitTracker.ToggleDate | components/HabitTracker.tsx:24-46 | the habit with the id is toggled; every other habit and the order are unchanged |
| HabitTracker.CreateHabit | components/HabitTracker.tsx:48-61 | a blank name changes nothing; otherwise a habit with the trimmed name, no logs and streak 0 goes first, the form resets and the dialog closes |
| HabitTracker.DeleteHabitSpec | components/HabitTracker.tsx:63-66 | exactly the habits with that id go; an unknown id changes nothing |
| HabitTracker.DeleteHabitAppend | components/HabitTracker.tsx:63-66 | deleting keeps the relative order of the rest |
| HabitTracker.Last30Days | components/HabitTracker.tsx:68-72 | 30 consecutive days, ending today, oldest first |
| HabitTracker.Last30DaysSpan | components/HabitTracker.tsx:68-72 | the window is the 30-day span ending today |
| HabitTracker.Round | components/HabitTracker.tsx:93 | `Math.round` of a non-negative ratio is the nearest integer, halves going up |
| HabitTracker.CompletionRateClosedForm | components/HabitTracker.tsx:93 | k entries in the window give the rate (10k+1) div 3; 15 give 50 and none give 0 |
| HabitTracker.CountOutsideWindow | components/HabitTracker.tsx:93 | entries all outside the window count 0 |
| HabitTracker.RateAtMostHundred | components/HabitTracker.tsx:93 | a log without repeats has at most 30 entries in the window and a rate of at most 100 |
| NoteEditor.Escape | components/NoteEditor.tsx:22-25 | no `<` or `>` remains after the escape chain |
| NoteEditor.EscapeCharwise | components/NoteEditor.tsx:22-25 | the three global replacements, `&` first, escape each character on its own |
| NoteEditor.UnescapeEscape | components/NoteEditor.tsx:22-25 | the escape loses nothing: reading the entities back gives the original text |
| NoteEditor.HtmlsAppend | components/NoteEditor.tsx:61-95 | a push appends one piece of HTML at the end of `result` |
| NoteEditor.RenderedEmpty | components/NoteEditor.tsx:19 | empty text renders as the empty string |
| NoteEditor.AppendCells | components/NoteEditor.tsx:41-59 | the `forEach` appends each cell wrapped in its tag |
| NoteEditor.AppendRow | components/NoteEditor.tsx:41-59 | one pass of the row loop appends one `<tr>` row |
| NoteEditor.TableHtml | components/NoteEditor.tsx:41-59 | the table string: the first row as header cells, the rest as body rows |
| NoteEditor.FlushTable | components/NoteEditor.tsx:41-59 | `flushTable` on the loop's variables pushes a non-empty table once and empties it |
| NoteEditor.PushPiece | components/NoteEditor.tsx:61-95 | `result.push` appends one piece |
| NoteEditor.RenderLine | components/NoteEditor.tsx:61-95 | one loop iteration (trim, table row, leave table, list item, blank or paragraph) is the state machine's Step |
| NoteEditor.RenderLines | components/NoteEditor.tsx:35-100 | the split, the loop, the closing flush and list close, and the join, equal the specification's blocks |
| NoteEditor.RenderMarkdown | components/NoteEditor.tsx:18-101 | the whole renderer equals Rendered: empty text gives "", otherwise escape, chain, then the line machine |
| NoteEditor.FeedWalk | components/NoteEditor.tsx:78-88 | the `inList` flag always agrees with the `<ul>`/`</ul>` pieces pushed so far |
| NoteEditor.ListsBalanced | components/NoteEditor.tsx:78-98 | lists are well nested: no `<ul>` inside an open list, no stray `</ul>`, items only inside a list, paragraphs and spacers only outside, none left open |
| NoteEditor.StepRuns | components/NoteEditor.tsx:63-88 | a line pushes `<ul>` exactly when it is a list line and no list is open, and `</ul>` exactly when it is a text line and one is; table lines leave the list flag alone |
| NoteEditor.FeedRuns | components/NoteEditor.tsx:60-95 | after the loop, the list flag is whether the last non-table line was a list line, and the `<ul>` count is the number of runs of list lines |
| NoteEditor.OneListPerRun | components/NoteEditor.tsx:60-98 | each run of list lines (table lines do not end one) opens exactly one `<ul>` and closes it once |
| NoteEditor.StepCounts | components/NoteEditor.tsx:61-95 | one line adds one item exactly when it is a list line, and one paragraph or spacer exactly when it is a text line |
| NoteEditor.FeedCounts | components/NoteEditor.tsx:61-95 | over the loop, the items and texts pushed equal the list lines and text lines |
| NoteEditor.LineCounts | components/NoteEditor.tsx:35-100 | each list line becomes exactly one `<li>`, and each text line exactly one paragraph or spacer |
| NoteEditor.FeedTable | components/NoteEditor.tsx:65-71 | a run of table lines only collects rows, dropping `---` separators |
| NoteEditor.TableOnly | components/NoteEditor.tsx:65-71 | text of table lines only renders as one table headed by the first kept row, or nothing |
| NoteEditor.FlushOnLeave | components/NoteEditor.tsx:72-75 | the first non-table line flushes the table before anything else and leaves table mode |
| NoteEditor.LineStart | components/NoteEditor.tsx:125-130 | the start of the selection's line is just after the last newline before it |
| NoteEditor.ApplyFormatting | components/NoteEditor.tsx:115-144 | the new cursor position and length in both modes |
| NoteEditor.InlineSpec | components/NoteEditor.tsx:131-134 | inline mode wraps the selection in prefix and suffix, puts the cursor before the suffix, and cutting both out restores the text |
| NoteEditor.LineStartSpec | components/NoteEditor.tsx:125-130 | line mode inserts the prefix at the line start, the cursor stays before the same text, and cutting the prefix out restores the text |
| NoteEditor.ToolPresets | components/NoteEditor.tsx:146-147 | the wiki-link button wraps in `[[`/`]]`, the list and heading buttons prefix the line, and the table button inserts the template before the selection, leaving the cursor at the selection end plus the template's length, after both |
| Dashboard.TotalLinksAtLeastEdges | components/Dashboard.tsx:23-26 | the marker total is at least the number of graph edges |
| Dashboard.DensityOf | components/Dashboard.tsx:27 | "0" exactly without notes; otherwise total markers over the note count |
| Dashboard.CompletedPlusOpen | components/Dashboard.tsx:28 | completed plus open tasks are all the tasks |
| Dashboard.ActiveTasksSpec | components/Dashboard.tsx:49 | at most four tasks, all open and from the list, in order, the first of the open ones; all of them when at most four are open |
| Dashboard.MaxStreakSpec | components/Dashboard.tsx:29 | 0 without habits; otherwise some habit's streak, and no habit's is larger |
| Dashboard.RecentNotesSpec | components/Dashboard.tsx:48 | up to three notes of the vault, newest first; no note left out is newer than one shown |
| Dashboard.PreviewSpec | components/Dashboard.tsx:98 | the preview drops exactly the markup characters and keeps the rest in order |
| Dashboard.PreviewAppend | components/Dashboard.tsx:98 | the preview works character by character |
| Dashboard.StatsOf | components/Dashboard.tsx:22-31 | the memo's density; completed plus open tasks are all tasks; the best streak is 0 without habits, otherwise some habit's streak and no habit's is larger |
| NotesVault.FoldersSpec | components/NotesVault.tsx:22 | each folder in use is listed once, nothing else is, in order of first use |
| NotesVault.BeforeTotal | components/NotesVault.tsx:30-34 | the comparator orders any pair one way or the other, transitively |
| NotesVault.ListingMembers | components/NotesVault.tsx:24-35 | the listing is a permutation of the notes that pass the search and folder filter |
| NotesVault.ListingAll | components/NotesVault.tsx:26-29 | an empty search with no folder keeps every note |
| NotesVault.ListingOrder | components/NotesVault.tsx:30-34 | pinned notes come first; among the same pin status, the newest first |
| NotesVault.TogglePin | components/NotesVault.tsx:37-39 | the update flips the pin, and an unset pin becomes pinned |
| NotesVault.TogglePinTwice | components/NotesVault.tsx:37-39 | two toggles restore the pin status |
| CommandPalette.Views | components/CommandPalette.tsx:18-27 | the eight views, in the palette's order |
| CommandPalette.NoteItems | components/CommandPalette.tsx:31 | one row per note, with its id and title |
| CommandPalette.FilteredItemsSpec | components/CommandPalette.tsx:29-32 | the matching views first (and exactly those), then exactly the matching notes in vault order; no view after a note; the views keep the palette's order |
| CommandPalette.EmptyQuery | components/CommandPalette.tsx:29-32 | an empty query lists all eight views and then every note |
| CommandPalette.JsRem | components/CommandPalette.tsx:44-47 | JavaScript `%`: `NaN` exactly for a zero divisor; the remainder truncates toward zero |
| CommandPalette.Wrap | components/CommandPalette.tsx:44-47 | on a non-empty list the arrows stay in range, wrap at both ends and undo each other |
| CommandPalette.EmptyListNaN | components/CommandPalette.tsx:44-47 | on an empty list an arrow gives `NaN`, and no arrow brings it back |
| CommandPalette.EnterAction | components/CommandPalette.tsx:48-58 | Enter acts exactly when the index is in range, opening that row's view or note |
| CommandPalette.Palette.constructor | components/CommandPalette.tsx:14-15 | the palette opens with an empty query on the first row |
| CommandPalette.Palette.SetQuery | components/CommandPalette.tsx:74 | typing sets the query and highlights the first row again |
| CommandPalette.Palette.KeyDown | components/CommandPalette.tsx:36-60 | arrows move the index; Enter dispatches on the highlighted row; Escape closes; the query is kept |
| StudyModule.FoldersSpec | components/StudyModule.tsx:41 | each quiz folder once, nothing else, in order of first use |
| StudyModule.FilteredQuizzesSpec | components/StudyModule.tsx:43-48 | exactly the quizzes passing the title search and folder filter, in order; no search and no folder keep all |
| StudyModule.TitleOnly | components/StudyModule.tsx:43-48 | only the title is searched |
| StudyModule.DeleteQuizSpec | components/StudyModule.tsx:114-116 | exactly the quizzes with that id go; an unknown id changes nothing |
| StudyModule.Session.constructor | components/StudyModule.tsx:24-35 | the module opens on the vault with no quiz |
| StudyModule.Session.StartQuiz | components/StudyModule.tsx:104-112 | a fresh session on the quiz, in quiz mode |
| StudyModule.Session.SelectOption | components/StudyModule.tsx:86-91 | the first answer is recorded and scores when correct; later ones are ignored; the score never exceeds the questions answered |
| StudyModule.Session.NextQuestion | components/StudyModule.tsx:93-102 | on to the next question with the answer cleared, or on the last one the session finishes in place |
| TaskManager.Moved | components/TaskManager.tsx:32-38 | the new status, a completion stamp exactly when done, and nothing else changed |
| TaskManager.MoveTaskSpec | components/TaskManager.tsx:32-38 | the task with the id moves; all others and the order are unchanged |
| TaskManager.MoveTaskIdempotent | components/TaskManager.tsx:32-38 | moving twice to the same status at the same instant is moving once |
| TaskManager.PurgeSpec | components/TaskManager.tsx:40-42 | exactly the tasks with that id go; an unknown id changes nothing |
| TaskManager.AddTask | components/TaskManager.tsx:44-57 | a blank title changes nothing; otherwise the trimmed task goes first, the form resets and the dialog closes |
| TaskManager.AddedTaskTrimmed | components/TaskManager.tsx:45-48 | an added task's title is non-empty with no surrounding blanks, and it has no completion stamp |
| TaskManager.FilterTasksSpec | components/TaskManager.tsx:59 | 'all' shows every task; a status shows exactly the tasks in it |
| TaskManager.TabsPartition | components/TaskManager.tsx:59 | the three status tabs together show every task exactly once |
| TaskManager.Checkbox | components/TaskManager.tsx:99 | the checkbox makes a task done exactly when it was not done, and never in progress |
| TaskManager.BodyClick | components/TaskManager.tsx:107 | the body makes a task in progress exactly when it was not, and never done |
| TaskManager.ClicksTwice | components/TaskManager.tsx:99-107 | two clicks on one target undo each other, except checkbox from in progress and body from done, which land on todo |
| App.UpdateNotesSpec | App.tsx:69-71 | for every field of a note with the id: the update's value when it sets the field, the old value otherwise, and `updatedAt = now`; all other notes untouched |
| App.EmptyUpdate | App.tsx:69-71 | an empty update only touches `updatedAt` |
| App.RemoveNoteSpec | App.tsx:73-74 | exactly the notes with that id go |
| App.SelectionAfterDelete | App.tsx:75 | the selection is cleared exactly when it was the deleted note |
| App.NewNote | App.tsx:79-90 | the title is the given non-empty string, else 'Untitled Insight'; content '' when absent; folder 'General' when absent; no tags, not pinned, both stamps now |
| App.FindNote | App.tsx:103 | none exactly when no note has the id; otherwise a note with the id at an index before which no note has it |
| App.EditorNote | App.tsx:103 | the editor shows exactly when the selection is a non-empty id of an existing note, and it shows the first note with that id |
| App.CreateOpensEditor | App.tsx:79-103 | after a create, the editor shows the new note |
| App.DeleteClosesEditor | App.tsx:73-103 | deleting the selected note returns to the vault; deleting another keeps the editor on its note |
| App.NotificationRoundTrip | App.tsx:46-54 | removing a fresh notification by id gives back the queue before it was added |
| App.Shell.constructor | App.tsx:26-34 | the shell starts on the dashboard with the loaded collections, no notifications and no selection |
| App.Shell.AddNotification | App.tsx:46-50 | exactly one entry appended, stamped now; nothing else changes |
| App.Shell.RemoveNotificationById | App.tsx:52-54 | only the entries with that id go |
| App.Shell.Import | App.tsx:56-67 | each collection the payload carries replaces the current one and the rest stay, with a success notice; a null payload only raises the corruption notice |
| App.Shell.UpdateNote | App.tsx:69-71 | the notes become UpdateNotes; nothing else changes |
| App.Shell.DeleteNote | App.tsx:73-77 | the note goes, the selection is cleared if it was that note, and the "Note Purged." notice queues |
| App.Shell.CreateNote | App.tsx:79-95 | the new note goes first, is selected, the notes view opens, and the notice queues |
| App.Shell.OpenNote | App.tsx:101 | selecting a note opens the notes view on it |
| App.Shell.CloseEditor | App.tsx:110 | closing clears the selection, so no editor shows |
| IdentityModule.Set | components/IdentityModule.tsx:30-37 | the chosen list is replaced and no other field changes |
| IdentityModule.StartEdit | components/IdentityModule.tsx:63-81 | editing opens on the section's current text |
| IdentityModule.SaveText | components/IdentityModule.tsx:19-26 | the draft goes into philosophy or archetype by section, and editing ends |
| IdentityModule.EditWithoutChange | components/IdentityModule.tsx:19-26 | opening a section and committing unchanged leaves the profile as it was |
| IdentityModule.SaveThenReopen | components/IdentityModule.tsx:19-26 | reopening a committed section shows the committed draft |
| IdentityModule.AddItem | components/IdentityModule.tsx:28-33 | a blank value changes nothing; otherwise the trimmed, non-empty value goes at the end of that list only, and the input clears |
| IdentityModule.SpliceStart | components/IdentityModule.tsx:37 | `splice`'s start: in range it is the index, negative counts from the end, past the end clamps |
| IdentityModule.RemoveAtSpec | components/IdentityModule.tsx:36-37 | a valid index removes exactly that element and keeps the rest in order; an index past the end removes nothing; -1 removes the last |
| IdentityModule.RemoveItem | components/IdentityModule.tsx:35-39 | that list loses the element and no other field changes |
| IdentityModule.AddThenRemove | components/IdentityModule.tsx:28-39 | adding an item and removing the last position restores the profile |
| DecisionJournal.AddDecision | components/DecisionJournal.tsx:23-37 | only an empty title is refused; otherwise one entry with the form's fields goes first, the form resets with impact medium, and the modal closes |
| DecisionJournal.BlankAndSpaceTitles | components/DecisionJournal.tsx:24 | the blank form adds nothing; a title of spaces is committed, having no trim |
| DecisionJournal.RemoveDecisionSpec | components/DecisionJournal.tsx:39-41 | every entry with that id goes, and only those |
| DecisionJournal.AddThenRemove | components/DecisionJournal.tsx:23-41 | removing a just-added entry by its fresh id restores the journal |
| DecisionJournal.AddPro | components/DecisionJournal.tsx:157-161 | the input, even empty, goes at the end of the pros; the input clears; nothing else changes |
| DecisionJournal.AddCon | components/DecisionJournal.tsx:171-175 | the same for the cons |
| DecisionJournal.ProConCommute | components/DecisionJournal.tsx:157-175 | adding a pro and a con gives the same form in either order |
| AIHub.Analyze | components/AIHub.tsx:22-26 | with no notes only the empty-vault notice is raised and no request is made, exactly then |
| AIHub.Priority | components/AIHub.tsx:41 | 'medium' when missing or empty, else the lowercased text; always non-empty with no capitals |
| AIHub.UpperOr | components/AIHub.tsx:57-58 | the fallback as written when the text is missing or empty, else the uppercased text, which is then non-empty; no lower-case letter results from a fallback without one |
| AIHub.DefaultsUpper | components/AIHub.tsx:57-58 | the defaults 'DAILY' and 'HIGH' have no lower-case letter |
| AIHub.PriorityIdempotent | components/AIHub.tsx:41 | normalising a normalised priority changes nothing |
| AIHub.UpperOrIdempotent | components/AIHub.tsx:57-58 | with such a fallback, normalising a normalised frequency or impact changes nothing |
| AIHub.CommitTask | components/AIHub.tsx:39-52 | the request carries the normalised priority; exactly the recommendations with that title go; the habits stay; the notice names the task |
| AIHub.CommitHabit | components/AIHub.tsx:54-65 | the request carries the normalised frequency and impact; exactly the recommendations with that name go; the notice names the habit |
| AIHub.CommitTaskTwice | components/AIHub.tsx:47-50 | a second commit of the same task leaves the list as the first did |
| AIHub.NeuralDensity | components/AIHub.tsx:184 | twice the figure is 3·notes + tasks, or one more |
| AIHub.DensityIsCeiling | components/AIHub.tsx:184 | the figure is the ceiling of (3·notes + tasks)/2, which is `toFixed(0)` rounding halves up |
| AIHub.DensityGrowth | components/AIHub.tsx:184 | two more notes add 3, two more tasks add 1 |

## Left out

- The d3 force simulation, zoom and drag of the knowledge map, and the radial tree of the mind
  map: a foreign library, floating-point physics and animation.
- Clock and time zone: `Date.now()`, `new Date()`, `toISOString()` and `setDate` become
  parameters. Days are day numbers. The mix of UTC date strings with local day stepping in the
  habit tracker is not modelled.
- Random ids: every fresh id is a parameter.
- Persistence: loading from and saving to local storage, and the settings page's export and
  file reading. The shell's constructor takes the loaded collections. The import handler takes
  the parsed payload, with `None` for a `null` payload, the one whose property reads throw.
- The AI services and every network call: the requests themselves, the AI assistant panel, quiz
  and mind-map generation, and the analysis call. The recommendations they would return are
  inputs.
- The rewrite chain after the escape in `renderMarkdown` (headings, bold, italic, code): it is
  the `chain` parameter of NoteEditor.Rendered, applied as an opaque string transform.
- Text positions: a Dafny `string` is a sequence of Unicode scalar values, while the source's
  strings index UTF-16 code units. NoteEditor.ApplyFormatting and NoteEditor.LineStart take the
  selection and return the cursor as positions in the model's sequence, and KnowledgeGraph.Exec
  and KnowledgeGraph.NextMatch take `lastIndex` the same way. For text with characters outside
  the Basic Multilingual Plane (emoji), these positions differ from the source's, and a
  selection boundary inside a surrogate pair cannot be expressed.
- Letter case: `toLowerCase`/`toUpperCase` are modelled on ASCII letters only, with no Unicode
  case mapping.
- The whitespace set of `trim` follows the JavaScript definition. The set of line terminators
  that `.` does not match is modelled in full.
- Float formatting: the dashboard density `toFixed(1)` is kept as the pair (links, notes) in
  Dashboard.DensityOf.
- Timers: the five-second notification removal (modelled as a later removal by id) and the
  dashboard's optimisation timer.
- Focus, printing, scrolling and other DOM effects.
- Purely presentational components (sidebar, header, help, action menu, notification view,
  creative canvas).
- Seqs.SortBy: JavaScript's `sort` is modelled as a stable insertion sort with a comparator
  result of at most 0 keeping the order. The model proves the result is sorted and is a
  permutation. Stability is not proved, and the engine's own algorithm is not modelled.
- KnowledgeGraph.SeedNotes: the two seed contents are shortened. Each keeps its heading, a list
  line, one `[x]` and one `[ ]` box in the roadmap note, and its marker to the other note.
  Apart from two more checklist boxes, the text left out has no `[`. SkipFree shows that such
  text adds no capture, and SkipBracket shows the same for a box. The seed timestamps are 0.
- KnowledgeGraph.Resolve: an empty capture `[[]]` resolves to a note titled "" when one
  exists, because the code compares titles with `===`. This follows the code, not a reading in
  which empty markers never link.
- StudyModule.Session.SelectOption: on a quiz with no questions, the source reads
  `questions[0].correctAnswer` and throws. The model scores nothing.
- IdentityModule.RemoveAt: the copy-and-`splice` is modelled on values. The copy is never
  shared, so the update in place is not observable.
- DecisionJournal.AddDecision: the form's `|| ''` and `|| []` defaults are not separate
  branches, because the form always holds those fields.
- App.Shell.Import: a payload field counts as present when it is an object or array, as
  JavaScript truthiness treats them. Other truthy non-collection values are not modelled.
