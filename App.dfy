/** The application shell (App.tsx): the collections, the selected note and the current
    view, changed by the note handlers, the import handler and the notification queue.
    Loading and saving to local storage, the auto-dismiss timer and rendering are not part
    of this model; fresh ids and the clock are parameters. */
module App {
  import opened Types
  import Seqs

  // ---------------------------------------------------------------------------
  // Notes

  /** `Partial<Note>`: the fields an update sets. `updatedAt` is always overwritten by the
      handler, so an update does not carry it. */
  datatype NoteUpdate = NoteUpdate(
    id: Option<string>,
    title: Option<string>,
    content: Option<string>,
    tags: Option<seq<string>>,
    createdAt: Option<int>,
    folder: Option<string>,
    pinned: Option<bool>)

  function Pick<T>(given: Option<T>, current: T): T {
    if given.Some? then given.value else current
  }

  /** `{ ...n, ...updates, updatedAt: now }`. */
  function Merge(n: Note, u: NoteUpdate, now: int): Note {
    Note(Pick(u.id, n.id), Pick(u.title, n.title), Pick(u.content, n.content), Pick(u.tags, n.tags),
         now, Pick(u.createdAt, n.createdAt), Pick(u.folder, n.folder),
         if u.pinned.Some? then u.pinned else n.pinned)
  }

  /** `handleUpdateNote`: `prev.map(n => n.id === id ? merged : n)`. */
  function UpdateNotes(notes: seq<Note>, id: string, u: NoteUpdate, now: int): (r: seq<Note>)
    ensures |r| == |notes|
  {
    seq(|notes|, i requires 0 <= i < |notes| => if notes[i].id == id then Merge(notes[i], u, now) else notes[i])
  }

  /** The notes with the id take the update and the new `updatedAt`, and keep every field
      the update does not set; every other note is untouched. */
  lemma UpdateNotesSpec(notes: seq<Note>, id: string, u: NoteUpdate, now: int)
    ensures var r := UpdateNotes(notes, id, u, now);
      (forall i :: 0 <= i < |notes| && notes[i].id != id ==> r[i] == notes[i])
      && (forall i :: 0 <= i < |notes| && notes[i].id == id ==>
            r[i].updatedAt == now
            && (u.title.Some? ==> r[i].title == u.title.value) && (u.title.None? ==> r[i].title == notes[i].title)
            && (u.content.Some? ==> r[i].content == u.content.value) && (u.content.None? ==> r[i].content == notes[i].content)
            && (u.tags.Some? ==> r[i].tags == u.tags.value) && (u.tags.None? ==> r[i].tags == notes[i].tags)
            && (u.createdAt.Some? ==> r[i].createdAt == u.createdAt.value)
            && (u.createdAt.None? ==> r[i].createdAt == notes[i].createdAt)
            && (u.folder.Some? ==> r[i].folder == u.folder.value) && (u.folder.None? ==> r[i].folder == notes[i].folder)
            && (u.pinned.Some? ==> r[i].pinned == u.pinned) && (u.pinned.None? ==> r[i].pinned == notes[i].pinned)
            && (u.id.Some? ==> r[i].id == u.id.value) && (u.id.None? ==> r[i].id == id))
  {
  }

  const NoUpdate: NoteUpdate := NoteUpdate(None, None, None, None, None, None, None)

  /** An empty update only touches `updatedAt`. */
  lemma EmptyUpdate(n: Note, now: int)
    ensures Merge(n, NoUpdate, now) == n.(updatedAt := now)
  {
  }

  /** `notes.filter(n => n.id !== id)`. */
  function RemoveNote(notes: seq<Note>, id: string): seq<Note> {
    Seqs.Filter(notes, (n: Note) => n.id != id)
  }

  lemma RemoveNoteSpec(notes: seq<Note>, id: string)
    ensures forall n :: n in RemoveNote(notes, id) <==> n in notes && n.id != id
  {
    forall n ensures n in RemoveNote(notes, id) <==> n in notes && n.id != id {
      Seqs.FilterMembers(notes, (x: Note) => x.id != id, n);
    }
  }

  /** `if (selectedNoteId === id) setSelectedNoteId(null)`. */
  function SelectionAfterDelete(selected: Option<string>, id: string): (r: Option<string>)
    ensures r == None <==> selected == None || selected == Some(id)
    ensures r != None ==> r == selected
  {
    if selected == Some(id) then None else selected
  }

  const UntitledTitle: string := "Untitled Insight"
  const GeneralFolder: string := "General"

  /** `(x || fallback)` on strings: an absent or empty string falls back. */
  function OrElse(given: Option<string>, fallback: string): (r: string)
    ensures given.Some? && given.value != "" ==> r == given.value
    ensures given.None? || given.value == "" ==> r == fallback
  {
    if given.Some? && given.value != "" then given.value else fallback
  }

  /** The note `handleCreateNote` builds. A `title` that is not a string is `None`. */
  function NewNote(title: Option<string>, content: Option<string>, folder: Option<string>, id: string,
                   now: int): (n: Note)
    ensures n.id == id && n.title != "" && n.folder != ""
    ensures title.Some? && title.value != "" ==> n.title == title.value
    ensures title.None? || title.value == "" ==> n.title == UntitledTitle
    ensures content.None? ==> n.content == ""
    ensures folder.None? ==> n.folder == GeneralFolder
    ensures n.tags == [] && n.createdAt == now && n.updatedAt == now && n.pinned == Some(false)
  {
    Note(id, OrElse(title, UntitledTitle), OrElse(content, ""), [], now, now, OrElse(folder, GeneralFolder), Some(false))
  }

  /** `notes.find(n => n.id === id)`. */
  function FindNote(notes: seq<Note>, id: string): (r: Option<Note>)
    ensures r.None? <==> forall i :: 0 <= i < |notes| ==> notes[i].id != id
    ensures r.Some? ==> r.value in notes && r.value.id == id
    ensures r.Some? ==> exists k :: 0 <= k < |notes| && notes[k] == r.value && forall j :: 0 <= j < k ==> notes[j].id != id
  {
    if notes == [] then None
    else if notes[0].id == id then Some(notes[0])
    else
      var r := FindNote(notes[1..], id);
      assert forall i :: 1 <= i < |notes| ==> notes[1..][i - 1] == notes[i];
      if r.Some? then
        var k :| 0 <= k < |notes[1..]| && notes[1..][k] == r.value && forall j :: 0 <= j < k ==> notes[1..][j].id != id;
        assert notes[k + 1] == r.value && forall j :: 0 <= j < k + 1 ==> notes[j].id != id;
        r
      else r
  }

  /** The page the notes view shows: the editor for the selected note when the selection
      is a non-empty id of an existing note (`selectedNoteId && notes.find(...)`),
      otherwise the vault (`None`). */
  function EditorNote(notes: seq<Note>, selected: Option<string>): (r: Option<Note>)
    ensures r.Some? <==> selected.Some? && selected.value != "" && exists i :: 0 <= i < |notes| && notes[i].id == selected.value
    ensures r.Some? ==> r.value in notes && Some(r.value.id) == selected
    ensures r.Some? ==> exists k :: 0 <= k < |notes| && notes[k] == r.value && forall j :: 0 <= j < k ==> Some(notes[j].id) != selected
  {
    if selected.Some? && selected.value != "" then FindNote(notes, selected.value) else None
  }

  /** A note just created is the one the editor opens. */
  lemma CreateOpensEditor(notes: seq<Note>, title: Option<string>, content: Option<string>, folder: Option<string>,
                          id: string, now: int)
    requires id != ""
    ensures EditorNote([NewNote(title, content, folder, id, now)] + notes, Some(id)) == Some(NewNote(title, content, folder, id, now))
  {
  }

  /** Deleting the selected note sends the notes view back to the vault; deleting another
      note leaves the editor on the selected one. */
  lemma DeleteClosesEditor(notes: seq<Note>, selected: Option<string>, id: string)
    ensures selected == Some(id) ==> EditorNote(RemoveNote(notes, id), SelectionAfterDelete(selected, id)) == None
    ensures selected != Some(id) && EditorNote(notes, selected).Some? ==>
      EditorNote(RemoveNote(notes, id), SelectionAfterDelete(selected, id)) == EditorNote(notes, selected)
  {
    if selected != Some(id) && EditorNote(notes, selected).Some? {
      FindAfterRemove(notes, selected.value, id);
    }
  }

  lemma {:induction false} FindAfterRemove(notes: seq<Note>, key: string, id: string)
    requires key != id
    ensures FindNote(RemoveNote(notes, id), key) == FindNote(notes, key)
  {
    if notes != [] {
      var n, rest := notes[0], notes[1..];
      assert notes == [n] + rest;
      Seqs.FilterUnfold(n, rest, (x: Note) => x.id != id);
      FindAfterRemove(rest, key, id);
      if n.id != id {
        var r := RemoveNote(notes, id);
        assert r == [n] + RemoveNote(rest, id);
        assert r[1..] == RemoveNote(rest, id);
      }
    }
  }

  // ---------------------------------------------------------------------------
  // Notifications

  /** `prev.filter(n => n.id !== id)`. */
  function RemoveNotification(ns: seq<Notification>, id: string): seq<Notification> {
    Seqs.Filter(ns, (n: Notification) => n.id != id)
  }

  /** Removing takes out only the entries with that id; an entry just added with that id
      goes again, and the earlier ones stay. */
  lemma NotificationRoundTrip(ns: seq<Notification>, n: Notification)
    requires forall i :: 0 <= i < |ns| ==> ns[i].id != n.id
    ensures RemoveNotification(ns + [n], n.id) == ns
  {
    var p := (x: Notification) => x.id != n.id;
    Seqs.FilterAppend(ns, [n], p);
    Seqs.FilterPasses(ns, p);
    assert Seqs.Filter([n], p) == [] by {
      Seqs.FilterUnfold(n, [], p);
      assert [n] + [] == [n];
    }
  }

  // ---------------------------------------------------------------------------
  // Import

  /** The import file after parsing: each collection may be missing. `None` as a whole is a
      `null` payload, whose property reads throw. */
  datatype Payload = Payload(
    notes: Option<seq<Note>>,
    tasks: Option<seq<Task>>,
    habits: Option<seq<Habit>>,
    quizzes: Option<seq<Quiz>>,
    identity: Option<IdentityProfile>)

  const ImportedMessage: string := "Neural Data Imported Successfully."
  const CorruptMessage: string := "Data Corruption in Import File."
  const PurgedMessage: string := "Note Purged."
  const AnchoredMessage: string := "New Thought Anchored."

  /** The top-level state. */
  class Shell {
    var currentView: ViewType
    var notes: seq<Note>
    var tasks: seq<Task>
    var habits: seq<Habit>
    var quizzes: seq<Quiz>
    var identity: IdentityProfile
    var notifications: seq<Notification>
    var selectedNoteId: Option<string>

    /** The initial state, from the collections loaded at start-up. */
    constructor(notes0: seq<Note>, tasks0: seq<Task>, habits0: seq<Habit>, quizzes0: seq<Quiz>,
                identity0: IdentityProfile)
      ensures currentView == Dashboard && notes == notes0 && tasks == tasks0 && habits == habits0
      ensures quizzes == quizzes0 && identity == identity0
      ensures notifications == [] && selectedNoteId == None
    {
      currentView := Dashboard;
      notes := notes0;
      tasks := tasks0;
      habits := habits0;
      quizzes := quizzes0;
      identity := identity0;
      notifications := [];
      selectedNoteId := None;
    }

    /** `addNotification`: one entry at the end, stamped `now`. */
    method AddNotification(message: string, kind: NotificationKind, id: string, now: int)
      modifies this
      ensures notifications == old(notifications) + [Notification(id, message, kind, now)]
      ensures currentView == old(currentView) && notes == old(notes) && tasks == old(tasks)
      ensures habits == old(habits) && quizzes == old(quizzes) && identity == old(identity)
      ensures selectedNoteId == old(selectedNoteId)
    {
      notifications := notifications + [Notification(id, message, kind, now)];
    }

    /** `removeNotification`. */
    method RemoveNotificationById(id: string)
      modifies this
      ensures notifications == RemoveNotification(old(notifications), id)
      ensures currentView == old(currentView) && notes == old(notes) && tasks == old(tasks)
      ensures habits == old(habits) && quizzes == old(quizzes) && identity == old(identity)
      ensures selectedNoteId == old(selectedNoteId)
    {
      notifications := RemoveNotification(notifications, id);
    }

    /** `handleImport`: each collection the payload carries replaces the current one, and
        the others stay; a `null` payload changes nothing but the notification. */
    method Import(payload: Option<Payload>, nid: string, now: int)
      modifies this
      ensures payload.None? ==>
        notes == old(notes) && tasks == old(tasks) && habits == old(habits)
        && quizzes == old(quizzes) && identity == old(identity)
        && notifications == old(notifications) + [Notification(nid, CorruptMessage, Info, now)]
      ensures payload.Some? ==>
        var p := payload.value;
        notes == Pick(p.notes, old(notes)) && tasks == Pick(p.tasks, old(tasks))
        && habits == Pick(p.habits, old(habits)) && quizzes == Pick(p.quizzes, old(quizzes))
        && identity == Pick(p.identity, old(identity))
        && notifications == old(notifications) + [Notification(nid, ImportedMessage, Success, now)]
      ensures currentView == old(currentView) && selectedNoteId == old(selectedNoteId)
    {
      if payload.None? {
        AddNotification(CorruptMessage, Info, nid, now);
        return;
      }
      var p := payload.value;
      if p.notes.Some? { notes := p.notes.value; }
      if p.tasks.Some? { tasks := p.tasks.value; }
      if p.habits.Some? { habits := p.habits.value; }
      if p.quizzes.Some? { quizzes := p.quizzes.value; }
      if p.identity.Some? { identity := p.identity.value; }
      AddNotification(ImportedMessage, Success, nid, now);
    }

    /** `handleUpdateNote`. */
    method UpdateNote(id: string, u: NoteUpdate, now: int)
      modifies this
      ensures notes == UpdateNotes(old(notes), id, u, now)
      ensures currentView == old(currentView) && tasks == old(tasks) && habits == old(habits)
      ensures quizzes == old(quizzes) && identity == old(identity)
      ensures notifications == old(notifications) && selectedNoteId == old(selectedNoteId)
    {
      notes := UpdateNotes(notes, id, u, now);
    }

    /** `handleDeleteNote`: the note goes, the selection is cleared if it was that note,
        and a notification is queued. */
    method DeleteNote(id: string, nid: string, now: int)
      modifies this
      ensures notes == RemoveNote(old(notes), id)
      ensures selectedNoteId == SelectionAfterDelete(old(selectedNoteId), id)
      ensures notifications == old(notifications) + [Notification(nid, PurgedMessage, Info, now)]
      ensures currentView == old(currentView) && tasks == old(tasks) && habits == old(habits)
      ensures quizzes == old(quizzes) && identity == old(identity)
    {
      notes := RemoveNote(notes, id);
      if selectedNoteId == Some(id) {
        selectedNoteId := None;
      }
      AddNotification(PurgedMessage, Info, nid, now);
    }

    /** `handleCreateNote`: the new note goes first, is selected, and the notes view opens. */
    method CreateNote(title: Option<string>, content: Option<string>, folder: Option<string>,
                      id: string, nid: string, now: int)
      modifies this
      ensures notes == [NewNote(title, content, folder, id, now)] + old(notes)
      ensures selectedNoteId == Some(id) && currentView == Notes
      ensures notifications == old(notifications) + [Notification(nid, AnchoredMessage, Success, now)]
      ensures tasks == old(tasks) && habits == old(habits) && quizzes == old(quizzes) && identity == old(identity)
    {
      var n := NewNote(title, content, folder, id, now);
      notes := [n] + notes;
      selectedNoteId := Some(n.id);
      currentView := Notes;
      AddNotification(AnchoredMessage, Success, nid, now);
    }

    /** Selecting a note from the dashboard, the graph or the palette: the note is
        selected and the notes view opens. */
    method OpenNote(id: string)
      modifies this
      ensures selectedNoteId == Some(id) && currentView == Notes
      ensures notes == old(notes) && tasks == old(tasks) && habits == old(habits)
      ensures quizzes == old(quizzes) && identity == old(identity) && notifications == old(notifications)
    {
      selectedNoteId := Some(id);
      currentView := Notes;
    }

    /** The editor's close button: back to the vault. */
    method CloseEditor()
      modifies this
      ensures selectedNoteId == None && Editing() == None
      ensures currentView == old(currentView) && notes == old(notes) && tasks == old(tasks)
      ensures habits == old(habits) && quizzes == old(quizzes) && identity == old(identity)
      ensures notifications == old(notifications)
    {
      selectedNoteId := None;
    }

    /** The note the notes view shows in the editor, if any. */
    function Editing(): Option<Note>
      reads this
    {
      EditorNote(notes, selectedNoteId)
    }
  }
}
