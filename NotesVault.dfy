/** The vault listing (components/NotesVault.tsx): the folder list, the search and folder
    filter, the pinned-first ordering and the pin toggle. */
module NotesVault {
  import opened Types
  import Seqs
  import Strings

  /** `notes.map(n => n.folder)`. */
  function FolderList(notes: seq<Note>): (fs: seq<string>)
    ensures |fs| == |notes|
    ensures forall i :: 0 <= i < |notes| ==> fs[i] == notes[i].folder
  {
    seq(|notes|, i requires 0 <= i < |notes| => notes[i].folder)
  }

  /** `Array.from(new Set(notes.map(n => n.folder)))`. */
  function Folders(notes: seq<Note>): seq<string> {
    Seqs.Dedup(FolderList(notes))
  }

  /** Each folder in use is listed once, nothing else is, and in order of first use. */
  lemma FoldersSpec(notes: seq<Note>)
    ensures Seqs.Distinct(Folders(notes))
    ensures forall f :: f in Folders(notes) <==> exists i :: 0 <= i < |notes| && notes[i].folder == f
    ensures forall i, j :: 0 <= i < j < |Folders(notes)| ==>
      Seqs.FirstIndex(FolderList(notes), Folders(notes)[i]) < Seqs.FirstIndex(FolderList(notes), Folders(notes)[j])
  {
    var fs := FolderList(notes);
    Seqs.DedupFirstAppearanceOrder(fs);
    forall f ensures f in Folders(notes) <==> exists i :: 0 <= i < |notes| && notes[i].folder == f {
      if f in fs {
        var i :| 0 <= i < |fs| && fs[i] == f;
        assert notes[i].folder == f;
      }
    }
  }

  /** `n.pinned` taken as a condition: `undefined` and `false` are unpinned. */
  predicate IsPinned(n: Note) {
    n.pinned == Some(true)
  }

  /** The filter: the search text is empty or found, case-insensitively, in the title or
      the content; and no folder is active (`null` or `''`) or the note is in it. */
  predicate Keep(n: Note, search: string, activeFolder: Option<string>) {
    (search == "" || Strings.Matches(n.title, search) || Strings.Matches(n.content, search))
    && (activeFolder == None || activeFolder == Some("") || Some(n.folder) == activeFolder)
  }

  /** The comparator: a pinned note before an unpinned one, otherwise newest first. */
  function Compare(a: Note, b: Note): int {
    if IsPinned(a) && !IsPinned(b) then -1
    else if !IsPinned(a) && IsPinned(b) then 1
    else b.updatedAt - a.updatedAt
  }

  /** `a` may stay before `b`. */
  predicate Before(a: Note, b: Note) {
    Compare(a, b) <= 0
  }

  lemma BeforeTotal()
    ensures Seqs.TotalPreorder(Before)
  {
  }

  /** `filteredAndSortedNotes`. */
  function FilteredAndSorted(notes: seq<Note>, search: string, activeFolder: Option<string>): seq<Note> {
    Seqs.SortBy(Seqs.Filter(notes, (n: Note) => Keep(n, search, activeFolder)), Before)
  }

  /** The listing holds exactly the notes that pass the filter, each as often as in the
      vault. */
  lemma ListingMembers(notes: seq<Note>, search: string, activeFolder: Option<string>)
    ensures multiset(FilteredAndSorted(notes, search, activeFolder))
         == multiset(Seqs.Filter(notes, (n: Note) => Keep(n, search, activeFolder)))
    ensures forall x :: x in FilteredAndSorted(notes, search, activeFolder) <==> x in notes && Keep(x, search, activeFolder)
  {
    var p := (n: Note) => Keep(n, search, activeFolder);
    var f := Seqs.Filter(notes, p);
    Seqs.SortByPermutes(f, Before);
    forall x ensures x in FilteredAndSorted(notes, search, activeFolder) <==> x in notes && Keep(x, search, activeFolder) {
      Seqs.FilterMembers(notes, p, x);
      assert x in FilteredAndSorted(notes, search, activeFolder) <==> x in multiset(f);
    }
  }

  /** With no search text and no active folder the listing is the whole vault, reordered. */
  lemma ListingAll(notes: seq<Note>)
    ensures multiset(FilteredAndSorted(notes, "", None)) == multiset(notes)
  {
    var p := (n: Note) => Keep(n, "", None);
    Seqs.FilterPasses(notes, p);
    ListingMembers(notes, "", None);
  }

  /** Pinned notes come before unpinned ones (a missing flag counts as unpinned), and among
      notes with the same flag the newer come first. */
  lemma ListingOrder(notes: seq<Note>, search: string, activeFolder: Option<string>)
    ensures var r := FilteredAndSorted(notes, search, activeFolder);
      forall i, j :: 0 <= i < j < |r| ==>
        (IsPinned(r[j]) ==> IsPinned(r[i]))
        && (IsPinned(r[i]) == IsPinned(r[j]) ==> r[i].updatedAt >= r[j].updatedAt)
  {
    BeforeTotal();
    Seqs.SortBySorted(Seqs.Filter(notes, (n: Note) => Keep(n, search, activeFolder)), Before);
  }

  /** `handleTogglePin`: the update sent is `{ pinned: !note.pinned }`. */
  function TogglePin(n: Note): (pinned: bool)
    ensures pinned <==> !IsPinned(n)
    ensures n.pinned == None ==> pinned
  {
    !IsPinned(n)
  }

  /** Applying the update flips the flag, so two toggles give back the pin state. */
  lemma TogglePinTwice(n: Note)
    ensures var once := n.(pinned := Some(TogglePin(n)));
      IsPinned(once) != IsPinned(n)
      && IsPinned(once.(pinned := Some(TogglePin(once)))) == IsPinned(n)
  {
  }
}
