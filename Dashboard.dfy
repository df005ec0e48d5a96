/** The dashboard's figures (components/Dashboard.tsx): the link total and density, the
    completed-task count, the best streak, the three most recent notes, the first four
    open tasks and the card preview text. */
module Dashboard {
  import opened Types
  import Seqs
  import KnowledgeGraph

  // ---------------------------------------------------------------------------
  // Links

  /** `(note.content.match(/\[\[(.*?)\]\]/g) || []).length`: the markers of one note,
      resolved or not. */
  function MarkerCount(content: string): nat {
    |KnowledgeGraph.Captures(content)|
  }

  /** `notes.reduce((acc, note) => acc + markers, 0)`. */
  function TotalLinks(notes: seq<Note>): nat {
    if notes == [] then 0 else TotalLinks(notes[..|notes| - 1]) + MarkerCount(notes[|notes| - 1].content)
  }

  lemma {:induction false} EdgesUpToBound(notes: seq<Note>, n: nat)
    requires n <= |notes|
    ensures |KnowledgeGraph.EdgesUpTo(notes, n)| <= TotalLinks(notes[..n])
  {
    if n > 0 {
      EdgesUpToBound(notes, n - 1);
      assert notes[..n][..n - 1] == notes[..n - 1];
      assert notes[..n][n - 1] == notes[n - 1];
    }
  }

  /** Every edge of the graph comes from a marker, so the total is at least the edge count
      (markers naming no note count here but make no edge). */
  lemma TotalLinksAtLeastEdges(notes: seq<Note>)
    ensures |KnowledgeGraph.Edges(notes)| <= TotalLinks(notes)
  {
    EdgesUpToBound(notes, |notes|);
    assert notes[..|notes|] == notes;
  }

  /** The density card: the string `"0"` without notes, otherwise `totalLinks / notes.length`
      shown with one decimal. */
  datatype Density = Zero | Ratio(links: nat, count: nat)

  function DensityOf(notes: seq<Note>): (d: Density)
    ensures d.Zero? <==> notes == []
    ensures d.Ratio? ==> d.links == TotalLinks(notes) && d.count == |notes| > 0
  {
    if |notes| > 0 then Ratio(TotalLinks(notes), |notes|) else Zero
  }

  // ---------------------------------------------------------------------------
  // Tasks

  predicate IsDone(t: Task) { t.status == Done }
  predicate IsOpen(t: Task) { t.status != Done }

  /** `tasks.filter(t => t.status === 'done').length`. */
  function CompletedTasks(tasks: seq<Task>): nat {
    Seqs.CountIf(tasks, IsDone)
  }

  /** Every task is either completed or open. */
  lemma {:induction false} CompletedPlusOpen(tasks: seq<Task>)
    ensures CompletedTasks(tasks) + Seqs.CountIf(tasks, IsOpen) == |tasks|
  {
    if tasks != [] {
      CompletedPlusOpen(tasks[1..]);
    }
  }

  /** `tasks.filter(t => t.status !== 'done').slice(0, 4)`. */
  function ActiveTasks(tasks: seq<Task>): seq<Task> {
    Seqs.Take(Seqs.Filter(tasks, IsOpen), 4)
  }

  /** At most four tasks, none done, each a task of the list, in their original order; the
      open tasks the card leaves out come after the ones it shows. */
  lemma ActiveTasksSpec(tasks: seq<Task>)
    ensures |ActiveTasks(tasks)| <= 4
    ensures forall i :: 0 <= i < |ActiveTasks(tasks)| ==> IsOpen(ActiveTasks(tasks)[i]) && ActiveTasks(tasks)[i] in tasks
    ensures ActiveTasks(tasks) + Seqs.Filter(tasks, IsOpen)[|ActiveTasks(tasks)|..] == Seqs.Filter(tasks, IsOpen)
    ensures Seqs.CountIf(tasks, IsOpen) <= 4 ==> ActiveTasks(tasks) == Seqs.Filter(tasks, IsOpen)
  {
    var f := Seqs.Filter(tasks, IsOpen);
    var r := ActiveTasks(tasks);
    Seqs.FilterPasses(tasks, IsOpen);
    forall i | 0 <= i < |r| ensures IsOpen(r[i]) && r[i] in tasks {
      assert r[i] == f[i];
      Seqs.FilterMembers(tasks, IsOpen, f[i]);
    }
    assert r + f[|r|..] == f;
  }

  // ---------------------------------------------------------------------------
  // Habits

  /** `habits.length > 0 ? Math.max(...habits.map(h => h.streak)) : 0`. */
  function MaxStreak(habits: seq<Habit>): int {
    if habits == [] then 0
    else if |habits| == 1 then habits[0].streak
    else
      var m := MaxStreak(habits[..|habits| - 1]);
      var s := habits[|habits| - 1].streak;
      if m < s then s else m
  }

  /** No habits give 0; otherwise the figure is one habit's streak and no habit has a
      longer one. */
  lemma {:induction false} MaxStreakSpec(habits: seq<Habit>)
    ensures habits == [] ==> MaxStreak(habits) == 0
    ensures habits != [] ==> exists i :: 0 <= i < |habits| && MaxStreak(habits) == habits[i].streak
    ensures forall i :: 0 <= i < |habits| ==> habits[i].streak <= MaxStreak(habits)
  {
    if |habits| == 1 {
      assert MaxStreak(habits) == habits[0].streak;
    } else if |habits| > 1 {
      var last := |habits| - 1;
      var init := habits[..last];
      MaxStreakSpec(init);
      var k :| 0 <= k < |init| && MaxStreak(init) == init[k].streak;
      assert habits[k] == init[k];
      if MaxStreak(init) < habits[last].streak {
        assert MaxStreak(habits) == habits[last].streak;
      } else {
        assert MaxStreak(habits) == habits[k].streak;
      }
      forall i | 0 <= i < |init| ensures habits[i].streak <= MaxStreak(habits) {
        assert habits[i] == init[i];
      }
    }
  }

  // ---------------------------------------------------------------------------
  // Recent notes

  /** The comparator `b.updatedAt - a.updatedAt` keeps `a` before `b` when it is not
      positive. */
  predicate Newer(a: Note, b: Note) {
    b.updatedAt - a.updatedAt <= 0
  }

  lemma NewerTotal()
    ensures Seqs.TotalPreorder(Newer)
  {
  }

  /** `[...notes].sort((a, b) => b.updatedAt - a.updatedAt).slice(0, 3)`, sorting a copy. */
  function RecentNotes(notes: seq<Note>): seq<Note> {
    Seqs.Take(Seqs.SortBy(notes, Newer), 3)
  }

  /** Up to three notes of the vault, newest first, and none of the notes left out is newer
      than any note shown. */
  lemma RecentNotesSpec(notes: seq<Note>)
    ensures |RecentNotes(notes)| == if |notes| < 3 then |notes| else 3
    ensures forall i, j :: 0 <= i < j < |RecentNotes(notes)| ==>
      RecentNotes(notes)[i].updatedAt >= RecentNotes(notes)[j].updatedAt
    ensures multiset(RecentNotes(notes)) <= multiset(notes)
    ensures forall x, i :: x in multiset(notes) - multiset(RecentNotes(notes)) && 0 <= i < |RecentNotes(notes)| ==>
      x.updatedAt <= RecentNotes(notes)[i].updatedAt
  {
    var s := Seqs.SortBy(notes, Newer);
    NewerTotal();
    Seqs.SortBySorted(notes, Newer);
    Seqs.SortByPermutes(notes, Newer);
    Seqs.SortedPrefixFirst(s, notes, |RecentNotes(notes)|, Newer);
  }

  // ---------------------------------------------------------------------------
  // Card preview

  predicate IsMarkup(c: char) {
    c == '#' || c == '*' || c == '`' || c == '[' || c == ']'
  }

  predicate Plain(c: char) { !IsMarkup(c) }

  /** `content.replace(/[#*`[\]]/g, '')`. */
  function Preview(content: string): string {
    Seqs.Filter(content, Plain)
  }

  /** The preview drops exactly the markup characters, keeps the others in order, and
      leaves text without markup as it is. */
  lemma PreviewSpec(content: string)
    ensures forall c :: c in Preview(content) <==> c in content && !IsMarkup(c)
    ensures (forall i :: 0 <= i < |content| ==> !IsMarkup(content[i])) ==> Preview(content) == content
  {
    Seqs.FilterPasses(content, Plain);
    forall c ensures c in Preview(content) <==> c in content && !IsMarkup(c) {
      Seqs.FilterMembers(content, Plain, c);
    }
  }

  lemma PreviewAppend(a: string, b: string)
    ensures Preview(a + b) == Preview(a) + Preview(b)
  {
    Seqs.FilterAppend(a, b, Plain);
  }

  // ---------------------------------------------------------------------------
  // The `stats` memo

  datatype Stats = Stats(density: Density, completedTasks: nat, maxStreak: int)

  function StatsOf(notes: seq<Note>, tasks: seq<Task>, habits: seq<Habit>): (s: Stats)
    ensures s.density == DensityOf(notes)
    ensures s.completedTasks + Seqs.CountIf(tasks, IsOpen) == |tasks|
    ensures habits == [] ==> s.maxStreak == 0
    ensures habits != [] ==> exists i :: 0 <= i < |habits| && s.maxStreak == habits[i].streak
    ensures forall i :: 0 <= i < |habits| ==> habits[i].streak <= s.maxStreak
  {
    CompletedPlusOpen(tasks);
    MaxStreakSpec(habits);
    Stats(DensityOf(notes), CompletedTasks(tasks), MaxStreak(habits))
  }
}
