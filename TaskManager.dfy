/** The task board (components/TaskManager.tsx): status moves with their completion
    stamp, purging, adding from the form, the status filter and the two click targets. */
module TaskManager {
  import opened Types
  import Seqs
  import Strings

  /** A task moved to `status` at instant `now`: only the status and the completion stamp
      change, and the stamp is set exactly when the task is done. */
  function Moved(t: Task, status: Status, now: int): (r: Task)
    ensures r.status == status
    ensures r.completedAt.Some? <==> status == Done
    ensures r.(status := t.status, completedAt := t.completedAt) == t
  {
    t.(status := status, completedAt := if status == Done then Some(now) else None)
  }

  /** `moveTask(id, newStatus)`: `prev.map(t => t.id === id ? {...} : t)`. */
  function MoveTask(tasks: seq<Task>, id: string, status: Status, now: int): (r: seq<Task>)
    ensures |r| == |tasks|
  {
    seq(|tasks|, i requires 0 <= i < |tasks| => if tasks[i].id == id then Moved(tasks[i], status, now) else tasks[i])
  }

  /** Every task with the id gets the new status, with a completion stamp exactly when it
      is done, and keeps its other fields; every other task, and the order, is unchanged. */
  lemma MoveTaskSpec(tasks: seq<Task>, id: string, status: Status, now: int)
    ensures var r := MoveTask(tasks, id, status, now);
      |r| == |tasks|
      && (forall i :: 0 <= i < |tasks| && tasks[i].id != id ==> r[i] == tasks[i])
      && (forall i :: 0 <= i < |tasks| && tasks[i].id == id ==>
            r[i].status == status && (r[i].completedAt.Some? <==> status == Done)
            && r[i].(status := tasks[i].status, completedAt := tasks[i].completedAt) == tasks[i])
  {
  }

  /** Moving again to the same status at the same instant changes nothing more. */
  lemma MoveTaskIdempotent(tasks: seq<Task>, id: string, status: Status, now: int)
    ensures MoveTask(MoveTask(tasks, id, status, now), id, status, now) == MoveTask(tasks, id, status, now)
  {
    var r := MoveTask(tasks, id, status, now);
    var rr := MoveTask(r, id, status, now);
    forall i | 0 <= i < |tasks| ensures rr[i] == r[i] {
      if tasks[i].id == id {
        assert r[i].id == id;
      }
    }
  }

  /** `handlePurge`: `prev.filter(t => t.id !== id)`. */
  function Purge(tasks: seq<Task>, id: string): seq<Task> {
    Seqs.Filter(tasks, (t: Task) => t.id != id)
  }

  /** Exactly the tasks with that id go; the rest keep their order. */
  lemma PurgeSpec(tasks: seq<Task>, id: string)
    ensures forall t :: t in Purge(tasks, id) <==> t in tasks && t.id != id
    ensures (forall i :: 0 <= i < |tasks| ==> tasks[i].id != id) ==> Purge(tasks, id) == tasks
  {
    var p := (t: Task) => t.id != id;
    forall t ensures t in Purge(tasks, id) <==> t in tasks && t.id != id {
      Seqs.FilterMembers(tasks, p, t);
    }
    Seqs.FilterPasses(tasks, p);
  }

  // ---------------------------------------------------------------------------
  // Adding

  /** The form's `newTask`. */
  datatype Draft = Draft(title: string, description: Option<string>, status: Status, priority: Level,
                         dueDate: Option<string>)

  /** The form after a commit; `today` is `new Date().toISOString().split('T')[0]`. */
  function EmptyDraft(today: string): Draft {
    Draft("", Some(""), Todo, Medium, Some(today))
  }

  datatype Added = Added(tasks: seq<Task>, draft: Draft, showAddModal: bool)

  /** `addTask`, with the fresh id and today's date as parameters. */
  function AddTask(tasks: seq<Task>, draft: Draft, showAddModal: bool, id: string, today: string): (a: Added)
    ensures Strings.AllSpace(draft.title) ==> a == Added(tasks, draft, showAddModal)
    ensures !Strings.AllSpace(draft.title) ==>
      a.tasks == [Task(id, Strings.Trim(draft.title), draft.description, draft.status, draft.priority,
                       draft.dueDate, None)] + tasks
      && a.draft == EmptyDraft(today) && !a.showAddModal
  {
    Strings.TrimEmptyIffAllSpace(draft.title);
    var title := Strings.Trim(draft.title);
    if title == [] then Added(tasks, draft, showAddModal)
    else
      var t := Task(id, title, draft.description, draft.status, draft.priority, draft.dueDate, None);
      Added([t] + tasks, EmptyDraft(today), false)
  }

  /** An added task has a title with no surrounding blanks, and is not yet stamped. */
  lemma AddedTaskTrimmed(tasks: seq<Task>, draft: Draft, showAddModal: bool, id: string, today: string)
    requires !Strings.AllSpace(draft.title)
    ensures var t := AddTask(tasks, draft, showAddModal, id, today).tasks[0];
      t.title != [] && !Strings.IsSpace(t.title[0]) && !Strings.IsSpace(t.title[|t.title| - 1])
      && Strings.Trim(t.title) == t.title && t.completedAt == None
  {
    Strings.TrimEmptyIffAllSpace(draft.title);
    Strings.TrimIdempotent(draft.title);
  }

  // ---------------------------------------------------------------------------
  // Filtering

  /** `'all' | 'todo' | 'in-progress' | 'done'`. */
  datatype TaskFilter = AllTasks | Only(status: Status)

  /** `filter === 'all' || t.status === filter`. */
  predicate Shown(f: TaskFilter, t: Task) {
    f == AllTasks || t.status == f.status
  }

  function FilterTasks(tasks: seq<Task>, f: TaskFilter): seq<Task> {
    Seqs.Filter(tasks, (t: Task) => Shown(f, t))
  }

  function WithStatus(tasks: seq<Task>, s: Status): seq<Task> {
    FilterTasks(tasks, Only(s))
  }

  /** `'all'` shows every task; a status shows exactly the tasks in it, in order. */
  lemma FilterTasksSpec(tasks: seq<Task>, s: Status)
    ensures FilterTasks(tasks, AllTasks) == tasks
    ensures forall t :: t in FilterTasks(tasks, Only(s)) <==> t in tasks && t.status == s
  {
    Seqs.FilterPasses(tasks, (t: Task) => Shown(AllTasks, t));
    forall t ensures t in FilterTasks(tasks, Only(s)) <==> t in tasks && t.status == s {
      Seqs.FilterMembers(tasks, (x: Task) => Shown(Only(s), x), t);
    }
  }

  /** The three status tabs together show every task exactly once. */
  lemma {:induction false} TabsPartition(tasks: seq<Task>)
    ensures |WithStatus(tasks, Todo)| + |WithStatus(tasks, InProgress)| + |WithStatus(tasks, Done)| == |tasks|
  {
    if tasks != [] {
      var t, rest := tasks[0], tasks[1..];
      TabsPartition(rest);
      assert tasks == [t] + rest;
      Seqs.FilterUnfold(t, rest, (x: Task) => Shown(Only(Todo), x));
      Seqs.FilterUnfold(t, rest, (x: Task) => Shown(Only(InProgress), x));
      Seqs.FilterUnfold(t, rest, (x: Task) => Shown(Only(Done), x));
    }
  }

  // ---------------------------------------------------------------------------
  // Clicks

  /** The round checkbox: done goes back to todo, anything else is done. */
  function Checkbox(s: Status): (r: Status)
    ensures r == Done <==> s != Done
    ensures r != InProgress
  {
    if s == Done then Todo else Done
  }

  /** The task body: in progress goes back to todo, anything else (done included) is in
      progress. */
  function BodyClick(s: Status): (r: Status)
    ensures r == InProgress <==> s != InProgress
    ensures r != Done
  {
    if s == InProgress then Todo else InProgress
  }

  /** Two checkbox clicks undo each other except from in progress, and two body clicks
      undo each other except from done. */
  lemma ClicksTwice(s: Status)
    ensures s != InProgress ==> Checkbox(Checkbox(s)) == s
    ensures s != Done ==> BodyClick(BodyClick(s)) == s
    ensures Checkbox(Checkbox(InProgress)) == Todo && BodyClick(BodyClick(Done)) == Todo
  {
  }
}
