/** The synthesis page (components/AIHub.tsx): the empty-vault guard, committing a
    recommended task or habit, and the neural-density figure. The request to the model and
    the recommendations it returns are not part of this model; the recommendations are
    inputs. */
module AIHub {
  import opened Types
  import Seqs
  import Strings

  /** A recommended task as the model returns it; missing properties are `None`. */
  datatype TaskRec = TaskRec(title: string, description: Option<string>, priority: Option<string>)

  /** A recommended habit as the model returns it. */
  datatype HabitRec = HabitRec(name: string, frequency: Option<string>, impact: Option<string>)

  /** The recommendation lists on screen. */
  datatype Insights = Insights(recommendedTasks: seq<TaskRec>, recommendedHabits: seq<HabitRec>)

  // ---------------------------------------------------------------------------
  // The empty-vault guard

  const EmptyVaultMessage: string := "Neural vault is empty. Synthesis impossible."

  /** What pressing the synthesis button does before any request is made. */
  datatype Analysis = Refused(notice: Notification) | Requested

  /** `analyzeBrain`: with no notes only a notice is raised and no request is made. */
  function Analyze(notes: seq<Note>, nid: string, now: int): (a: Analysis)
    ensures a.Refused? <==> notes == []
    ensures a.Refused? ==> a.notice.message == EmptyVaultMessage && a.notice.kind == Info
  {
    if |notes| == 0 then Refused(Notification(nid, EmptyVaultMessage, Info, now)) else Requested
  }

  // ---------------------------------------------------------------------------
  // Normalisation

  /** `(task.priority || 'medium').toLowerCase()`. */
  function Priority(p: Option<string>): (r: string)
    ensures p.None? || p.value == "" ==> r == "medium"
    ensures p.Some? && p.value != "" ==> r == Strings.Lower(p.value)
    ensures r != "" && forall i :: 0 <= i < |r| ==> !Strings.IsUpperAscii(r[i])
  {
    if p.Some? && p.value != "" then Strings.Lower(p.value) else Strings.Lower("medium")
  }

  /** No ASCII lower-case letter. */
  predicate NoLower(s: string) {
    forall i :: 0 <= i < |s| ==> !Strings.IsLowerAscii(s[i])
  }

  /** `f?.toUpperCase() || fallback`: the upper-cased text, or the fallback as written when
      the text is missing or empty. */
  function UpperOr(f: Option<string>, fallback: string): (r: string)
    ensures f.None? || f.value == "" ==> r == fallback
    ensures f.Some? && f.value != "" ==> r == Strings.Upper(f.value) && r != ""
    ensures NoLower(fallback) ==> NoLower(r)
  {
    if f.Some? && f.value != "" then Strings.Upper(f.value) else fallback
  }

  /** The defaults of a committed habit. */
  const DefaultFrequency: string := "DAILY"
  const DefaultImpact: string := "HIGH"

  lemma DefaultsUpper()
    ensures NoLower(DefaultFrequency) && NoLower(DefaultImpact)
  {
  }

  lemma {:induction false} LowerIdempotent(s: string)
    ensures Strings.Lower(Strings.Lower(s)) == Strings.Lower(s)
  {
    var l := Strings.Lower(s);
    assert forall i :: 0 <= i < |l| ==> Strings.LowerChar(l[i]) == l[i];
  }

  /** Text without lower-case letters is its own upper case. */
  lemma {:induction false} UpperFixed(s: string)
    requires NoLower(s)
    ensures Strings.Upper(s) == s
  {
    assert forall i :: 0 <= i < |s| ==> Strings.UpperChar(s[i]) == s[i];
  }

  /** Normalising a normalised value changes nothing: a committed record that came back would
      keep its priority, frequency and impact. */
  lemma PriorityIdempotent(p: Option<string>)
    ensures Priority(Some(Priority(p))) == Priority(p)
  {
    if p.Some? && p.value != "" { LowerIdempotent(p.value); }
  }

  /** The same for a fallback without lower-case letters, as `'DAILY'` and `'HIGH'` are. */
  lemma UpperOrIdempotent(f: Option<string>, fallback: string)
    requires NoLower(fallback)
    ensures UpperOr(Some(UpperOr(f, fallback)), fallback) == UpperOr(f, fallback)
  {
    var r := UpperOr(f, fallback);
    if r != "" { UpperFixed(r); }
  }

  // ---------------------------------------------------------------------------
  // Committing

  /** What `onAddTask` and `onAddHabit` receive. */
  datatype TaskRequest = TaskRequest(title: string, description: Option<string>, priority: string)
  datatype HabitRequest = HabitRequest(name: string, frequency: string, impact: string)

  datatype TaskCommit = TaskCommit(request: TaskRequest, insights: Insights, notice: Notification)
  datatype HabitCommit = HabitCommit(request: HabitRequest, insights: Insights, notice: Notification)

  /** `recommendedTasks.filter(t => t.title !== task.title)`. */
  function DropTask(recs: seq<TaskRec>, title: string): seq<TaskRec> {
    Seqs.Filter(recs, (t: TaskRec) => t.title != title)
  }

  /** `recommendedHabits.filter(h => h.name !== habit.name)`. */
  function DropHabit(recs: seq<HabitRec>, name: string): seq<HabitRec> {
    Seqs.Filter(recs, (h: HabitRec) => h.name != name)
  }

  /** `commitTask`: the task goes out with its priority normalised, every recommendation with
      the same title leaves the list, and a notice names the task. */
  function CommitTask(ins: Insights, task: TaskRec, nid: string, now: int): (c: TaskCommit)
    ensures c.request == TaskRequest(task.title, task.description, Priority(task.priority))
    ensures c.insights.recommendedHabits == ins.recommendedHabits
    ensures forall t :: t in c.insights.recommendedTasks <==> t in ins.recommendedTasks && t.title != task.title
    ensures |c.insights.recommendedTasks| <= |ins.recommendedTasks|
    ensures c.notice == Notification(nid, "Objective anchored: " + task.title, Success, now)
  {
    var recs := DropTask(ins.recommendedTasks, task.title);
    forall t ensures t in recs <==> t in ins.recommendedTasks && t.title != task.title {
      Seqs.FilterMembers(ins.recommendedTasks, (x: TaskRec) => x.title != task.title, t);
    }
    TaskCommit(TaskRequest(task.title, task.description, Priority(task.priority)),
               ins.(recommendedTasks := recs),
               Notification(nid, "Objective anchored: " + task.title, Success, now))
  }

  /** `commitHabit`: the habit goes out with frequency and impact normalised, every
      recommendation with the same name leaves the list, and a notice names the habit. */
  function CommitHabit(ins: Insights, habit: HabitRec, nid: string, now: int): (c: HabitCommit)
    ensures c.request == HabitRequest(habit.name, UpperOr(habit.frequency, DefaultFrequency), UpperOr(habit.impact, DefaultImpact))
    ensures c.insights.recommendedTasks == ins.recommendedTasks
    ensures forall h :: h in c.insights.recommendedHabits <==> h in ins.recommendedHabits && h.name != habit.name
    ensures |c.insights.recommendedHabits| <= |ins.recommendedHabits|
    ensures c.notice == Notification(nid, "Ritual initialized: " + habit.name, Success, now)
  {
    var recs := DropHabit(ins.recommendedHabits, habit.name);
    forall h ensures h in recs <==> h in ins.recommendedHabits && h.name != habit.name {
      Seqs.FilterMembers(ins.recommendedHabits, (x: HabitRec) => x.name != habit.name, h);
    }
    HabitCommit(HabitRequest(habit.name, UpperOr(habit.frequency, DefaultFrequency), UpperOr(habit.impact, DefaultImpact)),
                ins.(recommendedHabits := recs),
                Notification(nid, "Ritual initialized: " + habit.name, Success, now))
  }

  /** Committing the same task twice leaves the list as the first commit did. */
  lemma CommitTaskTwice(ins: Insights, task: TaskRec, nid: string, now: int)
    ensures var once := CommitTask(ins, task, nid, now).insights;
      CommitTask(once, task, nid, now).insights == once
  {
    var p := (t: TaskRec) => t.title != task.title;
    Seqs.FilterIdempotent(ins.recommendedTasks, p);
  }

  // ---------------------------------------------------------------------------
  // Neural density

  /** `(notes.length * 1.5 + tasks.length * 0.5).toFixed(0)`. The sum is a whole or a half
      number, held exactly, and `toFixed(0)` takes the larger neighbour at a half. */
  function NeuralDensity(notes: nat, tasks: nat): (d: nat)
    ensures 2 * d == 3 * notes + tasks || 2 * d == 3 * notes + tasks + 1
  {
    (3 * notes + tasks + 1) / 2
  }

  /** The figure is the least whole number not below the exact value: the ceiling of
      `(3 * notes + tasks) / 2`. */
  lemma DensityIsCeiling(notes: nat, tasks: nat, k: int)
    ensures 2 * k >= 3 * notes + tasks <==> k >= NeuralDensity(notes, tasks)
  {
  }

  /** Each note adds one and a half points and each pair of tasks one point. */
  lemma DensityGrowth(notes: nat, tasks: nat)
    ensures NeuralDensity(notes + 2, tasks) == NeuralDensity(notes, tasks) + 3
    ensures NeuralDensity(notes, tasks + 2) == NeuralDensity(notes, tasks) + 1
  {
  }
}
