/** The habit tracker (components/HabitTracker.tsx): toggling a day in a habit's log,
    the backward streak walk that follows, habit creation and deletion, and the 30-day
    completion rate. Days are day numbers; `today` is a parameter. */
module HabitTracker {
  import opened Types
  import Seqs
  import Strings

  // ---------------------------------------------------------------------------
  // The log toggle

  /** `logs.includes(d) ? logs.filter(x => x !== d) : [...logs, d]`. */
  function ToggleLogs(logs: seq<int>, d: int): seq<int> {
    if d in logs then Seqs.Filter(logs, (x: int) => x != d) else logs + [d]
  }

  /** An absent day is appended at the end; a present day loses every occurrence and
      nothing else changes membership. */
  lemma ToggleLogsSpec(logs: seq<int>, d: int)
    ensures d !in logs ==> ToggleLogs(logs, d) == logs + [d]
    ensures d in logs ==> d !in ToggleLogs(logs, d)
    ensures forall x :: x != d ==> (x in ToggleLogs(logs, d) <==> x in logs)
  {
    if d in logs {
      forall x ensures x in ToggleLogs(logs, d) <==> x in logs && x != d {
        Seqs.FilterMembers(logs, (y: int) => y != d, x);
      }
    }
  }

  /** Toggling the same day twice gives back the same set of logged days. */
  lemma ToggleTwice(logs: seq<int>, d: int)
    ensures forall x :: x in ToggleLogs(ToggleLogs(logs, d), d) <==> x in logs
  {
    var once := ToggleLogs(logs, d);
    ToggleLogsSpec(logs, d);
    ToggleLogsSpec(once, d);
  }

  /** A log without repeated days keeps none after a toggle. */
  lemma ToggleKeepsDistinct(logs: seq<int>, d: int)
    requires Seqs.Distinct(logs)
    ensures Seqs.Distinct(ToggleLogs(logs, d))
  {
    if d in logs {
      Seqs.FilterDistinct(logs, (x: int) => x != d);
    } else {
      var r := logs + [d];
      forall i, j | 0 <= i < j < |r| ensures r[i] != r[j] {
        if j == |logs| { assert r[i] == logs[i]; }
      }
    }
  }

  // ---------------------------------------------------------------------------
  // The streak walk

  /** The earliest logged day. */
  function Lowest(logs: seq<int>): (m: int)
    requires logs != []
    ensures m in logs
    ensures forall x :: x in logs ==> m <= x
  {
    if |logs| == 1 then logs[0]
    else
      var m := Lowest(logs[1..]);
      assert forall x :: x in logs ==> x == logs[0] || x in logs[1..];
      if logs[0] <= m then logs[0] else m
  }

  /** The number of consecutive logged days ending at `d`, counted backwards. */
  function Run(logs: seq<int>, d: int): (n: nat)
    decreases if logs == [] then 0 else d - Lowest(logs)
    ensures forall x :: d - n < x <= d ==> x in logs
    ensures d - n !in logs
  {
    if d in logs then 1 + Run(logs, d - 1) else 0
  }

  /** The streak: the run ending today when today is logged, otherwise the run ending
      yesterday (today may still be done). */
  function Streak(logs: seq<int>, today: int): nat {
    if today in logs then Run(logs, today) else Run(logs, today - 1)
  }

  /** The `while (true)` walk: step back from today, counting logged days; an unlogged
      today is stepped over once, the first other unlogged day stops the walk. */
  method WalkStreak(logs: seq<int>, today: int) returns (streak: nat)
    ensures streak == Streak(logs, today)
  {
    streak := 0;
    var check := today;
    while true
      invariant check <= today
      invariant check == today ==> streak == 0
      invariant check < today ==> streak + Run(logs, check) == Streak(logs, today)
      decreases (if check == today then 1 else 0), (if logs == [] then 0 else check - Lowest(logs))
    {
      if check in logs {
        streak := streak + 1;
        check := check - 1;
      } else if check == today {
        check := check - 1;
      } else {
        break;
      }
    }
  }

  /** The streak looks only at which days are logged, not at their order or repetition. */
  lemma {:induction false} RunMembership(a: seq<int>, b: seq<int>, d: int)
    requires forall x :: x in a <==> x in b
    decreases if a == [] then 0 else d - Lowest(a)
    ensures Run(a, d) == Run(b, d)
  {
    if d in a {
      RunMembership(a, b, d - 1);
    }
  }

  lemma StreakMembership(a: seq<int>, b: seq<int>, today: int)
    requires forall x :: x in a <==> x in b
    ensures Streak(a, today) == Streak(b, today)
  {
    RunMembership(a, b, today);
    RunMembership(a, b, today - 1);
  }

  /** Toggling the same day twice restores the streak. */
  lemma ToggleTwiceStreak(logs: seq<int>, d: int, today: int)
    ensures Streak(ToggleLogs(ToggleLogs(logs, d), d), today) == Streak(logs, today)
  {
    ToggleTwice(logs, d);
    StreakMembership(ToggleLogs(ToggleLogs(logs, d), d), logs, today);
  }

  /** The set of logged days. */
  function Days(logs: seq<int>): set<int> {
    set x | x in logs
  }

  /** The `n` days ending at `d`, oldest first. */
  function Span(d: int, n: nat): (w: seq<int>)
    ensures |w| == n
    ensures forall i :: 0 <= i < n ==> w[i] == d - n + 1 + i
  {
    seq(n, i => d - n + 1 + i)
  }

  /** A span holds exactly the days after `d - n` up to `d`, each once. */
  lemma SpanSpec(d: int, n: nat)
    ensures forall x :: x in Span(d, n) <==> d - n < x <= d
    ensures |Days(Span(d, n))| == n
  {
    var w := Span(d, n);
    forall x | d - n < x <= d ensures x in w {
      assert w[x - d + n - 1] == x;
    }
    DistinctDays(w);
  }

  lemma SubsetSize<T>(a: set<T>, b: set<T>)
    requires a <= b
    ensures |a| <= |b|
  {
    assert b == a + (b - a);
    assert a * (b - a) == {};
  }

  /** A streak never exceeds the number of distinct logged days. */
  lemma StreakBound(logs: seq<int>, today: int)
    ensures Streak(logs, today) <= |Days(logs)|
  {
    var d := if today in logs then today else today - 1;
    var n := Run(logs, d);
    SpanSpec(d, n);
    SubsetSize(Days(Span(d, n)), Days(logs));
  }

  /** The expected streaks: today only, today and yesterday, yesterday only (grace), and
      two days ago only. */
  lemma StreakExamples(today: int)
    ensures Streak([today], today) == 1
    ensures Streak([today, today - 1], today) == 2
    ensures Streak([today - 1], today) == 1
    ensures Streak([today - 2], today) == 0
  {
    assert today - 1 !in [today];
    assert Run([today], today - 1) == 0;
    assert Run([today, today - 1], today - 1) == 1 + Run([today, today - 1], today - 2);
    assert today - 2 !in [today - 1];
    assert Run([today - 1], today - 2) == 0;
  }

  // ---------------------------------------------------------------------------
  // toggleDate over the habit list

  /** A habit after its day `d` was toggled: new logs, and the streak of the new logs. */
  function Toggled(h: Habit, d: int, today: int): Habit {
    var logs := ToggleLogs(h.logs, d);
    h.(logs := logs, streak := Streak(logs, today))
  }

  /** One habit's update inside the `map`: toggle the day and walk the new streak. */
  method ToggleHabit(h: Habit, d: int, today: int) returns (r: Habit)
    ensures r == Toggled(h, d, today)
    ensures r.id == h.id && r.name == h.name && r.frequency == h.frequency && r.impact == h.impact
  {
    var logs := if d in h.logs then Seqs.Filter(h.logs, (x: int) => x != d) else h.logs + [d];
    var streak := WalkStreak(logs, today);
    r := h.(logs := logs, streak := streak);
  }

  /** `toggleDate`: the habit with the id is toggled; every other habit, and the order and
      length of the list, stay as they were. */
  method ToggleDate(habits: seq<Habit>, id: string, d: int, today: int) returns (r: seq<Habit>)
    ensures |r| == |habits|
    ensures forall i :: 0 <= i < |habits| && habits[i].id == id ==> r[i] == Toggled(habits[i], d, today)
    ensures forall i :: 0 <= i < |habits| && habits[i].id != id ==> r[i] == habits[i]
  {
    r := [];
    for i := 0 to |habits|
      invariant |r| == i
      invariant forall j :: 0 <= j < i && habits[j].id == id ==> r[j] == Toggled(habits[j], d, today)
      invariant forall j :: 0 <= j < i && habits[j].id != id ==> r[j] == habits[j]
    {
      var h := habits[i];
      if h.id == id {
        h := ToggleHabit(h, d, today);
      }
      r := r + [h];
    }
  }

  // ---------------------------------------------------------------------------
  // Creating and deleting habits

  /** The add-habit form. */
  datatype HabitForm = HabitForm(name: string, frequency: Frequency, impact: HabitImpact)

  /** The form as it starts and as it is reset. */
  function EmptyForm(): HabitForm {
    HabitForm("", Daily, HighImpact)
  }

  datatype Created = Created(habits: seq<Habit>, form: HabitForm, showAddModal: bool)

  /** `createHabit`: a blank name (after trimming) does nothing; otherwise a habit with the
      trimmed name, no logs and streak 0 is put first, the form is reset and the dialog
      closes. The fresh id is a parameter. */
  function CreateHabit(habits: seq<Habit>, form: HabitForm, showAddModal: bool, id: string): (c: Created)
    ensures Strings.AllSpace(form.name) ==> c == Created(habits, form, showAddModal)
    ensures !Strings.AllSpace(form.name) ==>
      c.habits == [Habit(id, Strings.Trim(form.name), 0, [], form.frequency, form.impact)] + habits
      && c.form == EmptyForm() && !c.showAddModal
  {
    Strings.TrimEmptyIffAllSpace(form.name);
    var name := Strings.Trim(form.name);
    if name == [] then Created(habits, form, showAddModal)
    else Created([Habit(id, name, 0, [], form.frequency, form.impact)] + habits, EmptyForm(), false)
  }

  /** `handleHabitDelete`: `habits.filter(h => h.id !== id)`. */
  function DeleteHabit(habits: seq<Habit>, id: string): seq<Habit> {
    Seqs.Filter(habits, (h: Habit) => h.id != id)
  }

  /** After a delete no habit has the id, every other habit is still there, and an id no
      habit has changes nothing. */
  lemma DeleteHabitSpec(habits: seq<Habit>, id: string)
    ensures forall h :: h in DeleteHabit(habits, id) <==> h in habits && h.id != id
    ensures (forall i :: 0 <= i < |habits| ==> habits[i].id != id) ==> DeleteHabit(habits, id) == habits
  {
    var p := (h: Habit) => h.id != id;
    Seqs.FilterPasses(habits, p);
    forall h ensures h in DeleteHabit(habits, id) <==> h in habits && h.id != id {
      Seqs.FilterMembers(habits, p, h);
    }
  }

  /** Deleting keeps the relative order of the remaining habits. */
  lemma DeleteHabitAppend(a: seq<Habit>, b: seq<Habit>, id: string)
    ensures DeleteHabit(a + b, id) == DeleteHabit(a, id) + DeleteHabit(b, id)
  {
    Seqs.FilterAppend(a, b, (h: Habit) => h.id != id);
  }

  // ---------------------------------------------------------------------------
  // The thirty-day window and the completion rate

  /** `last30Days`: the 30 days ending today, oldest first. */
  function Last30Days(today: int): (w: seq<int>)
    ensures |w| == 30 && w[29] == today
    ensures forall i :: 0 <= i < 29 ==> w[i + 1] == w[i] + 1
  {
    seq(30, i => today - (29 - i))
  }

  /** The window is the span of 30 days ending today. */
  lemma Last30DaysSpan(today: int)
    ensures Last30Days(today) == Span(today, 30)
  {
  }

  /** `Math.round(num / den)` for a non-negative numerator: the integer nearest to the
      quotient, an exact half rounding up. */
  function Round(num: nat, den: nat): (r: nat)
    requires den > 0
    ensures 2 * r * den <= 2 * num + den < 2 * (r + 1) * den
  {
    (2 * num + den) / (2 * den)
  }

  /** The number of log entries inside the window, repetitions included. */
  function InWindowCount(logs: seq<int>, today: int): nat {
    Seqs.CountIf(logs, (l: int) => l in Last30Days(today))
  }

  /** `Math.round((entries in the window / 30) * 100)`. */
  function CompletionRate(logs: seq<int>, today: int): nat {
    Round(100 * InWindowCount(logs, today), 30)
  }

  /** The rate is `(10k + 1) div 3` for `k` entries in the window, so 15 entries give 50
      and none give 0. */
  lemma CompletionRateClosedForm(logs: seq<int>, today: int)
    ensures CompletionRate(logs, today) == (10 * InWindowCount(logs, today) + 1) / 3
    ensures InWindowCount(logs, today) == 15 ==> CompletionRate(logs, today) == 50
    ensures InWindowCount(logs, today) == 0 ==> CompletionRate(logs, today) == 0
  {
    var k := InWindowCount(logs, today);
    var r := CompletionRate(logs, today);
    assert 60 * r <= 200 * k + 30 < 60 * (r + 1);
    assert 3 * r <= 10 * k + 1 < 3 * (r + 1);
  }

  /** Entries all outside the window give a rate of 0. */
  lemma {:induction false} CountOutsideWindow(logs: seq<int>, today: int)
    requires forall i :: 0 <= i < |logs| ==> logs[i] !in Last30Days(today)
    ensures InWindowCount(logs, today) == 0
  {
    if logs != [] {
      var t := logs[1..];
      forall i | 0 <= i < |t| ensures t[i] !in Last30Days(today) { assert t[i] == logs[i + 1]; }
      CountOutsideWindow(t, today);
    }
  }

  lemma {:induction false} DistinctDays(s: seq<int>)
    requires Seqs.Distinct(s)
    ensures |Days(s)| == |s|
  {
    if s != [] {
      var p := s[..|s| - 1];
      var x := s[|s| - 1];
      assert Seqs.Distinct(p) by {
        forall i, j | 0 <= i < j < |p| ensures p[i] != p[j] { assert p[i] == s[i] && p[j] == s[j]; }
      }
      DistinctDays(p);
      assert x !in p by {
        forall k | 0 <= k < |p| ensures p[k] != x { assert p[k] == s[k]; }
      }
      assert s == p + [x];
      assert Days(s) == Days(p) + {x};
    }
  }

  /** A log without repeated days (as toggling keeps it) completes at most 100 percent. */
  lemma RateAtMostHundred(logs: seq<int>, today: int)
    requires Seqs.Distinct(logs)
    ensures InWindowCount(logs, today) <= 30
    ensures CompletionRate(logs, today) <= 100
  {
    var p := (l: int) => l in Last30Days(today);
    var f := Seqs.Filter(logs, p);
    Seqs.FilterDistinct(logs, p);
    Seqs.FilterPasses(logs, p);
    DistinctDays(f);
    Last30DaysSpan(today);
    SpanSpec(today, 30);
    SubsetSize(Days(f), Days(Last30Days(today)));
    CompletionRateClosedForm(logs, today);
  }
}
