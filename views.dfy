/** The three lists the to-do page shows, each derived by filtering the task list
    afresh: pending tasks, tasks due today and upcoming tasks. */
module Views {
  import opened Seqs
  import opened Tasks
  import opened DueDates

  predicate InPending(t: Task) {
    t.status == Pending
  }

  /** The due date is today, whatever the status or completion flag. */
  predicate InToday(t: Task, today: int) {
    t.dueDate == Day(today)
  }

  /** The due date is later than today (an empty due date never is) and the task is
      not pending. */
  predicate InUpcoming(t: Task, today: int) {
    t.dueDate.Day? && t.dueDate.day > today && t.status != Pending
  }

  /** `pendingTasks`. */
  function PendingTasks(s: seq<Task>): (r: seq<Task>)
    ensures IsSubseq(r, s)
    ensures forall t :: t in r <==> t in s && InPending(t)
    ensures forall t :: InPending(t) ==> multiset(r)[t] == multiset(s)[t]
  {
    Filter(s, InPending)
  }

  /** `todaysTasks`. */
  function TodaysTasks(s: seq<Task>, today: int): (r: seq<Task>)
    ensures IsSubseq(r, s)
    ensures forall t :: t in r <==> t in s && InToday(t, today)
    ensures forall t :: InToday(t, today) ==> multiset(r)[t] == multiset(s)[t]
  {
    Filter(s, (t: Task) => InToday(t, today))
  }

  /** `upcomingTasks`. */
  function UpcomingTasks(s: seq<Task>, today: int): (r: seq<Task>)
    ensures IsSubseq(r, s)
    ensures forall t :: t in r <==> t in s && InUpcoming(t, today)
    ensures forall t :: InUpcoming(t, today) ==> multiset(r)[t] == multiset(s)[t]
  {
    Filter(s, (t: Task) => InUpcoming(t, today))
  }

  /** No task is shown both under today and under upcoming, and none both under
      upcoming and under pending. */
  lemma ViewsDisjoint(s: seq<Task>, today: int)
    ensures forall t :: !(t in TodaysTasks(s, today) && t in UpcomingTasks(s, today))
    ensures forall t :: !(t in UpcomingTasks(s, today) && t in PendingTasks(s))
  {
  }

  /** After a sweep whose two days agree, every task that is not done and has a due
      date is shown in at least one of the three views: overdue ones under pending,
      the others under today or upcoming unless they are already pending. */
  lemma SweptUndoneTasksAreShown(s: seq<Task>, today: int, t: Task)
    requires t in CheckDueDates(s, today, today) && !t.done && t.dueDate.Day?
    ensures var r := CheckDueDates(s, today, today);
      t in PendingTasks(r) || t in TodaysTasks(r, today) || t in UpcomingTasks(r, today)
  {
    var r := CheckDueDates(s, today, today);
    var i :| 0 <= i < |r| && r[i] == t;
    assert t.dueDate == s[i].dueDate && t.done == s[i].done;
  }

  /** A sweep marks every overdue task that is not done pending, so it moves into the
      pending view. */
  lemma SweepFillsPending(s: seq<Task>, renderDay: int, nowDay: int, i: nat)
    requires i < |s| && IsOverdue(s[i], renderDay, nowDay) && !s[i].done
    ensures s[i].(status := Pending) in PendingTasks(CheckDueDates(s, renderDay, nowDay))
  {
    var r := CheckDueDates(s, renderDay, nowDay);
    assert r[i] == s[i].(status := Pending);
    assert r[i] in r;
  }

  /** A sweep whose two days agree leaves the today view unchanged: it never touches
      a task due today. `StaleTickTaskInTwoViews` shows that this needs the two days
      to agree. */
  lemma SweepKeepsToday(s: seq<Task>, today: int)
    ensures TodaysTasks(CheckDueDates(s, today, today), today) == TodaysTasks(s, today)
  {
    FilterAfterMap(s, t => Swept(t, today, today), (t: Task) => InToday(t, today));
  }

  /** A sweep leaves the upcoming view of the tick's day unchanged, whatever day the
      page last rendered on: it only marks tasks due on or before that day. */
  lemma SweepKeepsUpcoming(s: seq<Task>, renderDay: int, nowDay: int)
    ensures UpcomingTasks(CheckDueDates(s, renderDay, nowDay), nowDay) == UpcomingTasks(s, nowDay)
  {
    FilterAfterMap(s, t => Swept(t, renderDay, nowDay), (t: Task) => InUpcoming(t, nowDay));
  }

  /** On the first tick after midnight before any render, an unfinished task due on
      the new day is marked pending. The page then renders with the new day, and the
      task is shown both under pending and under today; no later sweep turns it back
      to on time. */
  lemma StaleTickTaskInTwoViews(day: int)
    ensures var t := Task(1, "Write report", Day(day), false, Medium, OnTime);
      var r := CheckDueDates([t], day - 1, day);
      r[0].status == Pending && r[0] in PendingTasks(r) && r[0] in TodaysTasks(r, day)
  {
    var t := Task(1, "Write report", Day(day), false, Medium, OnTime);
    StaleTickMarksTaskDueToday(t, day);
    var r := CheckDueDates([t], day - 1, day);
    assert r[0] in r;
  }

  /** The same stale tick skips an unfinished task due on the day that has just
      ended, because that is the `today` it still sees. Once the page renders with
      the new day, the task is in none of the three views until the next tick. */
  lemma StaleTickSkipsTaskDueYesterday(day: int)
    ensures var t := Task(1, "Pay rent", Day(day - 1), false, Low, OnTime);
      var r := CheckDueDates([t], day - 1, day);
      r == [t] && PendingTasks(r) == [] && TodaysTasks(r, day) == [] && UpcomingTasks(r, day) == []
  {
    var t := Task(1, "Pay rent", Day(day - 1), false, Low, OnTime);
    CheckDueDatesLeavesOthers([t], day - 1, day, 0);
    assert CheckDueDates([t], day - 1, day) == [t];
    FilterNone([t], InPending);
    FilterNone([t], (x: Task) => InToday(x, day));
    FilterNone([t], (x: Task) => InUpcoming(x, day));
  }

  /** A task that was completed before its due date passed stays on time, so once the
      day is over it is in none of the three views. So not every task is in exactly
      one view. */
  lemma CompletedOverdueTaskIsHidden(today: int)
    ensures var t := Task(1, "Pay rent", Day(today - 1), true, High, OnTime);
      var r := CheckDueDates([t], today, today);
      r == [t] && PendingTasks(r) == [] && TodaysTasks(r, today) == [] && UpcomingTasks(r, today) == []
  {
    var t := Task(1, "Pay rent", Day(today - 1), true, High, OnTime);
    CheckDueDatesLeavesOthers([t], today, today, 0);
    assert CheckDueDates([t], today, today) == [t];
    FilterNone([t], InPending);
    FilterNone([t], (x: Task) => InToday(x, today));
    FilterNone([t], (x: Task) => InUpcoming(x, today));
  }

  /** Editing keeps the status, so a pending task given today's date is shown both
      under pending and under today. */
  lemma EditedPendingTaskInTwoViews(today: int)
    ensures var t := Task(1, "Pay rent", Day(today - 9), false, High, Pending);
      var r := EditTask([t], 1, "Pay rent", Day(today), High);
      r[0] in PendingTasks(r) && r[0] in TodaysTasks(r, today)
  {
    var t := Task(1, "Pay rent", Day(today - 9), false, High, Pending);
    var r := EditTask([t], 1, "Pay rent", Day(today), High);
    assert r[0] in r;
  }

  /** A task due before today that is added and then swept is shown under pending
      only. */
  lemma OverdueTaskScenario(id: int, today: int)
    ensures var s := CheckDueDates(Added([], id, "Pay rent", Day(today - 9), High), today, today);
      |s| == 1 &&
      s[0] in PendingTasks(s) && s[0] !in TodaysTasks(s, today) && s[0] !in UpcomingTasks(s, today)
  {
    var a := Added([], id, "Pay rent", Day(today - 9), High);
    assert !IsBlank("Pay rent") by { assert !IsWhitespace("Pay rent"[0]); }
    var s := CheckDueDates(a, today, today);
    assert s[0] in s;
  }

  /** A task added for today is shown under today and never becomes pending on that
      day, however often the sweep runs. */
  lemma TodayTaskScenario(id: int, today: int, sweeps: nat)
    ensures var s := SweepTimes(Added([], id, "Write report", Day(today), Medium), today, sweeps);
      |s| == 1 && s[0] in TodaysTasks(s, today) && s[0] !in PendingTasks(s)
  {
    var a := Added([], id, "Write report", Day(today), Medium);
    assert !IsBlank("Write report") by { assert !IsWhitespace("Write report"[0]); }
    SweepTimesKeepsToday(a, today, sweeps);
    var s := SweepTimes(a, today, sweeps);
    assert s[0] in s;
  }

  /** `n` sweeps on the same day, one after the other, each with an up-to-date
      `today`. */
  function SweepTimes(s: seq<Task>, today: int, n: nat): seq<Task> {
    if n == 0 then s else CheckDueDates(SweepTimes(s, today, n - 1), today, today)
  }

  lemma {:induction false} SweepTimesKeepsToday(s: seq<Task>, today: int, n: nat)
    requires forall t :: t in s ==> InToday(t, today) && !InPending(t)
    ensures SweepTimes(s, today, n) == s
  {
    if n > 0 {
      SweepTimesKeepsToday(s, today, n - 1);
      forall i | 0 <= i < |s| ensures CheckDueDates(s, today, today)[i] == s[i] {
        assert s[i] in s;
        CheckDueDatesLeavesOthers(s, today, today, i);
      }
    }
  }
}
