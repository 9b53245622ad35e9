/** The due-date sweep that the to-do component runs once a minute: every task that
    is overdue and not done is marked pending. One run is modelled as a function of
    the task list and two days: `renderDay`, the `today` string that the sweep
    captured when the page last rendered, and `nowDay`, the day of the instant at
    which the timer fires. The two differ on the first tick after midnight when no
    render happened in between. */
module DueDates {
  import opened Seqs
  import opened Tasks

  /** `new Date(dueDate) < now && dueDate !== today`. The due date parses to midnight
      of its day, which is earlier than the current instant for every day up to and
      including `nowDay`; the second conjunct excludes the render-time `today`. An
      empty due date parses to an invalid date, which compares as not earlier. */
  predicate IsOverdue(t: Task, renderDay: int, nowDay: int) {
    t.dueDate.Day? && t.dueDate.day <= nowDay && t.dueDate.day != renderDay
  }

  /** When the two days agree, the test is "due strictly before today". */
  lemma IsOverdueSameDay(t: Task, today: int)
    ensures IsOverdue(t, today, today) <==> t.dueDate.Day? && t.dueDate.day < today
  {
  }

  function Swept(t: Task, renderDay: int, nowDay: int): Task {
    if IsOverdue(t, renderDay, nowDay) && !t.done then t.(status := Pending) else t
  }

  /** `checkDueDates`: a task ends up pending exactly when it was pending already or
      is overdue and not done; the status is the only field that can change. */
  function CheckDueDates(s: seq<Task>, renderDay: int, nowDay: int): (r: seq<Task>)
    ensures |r| == |s|
    ensures forall i :: 0 <= i < |s| ==> r[i].(status := s[i].status) == s[i]
    ensures forall i :: 0 <= i < |s| ==>
      (r[i].status == Pending <==>
       s[i].status == Pending || (IsOverdue(s[i], renderDay, nowDay) && !s[i].done))
  {
    Map(s, t => Swept(t, renderDay, nowDay))
  }

  /** A task that the sweep does not select is left exactly as it was. */
  lemma CheckDueDatesLeavesOthers(s: seq<Task>, renderDay: int, nowDay: int, i: nat)
    requires i < |s| && !(IsOverdue(s[i], renderDay, nowDay) && !s[i].done)
    ensures CheckDueDates(s, renderDay, nowDay)[i] == s[i]
  {
    var r := CheckDueDates(s, renderDay, nowDay);
    assert r[i].status == s[i].status;
    assert r[i] == r[i].(status := s[i].status);
  }

  /** Two sweeps give the same list in either order: each one reads only the due
      date and the completion flag, which neither changes. */
  lemma CheckDueDatesCommute(s: seq<Task>, r1: int, n1: int, r2: int, n2: int)
    ensures CheckDueDates(CheckDueDates(s, r1, n1), r2, n2) == CheckDueDates(CheckDueDates(s, r2, n2), r1, n1)
  {
    var a := CheckDueDates(s, r1, n1);
    var b := CheckDueDates(s, r2, n2);
    var ab := CheckDueDates(a, r2, n2);
    var ba := CheckDueDates(b, r1, n1);
    forall i | 0 <= i < |s| ensures ab[i] == ba[i] {
      assert a[i].dueDate == s[i].dueDate && a[i].done == s[i].done;
      assert b[i].dueDate == s[i].dueDate && b[i].done == s[i].done;
      assert ab[i] == s[i].(status := ab[i].status);
      assert ba[i] == s[i].(status := ba[i].status);
    }
  }

  /** A second sweep with the same two days changes nothing. */
  lemma CheckDueDatesIdempotent(s: seq<Task>, renderDay: int, nowDay: int)
    ensures CheckDueDates(CheckDueDates(s, renderDay, nowDay), renderDay, nowDay) == CheckDueDates(s, renderDay, nowDay)
  {
    var once := CheckDueDates(s, renderDay, nowDay);
    var twice := CheckDueDates(once, renderDay, nowDay);
    forall i | 0 <= i < |s| ensures twice[i] == once[i] {
      assert once[i].dueDate == s[i].dueDate && once[i].done == s[i].done;
      assert twice[i] == once[i].(status := twice[i].status);
    }
  }

  /** With the two days in agreement, sweeps on days `a` and `b` do what one sweep on
      the later of the two does. */
  lemma CheckDueDatesTwice(s: seq<Task>, a: int, b: int)
    ensures CheckDueDates(CheckDueDates(s, a, a), b, b) == CheckDueDates(s, if a < b then b else a, if a < b then b else a)
  {
    var m := if a < b then b else a;
    var once := CheckDueDates(s, a, a);
    var twice := CheckDueDates(once, b, b);
    var direct := CheckDueDates(s, m, m);
    forall i | 0 <= i < |s| ensures twice[i] == direct[i] {
      assert once[i].dueDate == s[i].dueDate && once[i].done == s[i].done;
      assert twice[i] == s[i].(status := twice[i].status);
      assert direct[i] == s[i].(status := direct[i].status);
    }
  }

  /** The first tick after midnight, before any render: `today` still names the day
      before, so an unfinished task due on the new day is marked pending although it
      is due today. */
  lemma StaleTickMarksTaskDueToday(t: Task, day: int)
    requires t.dueDate == Day(day) && !t.done
    ensures CheckDueDates([t], day - 1, day)[0].status == Pending
  {
  }
}
