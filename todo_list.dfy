/** The state of the to-do page: the task list, one page cursor per view and the
    page size, with the operations that update them in place. */
module TodoState {
  import opened Seqs
  import opened Tasks
  import opened Views
  import opened Paging

  datatype Option<T> = None | Some(value: T)

  /** Which of the three paginated views a cursor belongs to. */
  datatype View = PendingView | TodayView | UpcomingView

  class TodoList {
    var taskList: seq<Task>
    var pendingPage: int
    var todaysPage: int
    var upcomingPage: int
    var pageLimit: int

    /** The page size is positive and every cursor is at least 1. */
    predicate Valid()
      reads this
    {
      pageLimit > 0 && pendingPage >= 1 && todaysPage >= 1 && upcomingPage >= 1
    }

    /** No tasks, every cursor on page 1, ten tasks per page. */
    constructor ()
      ensures Valid()
      ensures taskList == [] && pendingPage == 1 && todaysPage == 1 && upcomingPage == 1
      ensures pageLimit == 10
    {
      taskList := [];
      pendingPage, todaysPage, upcomingPage := 1, 1, 1;
      pageLimit := 10;
    }

    function Cursor(v: View): int
      reads this
    {
      match v
      case PendingView => pendingPage
      case TodayView => todaysPage
      case UpcomingView => upcomingPage
    }

    function ViewTasks(v: View, today: int): seq<Task>
      reads this
    {
      match v
      case PendingView => PendingTasks(taskList)
      case TodayView => TodaysTasks(taskList, today)
      case UpcomingView => UpcomingTasks(taskList, today)
    }

    /** `paginatedPendingTasks`, `paginatedTodaysTasks` and `paginatedUpcomingTasks`:
        `Page` of the view at its cursor. It has at most `pageLimit` tasks, all from
        the view (`PaginatedSlice` says which ones), and it is empty exactly
        when the cursor is past the view's last page. */
    function Paginated(v: View, today: int): (r: seq<Task>)
      reads this
      requires Valid()
      ensures |r| <= pageLimit
      ensures forall t :: t in r ==> t in ViewTasks(v, today)
      ensures r != [] <==> Cursor(v) <= TotalPages(|ViewTasks(v, today)|, pageLimit)
    {
      var view := ViewTasks(v, today);
      var cursor: nat := Cursor(v);
      PageNonEmptyIffInRange(view, cursor, pageLimit);
      Page(view, cursor, pageLimit)
    }

    /** A page that has tasks is the run of the view's tasks that begins at
        `PageStart(v)`: the tasks at `(cursor - 1) * pageLimit` onward, in view order.
        It is `pageLimit` long, or shorter when it is the view's last page. */
    lemma PaginatedSlice(v: View, today: int)
      requires Valid()
      ensures var r := Paginated(v, today); var view := ViewTasks(v, today); var start := PageStart(v);
        r != [] ==> start + |r| <= |view| && r == view[start..start + |r|]
      ensures var r := Paginated(v, today); var view := ViewTasks(v, today); var start := PageStart(v);
        start < |view| ==> |r| == (if start + pageLimit <= |view| then pageLimit else |view| - start)
    {
      var view := ViewTasks(v, today);
      var r := Paginated(v, today);
      var start := PageStart(v);
      assert r == Page(view, Cursor(v), pageLimit);
      assert start == (Cursor(v) - 1) * pageLimit;
      PageIsRun(view, Cursor(v), pageLimit);
    }

    /** Index in the view of the first task on the cursor's page. */
    function PageStart(v: View): nat
      reads this
      requires Valid()
    {
      MulMonotone(0, Cursor(v) - 1, pageLimit);
      (Cursor(v) - 1) * pageLimit
    }

    /** `addTask` with the draft's name, due date and priority and a fresh id. */
    method AddTask(id: int, name: string, due: DueDate, priority: Priority)
      requires Valid()
      modifies this
      ensures Valid()
      ensures taskList == Added(old(taskList), id, name, due, priority)
      ensures pendingPage == old(pendingPage) && todaysPage == old(todaysPage)
      ensures upcomingPage == old(upcomingPage) && pageLimit == old(pageLimit)
    {
      if !IsBlank(name) && due != NoDate {
        var newTask := Task(id, name, due, false, priority, OnTime);
        taskList := taskList + [newTask];
      }
    }

    /** `onDragEnd`: a drop outside any list (no destination) changes nothing;
        otherwise the task at `source` is spliced out of a copy of the list and
        spliced back in at the destination index. */
    method OnDragEnd(source: nat, destination: Option<nat>)
      requires Valid()
      requires source < |taskList|
      modifies this
      ensures Valid()
      ensures destination.None? ==> taskList == old(taskList)
      ensures destination.Some? ==> taskList == Reordered(old(taskList), source, destination.value)
      ensures pendingPage == old(pendingPage) && todaysPage == old(todaysPage)
      ensures upcomingPage == old(upcomingPage) && pageLimit == old(pageLimit)
    {
      if destination.None? {
        return;
      }
      var movedTask := taskList[source];
      var updatedTasks := taskList;
      updatedTasks := RemoveAt(updatedTasks, source);
      updatedTasks := InsertAt(updatedTasks, destination.value, movedTask);
      taskList := updatedTasks;
    }

    /** `handlePageChange`: the cursor of view `v` moves to `page` when
        `0 < page <= totalPages`; any other request is ignored. Nothing else changes. */
    method HandlePageChange(v: View, page: int, totalPages: int)
      requires Valid()
      modifies this
      ensures Valid()
      ensures Cursor(v) == if 0 < page <= totalPages then page else old(Cursor(v))
      ensures forall w :: w != v ==> Cursor(w) == old(Cursor(w))
      ensures taskList == old(taskList) && pageLimit == old(pageLimit)
    {
      if page > 0 && page <= totalPages {
        match v
        case PendingView => pendingPage := page;
        case TodayView => todaysPage := page;
        case UpcomingView => upcomingPage := page;
      }
    }

    /** The "previous" button under a view: `handlePageChange` with the cursor minus
        one and the view's page count. The cursor stops at page 1, and it also stays
        put when the view has shrunk so far that the previous page is past the end. */
    method PreviousPage(v: View, today: int)
      requires Valid()
      modifies this
      ensures Valid()
      ensures var n := TotalPages(|ViewTasks(v, today)|, pageLimit);
        Cursor(v) == if 1 < old(Cursor(v)) <= n + 1 then old(Cursor(v)) - 1 else old(Cursor(v))
      ensures Cursor(v) != old(Cursor(v)) ==> Paginated(v, today) != []
      ensures forall w :: w != v ==> Cursor(w) == old(Cursor(w))
      ensures taskList == old(taskList) && pageLimit == old(pageLimit)
    {
      var total := TotalPages(|ViewTasks(v, today)|, pageLimit);
      HandlePageChange(v, Cursor(v) - 1, total);
    }

    /** The "next" button under a view: `handlePageChange` with the cursor plus one
        and the view's page count, so the cursor stops at the last page. Either button,
        when it moves the cursor, lands on a page that has tasks. */
    method NextPage(v: View, today: int)
      requires Valid()
      modifies this
      ensures Valid()
      ensures var n := TotalPages(|ViewTasks(v, today)|, pageLimit);
        Cursor(v) == if old(Cursor(v)) + 1 <= n then old(Cursor(v)) + 1 else old(Cursor(v))
      ensures Cursor(v) != old(Cursor(v)) ==> Paginated(v, today) != []
      ensures forall w :: w != v ==> Cursor(w) == old(Cursor(w))
      ensures taskList == old(taskList) && pageLimit == old(pageLimit)
    {
      var total := TotalPages(|ViewTasks(v, today)|, pageLimit);
      HandlePageChange(v, Cursor(v) + 1, total);
    }
  }
}
