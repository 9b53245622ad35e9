# To-do list: task store, due-date sweep, views and pagination

This project models the logic of the to-do page of a client-rendered task manager
(`src/app/todo/index.tsx`). The page keeps an ordered, in-memory list of tasks. Each
task has an id, a name, a due date, a completion flag, a priority and a status
(`pending` or `on-time`).

- The user adds, edits, deletes, completes and drags tasks.
- A sweep that runs once a minute marks overdue, unfinished tasks as pending.
- The page shows three lists filtered from the task list: pending, due today and
  upcoming.
- Each list is cut into pages of ten, with a cursor per list that the "previous" and
  "next" buttons move.

Modules:

- `Seqs` (`seqs.dfy`): the array methods the component uses, written as functions.
  These are `map`, `filter`, `slice` and the two `splice` forms. It also holds the
  subsequence relation that filtering keeps, and moving an element.
- `Tasks` (`tasks.dfy`): the task record. It has the pure list operations `editTask`,
  `deleteTask` and `toggleTaskStatus`, the functions that specify `addTask` and
  `onDragEnd`, and lemmas about ids.
- `DueDates` (`due_dates.dfy`): one run of `checkDueDates`, as a function of the task
  list and two days. `renderDay` is the `today` string the sweep captured at the last
  render, and `nowDay` is the day on which the timer fires.
- `Views` (`views.dfy`): the `pendingTasks`, `todaysTasks` and `upcomingTasks`
  filters, and how they interact with the sweep and with editing.
- `Paging` (`paging.dfy`): page slices, the page count, and the proof that the pages
  put back together give the view.
- `TodoState` (`todo_list.dfy`): the component state as a class. Its fields are the
  task list, the three cursors and the page size. It has the methods that update them
  in place: `addTask`, `onDragEnd`, `handlePageChange` and the two page buttons.

Dates are abstract day numbers. A `YYYY-MM-DD` string is either a day `Day(d)`, where
later days get larger numbers, or the empty string `NoDate`. The date field yields
`NoDate` when it is cleared. `addTask` rejects it, but `editTask` accepts it. The
string comparisons `dueDate === today` and `dueDate > today` are compared as days.
An empty due date is never equal to today and never later than today. "Today" and the
new task's id are parameters. `new Date(dueDate) < now` is read as "the due day is on
or before the current day", since a due date parses to midnight at the start of its day.

Properties one might expect of such a page that the code does not have:

- One might expect every task to be in exactly one of the three views. The code does
  not guarantee this.
  - A task completed before its due date stays `on-time`. Once the date has passed,
    it is in no view (`Views.CompletedOverdueTaskIsHidden`).
  - Editing keeps the status, so a pending task moved to today is in both the pending
    and the today view (`Views.EditedPendingTaskInTwoViews`).
  - What does hold: today and upcoming are disjoint, upcoming and pending are disjoint
    (`Views.ViewsDisjoint`), and after a sweep every unfinished task with a due date
    is shown somewhere (`Views.SweptUndoneTasksAreShown`).
- The sweep is memoized on `today` and runs from a timer, so on the first tick after
  midnight it can still see the previous day's `today` string. If no render happened
  in between, an unfinished task due on the new day is then marked pending. Once the
  page renders, that task is under both pending and today, and no later sweep undoes
  it (`Views.StaleTickTaskInTwoViews`). The same tick skips an unfinished task due on
  the day that has just ended, since that day is still its `today`. After the render,
  that task is in none of the three views until the next tick
  (`Views.StaleTickSkipsTaskDueYesterday`). `Views.SweepKeepsToday`,
  `Views.SweptUndoneTasksAreShown`, `DueDates.CheckDueDatesTwice` and the scenarios
  are therefore stated for a sweep whose two days agree.
- Ids come from the clock and are not checked, so two tasks can share one. Uniqueness
  therefore appears only as an explicit precondition: adding a fresh id and reordering
  keep it, and with it a delete removes exactly one task.
- The cursors are never clamped when a view shrinks. The contracts of
  `TodoState.TodoList.PreviousPage` and `NextPage` show what follows. Take a cursor
  more than one page past the view's last page. Both buttons then leave it where it
  is, because the previous page is also past the end. The view stays on an empty page
  until it grows again.

## Model

| member | source | states |
|---|---|---|
| `Tasks.Added` | src/app/todo/index.tsx:40-48 | a blank name or an empty due date leaves the list unchanged; otherwise exactly one task is appended after the untouched old tasks, with the given id, name, due date and priority, not done and on time |
| `Tasks.AddedKeepsIdsUnique` | src/app/todo/index.tsx:42-43 | adding with an id no task has keeps the ids unique |
| `Tasks.EditTask` | src/app/todo/index.tsx:50-56 | same length and order; each task with the id gets the new name, due date and priority and keeps its id, done flag and status; every other task is unchanged |
| `Tasks.EditAbsentIsNoOp` | src/app/todo/index.tsx:50-56 | editing an id that no task has returns the list unchanged |
| `Tasks.DeleteTask` | src/app/todo/index.tsx:58-62 | the result is an order-preserving subsequence; it holds exactly the tasks whose id differs, with their multiplicities; no task with the id remains; it is no longer than the input |
| `Tasks.DeleteShrinksIffPresent` | src/app/todo/index.tsx:58-62 | the list gets shorter if and only if some task has the id; otherwise it is returned unchanged |
| `Tasks.DeleteUniqueRemovesOne` | src/app/todo/index.tsx:58-62 | with unique ids, deleting a present id removes exactly one task |
| `Tasks.ToggleTaskStatus` | src/app/todo/index.tsx:64-70 | same length; only the done flag can change, and it flips exactly on the tasks with the id |
| `Tasks.ToggleTwiceRestores` | src/app/todo/index.tsx:64-70 | toggling the same id twice gives back the original list |
| `Tasks.Reordered` | src/app/todo/index.tsx:95-98 | a permutation of the same length; the dragged task is at the destination index, clipped to the last index; removing it from there gives the other tasks in their old relative order |
| `Tasks.ReorderedKeepsIdsUnique` | src/app/todo/index.tsx:95-98 | reordering keeps unique ids unique |
| `Tasks.ReorderedExample` | src/app/todo/index.tsx:95-98 | dragging the third of four tasks to index 0 gives the third, first, second, fourth task |
| `Seqs.Map` | src/app/todo/index.tsx:52 | one result per element, at the same index, as `Array.prototype.map` |
| `Seqs.Filter` | src/app/todo/index.tsx:60 | an order-preserving subsequence of the input that holds exactly the elements satisfying the predicate, with their multiplicities, as `Array.prototype.filter` |
| `Seqs.Slice` | src/app/todo/index.tsx:109 | `slice(start, end)` for non-negative bounds: the elements from `start` up to `end`, clipped to the length, empty when `start` is at or past the end |
| `Seqs.RemoveAt` | src/app/todo/index.tsx:97 | `splice(i, 1)`: one element shorter, with the element at `i` taken out and the others shifted down |
| `Seqs.InsertAt` | src/app/todo/index.tsx:98 | `splice(i, 0, x)`: one element longer, `x` at `i`, or appended when `i` is past the end, and the others shifted around it |
| `Seqs.MovePermutes` | src/app/todo/index.tsx:95-98 | removing an element and inserting it again keeps the length and the multiset of elements |
| `Seqs.MoveLands` | src/app/todo/index.tsx:95-98 | the moved element is at the clipped destination index, and removing it from there gives what remained after the first splice |
| `DueDates.IsOverdueSameDay` | src/app/todo/index.tsx:77 | when the render day and the tick day agree, a task is overdue exactly when it has a due date strictly before that day |
| `DueDates.CheckDueDates` | src/app/todo/index.tsx:72-83 | same length; only the status can change; a task is pending afterwards if and only if it was pending already, or it is due on or before the tick day but not on the render day and is not done; so pending never turns back into on-time |
| `DueDates.CheckDueDatesLeavesOthers` | src/app/todo/index.tsx:75-80 | a task that is not overdue or is done comes out of the sweep exactly as it went in |
| `DueDates.CheckDueDatesCommute` | src/app/todo/index.tsx:72-88 | two sweeps, with any days, give the same list in either order |
| `DueDates.CheckDueDatesIdempotent` | src/app/todo/index.tsx:72-88 | a second sweep with the same render day and tick day changes nothing |
| `DueDates.CheckDueDatesTwice` | src/app/todo/index.tsx:72-88 | with up-to-date days, a sweep on day `a` followed by one on day `b` does what one sweep on the later of the two does |
| `DueDates.StaleTickMarksTaskDueToday` | src/app/todo/index.tsx:73-83 | a sweep whose render day is the day before its tick day marks an unfinished task due on the tick day pending |
| `Views.PendingTasks` | src/app/todo/index.tsx:103 | an order-preserving subsequence of the list that holds exactly the pending tasks, with their multiplicities |
| `Views.TodaysTasks` | src/app/todo/index.tsx:104 | an order-preserving subsequence of the list that holds exactly the tasks due today, with their multiplicities |
| `Views.UpcomingTasks` | src/app/todo/index.tsx:105 | an order-preserving subsequence of the list that holds exactly the tasks due after today that are not pending, with their multiplicities |
| `Views.ViewsDisjoint` | src/app/todo/index.tsx:103-105 | no task is in both the today and the upcoming view, and none is in both the upcoming and the pending view |
| `Views.SweptUndoneTasksAreShown` | src/app/todo/index.tsx:72-105 | after a sweep whose two days agree, every task that is not done and has a due date is in at least one of the three views |
| `Views.SweepFillsPending` | src/app/todo/index.tsx:77-78 | after a sweep with any two days, each task it finds overdue and not done is in the pending view, marked pending |
| `Views.SweepKeepsToday` | src/app/todo/index.tsx:72-104 | a sweep whose two days agree leaves the today view unchanged |
| `Views.SweepKeepsUpcoming` | src/app/todo/index.tsx:72-105 | a sweep with any render day leaves the upcoming view of its tick day unchanged |
| `Views.StaleTickTaskInTwoViews` | src/app/todo/index.tsx:72-104 | after a stale first tick past midnight, an unfinished task due on the new day is pending and is in both the pending and the today view of that day |
| `Views.StaleTickSkipsTaskDueYesterday` | src/app/todo/index.tsx:72-105 | the stale first tick past midnight leaves an unfinished task due on the day just ended unchanged, and it is then in none of the three views of the new day |
| `Views.CompletedOverdueTaskIsHidden` | src/app/todo/index.tsx:77-105 | a task completed before its due date and still on time is left alone by the sweep and then is in none of the three views |
| `Views.EditedPendingTaskInTwoViews` | src/app/todo/index.tsx:53-104 | a pending task edited to today's date is in both the pending and the today view |
| `Views.OverdueTaskScenario` | src/app/todo/index.tsx:40-105 | a task added with a past due date and then swept is in the pending view and in neither the today nor the upcoming view |
| `Views.TodayTaskScenario` | src/app/todo/index.tsx:40-104 | a task added for today stays in the today view and out of the pending view, however many sweeps run that day |
| `Paging.TotalPages` | src/app/todo/index.tsx:128 | the least page count whose pages hold all tasks: enough pages, the last one not empty, and zero pages exactly for an empty view |
| `Paging.Page` | src/app/todo/index.tsx:107-120 | at most `limit` elements, namely the view's elements from `(page - 1) * limit` on, clipped to the view, and empty once the page starts past the end |
| `Paging.PagesUpToIsPrefix` | src/app/todo/index.tsx:107-120 | pages 1 to `k` put together are the view's first `k * limit` elements, or the whole view |
| `Paging.PagesReconstructView` | src/app/todo/index.tsx:107-128 | pages 1 to the page count put together give back exactly the view |
| `Paging.PageIsRun` | src/app/todo/index.tsx:107-120 | a page that has elements is the run of consecutive view elements that begins at `(page - 1) * limit`; a page that starts inside the view is `limit` long, or holds the rest of the view when fewer remain |
| `Paging.PageNonEmptyIffInRange` | src/app/todo/index.tsx:107-128 | a page has tasks if and only if its number is at most the page count |
| `TodoState.TodoList.constructor` | src/app/todo/index.tsx:24-38 | the list starts empty, every cursor on page 1, ten tasks per page |
| `TodoState.TodoList.Paginated` | src/app/todo/index.tsx:107-120 | the cursor's page of a view has at most `pageLimit` tasks, all from the view, and is empty exactly when the cursor is past the view's page count |
| `TodoState.TodoList.PaginatedSlice` | src/app/todo/index.tsx:107-120 | a page of a view that has tasks is the run of the view's tasks that begins at `(cursor - 1) * pageLimit`, in view order; a page that starts inside the view has `pageLimit` tasks, or the rest of the view when fewer remain |
| `TodoState.TodoList.AddTask` | src/app/todo/index.tsx:40-48 | the list becomes `Added` of the old list; the cursors and the page size are unchanged |
| `TodoState.TodoList.OnDragEnd` | src/app/todo/index.tsx:90-101 | with no destination nothing changes; otherwise the list becomes `Reordered` of the old list; the cursors and the page size are unchanged |
| `TodoState.TodoList.HandlePageChange` | src/app/todo/index.tsx:122-126 | the view's cursor becomes the requested page exactly when `0 < page <= totalPages`, and otherwise stays; so page 0 and the page after the last are rejected; nothing else changes |
| `TodoState.TodoList.PreviousPage` | src/app/todo/index.tsx:233 | the cursor moves back one page only when that page is between 1 and the page count; when it moves, it lands on a page with tasks; the today and upcoming buttons, at lines 313 and 398, make the same call on their own cursor |
| `TodoState.TodoList.NextPage` | src/app/todo/index.tsx:240 | the cursor moves on one page only when that page is at most the page count; when it moves, it lands on a page with tasks; the today and upcoming buttons, at lines 320 and 405, make the same call on their own cursor |

## Left out

- Rendering, the form drafts (`newTask`, `updatedTask*`, `selectedTaskId`) and their resets after an add or an edit. These are presentation. The draft values become the parameters of `AddTask` and `EditTask`.
- The navbar and the separate pagination component. They only render buttons and a colour selector, and the to-do page does not use the pagination component.
- The one-minute `setInterval` timer and its `clearInterval`. These are host scheduling. One run of the sweep is a function of the list and the day, and repeated runs are `Views.SweepTimes`.
- Clock reads: `Date.now()` for ids, and `new Date()` and `toISOString` for today. Ids and today are parameters.
- Time zones and date-string parsing. A due date parses to midnight UTC, while `today` comes from `toISOString`, so both are UTC days here. At exactly 00:00:00.000 of a due day, `new Date(d) < now` is false, but the model's `d <= nowDay` holds; that single instant is not modelled.
- `IsBlank` counts only space, tab, line feed and carriage return as whitespace. `trim()` also removes other Unicode whitespace.
- Due dates with a year above 9999, which the date input accepts, are not modelled. For them the string comparison `dueDate > today` at src/app/todo/index.tsx line 105 does not follow day order, so such a task is left out of upcoming, while the model's day numbers would put it there. Date strings that are neither empty nor a calendar day are not modelled either.
- Re-clamping of the cursors when a view shrinks. The code does not do it.
- The drag library's own bookkeeping. It reports a source index inside the list and a non-negative destination index, which is what `OnDragEnd` requires. The indices it reports are page-local, but `onDragEnd` applies them to the whole list. `OnDragEnd` is modelled on the whole list, exactly as the code is written.
- `Paging.TotalPages`: computes the ceiling with integers, not with `Math.ceil` of a floating-point quotient. The two agree for every list length below 2^53.
- `setPageLimit` is never called, so the page size is the constant the constructor sets.
