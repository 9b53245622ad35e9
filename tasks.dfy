/** The task record of the to-do component and the operations that build a new
    task list from the old one: adding, editing, deleting, toggling and reordering. */
module Tasks {
  import opened Seqs

  datatype Priority = Low | Medium | High

  /** `"pending"` or `"on-time"`; independent of whether the task is done. */
  datatype Status = Pending | OnTime

  /** A due date as entered in the date field. `Day(d)` is a calendar day as a day
      number (later days are larger); `NoDate` is the empty string that the date
      field yields when it is cleared. */
  datatype DueDate = NoDate | Day(day: int)

  datatype Task = Task(id: int, name: string, dueDate: DueDate, done: bool, priority: Priority, status: Status)

  /** The whitespace characters that `trim()` removes, as far as this model sees them. */
  predicate IsWhitespace(c: char) {
    c == ' ' || c == '\t' || c == '\n' || c == '\r'
  }

  /** `name.trim() === ""`. */
  predicate IsBlank(name: string) {
    forall i :: 0 <= i < |name| ==> IsWhitespace(name[i])
  }

  /** No two tasks of the list share an id. The component does not enforce this. */
  predicate UniqueIds(s: seq<Task>) {
    forall i, j :: 0 <= i < j < |s| ==> s[i].id != s[j].id
  }

  predicate HasId(s: seq<Task>, id: int) {
    exists t :: t in s && t.id == id
  }

  /** The list after the add button: the draft is rejected when its trimmed name is
      empty or its due date is empty; otherwise a new, not-done, on-time task is
      appended with the given id. */
  function Added(s: seq<Task>, id: int, name: string, due: DueDate, priority: Priority): (r: seq<Task>)
    ensures IsBlank(name) || due == NoDate ==> r == s
    ensures !IsBlank(name) && due != NoDate ==>
      |r| == |s| + 1 && r[..|s|] == s &&
      r[|s|].id == id && r[|s|].name == name && r[|s|].dueDate == due && r[|s|].priority == priority &&
      !r[|s|].done && r[|s|].status == OnTime
  {
    if !IsBlank(name) && due != NoDate then s + [Task(id, name, due, false, priority, OnTime)] else s
  }

  /** An id not yet in the list keeps the ids unique after an add. */
  lemma AddedKeepsIdsUnique(s: seq<Task>, id: int, name: string, due: DueDate, priority: Priority)
    requires UniqueIds(s) && !HasId(s, id)
    ensures UniqueIds(Added(s, id, name, due, priority))
  {
    var r := Added(s, id, name, due, priority);
    if r != s {
      forall i | 0 <= i < |s| ensures r[i].id != id {
        assert r[i] == s[i] && s[i] in s;
      }
    }
  }

  function Edited(t: Task, id: int, name: string, due: DueDate, priority: Priority): Task {
    if t.id == id then t.(name := name, dueDate := due, priority := priority) else t
  }

  /** `editTask`: every task with the id gets the new name, due date and priority and
      keeps its id, completion flag and status; every other task is left as it was. */
  function EditTask(s: seq<Task>, id: int, name: string, due: DueDate, priority: Priority): (r: seq<Task>)
    ensures |r| == |s|
    ensures forall i :: 0 <= i < |s| ==>
      r[i].id == s[i].id && r[i].done == s[i].done && r[i].status == s[i].status
    ensures forall i :: 0 <= i < |s| && s[i].id == id ==>
      r[i].name == name && r[i].dueDate == due && r[i].priority == priority
    ensures forall i :: 0 <= i < |s| && s[i].id != id ==> r[i] == s[i]
  {
    Map(s, t => Edited(t, id, name, due, priority))
  }

  /** Editing an id that no task has changes nothing. */
  lemma EditAbsentIsNoOp(s: seq<Task>, id: int, name: string, due: DueDate, priority: Priority)
    requires !HasId(s, id)
    ensures EditTask(s, id, name, due, priority) == s
  {
    var r := EditTask(s, id, name, due, priority);
    forall i | 0 <= i < |s| ensures r[i] == s[i] {
      assert s[i] in s;
    }
  }

  /** `deleteTask`: the tasks whose id differs, in their original order. */
  function DeleteTask(s: seq<Task>, id: int): (r: seq<Task>)
    ensures IsSubseq(r, s)
    ensures forall t :: t in r <==> t in s && t.id != id
    ensures forall t: Task :: t.id != id ==> multiset(r)[t] == multiset(s)[t]
    ensures !HasId(r, id)
    ensures |r| <= |s|
  {
    Filter(s, (t: Task) => t.id != id)
  }

  /** Deleting shortens the list exactly when some task has the id; otherwise the
      list is returned unchanged. */
  lemma DeleteShrinksIffPresent(s: seq<Task>, id: int)
    ensures HasId(s, id) <==> |DeleteTask(s, id)| < |s|
    ensures !HasId(s, id) ==> DeleteTask(s, id) == s
  {
    if HasId(s, id) {
      var t :| t in s && t.id == id;
      FilterDropShrinks(s, (t: Task) => t.id != id, t);
    } else {
      FilterAll(s, (t: Task) => t.id != id);
    }
  }

  /** When ids are unique, deleting a present id removes exactly one task. */
  lemma {:induction false} DeleteUniqueRemovesOne(s: seq<Task>, id: int)
    requires UniqueIds(s) && HasId(s, id)
    ensures |DeleteTask(s, id)| == |s| - 1
  {
    assert UniqueIds(s[1..]) by {
      forall i, j | 0 <= i < j < |s[1..]| ensures s[1..][i].id != s[1..][j].id {
        assert s[1..][i] == s[i + 1] && s[1..][j] == s[j + 1];
      }
    }
    if s[0].id == id {
      forall t | t in s[1..] ensures t.id != id {
        var k :| 0 <= k < |s[1..]| && s[1..][k] == t;
        assert s[k + 1] == t;
      }
      FilterAll(s[1..], (t: Task) => t.id != id);
    } else {
      var t :| t in s && t.id == id;
      assert t in s[1..] by { assert s == [s[0]] + s[1..]; }
      DeleteUniqueRemovesOne(s[1..], id);
    }
  }

  function Toggled(t: Task, id: int): Task {
    if t.id == id then t.(done := !t.done) else t
  }

  /** `toggleTaskStatus`: the completion flag flips on exactly the tasks with the id;
      no other field and no other task changes. */
  function ToggleTaskStatus(s: seq<Task>, id: int): (r: seq<Task>)
    ensures |r| == |s|
    ensures forall i :: 0 <= i < |s| ==> r[i].(done := s[i].done) == s[i]
    ensures forall i :: 0 <= i < |s| ==> (r[i].done != s[i].done <==> s[i].id == id)
  {
    Map(s, t => Toggled(t, id))
  }

  /** Toggling the same id twice restores the list. */
  lemma ToggleTwiceRestores(s: seq<Task>, id: int)
    ensures ToggleTaskStatus(ToggleTaskStatus(s, id), id) == s
  {
    var r := ToggleTaskStatus(ToggleTaskStatus(s, id), id);
    forall i | 0 <= i < |s| ensures r[i] == s[i] {
      assert ToggleTaskStatus(s, id)[i].id == s[i].id;
    }
  }

  /** `onDragEnd` with a destination: the dragged task is spliced out of a copy of
      the list at the source index and spliced back in at the destination index. */
  function Reordered(s: seq<Task>, source: nat, destination: nat): (r: seq<Task>)
    requires source < |s|
    ensures |r| == |s| && multiset(r) == multiset(s)
    ensures r[Landing(|s|, destination)] == s[source]
    ensures RemoveAt(r, Landing(|s|, destination)) == RemoveAt(s, source)
  {
    MovePermutes(s, source, destination);
    MoveLands(s, source, destination);
    Move(s, source, destination)
  }

  /** A reorder keeps the ids unique. */
  lemma ReorderedKeepsIdsUnique(s: seq<Task>, source: nat, destination: nat)
    requires source < |s| && UniqueIds(s)
    ensures UniqueIds(Reordered(s, source, destination))
  {
    var x := s[source];
    var rest := RemoveAt(s, source);
    assert UniqueIds(rest) by {
      forall i, j | 0 <= i < j < |rest| ensures rest[i].id != rest[j].id {
        var a := if i < source then i else i + 1;
        var b := if j < source then j else j + 1;
        assert rest[i] == s[a] && rest[j] == s[b] && a < b;
      }
    }
    forall k | 0 <= k < |rest| ensures rest[k].id != x.id {
      var a := if k < source then k else k + 1;
      assert rest[k] == s[a] && a != source;
    }
    var r := InsertAt(rest, destination, x);
    var l := if destination < |rest| then destination else |rest|;
    forall i, j | 0 <= i < j < |r| ensures r[i].id != r[j].id {
      if i == l {
        assert r[j] == rest[j - 1];
      } else if j == l {
        assert r[i] == rest[i];
      } else {
        var a := if i < l then i else i - 1;
        var b := if j < l then j else j - 1;
        assert r[i] == rest[a] && r[j] == rest[b] && a < b;
      }
    }
  }

  /** Dragging the third of four tasks to the front gives third, first, second, fourth. */
  lemma ReorderedExample(a: Task, b: Task, c: Task, d: Task)
    ensures Reordered([a, b, c, d], 2, 0) == [c, a, b, d]
  {
    assert Move([a, b, c, d], 2, 0) == [c, a, b, d];
  }
}
