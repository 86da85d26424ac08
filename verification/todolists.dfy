/**
 * The in-memory to-do list: the `Task` record and the `TodoList` that owns an
 * ordered list of tasks and adds, removes, marks, filters and looks them up.
 */
module TodoLists {
  import opened Wrappers
  import Lists

  /** A calendar date; the model never inspects its fields. */
  datatype Date = Date(year: int, month: int, day: int)

  /**
   * What a task's due-date slot holds. Python leaves the slot untyped: it is
   * `None` or a date, or a bool when a caller passes the completion flag in
   * the due-date position.
   */
  datatype DueDate = NoDueDate | On(date: Date) | StrayBool(flag: bool)

  /** One to-do item; the defaults are those of the record's constructor. */
  datatype Task = Task(id: int, description: string, priority: string,
                       dueDate: DueDate := NoDueDate, completed: bool := false)
  {
    predicate IsDone() {
      completed
    }
  }

  /** A task built with only an id, description and priority has no due date and is not done. */
  lemma NewTaskDefaults(id: int, description: string, priority: string)
    ensures Task(id, description, priority).dueDate == NoDueDate
    ensures !Task(id, description, priority).IsDone()
  {
  }

  /** The priorities `add_task` accepts when one is given. */
  const Priorities: seq<string> := ["high", "medium", "low"]

  /** The position of the first task with the given id, if any. */
  function FirstIndex(ts: seq<Task>, id: int): (r: Option<nat>)
    ensures r.None? <==> forall k :: 0 <= k < |ts| ==> ts[k].id != id
    ensures r.Some? ==> r.value < |ts| && ts[r.value].id == id
    ensures r.Some? ==> forall k :: 0 <= k < r.value ==> ts[k].id != id
  {
    if ts == [] then None
    else if ts[0].id == id then Some(0)
    else match FirstIndex(ts[1..], id)
      case None => None
      case Some(k) => Some(k + 1)
  }

  /** What removing by id does to the list: the first task with that id goes. */
  function RemoveFirst(ts: seq<Task>, id: int): seq<Task> {
    if ts == [] then []
    else if ts[0].id == id then ts[1..]
    else [ts[0]] + RemoveFirst(ts[1..], id)
  }

  /**
   * Removal deletes exactly the first task with the id, at position `k`, and
   * keeps the others in order.
   */
  lemma {:induction false} RemoveFirstAt(ts: seq<Task>, id: int, k: nat)
    requires k < |ts| && ts[k].id == id
    requires forall j :: 0 <= j < k ==> ts[j].id != id
    ensures RemoveFirst(ts, id) == ts[..k] + ts[k + 1..]
  {
    if k > 0 {
      var tail := ts[1..];
      RemoveFirstAt(tail, id, k - 1);
      assert tail[..k - 1] == ts[1..k];
      assert tail[k..] == ts[k + 1..];
      assert [ts[0]] + ts[1..k] == ts[..k];
    }
  }

  /** Removing an id no task has leaves the list unchanged. */
  lemma {:induction false} RemoveFirstMissing(ts: seq<Task>, id: int)
    requires forall k :: 0 <= k < |ts| ==> ts[k].id != id
    ensures RemoveFirst(ts, id) == ts
  {
    if ts != [] {
      RemoveFirstMissing(ts[1..], id);
      assert [ts[0]] + ts[1..] == ts;
    }
  }

  /** What marking by id does to the list: the first task with that id gets the flag. */
  function SetCompletion(ts: seq<Task>, id: int, done: bool): seq<Task> {
    if ts == [] then []
    else if ts[0].id == id then [ts[0].(completed := done)] + ts[1..]
    else [ts[0]] + SetCompletion(ts[1..], id, done)
  }

  /**
   * Marking changes only the completion flag of the first task with the id,
   * at position `k`: length, order and every other task are unchanged.
   */
  lemma {:induction false} SetCompletionAt(ts: seq<Task>, id: int, done: bool, k: nat)
    requires k < |ts| && ts[k].id == id
    requires forall j :: 0 <= j < k ==> ts[j].id != id
    ensures SetCompletion(ts, id, done) == ts[k := ts[k].(completed := done)]
  {
    if k > 0 {
      var tail := ts[1..];
      SetCompletionAt(tail, id, done, k - 1);
      assert [ts[0]] + tail[k - 1 := ts[k].(completed := done)] == ts[k := ts[k].(completed := done)];
    }
  }

  /** Marking an id no task has leaves the list unchanged. */
  lemma {:induction false} SetCompletionMissing(ts: seq<Task>, id: int, done: bool)
    requires forall k :: 0 <= k < |ts| ==> ts[k].id != id
    ensures SetCompletion(ts, id, done) == ts
  {
    if ts != [] {
      SetCompletionMissing(ts[1..], id, done);
      assert [ts[0]] + ts[1..] == ts;
    }
  }

  /** Marking twice with the same flag is the same as marking once. */
  lemma MarkIdempotent(ts: seq<Task>, id: int, done: bool)
    ensures SetCompletion(SetCompletion(ts, id, done), id, done) == SetCompletion(ts, id, done)
  {
    match FirstIndex(ts, id)
    case None =>
      SetCompletionMissing(ts, id, done);
    case Some(k) =>
      var once := SetCompletion(ts, id, done);
      SetCompletionAt(ts, id, done, k);
      assert FirstIndex(once, id) == Some(k) by {
        assert forall j :: 0 <= j < |ts| ==> once[j].id == ts[j].id;
      }
      SetCompletionAt(once, id, done, k);
  }

  /** The to-do list: its tasks in insertion order (`get_all_tasks` returns this list). */
  class TodoList {
    var tasks: seq<Task>

    constructor ()
      ensures tasks == []
    {
      tasks := [];
    }

    /**
     * Appends `task` after overriding its priority (when one is given) and its
     * due date (always, so `NoDueDate` clears an earlier one). A priority
     * outside `Priorities` stops the program; here `ok` is false and the list
     * is unchanged.
     */
    method AddTask(task: Task, priority: Option<string> := None, dueDate: DueDate := NoDueDate)
      returns (ok: bool)
      modifies this
      ensures ok <==> priority.None? || priority.value in Priorities
      ensures !ok ==> tasks == old(tasks)
      ensures ok ==> tasks == old(tasks) + [task.(priority := priority.GetOr(task.priority), dueDate := dueDate)]
      ensures ok ==> tasks[|tasks| - 1].dueDate == dueDate
    {
      var t := task;
      if priority.Some? {
        if priority.value !in Priorities {
          return false;
        }
        t := t.(priority := priority.value);
      }
      t := t.(dueDate := dueDate);
      if dueDate != NoDueDate {
        t := t.(dueDate := dueDate);
      }
      tasks := tasks + [t];
      ok := true;
    }

    /** Removes the first task with the id, if there is one. */
    method RemoveTask(id: int)
      modifies this
      ensures tasks == RemoveFirst(old(tasks), id)
    {
      var i := 0;
      ghost var found := false;
      while i < |tasks|
        invariant 0 <= i <= |tasks|
        invariant tasks == old(tasks) && !found
        invariant forall k :: 0 <= k < i ==> tasks[k].id != id
      {
        if tasks[i].id == id {
          RemoveFirstAt(tasks, id, i);
          found := true;
          tasks := tasks[..i] + tasks[i + 1..];
          break;
        }
        i := i + 1;
      }
      if !found {
        RemoveFirstMissing(tasks, id);
      }
    }

    /** Sets the completion flag of the first task with the id to `done`. */
    method SetFirstCompletion(id: int, done: bool)
      modifies this
      ensures tasks == SetCompletion(old(tasks), id, done)
    {
      var i := 0;
      ghost var found := false;
      while i < |tasks|
        invariant 0 <= i <= |tasks|
        invariant tasks == old(tasks) && !found
        invariant forall k :: 0 <= k < i ==> tasks[k].id != id
      {
        if tasks[i].id == id {
          SetCompletionAt(tasks, id, done, i);
          found := true;
          tasks := tasks[i := tasks[i].(completed := done)];
          break;
        }
        i := i + 1;
      }
      if !found {
        SetCompletionMissing(tasks, id, done);
      }
    }

    /** Marks the first task with the id as completed. */
    method MarkTaskAsCompleted(id: int)
      modifies this
      ensures tasks == SetCompletion(old(tasks), id, true)
    {
      SetFirstCompletion(id, true);
    }

    /** Marks the first task with the id as not completed. */
    method MarkTaskAsIncomplete(id: int)
      modifies this
      ensures tasks == SetCompletion(old(tasks), id, false)
    {
      SetFirstCompletion(id, false);
    }

    /** The completed tasks, in list order. */
    function GetCompletedTasks(): (r: seq<Task>)
      reads this
      ensures Lists.IsSubsequence(r, tasks)
      ensures forall t :: t in r <==> t in tasks && t.IsDone()
      ensures forall t :: multiset(r)[t] == if t.IsDone() then multiset(tasks)[t] else 0
    {
      Lists.Filter(tasks, (t: Task) => t.IsDone())
    }

    /** The tasks not yet completed, in list order. */
    function GetIncompleteTasks(): (r: seq<Task>)
      reads this
      ensures Lists.IsSubsequence(r, tasks)
      ensures forall t :: t in r <==> t in tasks && !t.IsDone()
      ensures forall t :: multiset(r)[t] == if t.IsDone() then 0 else multiset(tasks)[t]
    {
      Lists.Filter(tasks, (t: Task) => !t.IsDone())
    }

    /** Every task is in exactly one of the completed and incomplete lists. */
    lemma CompletedIncompletePartition()
      ensures multiset(GetCompletedTasks()) + multiset(GetIncompleteTasks()) == multiset(tasks)
      ensures forall t :: t in tasks ==> (t in GetCompletedTasks()) != (t in GetIncompleteTasks())
    {
      Lists.FilterPartition(tasks, (t: Task) => t.IsDone(), (t: Task) => !t.IsDone());
    }

    /**
     * The tasks whose priority is exactly `p`, in list order and with their
     * multiplicity; `p` is not validated.
     */
    function GetTasksByPriority(p: string): (r: seq<Task>)
      reads this
      ensures Lists.IsSubsequence(r, tasks)
      ensures forall t :: multiset(r)[t] == if t.priority == p then multiset(tasks)[t] else 0
      ensures r == [] <==> forall t :: t in tasks ==> t.priority != p
    {
      Lists.FilterEmpty(tasks, (t: Task) => t.priority == p);
      Lists.Filter(tasks, (t: Task) => t.priority == p)
    }

    /** The first task with the id, or `None` when no task has it. */
    method GetTask(id: int) returns (r: Option<Task>)
      ensures r.None? <==> forall t :: t in tasks ==> t.id != id
      ensures r.Some? ==> FirstIndex(tasks, id).Some? && r.value == tasks[FirstIndex(tasks, id).value]
    {
      var i := 0;
      while i < |tasks|
        invariant 0 <= i <= |tasks|
        invariant forall k :: 0 <= k < i ==> tasks[k].id != id
      {
        if tasks[i].id == id {
          return Some(tasks[i]);
        }
        i := i + 1;
      }
      return None;
    }

    /** A second lookup by id with the same first-match behaviour. */
    method GetTaskById(id: int) returns (r: Option<Task>)
      ensures r.None? <==> forall t :: t in tasks ==> t.id != id
      ensures r.Some? ==> FirstIndex(tasks, id).Some? && r.value == tasks[FirstIndex(tasks, id).value]
    {
      r := GetTask(id);
    }
  }
}
