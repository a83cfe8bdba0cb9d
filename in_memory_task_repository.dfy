/**
 * The in-memory task repository: a dictionary from task id to task.
 *
 * A Python `dict` keeps its keys in insertion order, and `values()` lists the
 * tasks in that order; the class keeps the mapping in `tasks` and the key
 * order in `order`. It stores references to the caller's `Task` objects, so a
 * task changed after `save` is seen changed by the next query.
 */
module InMemoryRepository {
  import opened Errors
  import opened Sequences
  import Identity
  import Status
  import Priority
  import opened TaskEntity
  import opened RepositoryContract

  /** The tasks stored under `keys`, in the order of `keys`. */
  function ValuesOf(keys: seq<Identity.TaskId>, m: map<Identity.TaskId, Task>): (r: seq<Task>)
    requires forall i :: 0 <= i < |keys| ==> keys[i] in m
    ensures |r| == |keys|
    ensures forall i :: 0 <= i < |r| ==> r[i] == m[keys[i]]
  {
    if keys == [] then []
    else ValuesOf(keys[..|keys| - 1], m) + [m[keys[|keys| - 1]]]
  }

  /**
   * `[task for task in ts if task.status == status]`, and the same with
   * `task.priority == priority`: the matching tasks, in the order of `ts`.
   */
  function Matching(ts: seq<Task>, c: Criterion): (r: seq<Task>)
    reads ts
    ensures |r| <= |ts|
  {
    if ts == [] then []
    else
      var rest := Matching(ts[..|ts| - 1], c);
      var last := ts[|ts| - 1];
      if Matches(last, c) then rest + [last] else rest
  }

  /**
   * `Matching(ts, c)` holds exactly the tasks of `ts` that match: each of its
   * tasks is in `ts` and matches, each matching task of `ts` is in it, and it
   * repeats no task when `ts` repeats none.
   */
  lemma {:induction false} MatchingExactly(ts: seq<Task>, c: Criterion)
    ensures forall i :: 0 <= i < |Matching(ts, c)| ==>
              Matching(ts, c)[i] in ts && Matches(Matching(ts, c)[i], c)
    ensures forall i :: 0 <= i < |ts| && Matches(ts[i], c) ==> ts[i] in Matching(ts, c)
    ensures NoDuplicates(ts) ==> NoDuplicates(Matching(ts, c))
  {
    if ts != [] {
      var init, last := ts[..|ts| - 1], ts[|ts| - 1];
      MatchingExactly(init, c);
      var rest := Matching(init, c);
      assert forall i :: 0 <= i < |init| ==> init[i] == ts[i];
      if NoDuplicates(ts) {
        assert NoDuplicates(init);
        assert last !in init;
      }
    }
  }

  /**
   * The three status queries split a list: their lengths add up to the
   * list's, so with `MatchingExactly` every task lands in exactly one.
   */
  lemma {:induction false} StatusFiltersSplit(ts: seq<Task>)
    ensures |Matching(ts, StatusIs(Status.Todo))| + |Matching(ts, StatusIs(Status.InProgress))|
            + |Matching(ts, StatusIs(Status.Done))| == |ts|
  {
    if ts != [] {
      StatusFiltersSplit(ts[..|ts| - 1]);
    }
  }

  /** The three priority queries split a list in the same way. */
  lemma {:induction false} PriorityFiltersSplit(ts: seq<Task>)
    ensures |Matching(ts, PriorityIs(Priority.Low))| + |Matching(ts, PriorityIs(Priority.Medium))|
            + |Matching(ts, PriorityIs(Priority.High))| == |ts|
  {
    if ts != [] {
      PriorityFiltersSplit(ts[..|ts| - 1]);
    }
  }

  /** The queries keep the list's order: a task appended to the list is appended to the result iff it matches. */
  lemma MatchingSnoc(ts: seq<Task>, t: Task, c: Criterion)
    ensures Matching(ts + [t], c) == if Matches(t, c) then Matching(ts, c) + [t] else Matching(ts, c)
  {
    assert (ts + [t])[..|ts|] == ts;
  }

  /** A task under a new key goes to the end of the listing; the tasks before it are unchanged. */
  lemma ValuesOfFresh(keys: seq<Identity.TaskId>, m: map<Identity.TaskId, Task>, t: Task)
    requires forall i :: 0 <= i < |keys| ==> keys[i] in m
    requires t.id !in m
    ensures ValuesOf(keys + [t.id], m[t.id := t]) == ValuesOf(keys, m) + [t]
  {
    assert (keys + [t.id])[..|keys|] == keys;
    assert ValuesOf(keys, m[t.id := t]) == ValuesOf(keys, m);
  }

  class InMemoryTaskRepository {
    var tasks: map<Identity.TaskId, Task>
    var order: seq<Identity.TaskId>

    /** Every task is under its own id, and `order` lists each key once. */
    ghost predicate Valid()
      reads this
    {
      && WellKeyed(tasks)
      && NoDuplicates(order)
      && (forall k :: k in tasks <==> k in order)
    }

    /** `InMemoryTaskRepository()`: an empty store. */
    constructor ()
      ensures Valid()
      ensures tasks == map[] && order == []
    {
      tasks := map[];
      order := [];
    }

    /** The stored tasks in insertion order: `list(self._tasks.values())`. */
    function Values(): (r: seq<Task>)
      reads this
      requires Valid()
      ensures |r| == |order|
    {
      ValuesOf(order, tasks)
    }

    /** The ordered values list every stored task exactly once. */
    lemma ValuesListExactly()
      requires Valid()
      ensures FindAllContract(tasks, Values())
    {
      var r := Values();
      forall i, j | 0 <= i < j < |r| ensures r[i] != r[j] {
        assert r[i].id == order[i] && r[j].id == order[j];
      }
      forall t | t in tasks.Values ensures t in r {
        var k :| k in tasks && tasks[k] == t;
        var i :| 0 <= i < |order| && order[i] == k;
        assert r[i] == t;
      }
    }

    /**
     * `save(task)`: stores the task under its id, replacing any task stored
     * there; a new id goes to the end of the order, a known id keeps its place.
     */
    method Save(task: Task)
      requires Valid()
      modifies this
      ensures Valid()
      ensures SaveContract(old(tasks), tasks, task)
      ensures order == if task.id in old(tasks) then old(order) else old(order) + [task.id]
      ensures task.id !in old(tasks) ==> Values() == old(Values()) + [task]
    {
      if task.id !in tasks {
        ValuesOfFresh(order, tasks, task);
        order := order + [task.id];
      }
      tasks := tasks[task.id := task];
    }

    /** `find_by_id(task_id)`: the stored task, or None when no task has that id. */
    method FindById(id: Identity.TaskId) returns (r: Option<Task>)
      ensures FindByIdContract(tasks, id, r)
    {
      if id in tasks {
        r := Some(tasks[id]);
      } else {
        r := None;
      }
    }

    /** `find_all()`: every stored task, each once, in insertion order. */
    method FindAll() returns (r: seq<Task>)
      requires Valid()
      ensures r == Values()
      ensures FindAllContract(tasks, r)
      ensures |r| == |tasks|
    {
      r := Values();
      ValuesListExactly();
      FindAllLength(tasks, r);
    }

    /** `find_by_status(status)`: the stored tasks with that status, in insertion order. */
    method FindByStatus(status: Status.TaskStatus) returns (r: seq<Task>)
      requires Valid()
      ensures r == Matching(Values(), StatusIs(status))
      ensures FindByContract(tasks, StatusIs(status), r)
    {
      var all := Values();
      r := Matching(all, StatusIs(status));
      ValuesListExactly();
      FilterListsExactly(tasks, all, StatusIs(status), r);
    }

    /** `find_by_priority(priority)`: the stored tasks with that priority, in insertion order. */
    method FindByPriority(priority: Priority.TaskPriority) returns (r: seq<Task>)
      requires Valid()
      ensures r == Matching(Values(), PriorityIs(priority))
      ensures FindByContract(tasks, PriorityIs(priority), r)
    {
      var all := Values();
      r := Matching(all, PriorityIs(priority));
      ValuesListExactly();
      FilterListsExactly(tasks, all, PriorityIs(priority), r);
    }

    /**
     * `delete(task_id)`: removes the task with that id and reports true, or
     * reports false and changes nothing when there is none.
     */
    method Delete(id: Identity.TaskId) returns (removed: bool)
      requires Valid()
      modifies this
      ensures Valid()
      ensures DeleteContract(old(tasks), tasks, id, removed)
      ensures order == Without(old(order), id)
      ensures !removed ==> order == old(order)
    {
      if id in tasks {
        tasks := tasks - {id};
        order := Without(order, id);
        removed := true;
      } else {
        WithoutAbsent(order, id);
        assert tasks - {id} == tasks;
        removed := false;
      }
    }
  }

  /** Filtering a complete listing gives a complete listing of the stored tasks that match. */
  lemma FilterListsExactly(store: Store, all: seq<Task>, c: Criterion, r: seq<Task>)
    requires FindAllContract(store, all) && r == Matching(all, c)
    ensures FindByContract(store, c, r)
  {
    MatchingExactly(all, c);
    forall t | t in store.Values && Matches(t, c) ensures t in r {
      var i :| 0 <= i < |all| && all[i] == t;
    }
  }
}
