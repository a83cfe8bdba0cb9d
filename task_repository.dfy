/**
 * The repository contract: what every task store must do, stated over its
 * abstract state, a map from task id to task.
 *
 * Each operation is a predicate relating the state before, the state after
 * and the result; an implementation proves its methods satisfy them, and a
 * client such as the create use case relies on nothing else.
 */
module RepositoryContract {
  import opened Errors
  import opened Sequences
  import Identity
  import Status
  import Priority
  import opened TaskEntity

  /** The abstract state of a repository: at most one task per id. */
  type Store = map<Identity.TaskId, Task>

  /** Every task is stored under its own id. */
  predicate WellKeyed(store: Store) {
    forall k :: k in store ==> store[k].id == k
  }

  /** `r` lists exactly the tasks of `tasks`, each once, in some order. */
  predicate ListsExactly(r: seq<Task>, tasks: set<Task>) {
    && (forall i :: 0 <= i < |r| ==> r[i] in tasks)
    && (forall t :: t in tasks ==> t in r)
    && NoDuplicates(r)
  }

  /** `save(task)`: insert, or replace whatever was stored under the task's id. */
  predicate SaveContract(before: Store, after: Store, task: Task) {
    after == before[task.id := task]
  }

  /** `find_by_id(id)`: the task stored under `id`, or None (absence is not an error). */
  predicate FindByIdContract(store: Store, id: Identity.TaskId, r: Option<Task>) {
    if id in store then r == Some(store[id]) else r == None
  }

  /** `find_all()`: every stored task. */
  predicate FindAllContract(store: Store, r: seq<Task>) {
    ListsExactly(r, store.Values)
  }

  /** What a query selects on: the status for `find_by_status`, the priority for `find_by_priority`. */
  datatype Criterion = StatusIs(status: Status.TaskStatus) | PriorityIs(priority: Priority.TaskPriority)

  /** `task.status == status`, or `task.priority == priority`. */
  predicate Matches(t: Task, c: Criterion)
    reads t
  {
    match c
    case StatusIs(s) => t.status == s
    case PriorityIs(p) => t.priority == p
  }

  /**
   * `find_by_status(status)` and `find_by_priority(priority)`: exactly the
   * stored tasks that match, each once.
   */
  ghost predicate FindByContract(store: Store, c: Criterion, r: seq<Task>)
    reads store.Values
  {
    ListsExactly(r, set t | t in store.Values && Matches(t, c))
  }

  /** `delete(id)`: true when a task had that id and was removed, false when none had it. */
  predicate DeleteContract(before: Store, after: Store, id: Identity.TaskId, removed: bool) {
    removed == (id in before) && after == before - {id}
  }

  /** Saving keeps every task under its own id. */
  lemma SavePreservesWellKeyed(before: Store, after: Store, task: Task)
    requires WellKeyed(before) && SaveContract(before, after, task)
    ensures WellKeyed(after)
  {
  }

  /** After `save(task)`, `find_by_id(task.id)` gives the task and every other id keeps its entry. */
  lemma SaveThenFind(before: Store, after: Store, task: Task, id: Identity.TaskId, r: Option<Task>)
    requires SaveContract(before, after, task) && FindByIdContract(after, id, r)
    ensures id == task.id ==> r == Some(task)
    ensures id != task.id ==> FindByIdContract(before, id, r)
  {
  }

  /** Saving the same task twice leaves the state of saving it once. */
  lemma SaveIdempotent(s0: Store, s1: Store, s2: Store, task: Task)
    requires SaveContract(s0, s1, task) && SaveContract(s1, s2, task)
    ensures s2 == s1
  {
    assert s2.Keys == s1.Keys;
    assert forall k :: k in s1 ==> s2[k] == s1[k];
  }

  /** `save` adds a record only for a new id; saving an existing id again keeps one record for it. */
  lemma SaveCardinality(before: Store, after: Store, task: Task)
    requires SaveContract(before, after, task)
    ensures task.id in before ==> |after| == |before|
    ensures task.id !in before ==> |after| == |before| + 1
  {
    assert after.Keys == before.Keys + {task.id};
  }

  /** After a delete, the id is absent, and a second delete of it reports false and changes nothing. */
  lemma DeleteThenDeleteAgain(s0: Store, s1: Store, s2: Store, id: Identity.TaskId,
                              first: bool, second: bool)
    requires DeleteContract(s0, s1, id, first) && DeleteContract(s1, s2, id, second)
    ensures FindByIdContract(s1, id, None)
    ensures !second && s2 == s1
  {
  }

  /** Deleting an id that was just saved reports true and removes it. */
  lemma SaveThenDelete(s0: Store, s1: Store, s2: Store, task: Task, removed: bool)
    requires SaveContract(s0, s1, task) && DeleteContract(s1, s2, task.id, removed)
    ensures removed && task.id !in s2
    ensures s2 == s0 - {task.id}
  {
    assert s2.Keys == s0.Keys - {task.id};
    assert forall k :: k in s2 ==> s2[k] == s0[k];
  }

  /** Removing one id from a well-keyed store removes exactly its task from the values. */
  lemma ValuesWithoutKey(store: Store, k: Identity.TaskId)
    requires WellKeyed(store) && k in store
    ensures store.Values == (store - {k}).Values + {store[k]}
    ensures store[k] !in (store - {k}).Values
  {
    var rest := store - {k};
    forall v | v in store.Values ensures v in rest.Values + {store[k]} {
      var j :| j in store && store[j] == v;
      if j != k { assert rest[j] == v; }
    }
    forall j | j in rest ensures rest[j] != store[k] {
      assert rest[j].id == j;
    }
  }

  lemma WithoutKeyCardinality(store: Store, k: Identity.TaskId)
    requires k in store
    ensures |store - {k}| == |store| - 1
  {
    assert (store - {k}).Keys == store.Keys - {k};
  }

  /** The values of a well-keyed store are as many as its ids. */
  lemma {:induction false} ValuesCardinality(store: Store)
    requires WellKeyed(store)
    ensures |store.Values| == |store|
    decreases |store|
  {
    if store != map[] {
      var k :| k in store;
      WithoutKeyCardinality(store, k);
      ValuesWithoutKey(store, k);
      ValuesCardinality(store - {k});
    }
  }

  /** `find_all` returns one task per stored id. */
  lemma FindAllLength(store: Store, r: seq<Task>)
    requires WellKeyed(store) && FindAllContract(store, r)
    ensures |r| == |store|
  {
    NoDuplicatesCardinality(r);
    assert Elements(r) == store.Values;
    ValuesCardinality(store);
  }

  /**
   * Each filter returns part of `find_all`, and the three status filters
   * together return every stored task, no task in two of them.
   */
  lemma StatusFiltersPartition(store: Store, all: seq<Task>, todo: seq<Task>,
                                inProgress: seq<Task>, done: seq<Task>)
    requires FindAllContract(store, all)
    requires FindByContract(store, StatusIs(Status.Todo), todo)
    requires FindByContract(store, StatusIs(Status.InProgress), inProgress)
    requires FindByContract(store, StatusIs(Status.Done), done)
    ensures Elements(todo) + Elements(inProgress) + Elements(done) == Elements(all)
    ensures Elements(todo) !! Elements(inProgress)
    ensures Elements(todo) !! Elements(done)
    ensures Elements(inProgress) !! Elements(done)
  {
    forall t | t in Elements(all)
      ensures t in Elements(todo) + Elements(inProgress) + Elements(done)
    {
      assert t in set u | u in store.Values && Matches(u, StatusIs(t.status));
    }
  }

  /** The priority filter returns part of `find_all`. */
  lemma PriorityFilterWithinAll(store: Store, all: seq<Task>, p: Priority.TaskPriority, r: seq<Task>)
    requires FindAllContract(store, all) && FindByContract(store, PriorityIs(p), r)
    ensures Elements(r) <= Elements(all)
    ensures forall i :: 0 <= i < |r| ==> r[i].priority == p
  {
  }
}
