/**
 * Concrete runs of the repository and the use case, one per behaviour the
 * project's own tests check, each proved for every input the scenario allows
 * (the ids, which the tests draw with `TaskId.generate()`, the random bytes
 * behind them and the clock reading).
 */
module Scenarios {
  import opened Errors
  import opened Text
  import Identity
  import Status
  import Priority
  import opened TaskEntity
  import opened RepositoryContract
  import opened InMemoryRepository
  import opened CreateTask

  /** A new task with a title that is already stripped. */
  method NewTask(id: Identity.TaskId, title: string, description: string,
                 priority: Priority.TaskPriority, now: Timestamp)
    returns (t: Task)
    requires IsValidTitle(title)
    ensures fresh(t) && t.Valid()
    ensures t.id == id && t.title == title && t.description == description
    ensures t.priority == priority && t.status == Status.Todo
    ensures t.createdAt == now && t.updatedAt == now
  {
    StripOfStripped(title);
    var created := Task.Create(id, Some(title), description, priority, now);
    t := created.value;
  }

  /** Three tasks with distinct ids saved into a new repository are listed in the order saved. */
  method SaveThree(t1: Task, t2: Task, t3: Task) returns (repository: InMemoryTaskRepository)
    requires t1.id != t2.id && t1.id != t3.id && t2.id != t3.id
    ensures fresh(repository) && repository.Valid()
    ensures repository.Values() == [t1, t2, t3]
  {
    repository := new InMemoryTaskRepository();
    SaveNew(repository, t1);
    SaveNew(repository, t2);
    SaveNew(repository, t3);
    assert [t1] + [t2] + [t3] == [t1, t2, t3];
  }

  /** A task whose id is not yet stored is added at the end of the listing. */
  method SaveNew(repository: InMemoryTaskRepository, t: Task)
    requires repository.Valid() && t.id !in repository.tasks
    modifies repository
    ensures repository.Valid()
    ensures repository.tasks == old(repository.tasks)[t.id := t]
    ensures repository.Values() == old(repository.Values()) + [t]
  {
    repository.Save(t);
  }

  /** Three new TODO tasks with the given ids and priorities. */
  method ThreeTasks(id1: Identity.TaskId, id2: Identity.TaskId, id3: Identity.TaskId, title: string,
                    p1: Priority.TaskPriority, p2: Priority.TaskPriority, p3: Priority.TaskPriority,
                    now: Timestamp)
    returns (t1: Task, t2: Task, t3: Task)
    requires IsValidTitle(title)
    ensures fresh(t1) && fresh(t2) && fresh(t3)
    ensures t1.id == id1 && t2.id == id2 && t3.id == id3
    ensures t1.priority == p1 && t2.priority == p2 && t3.priority == p3
    ensures t1.status == Status.Todo && t2.status == Status.Todo && t3.status == Status.Todo
  {
    t1 := NewTask(id1, title, "説明1", p1, now);
    t2 := NewTask(id2, title, "説明2", p2, now);
    t3 := NewTask(id3, title, "説明3", p3, now);
  }

  /** A query on three tasks, spelled out. */
  lemma MatchingOfThree(t1: Task, t2: Task, t3: Task, c: Criterion)
    ensures Matching([t1, t2, t3], c) == (if Matches(t1, c) then [t1] else [])
                                         + (if Matches(t2, c) then [t2] else [])
                                         + (if Matches(t3, c) then [t3] else [])
  {
    assert [t1] + [t2] == [t1, t2];
    assert [t1, t2] + [t3] == [t1, t2, t3];
    assert Matching([t1], c) == if Matches(t1, c) then [t1] else [] by {
      MatchingSnoc([], t1, c);
      assert [] + [t1] == [t1];
    }
    MatchingSnoc([t1], t2, c);
    MatchingSnoc([t1, t2], t3, c);
  }

  /** A new repository is empty: it lists nothing, finds nothing and deletes nothing. */
  method EmptyRepository(id: Identity.TaskId)
    returns (all: seq<Task>, found: Option<Task>, removed: bool)
    ensures all == [] && found == None && !removed
  {
    var repository := new InMemoryTaskRepository();
    all := repository.FindAll();
    found := repository.FindById(id);
    removed := repository.Delete(id);
  }

  /** A created task is found under the returned id with the given fields and status TODO. */
  method CreateThenFind(title: string, description: string, random: seq<Identity.Byte>, now: Timestamp)
    returns (id: Identity.TaskId, found: Option<Task>)
    requires |random| == 16 && IsValidTitle(title)
    ensures found.Some? && found.value.id == id
    ensures found.value.title == title && found.value.description == description
    ensures found.value.priority == Priority.High && found.value.status == Status.Todo
  {
    var repository := new InMemoryTaskRepository();
    var useCase := new CreateTaskUseCase(repository);
    CheckValidTitle(title);
    var r := useCase.Execute(title, description, Priority.High, random, now);
    id := r.value;
    found := repository.FindById(id);
  }

  /** An empty or all-blank title is refused with "Title cannot be empty" and nothing is saved. */
  method CreateWithBlankTitle(random: seq<Identity.Byte>, now: Timestamp)
    returns (empty: Result<Identity.TaskId>, blank: Result<Identity.TaskId>, all: seq<Task>)
    requires |random| == 16
    ensures empty == Err(EmptyTitleError) && blank == Err(EmptyTitleError)
    ensures all == []
  {
    var repository := new InMemoryTaskRepository();
    var useCase := new CreateTaskUseCase(repository);
    empty := useCase.Execute("", "説明", Priority.Medium, random, now);
    StripEmptyIffAllWhitespace("   ");
    blank := useCase.Execute("   ", "説明", Priority.Medium, random, now);
    all := repository.FindAll();
  }

  /** A task given a title that is already stripped keeps it unchanged. */
  method Retitle(task: Task, updated: string, now: Timestamp)
    requires IsValidTitle(updated)
    modifies task`title, task`updatedAt
    ensures task.title == updated && task.updatedAt == now
  {
    var retitled := task.UpdateTitle(updated, now);
  }

  /** A TODO task moved to IN_PROGRESS. */
  method Start(task: Task, now: Timestamp) returns (outcome: Outcome)
    requires task.status == Status.Todo
    modifies task`status, task`updatedAt
    ensures outcome == Pass && task.status == Status.InProgress && task.updatedAt == now
  {
    outcome := task.UpdateStatus(Status.InProgress, now);
  }

  /** A saved task that is retitled, started and saved again is found with the new title and status. */
  method SaveThenUpdate(id: Identity.TaskId, original: string, updated: string, now: Timestamp)
    returns (outcome: Outcome, found: Option<Task>)
    requires IsValidTitle(original) && IsValidTitle(updated)
    ensures outcome == Pass
    ensures found.Some? && found.value.title == updated
    ensures found.value.status == Status.InProgress
  {
    var repository := new InMemoryTaskRepository();
    var task := NewTask(id, original, "説明", Priority.Low, now);
    SaveNew(repository, task);
    Retitle(task, updated, now);
    outcome := Start(task, now);
    repository.Save(task);
    assert repository.tasks == map[id := task];
    found := repository.FindById(task.id);
  }

  /**
   * The repository holds the caller's task object, not a copy: a task changed
   * after it was saved, and not saved again, is found changed.
   */
  method UpdateWithoutResave(id: Identity.TaskId, original: string, updated: string, now: Timestamp)
    returns (found: Option<Task>)
    requires IsValidTitle(original) && IsValidTitle(updated)
    ensures found.Some? && found.value.title == updated
    ensures found.value.status == Status.InProgress && found.value.updatedAt == now
  {
    var repository := new InMemoryTaskRepository();
    var task := NewTask(id, original, "説明", Priority.Low, now);
    SaveNew(repository, task);
    assert repository.tasks == map[id := task];
    Retitle(task, updated, now);
    var started := Start(task, now);
    found := repository.FindById(task.id);
  }

  /** Three tasks with distinct ids, saved in order, are all listed, in that order. */
  method FindAllOfThree(id1: Identity.TaskId, id2: Identity.TaskId, id3: Identity.TaskId,
                        title: string, now: Timestamp)
    returns (all: seq<Task>)
    requires id1 != id2 && id1 != id3 && id2 != id3 && IsValidTitle(title)
    ensures |all| == 3
    ensures all[0].id == id1 && all[1].id == id2
    ensures all[2].id == id3
  {
    var t1, t2, t3 := ThreeTasks(id1, id2, id3, title, Priority.High, Priority.Low, Priority.Medium, now);
    var repository := SaveThree(t1, t2, t3);
    all := repository.FindAll();
  }

  /** With one of three tasks started, the TODO query finds the other two and IN_PROGRESS finds it. */
  method FindByStatusOfThree(id1: Identity.TaskId, id2: Identity.TaskId, id3: Identity.TaskId,
                             title: string, now: Timestamp)
    returns (todo: seq<Task>, inProgress: seq<Task>)
    requires id1 != id2 && id1 != id3 && id2 != id3 && IsValidTitle(title)
    ensures |todo| == 2 && todo[0].id == id1 && todo[1].id == id3
    ensures |inProgress| == 1 && inProgress[0].id == id2
  {
    var t1, t2, t3 := ThreeTasks(id1, id2, id3, title, Priority.High, Priority.Low, Priority.Medium, now);
    var started := Start(t2, now);
    var repository := SaveThree(t1, t2, t3);
    MatchingOfThree(t1, t2, t3, StatusIs(Status.Todo));
    assert Matching(repository.Values(), StatusIs(Status.Todo)) == [t1, t3];
    MatchingOfThree(t1, t2, t3, StatusIs(Status.InProgress));
    assert Matching(repository.Values(), StatusIs(Status.InProgress)) == [t2];
    todo := repository.FindByStatus(Status.Todo);
    inProgress := repository.FindByStatus(Status.InProgress);
  }

  /** Of tasks with priorities HIGH, LOW, HIGH, the HIGH query finds two and the LOW query one. */
  method FindByPriorityOfThree(id1: Identity.TaskId, id2: Identity.TaskId, id3: Identity.TaskId,
                               title: string, now: Timestamp)
    returns (high: seq<Task>, low: seq<Task>)
    requires id1 != id2 && id1 != id3 && id2 != id3 && IsValidTitle(title)
    ensures |high| == 2 && high[0].id == id1 && high[1].id == id3
    ensures |low| == 1 && low[0].id == id2
  {
    var t1, t2, t3 := ThreeTasks(id1, id2, id3, title, Priority.High, Priority.Low, Priority.High, now);
    var repository := SaveThree(t1, t2, t3);
    MatchingOfThree(t1, t2, t3, PriorityIs(Priority.High));
    assert Matching(repository.Values(), PriorityIs(Priority.High)) == [t1, t3];
    MatchingOfThree(t1, t2, t3, PriorityIs(Priority.Low));
    assert Matching(repository.Values(), PriorityIs(Priority.Low)) == [t2];
    high := repository.FindByPriority(Priority.High);
    low := repository.FindByPriority(Priority.Low);
  }

  /** Deleting a saved task reports true and it is gone; deleting an unknown id reports false. */
  method DeleteSavedAndUnknown(id: Identity.TaskId, other: Identity.TaskId, title: string, now: Timestamp)
    returns (first: bool, found: Option<Task>, unknown: bool)
    requires id != other && IsValidTitle(title)
    ensures first && found == None && !unknown
  {
    var repository := new InMemoryTaskRepository();
    var task := NewTask(id, title, "説明", Priority.Medium, now);
    repository.Save(task);
    first := repository.Delete(task.id);
    found := repository.FindById(task.id);
    unknown := repository.Delete(other);
  }
}
