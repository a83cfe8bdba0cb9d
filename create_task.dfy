/**
 * The create-task use case: generate an id, build the task, save it, return the id.
 *
 * The repository is the in-memory one; the random bytes behind the new id and
 * the clock reading are parameters.
 */
module CreateTask {
  import opened Errors
  import opened Text
  import Identity
  import Status
  import Priority
  import opened TaskEntity
  import opened RepositoryContract
  import opened InMemoryRepository

  class CreateTaskUseCase {
    const repository: InMemoryTaskRepository

    constructor (repository: InMemoryTaskRepository)
      ensures this.repository == repository
    {
      this.repository := repository;
    }

    /**
     * `execute(title, description, priority)`: on a blank title fails with
     * "Title cannot be empty" before anything is saved; otherwise saves a new
     * TODO task under a freshly generated id and returns that id.
     */
    method Execute(title: string, description: string, priority: Priority.TaskPriority,
                   random: seq<Identity.Byte>, now: Timestamp)
      returns (r: Result<Identity.TaskId>)
      requires |random| == 16
      requires repository.Valid()
      modifies repository
      ensures repository.Valid()
      ensures r.Ok? <==> !IsBlankTitle(Some(title))
      ensures r.Err? ==> r.error == EmptyTitleError
      ensures r.Err? ==> repository.tasks == old(repository.tasks) && repository.order == old(repository.order)
      ensures r.Ok? ==> r.value == Identity.Generate(random) && Identity.IsValid(r.value)
      ensures r.Ok? ==> r.value in repository.tasks
      ensures r.Ok? ==> SaveContract(old(repository.tasks), repository.tasks, repository.tasks[r.value])
      ensures r.Ok? ==> var t := repository.tasks[r.value];
                        && fresh(t) && t.Valid() && t.id == r.value
                        && t.title == Strip(title) && t.description == description
                        && t.priority == priority && t.status == Status.Todo
                        && t.createdAt == now && t.updatedAt == now
      ensures r.Ok? ==> repository.order == if r.value in old(repository.tasks) then old(repository.order)
                                            else old(repository.order) + [r.value]
      ensures r.Ok? && r.value !in old(repository.tasks) ==>
                |repository.tasks| == |old(repository.tasks)| + 1
    {
      var id := Identity.Generate(random);
      assert Identity.IsValid(id);
      var created := Task.Create(id, Some(title), description, priority, now);
      if created.Err? {
        return Err(created.error);
      }
      var task := created.value;
      ghost var before := repository.tasks;
      repository.Save(task);
      SaveCardinality(before, repository.tasks, task);
      return Ok(id);
    }
  }
}
