/**
 * The task entity: a mutable aggregate identified by its `TaskId`.
 *
 * The clock (`datetime.now(UTC)`) is a `now` parameter of every operation
 * that stamps a time.
 */
module TaskEntity {
  import opened Errors
  import opened Text
  import Status
  import Priority
  import Identity

  /** A point in time, as read from the clock. */
  type Timestamp = int

  const EmptyTitleError: Error := ValueError("Title cannot be empty")

  /** `not title or title.strip() == ""`: the title is missing, empty or only whitespace. */
  predicate IsBlankTitle(title: Option<string>) {
    title.None? || title.value == "" || Strip(title.value) == ""
  }

  /** A title as a task stores it after validation: non-empty and already stripped. */
  predicate IsValidTitle(t: string) {
    t != [] && IsStripped(t)
  }

  /** A title is blank exactly when it is missing or holds nothing but whitespace. */
  lemma BlankIffOnlyWhitespace(title: Option<string>)
    ensures IsBlankTitle(title) <==>
      title.None? || forall k :: 0 <= k < |title.value| ==> title.value[k] in Whitespace
  {
    if title.Some? {
      StripEmptyIffAllWhitespace(title.value);
    }
  }

  /**
   * The title check shared by `create` and `update_title`: the stripped title,
   * or "Title cannot be empty" when the title is blank.
   */
  function CheckTitle(title: Option<string>): (r: Result<string>)
    ensures r.Ok? <==> !IsBlankTitle(title)
    ensures r.Ok? ==> r.value == Strip(title.value) && IsValidTitle(r.value)
    ensures r.Err? ==> r.error == EmptyTitleError
  {
    if IsBlankTitle(title) then Err(EmptyTitleError)
    else
      StripIsStripped(title.value);
      Ok(Strip(title.value))
  }

  /** Checking an already valid title accepts it unchanged. */
  lemma CheckValidTitle(t: string)
    requires IsValidTitle(t)
    ensures CheckTitle(Some(t)) == Ok(t)
  {
    StripOfStripped(t);
  }

  class Task {
    const id: Identity.TaskId
    var title: string
    var description: string
    var priority: Priority.TaskPriority
    var status: Status.TaskStatus
    const createdAt: Timestamp
    var updatedAt: Timestamp

    /** The invariant every task built by `Create` keeps: its title is non-empty and stripped. */
    ghost predicate Valid()
      reads this
    {
      IsValidTitle(title)
    }

    /** `Task(...)`: stores every argument as given, without validation. */
    constructor (id: Identity.TaskId, title: string, description: string,
                 priority: Priority.TaskPriority, status: Status.TaskStatus,
                 createdAt: Timestamp, updatedAt: Timestamp)
      ensures this.id == id && this.title == title && this.description == description
      ensures this.priority == priority && this.status == status
      ensures this.createdAt == createdAt && this.updatedAt == updatedAt
    {
      this.id := id;
      this.title := title;
      this.description := description;
      this.priority := priority;
      this.status := status;
      this.createdAt := createdAt;
      this.updatedAt := updatedAt;
    }

    /**
     * `Task.create`: fails with "Title cannot be empty" on a blank title;
     * otherwise a new task with the stripped title, status TODO and both
     * timestamps equal to the clock.
     */
    static method Create(id: Identity.TaskId, title: Option<string>, description: string,
                         priority: Priority.TaskPriority, now: Timestamp)
      returns (r: Result<Task>)
      ensures r.Ok? <==> !IsBlankTitle(title)
      ensures r.Err? ==> r.error == EmptyTitleError
      ensures r.Ok? ==> fresh(r.value) && r.value.Valid()
      ensures r.Ok? ==> && r.value.id == id && r.value.title == Strip(title.value)
                        && r.value.description == description && r.value.priority == priority
                        && r.value.status == Status.Todo
                        && r.value.createdAt == now && r.value.updatedAt == now
    {
      var checked := CheckTitle(title);
      if checked.Err? {
        return Err(checked.error);
      }
      var task := new Task(id, checked.value, description, priority, Status.Todo, now, now);
      return Ok(task);
    }

    /**
     * `update_status`: refused, with nothing changed, when the transition rule
     * forbids it (the new status equals the current one); otherwise sets the
     * status and refreshes `updatedAt`.
     */
    method UpdateStatus(newStatus: Status.TaskStatus, now: Timestamp) returns (r: Outcome)
      modifies this`status, this`updatedAt
      ensures r.Pass? <==> Status.CanTransitionTo(old(status), newStatus)
      ensures r.Pass? ==> status == newStatus && updatedAt == now
      ensures r.Fail? ==> status == old(status) && updatedAt == old(updatedAt)
      ensures r.Fail? ==> r.error == ValueError("Cannot transition from " + Status.ToString(old(status))
                                                + " to " + Status.ToString(newStatus))
      ensures Valid() <==> old(Valid())
    {
      if !Status.CanTransitionTo(status, newStatus) {
        return Fail(ValueError("Cannot transition from " + Status.ToString(status)
                               + " to " + Status.ToString(newStatus)));
      }
      status := newStatus;
      updatedAt := now;
      return Pass;
    }

    /**
     * `update_title`: applies the same check as `create`; on success stores the
     * stripped title and refreshes `updatedAt`, on failure changes nothing.
     */
    method UpdateTitle(newTitle: string, now: Timestamp) returns (r: Outcome)
      modifies this`title, this`updatedAt
      ensures r.Pass? <==> !IsBlankTitle(Some(newTitle))
      ensures r.Pass? ==> title == Strip(newTitle) && updatedAt == now && Valid()
      ensures IsValidTitle(newTitle) ==> r.Pass? && title == newTitle
      ensures r.Fail? ==> (Valid() <==> old(Valid()))
      ensures r.Fail? ==> r.error == EmptyTitleError && title == old(title) && updatedAt == old(updatedAt)
    {
      var checked := CheckTitle(Some(newTitle));
      if IsValidTitle(newTitle) {
        CheckValidTitle(newTitle);
      }
      if checked.Err? {
        return Fail(checked.error);
      }
      title := checked.value;
      updatedAt := now;
      return Pass;
    }

    /** `update_description`: always succeeds; sets the description and refreshes `updatedAt`. */
    method UpdateDescription(newDescription: string, now: Timestamp)
      modifies this`description, this`updatedAt
      ensures description == newDescription && updatedAt == now
      ensures Valid() <==> old(Valid())
    {
      description := newDescription;
      updatedAt := now;
    }

    /** `update_priority`: always succeeds; sets the priority and refreshes `updatedAt`. */
    method UpdatePriority(newPriority: Priority.TaskPriority, now: Timestamp)
      modifies this`priority, this`updatedAt
      ensures priority == newPriority && updatedAt == now
      ensures Valid() <==> old(Valid())
    {
      priority := newPriority;
      updatedAt := now;
    }

    /** `__eq__`: tasks are compared by id alone. */
    predicate Equals(other: Task) {
      id == other.id
    }

    /** `__hash__`: the hash of the id. */
    function Hash(stringHash: string -> int): int {
      Identity.Hash(id, stringHash)
    }
  }

  /** Task equality is an equivalence, decided by the ids whatever the other fields hold. */
  lemma EqualityById(a: Task, b: Task, c: Task)
    ensures a.Equals(b) <==> a.id == b.id
    ensures a.Equals(a)
    ensures a.Equals(b) ==> b.Equals(a)
    ensures a.Equals(b) && b.Equals(c) ==> a.Equals(c)
  {
  }

  /** Equal tasks hash equally, whatever the string hash. */
  lemma EqualTasksHashEqually(a: Task, b: Task, stringHash: string -> int)
    requires a.Equals(b)
    ensures a.Hash(stringHash) == b.Hash(stringHash)
  {
  }
}
