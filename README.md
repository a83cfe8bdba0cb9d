# Task domain of python-project-2026, modelled in Dafny

This project models the task domain of a small task-management application. It covers:

- the value objects `TaskStatus`, `TaskPriority` and `TaskId`;
- the mutable `Task` entity;
- the abstract `TaskRepository` and its dictionary-backed `InMemoryTaskRepository`;
- the `CreateTaskUseCase`, which generates an id, builds a task and saves it.

The model has one module per source file:

| module | file | models |
|---|---|---|
| `Status` | `task_status.dfy` | the three statuses, case-insensitive parsing, the transition rule |
| `Priority` | `task_priority.dfy` | the three priorities with values 1..3, parsing from names and from integers, the four comparisons |
| `Identity` | `task_id.dfy` | the validity check of Python's `uuid.UUID` parser, the error message, equality and hashing by value, and version-4 generation from 16 random bytes |
| `TaskEntity` | `task.dfy` | the `Task` class: `create`, with its title check and strip; the four update operations, each refreshing `updated_at`; equality and hashing by id |
| `RepositoryContract` | `task_repository.dfy` | the abstract repository, as one predicate per operation over the store (a map from id to task), with lemmas about chains of operations |
| `InMemoryRepository` | `in_memory_task_repository.dfy` | the in-memory class, proved against those predicates |
| `CreateTask` | `create_task.dfy` | the use case bound to the in-memory repository |
| `Scenarios` | `scenarios.dfy` | the repository's and the use case's unit tests, each restated as a method proved for every id, random input and clock reading |

There are also three helper modules:

- `Errors`: `ValueError` with its message, `Option`, `Result`, and `Outcome` for operations that return nothing or raise.
- `Text`: ASCII upper-casing, `str.strip` over Python's whitespace characters, `str.replace` removal, and decimal rendering.
- `Sequences`: the first element with a given key, duplicate-free sequences, and removing an element from a sequence.

A Python `dict` keeps its keys in insertion order. So the in-memory repository keeps two fields:

- the mapping, in `tasks`;
- the key order, in `order`.

Because of this, `find_all`, `find_by_status` and `find_by_priority` are specified in the order Python returns them. The repository stores references to the caller's `Task` objects. The scenario `UpdateWithoutResave` shows the consequence: a task changed after `save`, and not saved again, is found changed.

## Model

| member | source | states |
|---|---|---|
| Status.MembersComplete | src/python_project_2026/domain/value_objects/task_status.py:6-11 | TODO, IN_PROGRESS and DONE occur in the member list that `from_string` walks |
| Sequences.FirstWith | src/python_project_2026/domain/value_objects/task_status.py:27-29 | the first-match loop of `from_string` (and of both `TaskPriority` parsers): a found element has the key and no earlier element has it; None means no element has the key |
| Status.FromString | src/python_project_2026/domain/value_objects/task_status.py:13-30 | succeeds exactly when the upper-cased input is some member's value, and returns that member; otherwise raises ValueError "Invalid task status: " followed by the original input |
| Status.ToString | src/python_project_2026/domain/value_objects/task_status.py:48-50 | `str(status)` is the member's value string (a definition; `FromStringOfToString` states its property) |
| Status.CanTransitionTo | src/python_project_2026/domain/value_objects/task_status.py:32-46 | a transition is allowed exactly when the target differs from the current status (a definition; the three transition lemmas state its properties) |
| Status.ValueInjective | src/python_project_2026/domain/value_objects/task_status.py:9-11 | the three enumeration values are distinct, so a value names one member |
| Status.FromStringOfToString | src/python_project_2026/domain/value_objects/task_status.py:48-50 | parsing `str(status)` gives the same status back |
| Status.FromStringIgnoresCase | src/python_project_2026/domain/value_objects/task_status.py:26 | two inputs equal up to ASCII case parse to the same result |
| Status.FromStringExamples | tests/test_task_status.py:22-37 | "todo", "in_progress" and "Done" parse to their members; "INVALID" is refused |
| Status.FromStringErrorMessage | src/python_project_2026/domain/value_objects/task_status.py:30 | every parse failure carries a message starting "Invalid task status" |
| Status.NoSelfTransition | src/python_project_2026/domain/value_objects/task_status.py:42-43 | no status may transition to itself |
| Status.AnyOtherTransitionAllowed | src/python_project_2026/domain/value_objects/task_status.py:45-46 | every transition between two different statuses is allowed, DONE to TODO included |
| Status.TransitionSymmetric | src/python_project_2026/domain/value_objects/task_status.py:32-46 | a transition is allowed exactly when the reverse transition is |
| Priority.MembersComplete | src/python_project_2026/domain/value_objects/task_priority.py:9-11 | LOW, MEDIUM and HIGH occur in the member list that both parsers walk |
| Priority.FromString | src/python_project_2026/domain/value_objects/task_priority.py:13-30 | succeeds exactly when the upper-cased input is a member's name, and returns that member; otherwise raises "Invalid task priority: " followed by the input |
| Priority.ToString | src/python_project_2026/domain/value_objects/task_priority.py:50-52 | `str(priority)` is the member's name, not its value (a definition; `FromStringOfToString` states its property) |
| Priority.Less | src/python_project_2026/domain/value_objects/task_priority.py:54-58 | `a < b` compares the integer values (a definition; `LessIsStrictTotalOrder` states its properties) |
| Priority.LessOrEqual | src/python_project_2026/domain/value_objects/task_priority.py:60-64 | `a <= b` compares the integer values (a definition; `ComparisonsAgree` relates it to `<`) |
| Priority.Greater | src/python_project_2026/domain/value_objects/task_priority.py:66-70 | `a > b` compares the integer values (a definition; `ComparisonsAgree` relates it to `<`) |
| Priority.GreaterOrEqual | src/python_project_2026/domain/value_objects/task_priority.py:72-76 | `a >= b` compares the integer values (a definition; `ComparisonsAgree` relates it to `<`) |
| Priority.FromInt | src/python_project_2026/domain/value_objects/task_priority.py:32-48 | succeeds exactly for 1, 2 and 3, and returns the member with that value; otherwise raises "Invalid task priority: " followed by the integer in decimal, or, when the integer has more than 4300 decimal digits, the int-to-string limit error "Exceeds the limit (4300 digits) for integer string conversion; …" that formatting the message raises |
| Priority.ValueInjective | src/python_project_2026/domain/value_objects/task_priority.py:9-11 | the values 1, 2, 3 are distinct |
| Priority.NameInjective | src/python_project_2026/domain/value_objects/task_priority.py:9-11 | the member names are distinct |
| Priority.FromIntOfValue | src/python_project_2026/domain/value_objects/task_priority.py:32-48 | `from_int(p.value)` is `p` for every member |
| Priority.FromStringOfToString | src/python_project_2026/domain/value_objects/task_priority.py:50-52 | parsing `str(p)`, the member's name, gives `p` back |
| Priority.FromStringIgnoresCase | src/python_project_2026/domain/value_objects/task_priority.py:26 | two inputs equal up to ASCII case parse to the same result |
| Priority.FromStringExamples | tests/test_task_priority.py:22-37 | "low", "Medium" and "HIGH" parse to their members; "INVALID" is refused |
| Priority.ErrorMessages | src/python_project_2026/domain/value_objects/task_priority.py:13-48 | every failure of `from_string`, and every failure of `from_int` on an integer of at most 4300 digits, carries a message starting "Invalid task priority"; a longer integer fails with a message starting "Exceeds the limit" |
| Priority.LessIsStrictTotalOrder | src/python_project_2026/domain/value_objects/task_priority.py:54-58 | `<` on priorities is irreflexive, transitive, asymmetric and total on distinct members |
| Priority.ComparisonsAgree | src/python_project_2026/domain/value_objects/task_priority.py:60-76 | `<=` is `<` or equality, `>` is `<` reversed, and `>=` is the negation of `<` |
| Priority.Ordering | tests/test_task_priority.py:58-62 | LOW < MEDIUM < HIGH; HIGH > LOW; every priority lies between LOW and HIGH |
| Identity.Parse | src/python_project_2026/domain/value_objects/task_id.py:9-23 | the constructor succeeds exactly when `IsValidUuid` holds, and then keeps the string unchanged; otherwise it raises "Invalid UUID format: " followed by the value |
| Identity.UuidHexPart | src/python_project_2026/domain/value_objects/task_id.py:20 | the text `uuid.UUID` goes on to read: every "urn:" and then every "uuid:" removed, braces stripped from both ends, every hyphen removed (a definition) |
| Identity.IntAcceptsHex | src/python_project_2026/domain/value_objects/task_id.py:20 | the syntax `int(h, 16)` accepts, for a value of at least 0: surrounding whitespace, an optional sign, an optional "0x" prefix with one optional underscore after it, then hexadecimal digits with single underscores between them; a minus sign only before a zero value (a definition) |
| Identity.IsValidUuid | src/python_project_2026/domain/value_objects/task_id.py:20 | the UUID parser accepts a string exactly when `UuidHexPart` leaves 32 characters and `IntAcceptsHex` holds for them (a definition) |
| Identity.IntAcceptsLowerHex | src/python_project_2026/domain/value_objects/task_id.py:20 | `int(h, 16)` accepts any string of two or more lower-case hexadecimal digits |
| Identity.ToString | src/python_project_2026/domain/value_objects/task_id.py:39-41 | `str(task_id)` is the stored string (a definition; `ParseOfToString` states its property) |
| Identity.Hash | src/python_project_2026/domain/value_objects/task_id.py:49-51 | `hash(task_id)` is the string hash of the stored value (a definition; `EqualIdsHashEqually` states its property) |
| Identity.ParseOfToString | src/python_project_2026/domain/value_objects/task_id.py:39-41 | for a valid id, building an id from `str(id)` gives an equal id |
| Identity.EqualityByValue | src/python_project_2026/domain/value_objects/task_id.py:43-47 | two ids are equal exactly when their strings are equal |
| Identity.EqualIdsHashEqually | src/python_project_2026/domain/value_objects/task_id.py:49-51 | equal ids have equal hashes, for any string hash |
| Identity.CanonicalShape | src/python_project_2026/domain/value_objects/task_id.py:32 | the canonical 8-4-4-4-12 rendering of 32 hex digits has 36 characters, hyphens at 8, 13, 18 and 23, and the 13th digit (the version digit) at position 14 |
| Identity.CanonicalIsValid | src/python_project_2026/domain/value_objects/task_id.py:32 | the UUID parser accepts the canonical rendering of any 32 lower-case hex digits |
| Identity.Generate | src/python_project_2026/domain/value_objects/task_id.py:25-32 | `generate()` builds an id the constructor accepts, in canonical 36-character form, with version digit 4 |
| TaskEntity.BlankIffOnlyWhitespace | src/python_project_2026/domain/entities/task.py:64 | a title is refused exactly when it is missing or holds only whitespace characters (the empty title included) |
| TaskEntity.IsBlankTitle | src/python_project_2026/domain/entities/task.py:64 | a title is blank when it is missing, empty, or empty once stripped (a definition; `BlankIffOnlyWhitespace` states its meaning) |
| TaskEntity.CheckTitle | src/python_project_2026/domain/entities/task.py:64-65 | the title check passes exactly on a non-blank title, yields its stripped form (non-empty and stripped), and otherwise raises "Title cannot be empty" |
| TaskEntity.CheckValidTitle | src/python_project_2026/domain/entities/task.py:64-70 | an already stripped, non-empty title passes the check unchanged |
| TaskEntity.Task.constructor | src/python_project_2026/domain/entities/task.py:13-40 | the constructor stores every argument as given, without any check |
| TaskEntity.Task.Create | src/python_project_2026/domain/entities/task.py:42-76 | `create` fails with "Title cannot be empty" exactly on a blank title; otherwise it returns a new task with the given id, description and priority, the stripped title, status TODO, and both timestamps equal to the clock |
| TaskEntity.Task.UpdateStatus | src/python_project_2026/domain/entities/task.py:113-126 | succeeds exactly when the transition rule allows it, and then sets the status and `updated_at`; otherwise raises "Cannot transition from X to Y" and changes nothing |
| TaskEntity.Task.UpdateTitle | src/python_project_2026/domain/entities/task.py:128-141 | succeeds exactly on a non-blank title, and then stores it stripped and refreshes `updated_at`; otherwise raises "Title cannot be empty" and changes nothing; the title invariant is kept; a title already non-empty and stripped is accepted and stored unchanged |
| TaskEntity.Task.UpdateDescription | src/python_project_2026/domain/entities/task.py:143-150 | sets the description and `updated_at`, touches no other field, and keeps the title invariant |
| TaskEntity.Task.UpdatePriority | src/python_project_2026/domain/entities/task.py:152-159 | sets the priority and `updated_at`, touches no other field, and keeps the title invariant |
| TaskEntity.EqualityById | src/python_project_2026/domain/entities/task.py:161-165 | task equality holds exactly when the ids are equal, and is reflexive, symmetric and transitive |
| TaskEntity.Task.Equals | src/python_project_2026/domain/entities/task.py:161-165 | two tasks are equal when their ids are (a definition; `EqualityById` states its properties) |
| TaskEntity.Task.Hash | src/python_project_2026/domain/entities/task.py:167-169 | a task hashes as its id (a definition; `EqualTasksHashEqually` states its property) |
| TaskEntity.EqualTasksHashEqually | src/python_project_2026/domain/entities/task.py:167-169 | equal tasks hash equally, for any string hash |
| Text.StripIsStripped | src/python_project_2026/domain/entities/task.py:70 | the result of `strip()` neither starts nor ends with whitespace |
| Text.StripEmptyIffAllWhitespace | src/python_project_2026/domain/entities/task.py:64 | `s.strip() == ""` exactly when every character of `s` is whitespace |
| Text.StripIdempotent | src/python_project_2026/domain/entities/task.py:140 | stripping twice is stripping once, so a stored title is left unchanged by the next title check |
| RepositoryContract.WellKeyed | src/python_project_2026/infrastructure/repositories/in_memory_task_repository.py:23 | every task is stored under its own id (a definition; `SavePreservesWellKeyed` shows `save` keeps it) |
| RepositoryContract.SaveContract | src/python_project_2026/domain/repositories/task_repository.py:14-20 | `save(task)` inserts the task under its id or replaces what was stored there (a definition; the Save lemmas state its consequences) |
| RepositoryContract.FindByIdContract | src/python_project_2026/domain/repositories/task_repository.py:22-31 | `find_by_id(id)` returns the task stored under `id`, or None when there is none (a definition) |
| RepositoryContract.FindAllContract | src/python_project_2026/domain/repositories/task_repository.py:33-39 | `find_all()` lists every stored task exactly once (a definition; `FindAllLength` states its length) |
| RepositoryContract.Matches | src/python_project_2026/domain/repositories/task_repository.py:41-61 | a task matches a status query by its status and a priority query by its priority (a definition) |
| RepositoryContract.FindByContract | src/python_project_2026/domain/repositories/task_repository.py:41-61 | `find_by_status` and `find_by_priority` list exactly the stored tasks that match, each once (a definition; `StatusFiltersPartition` and `PriorityFilterWithinAll` state its consequences) |
| RepositoryContract.DeleteContract | src/python_project_2026/domain/repositories/task_repository.py:63-72 | `delete(id)` returns whether a task had that id, and the store loses that id (a definition; the delete lemmas state its consequences) |
| RepositoryContract.SavePreservesWellKeyed | src/python_project_2026/domain/repositories/task_repository.py:14-20 | `save` keeps every task stored under its own id |
| RepositoryContract.SaveThenFind | src/python_project_2026/domain/repositories/task_repository.py:14-31 | after `save(task)`, `find_by_id(task.id)` is the task, and every other id finds what it found before |
| RepositoryContract.SaveIdempotent | src/python_project_2026/domain/repositories/task_repository.py:14-20 | saving the same task twice leaves the same store as saving it once |
| RepositoryContract.SaveCardinality | src/python_project_2026/domain/repositories/task_repository.py:14-20 | `save` adds one record for a new id, and none for an id already stored |
| RepositoryContract.DeleteThenDeleteAgain | src/python_project_2026/domain/repositories/task_repository.py:63-72 | after `delete(id)` the id is not found; deleting it again returns False and changes nothing |
| RepositoryContract.SaveThenDelete | src/python_project_2026/domain/repositories/task_repository.py:14-72 | deleting a just-saved id returns True and leaves the store as it was before the save, without that id |
| RepositoryContract.ValuesCardinality | src/python_project_2026/domain/repositories/task_repository.py:33-39 | a store keeping each task under its own id has as many distinct tasks as ids |
| RepositoryContract.FindAllLength | src/python_project_2026/domain/repositories/task_repository.py:33-39 | `find_all` returns exactly one task per stored id |
| RepositoryContract.StatusFiltersPartition | src/python_project_2026/domain/repositories/task_repository.py:41-50 | the TODO, IN_PROGRESS and DONE queries together return exactly the tasks of `find_all`, and no task is in two of them |
| RepositoryContract.PriorityFilterWithinAll | src/python_project_2026/domain/repositories/task_repository.py:52-61 | a priority query returns only tasks of `find_all` that have that priority |
| InMemoryRepository.ValuesOf | src/python_project_2026/infrastructure/repositories/in_memory_task_repository.py:42 | `dict.values()` lists one task per key, position by position in key order |
| InMemoryRepository.ValuesOfFresh | src/python_project_2026/infrastructure/repositories/in_memory_task_repository.py:23 | assigning a new key appends its task to the end of `values()` and leaves the earlier tasks as they were |
| InMemoryRepository.Matching | src/python_project_2026/infrastructure/repositories/in_memory_task_repository.py:53 | the comprehensions of lines 53 and 64, with the selection as a `Criterion`: the matching tasks in list order; the result is no longer than the list |
| InMemoryRepository.MatchingExactly | src/python_project_2026/infrastructure/repositories/in_memory_task_repository.py:53 | the comprehension keeps exactly the tasks that match, and repeats none when the input repeats none |
| InMemoryRepository.MatchingSnoc | src/python_project_2026/infrastructure/repositories/in_memory_task_repository.py:53 | the comprehension keeps list order: an appended task is appended to the result exactly when it matches |
| InMemoryRepository.StatusFiltersSplit | src/python_project_2026/infrastructure/repositories/in_memory_task_repository.py:53 | the lengths of the three status comprehensions add up to the length of the listing |
| InMemoryRepository.PriorityFiltersSplit | src/python_project_2026/infrastructure/repositories/in_memory_task_repository.py:64 | the lengths of the three priority comprehensions add up to the length of the listing |
| InMemoryRepository.InMemoryTaskRepository.constructor | src/python_project_2026/infrastructure/repositories/in_memory_task_repository.py:13-15 | a new repository is empty and satisfies the store invariant |
| InMemoryRepository.InMemoryTaskRepository.Values | src/python_project_2026/infrastructure/repositories/in_memory_task_repository.py:42 | the listing has one entry per key in insertion order |
| InMemoryRepository.InMemoryTaskRepository.ValuesListExactly | src/python_project_2026/infrastructure/repositories/in_memory_task_repository.py:36-42 | the ordered listing holds every stored task exactly once |
| InMemoryRepository.InMemoryTaskRepository.Save | src/python_project_2026/infrastructure/repositories/in_memory_task_repository.py:17-23 | meets the `save` contract and keeps the invariant; a new id goes to the end of the insertion order and its task to the end of the listing, while a known id keeps its place |
| InMemoryRepository.InMemoryTaskRepository.FindById | src/python_project_2026/infrastructure/repositories/in_memory_task_repository.py:25-34 | meets the `find_by_id` contract: the stored task, or None when the id is absent |
| InMemoryRepository.InMemoryTaskRepository.FindAll | src/python_project_2026/infrastructure/repositories/in_memory_task_repository.py:36-42 | returns the tasks in insertion order: each stored task once, one per id |
| InMemoryRepository.InMemoryTaskRepository.FindByStatus | src/python_project_2026/infrastructure/repositories/in_memory_task_repository.py:44-53 | returns the listing filtered by status, in insertion order, and meets the `find_by_status` contract |
| InMemoryRepository.InMemoryTaskRepository.FindByPriority | src/python_project_2026/infrastructure/repositories/in_memory_task_repository.py:55-64 | returns the listing filtered by priority, in insertion order, and meets the `find_by_priority` contract |
| InMemoryRepository.InMemoryTaskRepository.Delete | src/python_project_2026/infrastructure/repositories/in_memory_task_repository.py:66-78 | meets the `delete` contract (True and removed when present; False and unchanged when absent), drops the id from the insertion order and keeps the invariant |
| InMemoryRepository.FilterListsExactly | src/python_project_2026/infrastructure/repositories/in_memory_task_repository.py:44-64 | filtering a complete listing lists exactly the stored tasks that match, each once |
| CreateTask.CreateTaskUseCase.constructor | src/python_project_2026/application/use_cases/create_task.py:12-18 | the use case keeps the repository it is given |
| CreateTask.CreateTaskUseCase.Execute | src/python_project_2026/application/use_cases/create_task.py:20-48 | fails with "Title cannot be empty" exactly on a blank title, saving nothing; otherwise saves, under a newly generated valid id, a fresh TODO task with the stripped title, the description, the priority and both timestamps from the clock, and returns that id; a new id goes to the end of the insertion order; the repository keeps its invariant |
| Scenarios.NewTask | tests/test_task.py:16-31 | a task created with a stripped title has the given fields, status TODO, and `created_at` and `updated_at` both equal to the clock reading |
| Scenarios.SaveThree | tests/test_in_memory_task_repository.py:67-84 | three tasks with distinct ids saved into a new repository are listed in the order saved |
| Scenarios.EmptyRepository | tests/test_in_memory_task_repository.py:53-65 | a new repository lists nothing, finds no id, and deletes nothing |
| Scenarios.CreateThenFind | tests/test_create_task_use_case.py:21-52 | a task created by the use case is found under the returned id, with the title, the description (empty or not), HIGH priority and TODO |
| Scenarios.CreateWithBlankTitle | tests/test_create_task_use_case.py:54-63 | the titles "" and "   " are refused with "Title cannot be empty", and nothing is saved |
| Scenarios.SaveThenUpdate | tests/test_in_memory_task_repository.py:32-51 | a saved task retitled and started, then saved again, is found with the new title and IN_PROGRESS; the status change succeeds |
| Scenarios.UpdateWithoutResave | src/python_project_2026/infrastructure/repositories/in_memory_task_repository.py:17-34 | the repository holds the caller's task object: a task retitled and started after `save`, without being saved again, is found with the new title, IN_PROGRESS and the new `updated_at` |
| Scenarios.FindAllOfThree | tests/test_in_memory_task_repository.py:67-84 | three saved tasks are all listed by `find_all`, in the order saved |
| Scenarios.FindByStatusOfThree | tests/test_in_memory_task_repository.py:86-110 | with the second of three tasks started, TODO finds the first and third, and IN_PROGRESS finds the second |
| Scenarios.FindByPriorityOfThree | tests/test_in_memory_task_repository.py:112-133 | with priorities HIGH, LOW, HIGH, the HIGH query finds the first and third, and the LOW query finds the second |
| Scenarios.DeleteSavedAndUnknown | tests/test_in_memory_task_repository.py:135-155 | deleting a saved task returns True and it is no longer found; deleting an unknown id returns False |

## Left out

- `str.upper`: `Text.Upper` changes only the ASCII letters a–z. Python's Unicode case mapping, which can also change a string's length, is not modelled.
- Identity.Parse: Python's `int()` also reads non-ASCII decimal digits (for example Arabic-Indic digits) as the ASCII digits they stand for; `Identity.IntAcceptsHex` accepts only ASCII hexadecimal digits, so the model refuses such ids. Python's exception for a non-string argument is excluded by Dafny's types.
- Priority.FromInt: the 4300-digit limit is Python's default. A program can change it with `sys.set_int_max_str_digits` or the `PYTHONINTMAXSTRDIGITS` setting; the model keeps the default. The same holds for `Priority.ErrorMessages`.
- TaskId validity: it is the predicate `Identity.IsValid`, not part of the type. Every id the model builds (by `Parse` or `Generate`) satisfies it. `Task.Create` and the repository accept any `TaskId` value, as they do in Python, where only the `TaskId` constructor checks the format.
- Identity.Generate: `uuid4()` reads the operating system's randomness; here the 16 random bytes are a parameter. The source does not promise that two generated ids differ, and neither does the model.
- The clock: `datetime.now(UTC)` becomes a `now` parameter of every operation that stamps a time. The tests' check that `updated_at` grows across calls depends on the real clock, so it is not stated.
- `hash()`: Python's string hash is keyed per process, so it is a parameter `stringHash`. Only "equal values hash equally" is stated.
- The abstract repository: Python's abstract base class becomes the predicates of `RepositoryContract`. The in-memory repository proves its methods against them. The use case is bound to `InMemoryTaskRepository`, the only implementation in the source.
- `async`/`await`: every repository and use-case operation is synchronous here; there is no concurrency in the source's in-memory store to model.
- `Task.__str__`: left out. It produces text for display only, and nothing in the core reads it back.
- Comparisons: `TaskPriority.__lt__` and the other three return `NotImplemented` for a non-priority operand. `TaskId.__eq__` and `Task.__eq__` return False for an operand of another class. These cases are excluded by Dafny's types.
- The Scenarios: they take the titles and ids as parameters (stripped, non-empty titles; distinct ids) rather than the tests' literal strings. Each scenario therefore covers every such input.
- Error classes: the code raises `ValueError` with a message everywhere, so the model has one error constructor carrying that message, with the message texts of the code.
- `find_*` methods: they read the repository and change nothing (they have no `modifies` clause).
- `Task.id` and `Task.created_at`: the source never assigns them after construction, so they are `const` here.
