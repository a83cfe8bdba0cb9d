/**
 * The status of a task: a closed enumeration whose members carry the string
 * values "TODO", "IN_PROGRESS" and "DONE".
 */
module Status {
  import opened Errors
  import opened Text
  import opened Sequences

  datatype TaskStatus = Todo | InProgress | Done

  /** The members in declaration order, the order in which `from_string` tries them. */
  const Members: seq<TaskStatus> := [Todo, InProgress, Done]

  /** The enumeration value of a member. */
  function Value(s: TaskStatus): string {
    match s
    case Todo => "TODO"
    case InProgress => "IN_PROGRESS"
    case Done => "DONE"
  }

  /** `str(status)` is the member's value. */
  function ToString(s: TaskStatus): string {
    Value(s)
  }

  /** Every member occurs in `Members`. */
  lemma MembersComplete(s: TaskStatus)
    ensures s in Members
  {
    assert s == Members[if s.Todo? then 0 else if s.InProgress? then 1 else 2];
  }

  /**
   * `TaskStatus.from_string`: upper-cases the input and returns the member with
   * that value, or fails with "Invalid task status: <input>".
   */
  function FromString(input: string): (r: Result<TaskStatus>)
    ensures r.Ok? <==> exists s :: Value(s) == Upper(input)
    ensures r.Ok? ==> Value(r.value) == Upper(input)
    ensures r.Err? ==> r.error == ValueError("Invalid task status: " + input)
  {
    match FirstWith(Members, Value, Upper(input))
    case Some(s) => Ok(s)
    case None =>
      assert forall s :: Value(s) != Upper(input) by {
        forall s ensures Value(s) != Upper(input) {
          MembersComplete(s);
        }
      }
      Err(ValueError("Invalid task status: " + input))
  }

  /** `can_transition_to`: any status may move to any other status, never to itself. */
  predicate CanTransitionTo(from: TaskStatus, target: TaskStatus) {
    from != target
  }

  /** Values are distinct, so a value names exactly one member. */
  lemma ValueInjective(s: TaskStatus, t: TaskStatus)
    ensures Value(s) == Value(t) <==> s == t
  {
  }

  /** Parsing the string form of a member gives the member back. */
  lemma FromStringOfToString(s: TaskStatus)
    ensures FromString(ToString(s)) == Ok(s)
  {
    var v := ToString(s);
    assert Upper(v) == v;
    ValueInjective(FromString(v).value, s);
  }

  /** Parsing ignores the case of ASCII letters. */
  lemma FromStringIgnoresCase(a: string, b: string)
    requires Upper(a) == Upper(b)
    ensures FromString(a).Ok? <==> FromString(b).Ok?
    ensures FromString(a).Ok? ==> FromString(a).value == FromString(b).value
  {
  }

  lemma FromStringExamples()
    ensures FromString("todo") == Ok(Todo)
    ensures FromString("in_progress") == Ok(InProgress)
    ensures FromString("Done") == Ok(Done)
    ensures FromString("INVALID").Err?
  {
    assert Upper("todo") == "TODO";
    assert Upper("in_progress") == "IN_PROGRESS";
    assert Upper("Done") == "DONE";
    assert Upper("INVALID") == "INVALID";
  }

  /** A failed parse reports the "Invalid task status" message. */
  lemma FromStringErrorMessage(input: string)
    requires FromString(input).Err?
    ensures StartsWith(FromString(input).error.message, "Invalid task status")
  {
  }

  /** No status may transition to itself. */
  lemma NoSelfTransition(s: TaskStatus)
    ensures !CanTransitionTo(s, s)
  {
  }

  /** Every status may transition to every other status, including DONE back to TODO. */
  lemma AnyOtherTransitionAllowed(s: TaskStatus, t: TaskStatus)
    requires s != t
    ensures CanTransitionTo(s, t)
  {
  }

  lemma TransitionSymmetric(s: TaskStatus, t: TaskStatus)
    ensures CanTransitionTo(s, t) <==> CanTransitionTo(t, s)
  {
  }
}
