/**
 * The priority of a task: a closed enumeration LOW = 1, MEDIUM = 2, HIGH = 3,
 * ordered by its integer values.
 */
module Priority {
  import opened Errors
  import opened Text
  import opened Sequences

  datatype TaskPriority = Low | Medium | High

  /** The members in declaration order, the order in which the parsers try them. */
  const Members: seq<TaskPriority> := [Low, Medium, High]

  /** The enumeration value of a member. */
  function Value(p: TaskPriority): int {
    match p
    case Low => 1
    case Medium => 2
    case High => 3
  }

  /** The member's name. */
  function Name(p: TaskPriority): string {
    match p
    case Low => "LOW"
    case Medium => "MEDIUM"
    case High => "HIGH"
  }

  /** `str(priority)` is the member's name (not its value). */
  function ToString(p: TaskPriority): string {
    Name(p)
  }

  /** Every member occurs in `Members`, at position `Value(p) - 1`. */
  lemma MembersComplete(p: TaskPriority)
    ensures 0 <= Value(p) - 1 < |Members| && Members[Value(p) - 1] == p
  {
  }

  /**
   * `TaskPriority.from_string`: upper-cases the input and returns the member with
   * that name, or fails with "Invalid task priority: <input>".
   */
  function FromString(input: string): (r: Result<TaskPriority>)
    ensures r.Ok? <==> exists p :: Name(p) == Upper(input)
    ensures r.Ok? ==> Name(r.value) == Upper(input)
    ensures r.Err? ==> r.error == ValueError("Invalid task priority: " + input)
  {
    match FirstWith(Members, Name, Upper(input))
    case Some(p) => Ok(p)
    case None =>
      assert forall p :: Name(p) != Upper(input) by {
        forall p ensures Name(p) != Upper(input) {
          MembersComplete(p);
        }
      }
      Err(ValueError("Invalid task priority: " + input))
  }

  /**
   * Python refuses to render an integer of more than this many decimal digits
   * as a string (the default of `sys.get_int_max_str_digits()`), so formatting
   * the message of `from_int` raises first for such an integer.
   */
  const MaxStrDigits: nat := 4300

  const DigitLimitError: Error :=
    ValueError("Exceeds the limit" + " (4300 digits) for integer string conversion; "
               + "use sys.set_int_max_str_digits() to increase the limit")

  function Abs(i: int): nat {
    if i < 0 then -i else i
  }

  /**
   * `TaskPriority.from_int`: the member with that value, or a failure with
   * "Invalid task priority: <the integer in decimal>"; building that message
   * fails instead when the integer has more than `MaxStrDigits` digits.
   */
  function FromInt(i: int): (r: Result<TaskPriority>)
    ensures r.Ok? <==> 1 <= i <= 3
    ensures r.Ok? ==> Value(r.value) == i
    ensures r.Err? && |NatToString(Abs(i))| <= MaxStrDigits ==>
              r.error == ValueError("Invalid task priority: " + IntToString(i))
    ensures r.Err? && |NatToString(Abs(i))| > MaxStrDigits ==> r.error == DigitLimitError
  {
    match FirstWith(Members, Value, i)
    case Some(p) => Ok(p)
    case None =>
      assert Value(Low) == 1 && Value(Medium) == 2 && Value(High) == 3;
      if |NatToString(Abs(i))| > MaxStrDigits then Err(DigitLimitError)
      else Err(ValueError("Invalid task priority: " + IntToString(i)))
  }

  /** `__lt__`, `__le__`, `__gt__` and `__ge__` compare the integer values. */
  predicate Less(a: TaskPriority, b: TaskPriority) {
    Value(a) < Value(b)
  }

  predicate LessOrEqual(a: TaskPriority, b: TaskPriority) {
    Value(a) <= Value(b)
  }

  predicate Greater(a: TaskPriority, b: TaskPriority) {
    Value(a) > Value(b)
  }

  predicate GreaterOrEqual(a: TaskPriority, b: TaskPriority) {
    Value(a) >= Value(b)
  }

  lemma ValueInjective(p: TaskPriority, q: TaskPriority)
    ensures Value(p) == Value(q) <==> p == q
  {
  }

  lemma NameInjective(p: TaskPriority, q: TaskPriority)
    ensures Name(p) == Name(q) <==> p == q
  {
  }

  /** `from_int` inverts `.value`. */
  lemma FromIntOfValue(p: TaskPriority)
    ensures FromInt(Value(p)) == Ok(p)
  {
    ValueInjective(FromInt(Value(p)).value, p);
  }

  /** `from_string` inverts `str`. */
  lemma FromStringOfToString(p: TaskPriority)
    ensures FromString(ToString(p)) == Ok(p)
  {
    var n := ToString(p);
    assert Upper(n) == n;
    NameInjective(FromString(n).value, p);
  }

  /** Parsing ignores the case of ASCII letters. */
  lemma FromStringIgnoresCase(a: string, b: string)
    requires Upper(a) == Upper(b)
    ensures FromString(a).Ok? <==> FromString(b).Ok?
    ensures FromString(a).Ok? ==> FromString(a).value == FromString(b).value
  {
  }

  lemma FromStringExamples()
    ensures FromString("low") == Ok(Low)
    ensures FromString("Medium") == Ok(Medium)
    ensures FromString("HIGH") == Ok(High)
    ensures FromString("INVALID").Err?
  {
    assert Upper("low") == "LOW";
    assert Upper("Medium") == "MEDIUM";
    assert Upper("HIGH") == "HIGH";
    assert Upper("INVALID") == "INVALID";
  }

  /**
   * Both parsers report the "Invalid task priority" message, except that
   * `from_int` reports the digit limit for an integer too long to print.
   */
  lemma ErrorMessages(input: string, i: int)
    ensures FromString(input).Err? ==> StartsWith(FromString(input).error.message, "Invalid task priority")
    ensures FromInt(i).Err? && |NatToString(Abs(i))| <= MaxStrDigits ==>
              StartsWith(FromInt(i).error.message, "Invalid task priority")
    ensures FromInt(i).Err? && |NatToString(Abs(i))| > MaxStrDigits ==>
              StartsWith(FromInt(i).error.message, "Exceeds the limit")
  {
    var rest := " (4300 digits) for integer string conversion; "
                + "use sys.set_int_max_str_digits() to increase the limit";
    assert DigitLimitError.message == "Exceeds the limit" + rest;
    assert ("Exceeds the limit" + rest)[..|"Exceeds the limit"|] == "Exceeds the limit";
  }

  /** `<` is a strict total order: irreflexive, transitive and connected. */
  lemma LessIsStrictTotalOrder(a: TaskPriority, b: TaskPriority, c: TaskPriority)
    ensures !Less(a, a)
    ensures Less(a, b) && Less(b, c) ==> Less(a, c)
    ensures a != b ==> Less(a, b) || Less(b, a)
    ensures Less(a, b) ==> !Less(b, a)
  {
    ValueInjective(a, b);
  }

  /** The other three operators agree with `<` and equality. */
  lemma ComparisonsAgree(a: TaskPriority, b: TaskPriority)
    ensures LessOrEqual(a, b) <==> Less(a, b) || a == b
    ensures Greater(a, b) <==> Less(b, a)
    ensures GreaterOrEqual(a, b) <==> !Less(a, b)
  {
    ValueInjective(a, b);
  }

  lemma Ordering()
    ensures Less(Low, Medium) && Less(Medium, High) && Greater(High, Low)
    ensures forall p :: LessOrEqual(Low, p) && LessOrEqual(p, High)
  {
  }
}
