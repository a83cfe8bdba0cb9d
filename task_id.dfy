/**
 * The identity of a task: an immutable string that must be accepted by
 * Python's `uuid.UUID` parser, compared and hashed by its value.
 */
module Identity {
  import opened Errors
  import opened Text

  /**
   * The hexadecimal digits `uuid.UUID(hex)` goes on to read: it removes every
   * "urn:" and then every "uuid:", strips braces from both ends and removes
   * every hyphen.
   */
  function UuidHexPart(s: string): string {
    RemoveAll(StripChars(RemoveAll(RemoveAll(s, "urn:"), "uuid:"), {'{', '}'}), "-")
  }

  /**
   * The whitespace `int()` skips around a number: tab, line feed, vertical tab,
   * form feed, carriage return and space, and every non-ASCII character for
   * which `isspace()` holds. The separators U+001C to U+001F satisfy
   * `isspace()` but are not skipped.
   */
  const IntSpace: set<char> := Whitespace - {'\U{1C}', '\U{1D}', '\U{1E}', '\U{1F}'}

  /** Hexadecimal digits, with single underscores allowed between two of them. */
  predicate IsDigitGroup(g: string) {
    && g != []
    && IsHexDigit(g[0]) && IsHexDigit(g[|g| - 1])
    && (forall k :: 0 <= k < |g| ==> IsHexDigit(g[k]) || g[k] == '_')
    && (forall k :: 0 <= k < |g| - 1 ==> g[k] == '_' ==> g[k + 1] != '_')
  }

  /** The number after an optional sign. */
  function Unsigned(t: string): string {
    if t != [] && (t[0] == '+' || t[0] == '-') then t[1..] else t
  }

  /** The digits after an optional "0x" or "0X" prefix and one optional underscore after it. */
  function AfterPrefix(u: string): string {
    if |u| >= 2 && u[0] == '0' && (u[1] == 'x' || u[1] == 'X') then
      if |u| >= 3 && u[2] == '_' then u[3..] else u[2..]
    else u
  }

  /**
   * `int(h, 16)` accepts `h` and gives a value of at least 0: whitespace around
   * it, an optional sign, an optional "0x" prefix, then hexadecimal digits
   * grouped by single underscores. A minus sign is allowed only when every
   * digit is 0, because `uuid.UUID` refuses a negative value.
   */
  predicate IntAcceptsHex(h: string) {
    IsSignedNumber(StripChars(h, IntSpace))
  }

  /** The part of `IntAcceptsHex` after the whitespace is stripped. */
  predicate IsSignedNumber(t: string) {
    var g := AfterPrefix(Unsigned(t));
    && IsDigitGroup(g)
    && (t != [] && t[0] == '-' ==> forall k :: 0 <= k < |g| ==> g[k] == '0' || g[k] == '_')
  }

  /**
   * `uuid.UUID(s)` accepts `s`: exactly 32 characters are left once "urn:",
   * "uuid:", the braces and the hyphens are gone, and `int(…, 16)` accepts
   * them. At most 32 digits are below 2^128, so no positive value is too large.
   */
  predicate IsValidUuid(s: string) {
    var h := UuidHexPart(s);
    |h| == 32 && IntAcceptsHex(h)
  }

  /**
   * A task id: the string it was built from. Every id the model builds (by
   * `Parse` or `Generate`) satisfies `IsValid`, which is what Python's
   * constructor guarantees by raising otherwise.
   */
  datatype TaskId = TaskId(value: string)

  predicate IsValid(id: TaskId) {
    IsValidUuid(id.value)
  }

  /**
   * `TaskId(value)`: succeeds exactly when the UUID parser accepts `value`,
   * and keeps `value` unchanged; otherwise fails with "Invalid UUID format: <value>".
   */
  function Parse(value: string): (r: Result<TaskId>)
    ensures r.Ok? <==> IsValidUuid(value)
    ensures r.Ok? ==> r.value.value == value && IsValid(r.value)
    ensures r.Err? ==> r.error == ValueError("Invalid UUID format: " + value)
  {
    if IsValidUuid(value) then Ok(TaskId(value))
    else Err(ValueError("Invalid UUID format: " + value))
  }

  /** `str(task_id)` is the stored string. */
  function ToString(id: TaskId): string {
    id.value
  }

  /**
   * `hash(task_id)` is the hash of the stored string. Python's string hash is
   * keyed per process, so it is a parameter here.
   */
  function Hash(id: TaskId, stringHash: string -> int): int {
    stringHash(id.value)
  }

  /** Parsing the string form of an id gives the same id back. */
  lemma ParseOfToString(id: TaskId)
    requires IsValid(id)
    ensures Parse(ToString(id)) == Ok(id)
  {
  }

  /** Two ids are equal exactly when their strings are equal. */
  lemma EqualityByValue(a: TaskId, b: TaskId)
    ensures a == b <==> a.value == b.value
  {
  }

  /** Equal ids hash equally, whatever the string hash. */
  lemma EqualIdsHashEqually(a: TaskId, b: TaskId, stringHash: string -> int)
    requires a == b
    ensures Hash(a, stringHash) == Hash(b, stringHash)
  {
  }

  type Byte = x: int | 0 <= x < 256
  type Nibble = x: int | 0 <= x < 16

  predicate IsLowerHexDigit(c: char) {
    '0' <= c <= '9' || 'a' <= c <= 'f'
  }

  /** The lower-case hexadecimal digit of a nibble. */
  function HexChar(n: Nibble): (c: char)
    ensures IsLowerHexDigit(c)
  {
    if n < 10 then ('0' as int + n) as char else ('a' as int + n - 10) as char
  }

  /**
   * The 32 nibbles of `uuid4()`: the 16 random bytes read big-endian, with the
   * version nibble (the 13th) set to 4 and the two top bits of the 17th set to 10.
   */
  function Uuid4Nibbles(random: seq<Byte>): (n: seq<Nibble>)
    requires |random| == 16
    ensures |n| == 32
  {
    var raw := seq(32, i requires 0 <= i < 32 =>
      (if i % 2 == 0 then random[i / 2] / 16 else random[i / 2] % 16) as Nibble);
    raw[12 := 4][16 := 8 + raw[16] % 4]
  }

  /** `'%032x' % n`. */
  function HexString(n: seq<Nibble>): (h: string)
    ensures |h| == |n|
    ensures forall k :: 0 <= k < |h| ==> h[k] == HexChar(n[k])
  {
    seq(|n|, i requires 0 <= i < |n| => HexChar(n[i]))
  }

  /** `str(uuid)`: the 32 digits in groups of 8, 4, 4, 4 and 12 joined by hyphens. */
  function Canonical(h: string): string
    requires |h| == 32
  {
    h[..8] + "-" + h[8..12] + "-" + h[12..16] + "-" + h[16..20] + "-" + h[20..]
  }

  /** The layout of the canonical form: 36 characters, hyphens at 8, 13, 18 and 23. */
  lemma CanonicalShape(h: string)
    requires |h| == 32
    ensures |Canonical(h)| == 36
    ensures Canonical(h)[8] == '-' && Canonical(h)[13] == '-'
    ensures Canonical(h)[18] == '-' && Canonical(h)[23] == '-'
    ensures Canonical(h)[14] == h[12]
  {
  }

  predicate AllLowerHex(s: string) {
    forall k :: 0 <= k < |s| ==> IsLowerHexDigit(s[k])
  }

  predicate NoLetterU(s: string) {
    forall k :: 0 <= k < |s| ==> s[k] != 'u'
  }

  lemma NoLetterUConcat(a: string, b: string)
    requires NoLetterU(a) && NoLetterU(b)
    ensures NoLetterU(a + b)
  {
  }

  lemma CanonicalHasNoLetterU(h: string)
    requires |h| == 32 && AllLowerHex(h)
    ensures NoLetterU(Canonical(h))
  {
    var p1, p2, p3, p4, p5 := h[..8], h[8..12], h[12..16], h[16..20], h[20..];
    assert NoLetterU(p1) && NoLetterU(p2) && NoLetterU(p3) && NoLetterU(p4) && NoLetterU(p5);
    NoLetterUConcat(p1, "-");
    NoLetterUConcat(p1 + "-", p2);
    NoLetterUConcat(p1 + "-" + p2, "-");
    NoLetterUConcat(p1 + "-" + p2 + "-", p3);
    NoLetterUConcat(p1 + "-" + p2 + "-" + p3, "-");
    NoLetterUConcat(p1 + "-" + p2 + "-" + p3 + "-", p4);
    NoLetterUConcat(p1 + "-" + p2 + "-" + p3 + "-" + p4, "-");
    NoLetterUConcat(p1 + "-" + p2 + "-" + p3 + "-" + p4 + "-", p5);
  }

  /** Appending a hyphen and a hyphen-free piece adds just the piece once hyphens are removed. */
  lemma RemoveHyphenStep(a: string, p: string)
    requires forall k :: 0 <= k < |p| ==> p[k] != '-'
    ensures RemoveAll(a + "-" + p, "-") == RemoveAll(a, "-") + p
  {
    RemoveAllConcat(a + "-", p, '-');
    RemoveAllConcat(a, "-", '-');
    RemoveAllAbsent(p, "-");
    assert RemoveAll("-", "-") == [];
  }

  lemma CanonicalHyphensRemoved(h: string)
    requires |h| == 32 && AllLowerHex(h)
    ensures RemoveAll(Canonical(h), "-") == h
  {
    var p1, p2, p3, p4, p5 := h[..8], h[8..12], h[12..16], h[16..20], h[20..];
    var a2 := p1 + "-" + p2;
    var a3 := a2 + "-" + p3;
    var a4 := a3 + "-" + p4;
    var a5 := a4 + "-" + p5;
    assert a5 == Canonical(h);
    RemoveAllAbsent(p1, "-");
    RemoveHyphenStep(p1, p2);
    RemoveHyphenStep(a2, p3);
    RemoveHyphenStep(a3, p4);
    RemoveHyphenStep(a4, p5);
    assert p1 + p2 + p3 + p4 + p5 == h;
  }

  /** A string without 'u' and with braces at neither end loses only its hyphens. */
  lemma HexPartOfPlainString(s: string)
    requires NoLetterU(s) && s != []
    requires s[0] != '{' && s[0] != '}' && s[|s| - 1] != '{' && s[|s| - 1] != '}'
    ensures UuidHexPart(s) == RemoveAll(s, "-")
  {
    RemoveAllAbsent(s, "urn:");
    RemoveAllAbsent(s, "uuid:");
    StripCharsNoop(s, {'{', '}'});
  }

  /** `int(h, 16)` accepts plain lower-case hexadecimal digits. */
  lemma IntAcceptsLowerHex(h: string)
    requires |h| >= 2 && AllLowerHex(h)
    ensures IntAcceptsHex(h)
  {
    LowerHexIsStripped(h);
    LowerHexIsSignedNumber(h);
    StrippedNumberAccepted(h);
  }

  lemma LowerHexIsSignedNumber(h: string)
    requires |h| >= 2 && AllLowerHex(h)
    ensures IsSignedNumber(h)
  {
    NoSignNoPrefix(h);
    LowerHexIsDigitGroup(h);
  }

  lemma StrippedNumberAccepted(h: string)
    requires StripChars(h, IntSpace) == h && IsSignedNumber(h)
    ensures IntAcceptsHex(h)
  {
  }

  lemma LowerHexIsStripped(h: string)
    requires h != [] && AllLowerHex(h)
    ensures StripChars(h, IntSpace) == h
  {
    LowerHexIsNotSpace(h[0]);
    LowerHexIsNotSpace(h[|h| - 1]);
    StripCharsNoop(h, IntSpace);
  }

  lemma NoSignNoPrefix(h: string)
    requires |h| >= 2 && IsLowerHexDigit(h[0]) && IsLowerHexDigit(h[1])
    ensures AfterPrefix(Unsigned(h)) == h
  {
  }

  lemma LowerHexIsDigitGroup(g: string)
    requires g != [] && AllLowerHex(g)
    ensures IsDigitGroup(g)
  {
  }

  lemma LowerHexIsNotSpace(c: char)
    requires IsLowerHexDigit(c)
    ensures c !in IntSpace
  {
    assert c !in Whitespace;
  }

  lemma ValidWhenHexPartIsLowerHex(s: string)
    requires |UuidHexPart(s)| == 32 && AllLowerHex(UuidHexPart(s))
    ensures IsValidUuid(s)
  {
    IntAcceptsLowerHex(UuidHexPart(s));
  }

  /** The canonical form of 32 lower-case hex digits is accepted by the UUID parser. */
  lemma CanonicalIsValid(h: string)
    requires |h| == 32 && AllLowerHex(h)
    ensures IsValidUuid(Canonical(h))
  {
    var s := Canonical(h);
    CanonicalHasNoLetterU(h);
    CanonicalHyphensRemoved(h);
    assert s[0] == h[0];
    assert s[|s| - 1] == h[31];
    HexPartOfPlainString(s);
    ValidWhenHexPartIsLowerHex(s);
  }

  /**
   * `TaskId.generate()`: the canonical string of a version-4 UUID built from 16
   * random bytes (the randomness is a parameter). It is always a valid id of 36
   * characters, with hyphens at positions 8, 13, 18 and 23 and version digit '4'.
   */
  function Generate(random: seq<Byte>): (id: TaskId)
    requires |random| == 16
    ensures IsValid(id)
    ensures |id.value| == 36
    ensures id.value[8] == '-' && id.value[13] == '-' && id.value[18] == '-' && id.value[23] == '-'
    ensures id.value[14] == '4'
  {
    var n := Uuid4Nibbles(random);
    var h := HexString(n);
    assert AllLowerHex(h);
    assert h[12] == HexChar(4) == '4';
    CanonicalShape(h);
    CanonicalIsValid(h);
    TaskId(Canonical(h))
  }
}
