/** The helpers of the TypeScript engine: the numeric-code errors, the random
    listener choice, the process-wide sequence counter and the canonical
    resource names. */
module Utils {
  import opened Wrappers
  import opened Decimal

  // ---------------------------------------------------------------------------
  // Errors

  const INVALID_ARGUMENT: int := 3
  const NOT_FOUND: int := 5
  const ALREADY_EXISTS: int := 6

  /** An `Error` whose `code` property is set. */
  datatype LibError = LibError(code: int, message: string)

  /** `libError(code, message)`: the message is the code in decimal, a space,
      then the text. */
  function MakeLibError(code: int, text: string): (e: LibError)
    ensures e.code == code
    ensures |e.message| > |text| && e.message[|e.message| - |text|..] == text
  {
    LibError(code, IntToDecimal(code) + " " + text)
  }

  /** The index of the first occurrence of `c` in `s`. */
  function IndexOf(s: string, c: char): (r: Option<nat>)
    ensures r.None? <==> c !in s
    ensures r.Some? ==> r.value < |s| && s[r.value] == c && c !in s[..r.value]
  {
    if s == [] then None
    else if s[0] == c then Some(0)
    else match IndexOf(s[1..], c)
      case None => None
      case Some(i) =>
        assert s[..i + 1] == [s[0]] + s[1..][..i];
        Some(i + 1)
  }

  /** Reads an error message back as its code and its text (the inverse of
      `MakeLibError`'s rendering). */
  function SplitErrorMessage(message: string): Option<(int, string)>
  {
    match IndexOf(message, ' ')
    case None => None
    case Some(i) =>
      match ParseInt(message[..i])
      case None => None
      case Some(code) => Some((code, message[i + 1..]))
  }

  /** Callers can match on the code, and the code and the text are both
      recoverable from the message alone. */
  lemma LibErrorMessageRoundTrip(code: int, text: string)
    ensures SplitErrorMessage(MakeLibError(code, text).message) == Some((code, text))
  {
    var digits := IntToDecimal(code);
    var message := MakeLibError(code, text).message;
    assert message[..|digits|] == digits;
    assert message[|digits|] == ' ';
    assert ' ' !in message[..|digits|];
    assert IndexOf(message, ' ') == Some(|digits|);
    ParseIntToDecimal(code);
    assert message[|digits| + 1..] == text;
  }

  // ---------------------------------------------------------------------------
  // Random choice

  /** A value `Math.random()` can return. */
  type Unit = r: real | 0.0 <= r < 1.0 witness 0.0

  /** `Math.floor(random * length)`. */
  function PickIndex(length: nat, random: Unit): (i: int)
    ensures length > 0 ==> 0 <= i < length
    ensures length == 0 ==> i == 0
  {
    (random * (length as real)).Floor
  }

  /** `pickRandom(list)`, with the draw of `Math.random()` passed in: an element
      of a non-empty list, `undefined` for an empty one. */
  function PickRandom<T>(list: seq<T>, random: Unit): (r: Option<T>)
    ensures r.None? <==> list == []
    ensures r.Some? ==> r.value in list
  {
    var i := PickIndex(|list|, random);
    if 0 <= i < |list| then Some(list[i]) else None
  }

  /** No element is out of reach: for every position some draw picks it. */
  lemma EveryItemCanBePicked<T>(list: seq<T>, i: nat)
    requires i < |list|
    ensures PickRandom(list, (i as real) / (|list| as real)) == Some(list[i])
  {
    var n := |list| as real;
    var u: Unit := (i as real) / n;
    assert u * n == i as real;
    assert (i as real).Floor == i;
    assert PickIndex(|list|, u) == i;
  }

  /** The source of `Math.random()` values: the successive draws are a fixed
      but arbitrary sequence, and `calls` counts how many have been taken. */
  class RandomSource {
    const draws: nat -> Unit
    var calls: nat

    constructor(draws: nat -> Unit)
      ensures this.draws == draws && calls == 0
    {
      this.draws := draws;
      calls := 0;
    }

    method Next() returns (random: Unit)
      modifies this
      ensures random == draws(old(calls)) && calls == old(calls) + 1
    {
      random := draws(calls);
      calls := calls + 1;
    }
  }

  // ---------------------------------------------------------------------------
  // Sequence numbers

  /** The module-level `sequentialNumber` behind `makeSequentialNumberString`. */
  class SequenceCounter {
    var sequentialNumber: nat

    constructor()
      ensures sequentialNumber == 0
    {
      sequentialNumber := 0;
    }

    method MakeSequentialNumberString() returns (s: string)
      modifies this
      ensures sequentialNumber == old(sequentialNumber) + 1
      ensures s == NatToDecimal(sequentialNumber)
    {
      sequentialNumber := sequentialNumber + 1;
      s := NatToDecimal(sequentialNumber);
    }
  }

  /** Successive counter values render to strings that never repeat and read
      back in increasing order. */
  lemma SequenceStringsIncrease(a: nat, b: nat)
    requires a < b
    ensures NatToDecimal(a) != NatToDecimal(b)
    ensures ParseDecimal(NatToDecimal(a)) < ParseDecimal(NatToDecimal(b))
  {
    ParseNatToDecimal(a);
    ParseNatToDecimal(b);
  }

  // ---------------------------------------------------------------------------
  // Resource names

  const PROJECTS_PREFIX: string := "projects/"

  predicate StartsWith(s: string, prefix: string) {
    |prefix| <= |s| && s[..|prefix|] == prefix
  }

  /** The characters a regular expression's `.` does not match. */
  predicate IsLineTerminator(c: char) {
    c == '\n' || c == '\r' || c == '\U{2028}' || c == '\U{2029}'
  }

  predicate NoLineTerminator(s: string) {
    forall i :: 0 <= i < |s| ==> !IsLineTerminator(s[i])
  }

  /** The two kinds of resource name: `topics` and `subscriptions`. */
  predicate IsCollection(collection: string) {
    collection == "topics" || collection == "subscriptions"
  }

  function Separator(collection: string): string {
    "/" + collection + "/"
  }

  /** `s` reads as `projects/` + A + `/<collection>/` + B, with A starting at
      index 9 and the separator at index `p`, where A and B are non-empty and
      free of line terminators: one way for `^projects\/.+\/<collection>\/.+$`
      to match. */
  ghost predicate SplitsAt(s: string, collection: string, p: int) {
    var sep := Separator(collection);
    && StartsWith(s, PROJECTS_PREFIX)
    && |PROJECTS_PREFIX| < p && p + |sep| < |s|
    && s[p..p + |sep|] == sep
    && NoLineTerminator(s[|PROJECTS_PREFIX|..p])
    && NoLineTerminator(s[p + |sep|..])
  }

  /** The language of the name regular expression. */
  ghost predicate MatchesNamePattern(s: string, collection: string) {
    exists p :: SplitsAt(s, collection, p)
  }

  /** `sep` occurs in `s` at index `q`, with at least one character after it. */
  predicate SeparatorAt(s: string, sep: string, q: nat) {
    q + |sep| < |s| && s[q..q + |sep|] == sep
  }

  /** Whether `sep` occurs in `s` at some index `q >= p` with at least one
      character after it. */
  function HasSeparatorFrom(s: string, sep: string, p: nat): (b: bool)
    ensures b <==> exists q: nat :: p <= q && SeparatorAt(s, sep, q)
    decreases |s| - p
  {
    if p + |sep| >= |s| then false
    else SeparatorAt(s, sep, p) || HasSeparatorFrom(s, sep, p + 1)
  }

  /** `NAME_REGEX.test(s)`. */
  function TestNamePattern(s: string, collection: string): (b: bool)
    requires IsCollection(collection)
    ensures b <==> MatchesNamePattern(s, collection)
  {
    var sep := Separator(collection);
    var b := StartsWith(s, PROJECTS_PREFIX) && NoLineTerminator(s) && HasSeparatorFrom(s, sep, |PROJECTS_PREFIX| + 1);
    TestNamePatternCorrect(s, collection);
    b
  }

  lemma TestNamePatternCorrect(s: string, collection: string)
    requires IsCollection(collection)
    ensures (StartsWith(s, PROJECTS_PREFIX) && NoLineTerminator(s) && HasSeparatorFrom(s, Separator(collection), |PROJECTS_PREFIX| + 1))
            <==> MatchesNamePattern(s, collection)
  {
    if StartsWith(s, PROJECTS_PREFIX) && NoLineTerminator(s) && HasSeparatorFrom(s, Separator(collection), |PROJECTS_PREFIX| + 1) {
      TestNamePatternSound(s, collection);
    }
    if MatchesNamePattern(s, collection) {
      var p :| SplitsAt(s, collection, p);
      TestNamePatternComplete(s, collection, p);
    }
  }

  lemma TestNamePatternSound(s: string, collection: string)
    requires IsCollection(collection)
    requires StartsWith(s, PROJECTS_PREFIX) && NoLineTerminator(s)
    requires HasSeparatorFrom(s, Separator(collection), |PROJECTS_PREFIX| + 1)
    ensures MatchesNamePattern(s, collection)
  {
    var sep := Separator(collection);
    var n := |PROJECTS_PREFIX|;
    var q: nat :| n + 1 <= q && SeparatorAt(s, sep, q);
    var a, b := s[n..q], s[q + |sep|..];
    forall i | 0 <= i < |a| ensures !IsLineTerminator(a[i]) { assert a[i] == s[n + i]; }
    forall i | 0 <= i < |b| ensures !IsLineTerminator(b[i]) { assert b[i] == s[q + |sep| + i]; }
    assert SplitsAt(s, collection, q);
  }

  lemma TestNamePatternComplete(s: string, collection: string, p: int)
    requires IsCollection(collection)
    requires SplitsAt(s, collection, p)
    ensures StartsWith(s, PROJECTS_PREFIX) && NoLineTerminator(s)
    ensures HasSeparatorFrom(s, Separator(collection), |PROJECTS_PREFIX| + 1)
  {
    var sep := Separator(collection);
    var n := |PROJECTS_PREFIX|;
    assert NoLineTerminator(sep) && NoLineTerminator(PROJECTS_PREFIX);
    assert SeparatorAt(s, sep, p);
    forall i | 0 <= i < |s| ensures !IsLineTerminator(s[i]) {
      if i < n {
        assert s[i] == PROJECTS_PREFIX[i];
      } else if i < p {
        assert s[i] == s[n..p][i - n];
      } else if i < p + |sep| {
        assert s[i] == sep[i - p];
      } else {
        assert s[i] == s[p + |sep|..][i - p - |sep|];
      }
    }
  }

  function InvalidNameError(name: string, collection: string): LibError {
    MakeLibError(INVALID_ARGUMENT, "INVALID_ARGUMENT: Invalid [" + collection + "] name: (name=" + name + ")")
  }

  /** `makeTopicName` / `makeSubscriptionName`: a short name is placed under
      the project; a name starting with `projects/` is kept if it has the full
      form and rejected with code 3 otherwise. */
  function MakeName(projectId: string, name: string, collection: string): (r: Result<string, LibError>)
    requires IsCollection(collection)
    ensures !StartsWith(name, PROJECTS_PREFIX) ==> r == Ok(PROJECTS_PREFIX + projectId + Separator(collection) + name)
    ensures StartsWith(name, PROJECTS_PREFIX) ==>
              (r.Ok? <==> MatchesNamePattern(name, collection))
              && (r.Ok? ==> r.value == name)
              && (r.Err? ==> r.error == InvalidNameError(name, collection))
    ensures r.Ok? ==> StartsWith(r.value, PROJECTS_PREFIX)
    ensures r.Err? ==> r.error.code == INVALID_ARGUMENT
  {
    if StartsWith(name, PROJECTS_PREFIX) then
      if TestNamePattern(name, collection) then Ok(name) else Err(InvalidNameError(name, collection))
    else
      var full := PROJECTS_PREFIX + projectId + Separator(collection) + name;
      assert full[..|PROJECTS_PREFIX|] == PROJECTS_PREFIX;
      Ok(full)
  }

  function MakeTopicName(projectId: string, topicName: string): Result<string, LibError> {
    MakeName(projectId, topicName, "topics")
  }

  function MakeSubscriptionName(projectId: string, subscriptionName: string): Result<string, LibError> {
    MakeName(projectId, subscriptionName, "subscriptions")
  }

  /** Canonicalising a canonical name changes nothing. A short name qualifies
      when it and the project id are non-empty and free of line terminators. */
  lemma MakeNameIdempotent(projectId: string, name: string, collection: string)
    requires IsCollection(collection)
    requires MakeName(projectId, name, collection).Ok?
    requires !StartsWith(name, PROJECTS_PREFIX) ==>
               projectId != "" && name != "" && NoLineTerminator(projectId) && NoLineTerminator(name)
    ensures MakeName(projectId, MakeName(projectId, name, collection).value, collection)
            == MakeName(projectId, name, collection)
  {
    var full := MakeName(projectId, name, collection).value;
    if !StartsWith(name, PROJECTS_PREFIX) {
      var sep := Separator(collection);
      var p := |PROJECTS_PREFIX| + |projectId|;
      assert full[|PROJECTS_PREFIX|..p] == projectId;
      assert full[p..p + |sep|] == sep;
      assert full[p + |sep|..] == name;
      assert SplitsAt(full, collection, p);
    }
  }

  /** The line-terminator condition is needed: a short topic name holding a
      newline is accepted once and rejected when canonicalised again. */
  lemma NewlineNameIsNotIdempotent()
    ensures MakeTopicName("p", "a\nb") == Ok("projects/p/topics/a\nb")
    ensures MakeTopicName("p", "projects/p/topics/a\nb").Err?
  {
    var s := "projects/p/topics/a\nb";
    assert PROJECTS_PREFIX + "p" + Separator("topics") + "a\nb" == s;
    assert StartsWith(s, PROJECTS_PREFIX);
    assert !NoLineTerminator(s) by { assert IsLineTerminator(s[19]); }
    assert !StartsWith("a\nb", PROJECTS_PREFIX);
  }
}
