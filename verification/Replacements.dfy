/** Replacement text for java.util.regex: the interpreter that Spark runs on it, the escaper that
    makes it literal (backend/processing/transforms/regex_replace.py, lines 39-41), and the check of
    `$n` references (backend/processing/specs.py, lines 103-123). Digits are ASCII. */
module Replacements {
  import opened Wrappers

  predicate IsDigit(c: char) {
    '0' <= c <= '9'
  }

  function DigitValue(c: char): nat
    requires IsDigit(c)
  {
    c as nat - '0' as nat
  }

  // --- java.util.regex.Matcher.appendReplacement ---

  /** The exceptions it throws. */
  datatype JavaError = EscapedCharacterMissing | GroupIndexMissing | IllegalGroupReference | NoSuchGroup

  /** The groups of a match, group 0 first; a group that took no part in the match is None. */
  type Groups = g: seq<Option<string>> | |g| >= 1 witness [Some("")]

  function GroupText(groups: Groups, n: nat): string
    requires n < |groups|
  {
    if groups[n].Some? then groups[n].value else ""
  }

  /** How far the digits after a group reference extend it: as long as the group exists. */
  function Extend(n: nat, rest: string, groupCount: nat): (nat, string)
    decreases |rest|
  {
    if rest != "" && IsDigit(rest[0]) && n * 10 + DigitValue(rest[0]) <= groupCount then
      Extend(n * 10 + DigitValue(rest[0]), rest[1..], groupCount)
    else
      (n, rest)
  }

  lemma {:induction false} ExtendShrinks(n: nat, rest: string, groupCount: nat)
    ensures |Extend(n, rest, groupCount).1| <= |rest|
    decreases |rest|
  {
    if rest != "" && IsDigit(rest[0]) && n * 10 + DigitValue(rest[0]) <= groupCount {
      ExtendShrinks(n * 10 + DigitValue(rest[0]), rest[1..], groupCount);
    }
  }

  function Prepend(text: string, r: Result<string, JavaError>): Result<string, JavaError> {
    if r.Ok? then Ok(text + r.value) else r
  }

  /** What a replacement stands for, given the groups of a match. The patterns here have no named
      groups, so a `${name}` reference fails. */
  function JavaExpand(replacement: string, groups: Groups): Result<string, JavaError>
    decreases |replacement|
  {
    if replacement == "" then
      Ok("")
    else if replacement[0] == '\\' then
      if |replacement| == 1 then Err(EscapedCharacterMissing)
      else Prepend([replacement[1]], JavaExpand(replacement[2..], groups))
    else if replacement[0] == '$' then
      if |replacement| == 1 then Err(GroupIndexMissing)
      else if !IsDigit(replacement[1]) then Err(IllegalGroupReference)
      else
        var (n, rest) := Extend(DigitValue(replacement[1]), replacement[2..], |groups| - 1);
        ExtendShrinks(DigitValue(replacement[1]), replacement[2..], |groups| - 1);
        if n >= |groups| then Err(NoSuchGroup) else Prepend(GroupText(groups, n), JavaExpand(rest, groups))
    else
      Prepend([replacement[0]], JavaExpand(replacement[1..], groups))
  }

  // --- the escaper ---

  /** `str.replace` for a single character. */
  function ReplaceChar(s: string, c: char, with: string): string {
    if s == "" then "" else (if s[0] == c then with else [s[0]]) + ReplaceChar(s[1..], c, with)
  }

  /** `escape_replacement`: two passes over the text. */
  function EscapeReplacement(replacement: string): string {
    ReplaceChar(ReplaceChar(replacement, '\\', "\\\\"), '$', "\\$")
  }

  /** The same in one pass: a backslash before each special character. */
  function EscapeEach(s: string): string {
    if s == "" then "" else (if s[0] == '\\' || s[0] == '$' then ['\\', s[0]] else [s[0]]) + EscapeEach(s[1..])
  }

  lemma {:induction false} ReplaceCharJoins(a: string, b: string, c: char, with: string)
    ensures ReplaceChar(a + b, c, with) == ReplaceChar(a, c, with) + ReplaceChar(b, c, with)
  {
    if a == "" {
      assert a + b == b;
    } else {
      assert (a + b)[1..] == a[1..] + b;
      ReplaceCharJoins(a[1..], b, c, with);
    }
  }

  /** The order of the two passes does no harm: the second does not touch what the first added. */
  lemma {:induction false} TwoPassesAreOne(s: string)
    ensures EscapeReplacement(s) == EscapeEach(s)
  {
    if s != "" {
      var head := if s[0] == '\\' then "\\\\" else [s[0]];
      TwoPassesAreOne(s[1..]);
      ReplaceCharJoins(head, ReplaceChar(s[1..], '\\', "\\\\"), '$', "\\$");
      if s[0] == '\\' {
        assert head[1..] == "\\" && head[1..][1..] == "";
      } else {
        assert head[1..] == "";
      }
    }
  }

  /** Interpreting an escaped text gives the text back, whatever the match. */
  lemma {:induction false} EscapedIsLiteral(s: string, groups: Groups)
    ensures JavaExpand(EscapeReplacement(s), groups) == Ok(s)
  {
    TwoPassesAreOne(s);
    if s != "" {
      EscapedIsLiteral(s[1..], groups);
      TwoPassesAreOne(s[1..]);
      var escaped, rest := EscapeEach(s), EscapeEach(s[1..]);
      if s[0] == '\\' || s[0] == '$' {
        assert escaped[2..] == rest && escaped[1] == s[0];
      } else {
        assert escaped[1..] == rest;
      }
      assert s == [s[0]] + s[1..];
    }
  }

  // --- the validator ---

  const MAX_REPLACEMENT_LENGTH := 200

  datatype SpecError = TooLong | HasBackslash | DollarWithoutGroup | MissingGroup | AmbiguousReference

  predicate StartsWithReference(s: string) {
    |s| >= 2 && s[0] == '$' && IsDigit(s[1])
  }

  /** `_GROUP_REFERENCE.sub("", s)`. */
  function WithoutReferences(s: string): string
    decreases |s|
  {
    if s == "" then ""
    else if StartsWithReference(s) then WithoutReferences(s[2..])
    else [s[0]] + WithoutReferences(s[1..])
  }

  /** The loop over `_GROUP_REFERENCE.finditer(s)`: the first reference that is refused. */
  function FirstBadReference(s: string, groupCount: nat): Option<SpecError>
    decreases |s|
  {
    if s == "" then None
    else if StartsWithReference(s) then
      if DigitValue(s[1]) > groupCount then Some(MissingGroup)
      else if |s| > 2 && IsDigit(s[2]) then Some(AmbiguousReference)
      else FirstBadReference(s[2..], groupCount)
    else FirstBadReference(s[1..], groupCount)
  }

  /** `validate_replacement` for a pattern with `groupCount` groups; None means accepted. */
  function ValidateReplacement(replacement: string, groupCount: nat): Option<SpecError> {
    if |replacement| > MAX_REPLACEMENT_LENGTH then Some(TooLong)
    else if '\\' in replacement then Some(HasBackslash)
    else if '$' in WithoutReferences(replacement) then Some(DollarWithoutGroup)
    else FirstBadReference(replacement, groupCount)
  }

  /** The plain reading: `$n` with one digit stands for group n, everything else for itself. */
  function SimpleExpand(s: string, groups: Groups): string
    requires forall i | 0 <= i < |s| && StartsWithReference(s[i..]) :: DigitValue(s[i + 1]) < |groups|
    decreases |s|
  {
    if s == "" then
      ""
    else if StartsWithReference(s) then
      assert s[0..] == s;
      assert forall i | 0 <= i < |s[2..]| :: s[2..][i..] == s[i + 2..];
      GroupText(groups, DigitValue(s[1])) + SimpleExpand(s[2..], groups)
    else
      assert forall i | 0 <= i < |s[1..]| :: s[1..][i..] == s[i + 1..];
      [s[0]] + SimpleExpand(s[1..], groups)
  }

  /** Every `$` is followed by one digit that names a group, and by no second digit. */
  predicate PlainReferences(s: string, groupCount: nat) {
    forall i | 0 <= i < |s| && s[i] == '$' ::
      && i + 1 < |s|
      && IsDigit(s[i + 1])
      && DigitValue(s[i + 1]) <= groupCount
      && (i + 2 < |s| ==> !IsDigit(s[i + 2]))
  }

  lemma {:induction false} PlainTail(s: string, groupCount: nat, k: nat)
    requires PlainReferences(s, groupCount) && k <= |s|
    ensures PlainReferences(s[k..], groupCount)
  {
    var tail := s[k..];
    forall i | 0 <= i < |tail| && tail[i] == '$'
      ensures i + 1 < |tail| && IsDigit(tail[i + 1]) && DigitValue(tail[i + 1]) <= groupCount
      ensures i + 2 < |tail| ==> !IsDigit(tail[i + 2])
    {
      assert s[i + k] == '$';
    }
  }

  lemma {:induction false} ScanIsPlain(s: string, groupCount: nat)
    ensures '$' !in WithoutReferences(s) && FirstBadReference(s, groupCount).None? <==> PlainReferences(s, groupCount)
    decreases |s|
  {
    if s == "" {
    } else if StartsWithReference(s) {
      ScanIsPlain(s[2..], groupCount);
      if PlainReferences(s, groupCount) {
        assert s[0] == '$';
        PlainTail(s, groupCount, 2);
      } else {
        ReferenceThenPlain(s, groupCount);
      }
    } else {
      ScanIsPlain(s[1..], groupCount);
      if PlainReferences(s, groupCount) {
        PlainTail(s, groupCount, 1);
      } else if s[0] != '$' {
        CharThenPlain(s, groupCount);
      }
    }
  }

  lemma ReferenceThenPlain(s: string, groupCount: nat)
    requires StartsWithReference(s)
    ensures PlainReferences(s[2..], groupCount) && DigitValue(s[1]) <= groupCount && (|s| > 2 ==> !IsDigit(s[2])) ==>
            PlainReferences(s, groupCount)
  {
    var tail := s[2..];
    if PlainReferences(tail, groupCount) && DigitValue(s[1]) <= groupCount && (|s| > 2 ==> !IsDigit(s[2])) {
      forall i | 0 <= i < |s| && s[i] == '$'
        ensures i + 1 < |s| && IsDigit(s[i + 1]) && DigitValue(s[i + 1]) <= groupCount
        ensures i + 2 < |s| ==> !IsDigit(s[i + 2])
      {
        if i >= 2 {
          assert tail[i - 2] == '$';
        }
      }
    }
  }

  lemma CharThenPlain(s: string, groupCount: nat)
    requires s != "" && s[0] != '$'
    ensures PlainReferences(s[1..], groupCount) ==> PlainReferences(s, groupCount)
  {
    var tail := s[1..];
    if PlainReferences(tail, groupCount) {
      forall i | 0 <= i < |s| && s[i] == '$'
        ensures i + 1 < |s| && IsDigit(s[i + 1]) && DigitValue(s[i + 1]) <= groupCount
        ensures i + 2 < |s| ==> !IsDigit(s[i + 2])
      {
        assert tail[i - 1] == '$';
      }
    }
  }

  /** The validator accepts exactly the short, backslash-free texts with plain references. */
  lemma AcceptedExactly(replacement: string, groupCount: nat)
    ensures ValidateReplacement(replacement, groupCount).None? <==>
            |replacement| <= 200 && '\\' !in replacement && PlainReferences(replacement, groupCount)
  {
    ScanIsPlain(replacement, groupCount);
  }

  lemma PlainNamesGroups(s: string, groups: Groups)
    requires PlainReferences(s, |groups| - 1)
    ensures forall i | 0 <= i < |s| && StartsWithReference(s[i..]) :: DigitValue(s[i + 1]) < |groups|
  {
  }

  lemma {:induction false} PlainExpands(s: string, groups: Groups)
    requires '\\' !in s && PlainReferences(s, |groups| - 1)
    ensures forall i | 0 <= i < |s| && StartsWithReference(s[i..]) :: DigitValue(s[i + 1]) < |groups|
    ensures JavaExpand(s, groups) == Ok(SimpleExpand(s, groups))
    decreases |s|
  {
    PlainNamesGroups(s, groups);
    if s != "" {
      if s[0] == '$' {
        PlainTail(s, |groups| - 1, 2);
        PlainExpands(s[2..], groups);
        assert |s| > 2 ==> s[2..][0] == s[2];
        assert Extend(DigitValue(s[1]), s[2..], |groups| - 1) == (DigitValue(s[1]), s[2..]);
      } else {
        PlainTail(s, |groups| - 1, 1);
        PlainExpands(s[1..], groups);
        assert s[0] != '\\';
      }
    }
  }

  lemma {:induction false} DollarsLeft(s: string)
    ensures '$' in WithoutReferences(s) <==> exists i | 0 <= i < |s| :: s[i] == '$' && !StartsWithReference(s[i..])
    decreases |s|
  {
    if s != "" {
      var n := if StartsWithReference(s) then 2 else 1;
      var rest := s[n..];
      DollarsLeft(rest);
      assert s[0..] == s;
      forall i | 0 <= i < |rest| ensures rest[i] == s[i + n] && rest[i..] == s[i + n..] {
      }
      if k :| 0 <= k < |s| && s[k] == '$' && !StartsWithReference(s[k..]) && k >= n {
        assert rest[k - n] == '$' && !StartsWithReference(rest[k - n..]);
      }
      if k :| 0 <= k < |rest| && rest[k] == '$' && !StartsWithReference(rest[k..]) {
        assert s[k + n] == '$' && !StartsWithReference(s[k + n..]);
      }
    }
  }

  /** The reason of a refusal: the first of the checks that fails, in the validator's order. */
  lemma RefusedExactly(replacement: string, groupCount: nat)
    ensures var refusal := ValidateReplacement(replacement, groupCount);
            var loose := exists i | 0 <= i < |replacement| ::
              replacement[i] == '$' && !StartsWithReference(replacement[i..]);
            && (refusal == Some(TooLong) <==> |replacement| > 200)
            && (refusal == Some(HasBackslash) <==> |replacement| <= 200 && '\\' in replacement)
            && (refusal == Some(DollarWithoutGroup) <==> |replacement| <= 200 && '\\' !in replacement && loose)
  {
    DollarsLeft(replacement);
    NeverOtherReason(replacement, groupCount);
  }

  lemma {:induction false} NeverOtherReason(s: string, groupCount: nat)
    ensures FirstBadReference(s, groupCount) in {None, Some(MissingGroup), Some(AmbiguousReference)}
    decreases |s|
  {
    if s != "" {
      NeverOtherReason(s[1..], groupCount);
      if |s| >= 2 {
        NeverOtherReason(s[2..], groupCount);
      }
    }
  }

  lemma ReferenceExpands(s: string, groups: Groups, n: nat, rest: string)
    requires StartsWithReference(s) && n < |groups|
    requires Extend(DigitValue(s[1]), s[2..], |groups| - 1) == (n, rest) && |rest| < |s|
    ensures JavaExpand(s, groups) == Prepend(GroupText(groups, n), JavaExpand(rest, groups))
  {
  }

  /** A one-digit reference stands for the text of its group, and for nothing when the group took no
      part in the match. */
  lemma ReferenceMeans(d: char, groups: Groups)
    requires IsDigit(d) && DigitValue(d) < |groups|
    ensures JavaExpand(['$', d], groups) ==
            Ok(match groups[DigitValue(d)] case Some(text) => text case None => "")
  {
    var s := ['$', d];
    assert s[2..] == "";
    assert Extend(DigitValue(d), "", |groups| - 1) == (DigitValue(d), "");
    assert JavaExpand("", groups) == Ok("");
    assert GroupText(groups, DigitValue(d)) + "" == GroupText(groups, DigitValue(d));
  }

  /** An accepted replacement never makes Java throw, and Java's greedy reading of group numbers
      gives exactly the plain `$n` substitution. */
  lemma AcceptedIsSimple(replacement: string, groups: Groups)
    requires ValidateReplacement(replacement, |groups| - 1).None?
    ensures forall i | 0 <= i < |replacement| && StartsWithReference(replacement[i..]) ::
              DigitValue(replacement[i + 1]) < |groups|
    ensures JavaExpand(replacement, groups) == Ok(SimpleExpand(replacement, groups))
  {
    AcceptedExactly(replacement, |groups| - 1);
    PlainExpands(replacement, groups);
  }

  lemma OneCharacter(d: char, groups: Groups)
    requires IsDigit(d)
    ensures JavaExpand([d], groups) == Ok([d])
  {
    assert [d][1..] == "";
    assert [d] + "" == [d];
  }

  lemma ExtendByOne(n: nat, d: char, groupCount: nat)
    requires IsDigit(d)
    ensures Extend(n, [d], groupCount) ==
            if n * 10 + DigitValue(d) <= groupCount then (n * 10 + DigitValue(d), "") else (n, [d])
  {
    assert [d][1..] == "";
  }

  /** A reference with a second digit is refused ... */
  lemma SecondDigitIsRefused(s: string, groupCount: nat)
    requires |s| == 3 && s[0] == '$' && IsDigit(s[1]) && IsDigit(s[2]) && DigitValue(s[1]) <= groupCount
    ensures ValidateReplacement(s, groupCount).Some?
  {
    AcceptedExactly(s, groupCount);
  }

  /** ... because Java reads `$12` as group 12 when the pattern has one, and as group 1 followed by
      "2" otherwise. */
  lemma SecondDigitIsAmbiguous(s: string, groups: Groups)
    requires |s| == 3 && s[0] == '$' && IsDigit(s[1]) && IsDigit(s[2]) && DigitValue(s[1]) < |groups|
    ensures var n := DigitValue(s[1]) * 10 + DigitValue(s[2]);
            JavaExpand(s, groups) ==
            Ok(if n < |groups| then GroupText(groups, n) else GroupText(groups, DigitValue(s[1])) + [s[2]])
  {
    assert s[2..] == [s[2]];
    ExtendByOne(DigitValue(s[1]), s[2], |groups| - 1);
    if DigitValue(s[1]) * 10 + DigitValue(s[2]) < |groups| {
      BothDigits(s, groups, DigitValue(s[1]) * 10 + DigitValue(s[2]));
    } else {
      FirstDigit(s, groups, DigitValue(s[1]), s[2]);
    }
  }

  lemma BothDigits(s: string, groups: Groups, n: nat)
    requires StartsWithReference(s) && n < |groups|
    requires Extend(DigitValue(s[1]), s[2..], |groups| - 1) == (n, "")
    ensures JavaExpand(s, groups) == Ok(GroupText(groups, n))
  {
    ReferenceExpands(s, groups, n, "");
    assert GroupText(groups, n) + "" == GroupText(groups, n);
  }

  lemma FirstDigit(s: string, groups: Groups, n: nat, d: char)
    requires StartsWithReference(s) && n < |groups| && IsDigit(d)
    requires Extend(DigitValue(s[1]), s[2..], |groups| - 1) == (n, [d])
    ensures JavaExpand(s, groups) == Ok(GroupText(groups, n) + [d])
  {
    ReferenceExpands(s, groups, n, [d]);
    OneCharacter(d, groups);
  }
}
