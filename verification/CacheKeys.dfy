/** The text that a cache key is made from (backend/apps/llm/cache.py, lines 21-30;
    backend/apps/llm/service.py, lines 70-77, 103-111 and 200-201): different inputs give different
    texts. */
module CacheKeys {
  import opened Strings

  /** U+001F, which separates the parts of a key. */
  const SEPARATOR: char := '\U{1F}'

  /** The characters at which Python's `str.split` splits. */
  predicate IsBlank(c: char) {
    || '\t' <= c <= '\r'
    || '\U{1C}' <= c <= ' '
    || c in {'\U{85}', '\U{A0}', '\U{1680}', '\U{2028}', '\U{2029}', '\U{202F}', '\U{205F}', '\U{3000}'}
    || '\U{2000}' <= c <= '\U{200A}'
  }

  // --- joining and splitting ---

  function Join(separator: char, parts: seq<string>): string {
    if parts == [] then "" else if |parts| == 1 then parts[0] else parts[0] + [separator] + Join(separator, parts[1..])
  }

  /** The parts between separators, `part` being what has been read of the first. */
  function Split(separator: char, part: string, s: string): seq<string>
    decreases |s|
  {
    if s == "" then [part]
    else if s[0] == separator then [part] + Split(separator, "", s[1..])
    else Split(separator, part + [s[0]], s[1..])
  }

  lemma {:induction false} SplitReads(separator: char, part: string, s: string, rest: string)
    requires separator !in s
    ensures Split(separator, part, s + rest) == Split(separator, part + s, rest)
    decreases |s|
  {
    if s == "" {
      assert s + rest == rest && part + s == part;
    } else {
      assert (s + rest)[1..] == s[1..] + rest && part + [s[0]] + s[1..] == part + s;
      SplitReads(separator, part + [s[0]], s[1..], rest);
    }
  }

  /** Splitting undoes joining when no part holds the separator. */
  lemma {:induction false} SplitJoined(separator: char, parts: seq<string>)
    requires parts != [] && forall part | part in parts :: separator !in part
    ensures Split(separator, "", Join(separator, parts)) == parts
  {
    var head := parts[0];
    assert head in parts;
    if |parts| == 1 {
      SplitReads(separator, "", head, "");
      assert head + "" == head && "" + head == head;
    } else {
      var tail := Join(separator, parts[1..]);
      SplitJoined(separator, parts[1..]);
      SplitReads(separator, "", head, [separator] + tail);
      assert head + [separator] + tail == head + ([separator] + tail);
      assert "" + head == head && ([separator] + tail)[1..] == tail;
    }
  }

  lemma JoinInjective(separator: char, a: seq<string>, b: seq<string>)
    requires a != [] && forall part | part in a :: separator !in part
    requires b != [] && forall part | part in b :: separator !in part
    requires Join(separator, a) == Join(separator, b)
    ensures a == b
  {
    SplitJoined(separator, a);
    SplitJoined(separator, b);
  }

  // --- descriptions ---

  /** `str.split()`: the maximal runs of characters that are not blank, `word` being what has been
      read of the first. */
  function Words(word: string, s: string): seq<string>
    decreases |s|
  {
    if s == "" then (if word == "" then [] else [word])
    else if IsBlank(s[0]) then (if word == "" then [] else [word]) + Words("", s[1..])
    else Words(word + [s[0]], s[1..])
  }

  predicate IsWord(w: string) {
    w != "" && forall c | c in w :: !IsBlank(c)
  }

  /** `normalize_description`. */
  function NormalizeDescription(description: string): string {
    Join(' ', Words("", description))
  }

  lemma {:induction false} WordsAreWords(word: string, s: string)
    requires forall c | c in word :: !IsBlank(c)
    ensures forall w | w in Words(word, s) :: IsWord(w)
    decreases |s|
  {
    if s != "" {
      if IsBlank(s[0]) {
        WordsAreWords("", s[1..]);
      } else {
        WordsAreWords(word + [s[0]], s[1..]);
      }
    }
  }

  lemma {:induction false} WordsRead(word: string, w: string, rest: string)
    requires forall c | c in w :: !IsBlank(c)
    ensures Words(word, w + rest) == Words(word + w, rest)
    decreases |w|
  {
    if w == "" {
      assert w + rest == rest && word + w == word;
    } else {
      assert w[0] in w && forall c | c in w[1..] :: c in w;
      assert (w + rest)[1..] == w[1..] + rest && word + [w[0]] + w[1..] == word + w;
      WordsRead(word + [w[0]], w[1..], rest);
    }
  }

  lemma WordEnds(word: string, tail: string)
    requires word != ""
    ensures Words(word, " " + tail) == [word] + Words("", tail)
  {
    assert IsBlank(' ') && (" " + tail)[1..] == tail;
  }

  lemma {:induction false} WordsOfJoined(words: seq<string>)
    requires forall w | w in words :: IsWord(w)
    ensures Words("", Join(' ', words)) == words
  {
    if words != [] {
      var head := words[0];
      assert head in words && IsWord(head) && "" + head == head;
      if |words| == 1 {
        WordsRead("", head, "");
        assert head + "" == head;
      } else {
        var tail := Join(' ', words[1..]);
        WordsOfJoined(words[1..]);
        WordsRead("", head, " " + tail);
        WordEnds(head, tail);
        assert head + [' '] + tail == head + (" " + tail);
        assert [head] + words[1..] == words;
      }
    }
  }

  function WithoutBlanks(s: string): string {
    if s == "" then "" else (if IsBlank(s[0]) then "" else [s[0]]) + WithoutBlanks(s[1..])
  }

  function Concatenated(words: seq<string>): string {
    if words == [] then "" else words[0] + Concatenated(words[1..])
  }

  /** The words are the text without its blanks, cut into pieces. */
  lemma {:induction false} WordsKeepTheText(word: string, s: string)
    ensures Concatenated(Words(word, s)) == word + WithoutBlanks(s)
    decreases |s|
  {
    if s == "" {
      assert [word][1..] == [];
    } else if IsBlank(s[0]) {
      var rest := Words("", s[1..]);
      WordsKeepTheText("", s[1..]);
      assert "" + WithoutBlanks(s[1..]) == WithoutBlanks(s[1..]);
      if word == "" {
        assert [] + rest == rest && "" + WithoutBlanks(s) == WithoutBlanks(s);
      } else {
        assert ([word] + rest)[1..] == rest;
      }
    } else {
      WordsKeepTheText(word + [s[0]], s[1..]);
      assert word + [s[0]] + WithoutBlanks(s[1..]) == word + ([s[0]] + WithoutBlanks(s[1..]));
    }
  }

  /** Two descriptions are normalised alike exactly when they have the same words; normalising
      twice changes nothing; the result never holds the separator. */
  lemma NormalizedByWords(a: string, b: string)
    ensures NormalizeDescription(a) == NormalizeDescription(b) <==> Words("", a) == Words("", b)
    ensures NormalizeDescription(NormalizeDescription(a)) == NormalizeDescription(a)
    ensures SEPARATOR !in NormalizeDescription(a)
  {
    WordsAreWords("", a);
    WordsAreWords("", b);
    WordsOfJoined(Words("", a));
    WordsOfJoined(Words("", b));
    JoinedWithout(Words("", a));
  }

  lemma {:induction false} JoinedWithout(words: seq<string>)
    requires forall w | w in words :: IsWord(w)
    ensures SEPARATOR !in Join(' ', words)
  {
    if words != [] {
      assert IsBlank(SEPARATOR) && words[0] in words;
      if |words| > 1 {
        JoinedWithout(words[1..]);
      }
    }
  }

  // --- the JSON fingerprint ---

  const HEX := "0123456789abcdef"

  function HexDigit(n: nat): char
    requires n < 16
  {
    HEX[n]
  }

  function Hex4(n: nat): string
    requires n < 0x10000
  {
    [HexDigit(n / 4096), HexDigit(n / 256 % 16), HexDigit(n / 16 % 16), HexDigit(n % 16)]
  }

  /** One character inside a JSON string, in ASCII: above the basic plane as two surrogates. */
  function EscapeChar(c: char): string {
    match c
    case '"' => "\\\""
    case '\\' => "\\\\"
    case '\n' => "\\n"
    case '\r' => "\\r"
    case '\t' => "\\t"
    case '\U{0C}' => "\\f"
    case '\U{08}' => "\\b"
    case _ =>
      if ' ' <= c <= '~' then [c]
      else if c as int < 0x10000 then "\\u" + Hex4(c as int)
      else "\\u" + Hex4(HighSurrogate(c)) + "\\u" + Hex4(LowSurrogate(c))
  }

  function HighSurrogate(c: char): nat
    requires c as int >= 0x10000
  {
    0xD800 + (c as int - 0x10000) / 1024
  }

  function LowSurrogate(c: char): nat
    requires c as int >= 0x10000
  {
    0xDC00 + (c as int - 0x10000) % 1024
  }

  // The encoders write a value in front of the text that follows it.

  /** The characters of a string and its closing quote. */
  function PutText(s: string, rest: string): string {
    if s == "" then ['"'] + rest else EscapeChar(s[0]) + PutText(s[1..], rest)
  }

  function PutString(s: string, rest: string): string {
    ['"'] + PutText(s, rest)
  }

  /** What follows the first element of a list. */
  function PutValues(values: seq<string>, rest: string): string {
    if values == [] then [']'] + rest else [',', ' '] + PutString(values[0], PutValues(values[1..], rest))
  }

  function PutList(values: seq<string>, rest: string): string {
    ['['] + if values == [] then [']'] + rest else PutString(values[0], PutValues(values[1..], rest))
  }

  type Sample = (string, seq<string>)

  function PutEntry(sample: Sample, rest: string): string {
    PutString(sample.0, [':', ' '] + PutList(sample.1, rest))
  }

  function PutEntries(samples: seq<Sample>): string {
    if samples == [] then ['}'] else [',', ' '] + PutEntry(samples[0], PutEntries(samples[1..]))
  }

  function PutObject(samples: seq<Sample>): string {
    ['{'] + if samples == [] then ['}'] else PutEntry(samples[0], PutEntries(samples[1..]))
  }

  /** The sample values of each column. */
  type Samples = map<string, seq<string>>

  /** The columns in the order of their names. */
  ghost function Sorted(samples: Samples): seq<Sample> {
    if samples == map[] then
      []
    else
      var column := FirstOf(samples.Keys);
      [(column, samples[column])] + Sorted(samples - {column})
  }

  ghost function FirstOf(columns: set<string>): (first: string)
    requires columns != {}
    ensures IsFirst(first, columns)
  {
    FirstExists(columns);
    var first :| IsFirst(first, columns);
    first
  }

  /** `_fingerprint`: the samples of each column as JSON, the columns sorted by name. */
  ghost function Fingerprint(samples: Samples): string {
    PutObject(Sorted(samples))
  }

  // --- each encoding can be read off the front of a text ---

  lemma HexDigitInjective(a: nat, b: nat)
    requires a < 16 && b < 16 && HexDigit(a) == HexDigit(b)
    ensures a == b
  {
    assert forall i | 0 <= i < 16 :: HEX[i] as int == if i < 10 then 48 + i else 87 + i;
  }

  lemma Hex4Injective(a: nat, b: nat)
    requires a < 0x10000 && b < 0x10000 && Hex4(a) == Hex4(b)
    ensures a == b
  {
    HexDigitInjective(a / 4096, b / 4096);
    HexDigitInjective(a / 256 % 16, b / 256 % 16);
    HexDigitInjective(a / 16 % 16, b / 16 % 16);
    HexDigitInjective(a % 16, b % 16);
    Digits(a);
    Digits(b);
  }

  lemma Digits(n: nat)
    requires n < 0x10000
    ensures n == n / 4096 * 4096 + n / 256 % 16 * 256 + n / 16 % 16 * 16 + n % 16
  {
    DivideTwice(n, 16);
    DivideTwice(n, 256);
    ByDigit(n);
    ByDigit(n / 16);
    ByDigit(n / 256);
  }

  lemma DivideTwice(n: nat, m: nat)
    requires m == 16 || m == 256
    ensures n / m / 16 == n / (m * 16)
  {
  }

  lemma ByDigit(n: nat)
    ensures n == n / 16 * 16 + n % 16
  {
  }

  predicate IsPlain(c: char) {
    ' ' <= c <= '~' && c != '"' && c != '\\'
  }

  predicate IsShort(c: char) {
    c in {'"', '\\', '\n', '\r', '\t', '\U{0C}', '\U{08}'}
  }

  lemma HeadOfEscape(c: char)
    ensures EscapeChar(c) != "" && EscapeChar(c)[0] != '"'
    ensures IsPlain(c) ==> EscapeChar(c) == [c]
    ensures !IsPlain(c) ==> |EscapeChar(c)| >= 2 && EscapeChar(c)[0] == '\\'
    ensures IsShort(c) ==> |EscapeChar(c)| == 2 && EscapeChar(c)[1] != 'u'
    ensures !IsPlain(c) && !IsShort(c) ==> EscapeChar(c)[1] == 'u'
  {
  }

  lemma ShortInjective(c: char, d: char)
    requires IsShort(c) && IsShort(d) && EscapeChar(c)[1] == EscapeChar(d)[1]
    ensures c == d
  {
  }

  /** The first code unit of an escaped character. */
  function FirstUnit(c: char): nat
    ensures FirstUnit(c) < 0x10000
  {
    if c as int < 0x10000 then c as int else HighSurrogate(c)
  }

  lemma UnitEscape(c: char)
    requires !IsPlain(c) && !IsShort(c)
    ensures EscapeChar(c) ==
            "\\u" + Hex4(FirstUnit(c)) + (if c as int < 0x10000 then "" else "\\u" + Hex4(LowSurrogate(c)))
    ensures |EscapeChar(c)| == if c as int < 0x10000 then 6 else 12
  {
  }

  /** A character is no surrogate, so the first code unit tells which of the two forms it is. */
  lemma UnitsInjective(c: char, d: char)
    requires FirstUnit(c) == FirstUnit(d)
    requires c as int >= 0x10000 && d as int >= 0x10000 ==> LowSurrogate(c) == LowSurrogate(d)
    ensures c == d
  {
    if c as int >= 0x10000 && d as int >= 0x10000 {
      var m, n := c as int - 0x10000, d as int - 0x10000;
      assert m == m / 1024 * 1024 + m % 1024 && n == n / 1024 * 1024 + n % 1024;
    }
  }

  lemma UnitPrefix(c: char, r: string) returns (rest: string)
    requires !IsPlain(c) && !IsShort(c)
    ensures rest == (if c as int < 0x10000 then "" else "\\u" + Hex4(LowSurrogate(c))) + r
    ensures EscapeChar(c) + r == "\\u" + Hex4(FirstUnit(c)) + rest
  {
    UnitEscape(c);
    rest := (if c as int < 0x10000 then "" else "\\u" + Hex4(LowSurrogate(c))) + r;
    Regroup("\\u" + Hex4(FirstUnit(c)), if c as int < 0x10000 then "" else "\\u" + Hex4(LowSurrogate(c)), r);
  }

  lemma UnitCharPrefixFree(c: char, d: char, r: string, q: string)
    requires !IsPlain(c) && !IsShort(c) && !IsPlain(d) && !IsShort(d)
    requires EscapeChar(c) + r == EscapeChar(d) + q
    ensures c == d && r == q
  {
    var r' := UnitPrefix(c, r);
    var q' := UnitPrefix(d, q);
    var x, y := "\\u" + Hex4(FirstUnit(c)), "\\u" + Hex4(FirstUnit(d));
    EqualHeads(x, r', y, q');
    assert x[2..] == Hex4(FirstUnit(c)) && y[2..] == Hex4(FirstUnit(d));
    Hex4Injective(FirstUnit(c), FirstUnit(d));
    if c as int >= 0x10000 && d as int >= 0x10000 {
      var u, v := "\\u" + Hex4(LowSurrogate(c)), "\\u" + Hex4(LowSurrogate(d));
      EqualHeads(u, r, v, q);
      assert u[2..] == Hex4(LowSurrogate(c)) && v[2..] == Hex4(LowSurrogate(d));
      Hex4Injective(LowSurrogate(c), LowSurrogate(d));
    }
    UnitsInjective(c, d);
    EqualHeads(EscapeChar(c), r, EscapeChar(d), q);
  }

  lemma CharPrefixFree(c: char, d: char, r: string, q: string)
    requires EscapeChar(c) + r == EscapeChar(d) + q
    ensures c == d && r == q
  {
    HeadOfEscape(c);
    HeadOfEscape(d);
    var x, y := EscapeChar(c), EscapeChar(d);
    assert x[0] == (x + r)[0] == (y + q)[0] == y[0];
    if IsPlain(c) || IsPlain(d) {
      EqualHeads(x, r, y, q);
    } else {
      assert x[1] == (x + r)[1] == (y + q)[1] == y[1];
      if IsShort(c) || IsShort(d) {
        ShortInjective(c, d);
        EqualHeads(x, r, y, q);
      } else {
        UnitCharPrefixFree(c, d, r, q);
      }
    }
  }

  lemma SameHead(h: string, x: string, y: string)
    requires h + x == h + y
    ensures x == y
  {
    EqualHeads(h, x, h, y);
  }

  lemma TextEndsOrGoesOn(s: string, r: string)
    ensures PutText(s, r) != ""
    ensures s == "" <==> PutText(s, r)[0] == '"'
  {
    if s != "" {
      HeadOfEscape(s[0]);
    }
  }

  lemma {:induction false} TextInjective(s: string, t: string, r: string, q: string)
    requires PutText(s, r) == PutText(t, q)
    ensures s == t && r == q
  {
    TextEndsOrGoesOn(s, r);
    TextEndsOrGoesOn(t, q);
    if s == "" {
      SameHead(['"'], r, q);
    } else {
      CharPrefixFree(s[0], t[0], PutText(s[1..], r), PutText(t[1..], q));
      TextInjective(s[1..], t[1..], r, q);
      assert s == [s[0]] + s[1..] && t == [t[0]] + t[1..];
    }
  }

  lemma StringInjective(s: string, t: string, r: string, q: string)
    requires PutString(s, r) == PutString(t, q)
    ensures s == t && r == q
  {
    SameHead(['"'], PutText(s, r), PutText(t, q));
    TextInjective(s, t, r, q);
  }

  lemma {:induction false} ValuesInjective(a: seq<string>, b: seq<string>, r: string, q: string)
    requires PutValues(a, r) == PutValues(b, q)
    ensures a == b && r == q
  {
    assert PutValues(a, r)[0] == if a == [] then ']' else ',';
    assert PutValues(b, q)[0] == if b == [] then ']' else ',';
    if a == [] {
      SameHead([']'], r, q);
    } else {
      var r', q' := PutValues(a[1..], r), PutValues(b[1..], q);
      SameHead([',', ' '], PutString(a[0], r'), PutString(b[0], q'));
      StringInjective(a[0], b[0], r', q');
      ValuesInjective(a[1..], b[1..], r, q);
      assert a == [a[0]] + a[1..] && b == [b[0]] + b[1..];
    }
  }

  lemma ListHead(values: seq<string>, rest: string)
    ensures |PutList(values, rest)| >= 2
    ensures PutList(values, rest)[1] == if values == [] then ']' else '"'
  {
  }

  lemma ListInjective(a: seq<string>, b: seq<string>, r: string, q: string)
    requires PutList(a, r) == PutList(b, q)
    ensures a == b && r == q
  {
    ListHead(a, r);
    ListHead(b, q);
    if a == [] {
      SameHead(['['], [']'] + r, [']'] + q);
      SameHead([']'], r, q);
    } else {
      var r', q' := PutValues(a[1..], r), PutValues(b[1..], q);
      SameHead(['['], PutString(a[0], r'), PutString(b[0], q'));
      StringInjective(a[0], b[0], r', q');
      ValuesInjective(a[1..], b[1..], r, q);
      assert a == [a[0]] + a[1..] && b == [b[0]] + b[1..];
    }
  }

  lemma EntryInjective(a: Sample, b: Sample, r: string, q: string)
    requires PutEntry(a, r) == PutEntry(b, q)
    ensures a == b && r == q
  {
    StringInjective(a.0, b.0, [':', ' '] + PutList(a.1, r), [':', ' '] + PutList(b.1, q));
    SameHead([':', ' '], PutList(a.1, r), PutList(b.1, q));
    ListInjective(a.1, b.1, r, q);
  }

  lemma {:induction false} EntriesInjective(a: seq<Sample>, b: seq<Sample>)
    requires PutEntries(a) == PutEntries(b)
    ensures a == b
    decreases |a|, 1
  {
    assert PutEntries(a)[0] == if a == [] then '}' else ',';
    assert PutEntries(b)[0] == if b == [] then '}' else ',';
    if a != [] {
      SameHead([',', ' '], PutEntry(a[0], PutEntries(a[1..])), PutEntry(b[0], PutEntries(b[1..])));
      FirstEntryInjective(a, b);
    }
  }

  lemma ObjectHead(samples: seq<Sample>)
    ensures |PutObject(samples)| >= 2
    ensures PutObject(samples)[1] == if samples == [] then '}' else '"'
  {
  }

  lemma FirstEntryInjective(a: seq<Sample>, b: seq<Sample>)
    requires a != [] && b != []
    requires PutEntry(a[0], PutEntries(a[1..])) == PutEntry(b[0], PutEntries(b[1..]))
    ensures a == b
    decreases |a|, 0
  {
    EntryInjective(a[0], b[0], PutEntries(a[1..]), PutEntries(b[1..]));
    EntriesInjective(a[1..], b[1..]);
    assert a == [a[0]] + a[1..] && b == [b[0]] + b[1..];
  }

  lemma ObjectInjective(a: seq<Sample>, b: seq<Sample>)
    requires PutObject(a) == PutObject(b)
    ensures a == b
  {
    ObjectHead(a);
    ObjectHead(b);
    if a != [] {
      SameHead(['{'], PutEntry(a[0], PutEntries(a[1..])), PutEntry(b[0], PutEntries(b[1..])));
      FirstEntryInjective(a, b);
    }
  }

  lemma {:induction false} SortedHolds(samples: Samples, column: string, values: seq<string>)
    ensures (column, values) in Sorted(samples) <==> column in samples && samples[column] == values
  {
    if samples != map[] {
      SortedHolds(samples - {FirstOf(samples.Keys)}, column, values);
    }
  }

  /** Different samples have different fingerprints. */
  lemma FingerprintInjective(a: Samples, b: Samples)
    requires Fingerprint(a) == Fingerprint(b)
    ensures a == b
  {
    ObjectInjective(Sorted(a), Sorted(b));
    forall column | column in a.Keys + b.Keys
      ensures column in a && column in b && a[column] == b[column]
    {
      var values := if column in a then a[column] else b[column];
      SortedHolds(a, column, values);
      SortedHolds(b, column, values);
    }
  }

  // --- a fingerprint is printable ASCII ---

  predicate Printable(s: string) {
    forall c | c in s :: ' ' <= c <= '~'
  }

  lemma HexIsPrintable(n: nat)
    requires n < 0x10000
    ensures Printable(Hex4(n))
  {
    assert forall i | 0 <= i < 16 :: ' ' <= HEX[i] <= '~';
  }

  lemma EscapeIsPrintable(c: char)
    ensures Printable(EscapeChar(c))
  {
    if !IsPlain(c) && !IsShort(c) {
      UnitEscape(c);
      HexIsPrintable(FirstUnit(c));
      if c as int >= 0x10000 {
        HexIsPrintable(LowSurrogate(c));
      }
    }
  }

  lemma {:induction false} StringIsPrintable(s: string, rest: string)
    requires Printable(rest)
    ensures Printable(PutText(s, rest)) && Printable(PutString(s, rest))
  {
    if s != "" {
      EscapeIsPrintable(s[0]);
      StringIsPrintable(s[1..], rest);
    }
  }

  lemma {:induction false} ValuesArePrintable(values: seq<string>, rest: string)
    requires Printable(rest)
    ensures Printable(PutValues(values, rest))
  {
    if values != [] {
      ValuesArePrintable(values[1..], rest);
      StringIsPrintable(values[0], PutValues(values[1..], rest));
    }
  }

  lemma EntryIsPrintable(sample: Sample, rest: string)
    requires Printable(rest)
    ensures Printable(PutEntry(sample, rest))
  {
    if sample.1 != [] {
      ValuesArePrintable(sample.1[1..], rest);
      StringIsPrintable(sample.1[0], PutValues(sample.1[1..], rest));
    }
    assert Printable(PutList(sample.1, rest));
    StringIsPrintable(sample.0, [':', ' '] + PutList(sample.1, rest));
  }

  lemma {:induction false} EntriesArePrintable(samples: seq<Sample>)
    ensures Printable(PutEntries(samples))
  {
    if samples != [] {
      EntriesArePrintable(samples[1..]);
      EntryIsPrintable(samples[0], PutEntries(samples[1..]));
    }
  }

  lemma FingerprintIsPrintable(samples: Samples)
    ensures Printable(Fingerprint(samples))
  {
    var sorted := Sorted(samples);
    if sorted != [] {
      EntriesArePrintable(sorted[1..]);
      EntryIsPrintable(sorted[0], PutEntries(sorted[1..]));
    }
  }

  // --- keys ---

  /** The text that is hashed: prompt version, model, description and samples. */
  ghost function NormalizationMaterial(version: string, model: string, description: string, samples: Samples): string {
    Join(SEPARATOR, [version, model, NormalizeDescription(description), Fingerprint(samples)])
  }

  function PatternMaterial(version: string, model: string, description: string): string {
    Join(SEPARATOR, [version, model, NormalizeDescription(description)])
  }

  ghost function PiiMaterial(version: string, model: string, samples: Samples): string {
    Join(SEPARATOR, [version, model, Fingerprint(samples)])
  }

  /** Two normalization requests share their key material exactly when they agree on the prompt
      version, the model, the words of the description and the samples. */
  lemma NormalizationMaterialExact(version: string, model: string, description: string, samples: Samples,
                                   version': string, model': string, description': string, samples': Samples)
    requires SEPARATOR !in version + model + version' + model'
    ensures NormalizationMaterial(version, model, description, samples) ==
            NormalizationMaterial(version', model', description', samples') <==>
            && version == version' && model == model'
            && Words("", description) == Words("", description') && samples == samples'
  {
    NormalizedByWords(description, description');
    NormalizedByWords(description', description);
    FingerprintIsPrintable(samples);
    FingerprintIsPrintable(samples');
    var a := [version, model, NormalizeDescription(description), Fingerprint(samples)];
    var b := [version', model', NormalizeDescription(description'), Fingerprint(samples')];
    if Join(SEPARATOR, a) == Join(SEPARATOR, b) {
      JoinInjective(SEPARATOR, a, b);
      assert a[0] == b[0] && a[1] == b[1] && a[2] == b[2] && a[3] == b[3];
      FingerprintInjective(samples, samples');
    }
  }

  lemma PatternMaterialExact(version: string, model: string, description: string,
                             version': string, model': string, description': string)
    requires SEPARATOR !in version + model + version' + model'
    ensures PatternMaterial(version, model, description) == PatternMaterial(version', model', description') <==>
            version == version' && model == model' && Words("", description) == Words("", description')
  {
    NormalizedByWords(description, description');
    NormalizedByWords(description', description);
    var a := [version, model, NormalizeDescription(description)];
    var b := [version', model', NormalizeDescription(description')];
    if Join(SEPARATOR, a) == Join(SEPARATOR, b) {
      JoinInjective(SEPARATOR, a, b);
      assert a[0] == b[0] && a[1] == b[1] && a[2] == b[2];
    }
  }

  lemma PiiMaterialExact(version: string, model: string, samples: Samples,
                         version': string, model': string, samples': Samples)
    requires SEPARATOR !in version + model + version' + model'
    ensures PiiMaterial(version, model, samples) == PiiMaterial(version', model', samples') <==>
            version == version' && model == model' && samples == samples'
  {
    FingerprintIsPrintable(samples);
    FingerprintIsPrintable(samples');
    var a, b := [version, model, Fingerprint(samples)], [version', model', Fingerprint(samples')];
    if Join(SEPARATOR, a) == Join(SEPARATOR, b) {
      JoinInjective(SEPARATOR, a, b);
      assert a[0] == b[0] && a[1] == b[1] && a[2] == b[2];
      FingerprintInjective(samples, samples');
    }
  }
}
