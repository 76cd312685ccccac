/** When an accepted repeated group can be cut in only one way: a word has at most one parse into
    iterations, and each iteration into its parts. */
module RegexParses {
  import opened Strings
  import opened Wrappers
  import opened CharSets
  import opened RegexTree
  import opened RegexAnalysis
  import opened RegexSoundness
  import opened RegexRisk

  /** One iteration: the words its elements match, in order. */
  type Cut = seq<Word>

  ghost predicate IsCut(t: CharTable, items: seq<Element>, cut: Cut) {
    |cut| == |items| && forall i | 0 <= i < |items| :: MatchesElement(t, items[i], cut[i])
  }

  function Joined(cut: Cut): Word {
    if cut == [] then [] else cut[0] + Joined(cut[1..])
  }

  /** A parse cuts a word into iterations of the body. */
  ghost predicate IsParse(t: CharTable, body: seq<Element>, parse: seq<Cut>) {
    forall cut | cut in parse :: IsCut(t, body, cut)
  }

  function Text(parse: seq<Cut>): Word {
    if parse == [] then [] else Joined(parse[0]) + Text(parse[1..])
  }

  // --- parses are the language ---

  lemma {:induction false} CutOfWord(t: CharTable, items: seq<Element>, w: Word) returns (cut: Cut)
    requires MatchesSequence(t, items, w)
    ensures IsCut(t, items, cut) && Joined(cut) == w
  {
    if items == [] {
      cut := [];
    } else {
      var i :| 0 <= i <= |w| && MatchesElement(t, items[0], w[..i]) && MatchesSequence(t, items[1..], w[i..]);
      var rest := CutOfWord(t, items[1..], w[i..]);
      cut := [w[..i]] + rest;
      assert cut[1..] == rest && w[..i] + w[i..] == w;
    }
  }

  lemma {:induction false} WordOfCut(t: CharTable, items: seq<Element>, cut: Cut)
    requires IsCut(t, items, cut)
    ensures MatchesSequence(t, items, Joined(cut))
  {
    if items != [] {
      WordOfCut(t, items[1..], cut[1..]);
      var w, i := Joined(cut), |cut[0]|;
      assert w[..i] == cut[0] && w[i..] == Joined(cut[1..]);
    }
  }

  lemma {:induction false} ParseOfWord(t: CharTable, body: seq<Element>, k: nat, w: Word) returns (parse: seq<Cut>)
    requires MatchesTimes(t, body, k, w)
    ensures IsParse(t, body, parse) && |parse| == k && Text(parse) == w
  {
    if k == 0 {
      parse := [];
    } else {
      var i :| 0 <= i <= |w| && MatchesSequence(t, body, w[..i]) && MatchesTimes(t, body, k - 1, w[i..]);
      var cut := CutOfWord(t, body, w[..i]);
      var rest := ParseOfWord(t, body, k - 1, w[i..]);
      parse := [cut] + rest;
      assert parse[1..] == rest && w[..i] + w[i..] == w;
    }
  }

  lemma {:induction false} WordOfParse(t: CharTable, body: seq<Element>, parse: seq<Cut>)
    requires IsParse(t, body, parse)
    ensures MatchesTimes(t, body, |parse|, Text(parse))
  {
    if parse != [] {
      WordOfCut(t, body, parse[0]);
      WordOfParse(t, body, parse[1..]);
      var w, i := Text(parse), |Joined(parse[0])|;
      assert w[..i] == Joined(parse[0]) && w[i..] == Text(parse[1..]);
    }
  }

  /** A word is `k` iterations of the body exactly when it has a parse of length `k`. */
  lemma ParsesAreTheLanguage(t: CharTable, body: seq<Element>, k: nat, w: Word)
    ensures MatchesTimes(t, body, k, w) <==>
            exists parse :: IsParse(t, body, parse) && |parse| == k && Text(parse) == w
  {
    if MatchesTimes(t, body, k, w) {
      var parse := ParseOfWord(t, body, k, w);
    }
    if parse :| IsParse(t, body, parse) && |parse| == k && Text(parse) == w {
      WordOfParse(t, body, parse);
    }
  }

  // --- fixed widths ---

  function ElementWidth(e: Element): Option<nat>
    decreases e, 0
  {
    match e
    case Literal(_) => Some(1)
    case NotLiteral(_) => Some(1)
    case AnyChar => Some(1)
    case In(_) => Some(1)
    case At(_) => Some(0)
    case Assert(_, _) => Some(0)
    case GroupRef(_) => None
    case Branch(alternatives) => CommonWidth(alternatives)
    case Group(_, body) => Width(body)
    case Atomic(body) => Width(body)
    case Repeat(_, count, body) => TimesWidth(count, Width(body))
    case Possessive(count, body) => TimesWidth(count, Width(body))
  }

  function TimesWidth(count: RawCount, width: Option<nat>): Option<nat> {
    if width.Some? && count.max == AtMost(count.min) then Some(count.min * width.value) else None
  }

  function CommonWidth(alternatives: seq<Alternative>): Option<nat>
    decreases alternatives, 0
  {
    if alternatives == [] then
      None
    else
      var first := Width(alternatives[0].items);
      if |alternatives| == 1 || CommonWidth(alternatives[1..]) == first then first else None
  }

  function Width(items: seq<Element>): Option<nat>
    decreases items, 0
  {
    if items == [] then
      Some(0)
    else
      var first, rest := ElementWidth(items[0]), Width(items[1..]);
      if first.Some? && rest.Some? then Some(first.value + rest.value) else None
  }

  lemma {:induction false} WidthSound(t: CharTable, items: seq<Element>, w: Word)
    requires Width(items).Some? && MatchesSequence(t, items, w)
    ensures |w| == Width(items).value
    decreases items, 0
  {
    if items != [] {
      var i :| 0 <= i <= |w| && MatchesElement(t, items[0], w[..i]) && MatchesSequence(t, items[1..], w[i..]);
      ElementWidthSound(t, items[0], w[..i]);
      WidthSound(t, items[1..], w[i..]);
    }
  }

  lemma {:induction false} ElementWidthSound(t: CharTable, e: Element, w: Word)
    requires ElementWidth(e).Some? && MatchesElement(t, e, w)
    ensures |w| == ElementWidth(e).value
    decreases e, 0
  {
    match e
    case Branch(alternatives) =>
      var j :| 0 <= j < |alternatives| && MatchesSequence(t, alternatives[j].items, w);
      CommonWidthOf(alternatives, j);
      WidthSound(t, alternatives[j].items, w);
    case Group(_, body) => WidthSound(t, body, w);
    case Atomic(body) => WidthSound(t, body, w);
    case Repeat(_, count, body) =>
      var k: nat :| WithinCount(k, count) && MatchesTimes(t, body, k, w);
      WidthSoundTimes(t, body, k, w);
    case Possessive(count, body) =>
      var k: nat :| WithinCount(k, count) && MatchesTimes(t, body, k, w);
      WidthSoundTimes(t, body, k, w);
    case _ =>
  }

  lemma {:induction false} WidthSoundTimes(t: CharTable, body: seq<Element>, k: nat, w: Word)
    requires Width(body).Some? && MatchesTimes(t, body, k, w)
    ensures |w| == k * Width(body).value
    decreases body, 1, k
  {
    if k > 0 {
      var i :| 0 <= i <= |w| && MatchesSequence(t, body, w[..i]) && MatchesTimes(t, body, k - 1, w[i..]);
      WidthSound(t, body, w[..i]);
      WidthSoundTimes(t, body, k - 1, w[i..]);
      OneMoreTime(k, Width(body).value);
    }
  }

  lemma OneMoreTime(k: nat, n: nat)
    requires k > 0
    ensures k * n == (k - 1) * n + n
  {
  }

  lemma {:induction false} CommonWidthOf(alternatives: seq<Alternative>, j: nat)
    requires CommonWidth(alternatives).Some? && j < |alternatives|
    ensures Width(alternatives[j].items) == CommonWidth(alternatives)
  {
    if j > 0 {
      CommonWidthOf(alternatives[1..], j - 1);
    }
  }

  // --- the head of two parses of one text ---

  /** A part whose words the text decides from left to right: it has a fixed width, or it is a branch
      whose alternatives each have one. */
  predicate IsDecidedPart(e: Element) {
    ElementWidth(e).Some? || (e.Branch? && forall a | a in e.alternatives :: Width(a.items).Some?)
  }

  ghost predicate NoOverlapIn(t: CharTable, e: Element) {
    e.Branch? ==> !BranchesOverlap(t, e.alternatives)
  }

  /** Alternatives that do not overlap and have a fixed width each: the text decides both which one is
      taken and where it ends. */
  lemma BranchWord(t: CharTable, alternatives: seq<Alternative>, x: Word, u: Word, y: Word, v: Word)
    requires !BranchesOverlap(t, alternatives)
    requires forall a | a in alternatives :: Width(a.items).Some?
    requires MatchesElement(t, Branch(alternatives), x) && MatchesElement(t, Branch(alternatives), y)
    requires x + u == y + v
    ensures x == y && u == v
  {
    var i :| 0 <= i < |alternatives| && MatchesSequence(t, alternatives[i].items, x);
    var j :| 0 <= j < |alternatives| && MatchesSequence(t, alternatives[j].items, y);
    var text := x + u;
    assert text[..|x|] == x && text[..|y|] == y;
    AtMostOneAlternative(t, alternatives, i, j, text, |x|, |y|);
    assert alternatives[i] in alternatives;
    WidthSound(t, alternatives[i].items, x);
    WidthSound(t, alternatives[i].items, y);
    EqualHeads(x, u, y, v);
  }

  lemma PartWord(t: CharTable, e: Element, x: Word, u: Word, y: Word, v: Word)
    requires IsDecidedPart(e) && NoOverlapIn(t, e)
    requires MatchesElement(t, e, x) && MatchesElement(t, e, y) && x + u == y + v
    ensures x == y && u == v
  {
    if ElementWidth(e).Some? {
      ElementWidthSound(t, e, x);
      ElementWidthSound(t, e, y);
      EqualHeads(x, u, y, v);
    } else {
      BranchWord(t, e.alternatives, x, u, y, v);
    }
  }

  lemma JoinedSingle(c: Cut)
    requires |c| == 1
    ensures Joined(c) == c[0] && c == [c[0]]
  {
    assert c[1..] == [];
  }

  lemma JoinedPair(c: Cut)
    requires |c| == 2
    ensures Joined(c) == c[0] + c[1] && c == [c[0], c[1]]
  {
    assert c[1..] == [c[1]];
    JoinedSingle(c[1..]);
  }

  /** Two parts over disjoint character sets, both non-nullable. */
  ghost predicate DisjointParts(t: CharTable, p: Element, q: Element) {
    && !NullableElement(p)
    && !NullableElement(q)
    && !(ConsumedByElement(p).universal && ConsumedByElement(q).universal)
    && forall c :: !(ConsumedByElement(p).Denotes(t, c) && ConsumedByElement(q).Denotes(t, c))
  }

  lemma DisjointWords(t: CharTable, p: Element, q: Element, x: Word, y: Word)
    requires DisjointParts(t, p, q) && MatchesElement(t, p, x) && MatchesElement(t, q, y)
    ensures x != [] && DenotesAll(t, ConsumedByElement(p), x)
    ensures y != [] && DenotesAll(t, ConsumedByElement(q), y)
  {
    ConsumedCoversElement(t, p, x);
    ConsumedCoversElement(t, q, y);
    if ConsumedByElement(p).universal {
      SolidPart(t, q, y);
      assert ConsumedByElement(q).Denotes(t, y[0]) by { assert y[0] in y; }
    } else {
      SolidPart(t, p, x);
      if ConsumedByElement(q).universal {
        assert ConsumedByElement(p).Denotes(t, x[0]) by { assert x[0] in x; }
      } else {
        SolidPart(t, q, y);
      }
    }
  }

  lemma RunNotLonger(t: CharTable, s: CharSet, x: Word, u: Word, y: Word, v: Word)
    requires x + u == y + v && DenotesAll(t, s, y)
    requires u != [] ==> !s.Denotes(t, u[0])
    ensures |y| <= |x|
  {
    var text := x + u;
    assert u != [] ==> text[|x|] == u[0];
    assert forall k | 0 <= k < |y| :: (y + v)[k] == y[k] && y[k] in y;
    assert |text| == |y + v|;
  }

  /** A maximal run of one set, followed by nothing or by a character outside it, is the same in
      both readings of a text. */
  lemma EqualRuns(t: CharTable, s: CharSet, x: Word, u: Word, y: Word, v: Word)
    requires x + u == y + v && DenotesAll(t, s, x) && DenotesAll(t, s, y)
    requires u != [] ==> !s.Denotes(t, u[0])
    requires v != [] ==> !s.Denotes(t, v[0])
    ensures x == y && u == v
  {
    RunNotLonger(t, s, x, u, y, v);
    RunNotLonger(t, s, y, v, x, u);
    EqualHeads(x, u, y, v);
  }

  lemma PairCut(t: CharTable, p: Element, q: Element, c: Cut, d: Cut, u: Word, v: Word)
    requires DisjointParts(t, p, q) && IsCut(t, [p, q], c) && IsCut(t, [p, q], d)
    requires Joined(c) + u == Joined(d) + v
    requires u != [] ==> ConsumedByElement(p).Denotes(t, u[0])
    requires v != [] ==> ConsumedByElement(p).Denotes(t, v[0])
    ensures c == d && u == v
  {
    var body := [p, q];
    assert MatchesElement(t, body[0], c[0]) && MatchesElement(t, body[1], c[1]);
    assert MatchesElement(t, body[0], d[0]) && MatchesElement(t, body[1], d[1]);
    DisjointWords(t, p, q, c[0], c[1]);
    DisjointWords(t, p, q, d[0], d[1]);
    JoinedPair(c);
    JoinedPair(d);
    Regroup(c[0], c[1], u);
    Regroup(d[0], d[1], v);
    assert (c[1] + u)[0] in c[1] && (d[1] + v)[0] in d[1];
    EqualRuns(t, ConsumedByElement(p), c[0], c[1] + u, d[0], d[1] + v);
    EqualRuns(t, ConsumedByElement(q), c[1], u, d[1], v);
  }

  // --- unique parses ---

  lemma FirstCharacterOfParse(t: CharTable, p: Element, q: Element, parse: seq<Cut>)
    requires DisjointParts(t, p, q) && IsParse(t, [p, q], parse) && parse != []
    ensures Text(parse) != [] && ConsumedByElement(p).Denotes(t, Text(parse)[0])
  {
    var cut, body := parse[0], [p, q];
    assert cut in parse;
    assert MatchesElement(t, body[0], cut[0]) && MatchesElement(t, body[1], cut[1]);
    DisjointWords(t, p, q, cut[0], cut[1]);
    JoinedPair(cut);
    assert Text(parse)[0] == cut[0][0] && cut[0][0] in cut[0];
  }

  lemma {:induction false} UniqueDisjointParse(t: CharTable, p: Element, q: Element, a: seq<Cut>, b: seq<Cut>)
    requires DisjointParts(t, p, q) && IsParse(t, [p, q], a) && IsParse(t, [p, q], b)
    requires Text(a) == Text(b)
    ensures a == b
  {
    if a != [] { FirstCharacterOfParse(t, p, q, a); }
    if b != [] { FirstCharacterOfParse(t, p, q, b); }
    if a != [] && b != [] {
      if a[1..] != [] { FirstCharacterOfParse(t, p, q, a[1..]); }
      if b[1..] != [] { FirstCharacterOfParse(t, p, q, b[1..]); }
      assert a[0] in a && b[0] in b;
      PairCut(t, p, q, a[0], b[0], Text(a[1..]), Text(b[1..]));
      UniqueDisjointParse(t, p, q, a[1..], b[1..]);
      assert a == [a[0]] + a[1..] && b == [b[0]] + b[1..];
    }
  }

  lemma {:induction false} FixedBackrefFree(items: seq<Element>)
    requires Width(items).Some?
    ensures BackrefFreeSequence(items)
    decreases items, 0
  {
    if items != [] {
      FixedBackrefFreeElement(items[0]);
      FixedBackrefFree(items[1..]);
      assert items == [items[0]] + items[1..];
    }
  }

  lemma {:induction false} FixedBackrefFreeElement(e: Element)
    requires ElementWidth(e).Some?
    ensures BackrefFree(e)
    decreases e, 0
  {
    if e.Branch? {
      forall a | a in e.alternatives ensures BackrefFreeSequence(a.items) {
        var j :| 0 <= j < |e.alternatives| && e.alternatives[j] == a;
        CommonWidthOf(e.alternatives, j);
        FixedBackrefFree(e.alternatives[j].items);
      }
    } else if e.HasBody() && !e.Assert? {
      FixedBackrefFree(e.body);
    }
  }

  lemma DecidedBackrefFree(items: seq<Element>)
    requires forall e | e in items :: IsDecidedPart(e)
    ensures BackrefFreeSequence(items)
  {
    forall e | e in items ensures BackrefFree(e) {
      if ElementWidth(e).Some? {
        FixedBackrefFreeElement(e);
      } else {
        forall a | a in e.alternatives ensures BackrefFreeSequence(a.items) {
          FixedBackrefFree(a.items);
        }
      }
    }
  }

  // --- chained parts ---

  /** The text decides where the part ends: by itself, or because what follows it must begin with a
      character that the part cannot consume. */
  ghost predicate EndsClearly(t: CharTable, e: Element, next: Element) {
    NoOverlapIn(t, e) && (IsDecidedPart(e) || Separates(t, next, ConsumedByElement(e)))
  }

  function Head(items: seq<Element>, next: Element): Element {
    if items == [] then next else items[0]
  }

  /** Each part ends clearly, the last one before `next`. */
  ghost predicate Chained(t: CharTable, items: seq<Element>, next: Element) {
    items == [] || (EndsClearly(t, items[0], Head(items[1..], next)) && Chained(t, items[1..], next))
  }

  /** The text is over or goes on with a match of `next`. */
  ghost predicate GoesOnWith(t: CharTable, next: Element, u: Word) {
    u == [] || exists m | 0 <= m <= |u| :: MatchesElement(t, next, u[..m])
  }

  lemma PartStarts(t: CharTable, e: Element, x: Word, u: Word)
    requires MatchesElement(t, e, x)
    ensures GoesOnWith(t, e, x + u)
  {
    assert (x + u)[..|x|] == x;
  }

  lemma SeparatorFollows(t: CharTable, next: Element, s: CharSet, u: Word)
    requires Separates(t, next, s) && GoesOnWith(t, next, u)
    ensures u != [] ==> !s.Denotes(t, u[0])
  {
    if u != [] {
      var m :| 0 <= m <= |u| && MatchesElement(t, next, u[..m]);
      SeparatorWord(t, next, s, u[..m]);
      assert u[0] in u[..m];
    }
  }

  lemma ClearPart(t: CharTable, e: Element, next: Element, x: Word, u: Word, y: Word, v: Word)
    requires EndsClearly(t, e, next) && GoesOnWith(t, next, u) && GoesOnWith(t, next, v)
    requires MatchesElement(t, e, x) && MatchesElement(t, e, y) && x + u == y + v
    ensures x == y && u == v
  {
    if IsDecidedPart(e) {
      PartWord(t, e, x, u, y, v);
    } else {
      var s := ConsumedByElement(e);
      ConsumedCoversElement(t, e, x);
      ConsumedCoversElement(t, e, y);
      SeparatorFollows(t, next, s, u);
      SeparatorFollows(t, next, s, v);
      EqualRuns(t, s, x, u, y, v);
    }
  }

  lemma CutGoesOn(t: CharTable, items: seq<Element>, next: Element, c: Cut, u: Word)
    requires IsCut(t, items, c) && GoesOnWith(t, next, u)
    ensures GoesOnWith(t, Head(items, next), Joined(c) + u)
  {
    if items == [] {
      assert Joined(c) + u == u;
    } else {
      PartStarts(t, items[0], c[0], Joined(c[1..]) + u);
      assert Joined(c) + u == c[0] + (Joined(c[1..]) + u);
    }
  }

  /** A body of chained parts cuts a text in one way, if the text goes on as it should. */
  lemma {:induction false} ChainedCut(t: CharTable, items: seq<Element>, next: Element,
                                      c: Cut, d: Cut, u: Word, v: Word)
    requires Chained(t, items, next) && GoesOnWith(t, next, u) && GoesOnWith(t, next, v)
    requires IsCut(t, items, c) && IsCut(t, items, d)
    requires Joined(c) + u == Joined(d) + v
    ensures c == d && u == v
  {
    if items == [] {
      assert Joined(c) + u == u && Joined(d) + v == v;
    } else {
      FirstPartCut(t, items, next, c, d, u, v);
      ChainedCut(t, items[1..], next, c[1..], d[1..], u, v);
      assert c == [c[0]] + c[1..] && d == [d[0]] + d[1..];
    }
  }

  lemma FirstPartCut(t: CharTable, items: seq<Element>, next: Element, c: Cut, d: Cut, u: Word, v: Word)
    requires items != [] && EndsClearly(t, items[0], Head(items[1..], next))
    requires GoesOnWith(t, next, u) && GoesOnWith(t, next, v)
    requires IsCut(t, items, c) && IsCut(t, items, d)
    requires Joined(c) + u == Joined(d) + v
    ensures IsCut(t, items[1..], c[1..]) && IsCut(t, items[1..], d[1..])
    ensures c[0] == d[0] && Joined(c[1..]) + u == Joined(d[1..]) + v
  {
    var u', v' := Joined(c[1..]) + u, Joined(d[1..]) + v;
    assert Joined(c) + u == c[0] + u' && Joined(d) + v == d[0] + v';
    CutGoesOn(t, items[1..], next, c[1..], u);
    CutGoesOn(t, items[1..], next, d[1..], v);
    ClearPart(t, items[0], Head(items[1..], next), c[0], u', d[0], v');
  }

  /** The part after this one; after the last, the first of the next iteration. */
  function Follower(body: seq<Element>, i: nat): Element
    requires i < |body|
  {
    if i + 1 < |body| then body[i + 1] else body[0]
  }

  predicate DelimitedAt(t: CharTable, body: seq<Element>, i: nat)
    requires i < |body|
  {
    IsDecidedPart(body[i]) || Separates(t, Follower(body, i), ConsumedByElement(body[i]))
  }

  /** Each part is decided by itself, or the part that follows it must begin with a character it cannot
      consume. */
  predicate SelfDelimiting(t: CharTable, body: seq<Element>) {
    body != [] && forall i | 0 <= i < |body| :: DelimitedAt(t, body, i)
  }

  lemma {:induction false} DelimitedIsChained(t: CharTable, body: seq<Element>, from: nat)
    requires SelfDelimiting(t, body) && from <= |body| && forall e | e in body :: NoOverlapIn(t, e)
    ensures Chained(t, body[from..], body[0])
    decreases |body| - from
  {
    if from < |body| {
      DelimitedIsChained(t, body, from + 1);
      assert body[from..][1..] == body[from + 1..];
      assert DelimitedAt(t, body, from) && body[from] in body;
      assert Head(body[from + 1..], body[0]) == Follower(body, from);
    }
  }

  lemma {:induction false} EmptyJoined(c: Cut, i: nat)
    requires i < |c| && Joined(c) == []
    ensures c[i] == []
  {
    if i > 0 {
      EmptyJoined(c[1..], i - 1);
    }
  }

  /** An iteration of a self-delimiting body consumes something. */
  lemma IterationIsSolid(t: CharTable, body: seq<Element>, c: Cut)
    requires SelfDelimiting(t, body) && !Nullable(body) && IsCut(t, body, c)
    ensures Joined(c) != []
  {
    if Joined(c) == [] {
      if i :| 0 <= i < |body| && !IsDecidedPart(body[i]) {
        assert DelimitedAt(t, body, i);
        var n := if i + 1 < |body| then i + 1 else 0;
        EmptyJoined(c, n);
        SeparatorWord(t, body[n], ConsumedByElement(body[i]), c[n]);
      } else {
        DecidedBackrefFree(body);
        WordOfCut(t, body, c);
        NullableExact(t, body);
      }
    }
  }

  lemma ParseGoesOn(t: CharTable, body: seq<Element>, parse: seq<Cut>)
    requires body != [] && IsParse(t, body, parse)
    ensures GoesOnWith(t, body[0], Text(parse))
  {
    if parse != [] {
      assert parse[0] in parse;
      var rest: Word := Text(parse[1..]);
      var c := parse[0];
      PartStarts(t, body[0], c[0], Joined(c[1..]) + rest);
      assert Text(parse) == c[0] + (Joined(c[1..]) + rest);
    }
  }

  lemma {:induction false} UniqueDelimitedParse(t: CharTable, body: seq<Element>, a: seq<Cut>, b: seq<Cut>)
    requires SelfDelimiting(t, body) && Chained(t, body, body[0]) && !Nullable(body)
    requires IsParse(t, body, a) && IsParse(t, body, b) && Text(a) == Text(b)
    ensures a == b
  {
    if a != [] { IterationIsSolid(t, body, a[0]); }
    if b != [] { IterationIsSolid(t, body, b[0]); }
    if a != [] && b != [] {
      ParseGoesOn(t, body, a[1..]);
      ParseGoesOn(t, body, b[1..]);
      ChainedCut(t, body, body[0], a[0], b[0], Text(a[1..]), Text(b[1..]));
      UniqueDelimitedParse(t, body, a[1..], b[1..]);
      assert a == [a[0]] + a[1..] && b == [b[0]] + b[1..];
    }
  }

  // --- what acceptance promises about parses ---

  lemma AcceptedBranches(t: CharTable, items: seq<Element>, r: Element, e: Element)
    requires FindBacktrackingRisk(t, items).None? && Visits(items, r) && WideRepeat(r)
    requires e in UnwrapGroup(r.body)
    ensures NoOverlapIn(t, e) && !Nullable(UnwrapGroup(r.body))
  {
    var body := UnwrapGroup(r.body);
    var index :| 0 <= index < |body| && body[index] == e;
    AcceptedBody(t, items, r, index);
  }

  /** (a) A wide accepted repeat of a self-delimiting body: two parses of one text are equal. */
  lemma UniquePartsParse(t: CharTable, items: seq<Element>, r: Element, a: seq<Cut>, b: seq<Cut>)
    requires FindBacktrackingRisk(t, items).None? && Visits(items, r) && WideRepeat(r)
    requires SelfDelimiting(t, UnwrapGroup(r.body))
    requires IsParse(t, UnwrapGroup(r.body), a) && IsParse(t, UnwrapGroup(r.body), b)
    requires Text(a) == Text(b)
    ensures a == b
  {
    var body := UnwrapGroup(r.body);
    forall e | e in body ensures NoOverlapIn(t, e) {
      AcceptedBranches(t, items, r, e);
    }
    AcceptedBranches(t, items, r, body[0]);
    DelimitedIsChained(t, body, 0);
    assert body[0..] == body;
    UniqueDelimitedParse(t, body, a, b);
  }

  /** Exactly one of the alternatives matches the word. */
  ghost predicate TakesOne(t: CharTable, alternatives: seq<Alternative>, w: Word) {
    exists i | 0 <= i < |alternatives| :: Takes(t, alternatives, i, w) && IsOnly(t, alternatives, i, w)
  }

  ghost predicate Takes(t: CharTable, alternatives: seq<Alternative>, i: nat, w: Word)
    requires i < |alternatives|
  {
    MatchesSequence(t, alternatives[i].items, w)
  }

  ghost predicate IsOnly(t: CharTable, alternatives: seq<Alternative>, i: nat, w: Word) {
    forall j | 0 <= j < |alternatives| && Takes(t, alternatives, j, w) :: j == i
  }

  /** In an accepted wide repeat, of whatever body, each branch of an iteration takes one alternative
      and no other matches the same text. */
  lemma OneAlternative(t: CharTable, items: seq<Element>, r: Element, parse: seq<Cut>, cut: Cut, index: nat)
    requires FindBacktrackingRisk(t, items).None? && Visits(items, r) && WideRepeat(r)
    requires IsParse(t, UnwrapGroup(r.body), parse) && cut in parse
    requires index < |UnwrapGroup(r.body)| && UnwrapGroup(r.body)[index].Branch?
    ensures |cut| == |UnwrapGroup(r.body)| && TakesOne(t, UnwrapGroup(r.body)[index].alternatives, cut[index])
  {
    var body := UnwrapGroup(r.body);
    var alternatives, w := body[index].alternatives, cut[index];
    AcceptedBranches(t, items, r, body[index]);
    assert MatchesElement(t, body[index], w);
    var i :| 0 <= i < |alternatives| && MatchesSequence(t, alternatives[i].items, w);
    forall j | 0 <= j < |alternatives| && Takes(t, alternatives, j, w) ensures j == i {
      assert w[..|w|] == w;
      AtMostOneAlternative(t, alternatives, i, j, w, |w|, |w|);
    }
    assert Takes(t, alternatives, i, w) && IsOnly(t, alternatives, i, w);
  }

  /** Two parts, one of which holds a backtracking quantifier; the other one then separates it. */
  predicate DecidablePair(p: Element, q: Element) {
    !NullableElement(p) && !NullableElement(q) && (HasBacktrackingRepeat(p) || HasBacktrackingRepeat(q))
  }

  /** (b) A wide accepted repeat of two such parts: two parses of one text are equal. */
  lemma UniquePairParse(t: CharTable, items: seq<Element>, r: Element, p: Element, q: Element,
                        a: seq<Cut>, b: seq<Cut>)
    requires FindBacktrackingRisk(t, items).None? && Visits(items, r) && WideRepeat(r)
    requires UnwrapGroup(r.body) == [p, q] && DecidablePair(p, q)
    requires IsParse(t, UnwrapGroup(r.body), a) && IsParse(t, UnwrapGroup(r.body), b)
    requires Text(a) == Text(b)
    ensures a == b
  {
    AcceptedPairIsDisjoint(t, items, r, p, q);
    UniqueDisjointParse(t, p, q, a, b);
  }

  lemma AcceptedPairIsDisjoint(t: CharTable, items: seq<Element>, r: Element, p: Element, q: Element)
    requires FindBacktrackingRisk(t, items).None? && Visits(items, r) && WideRepeat(r)
    requires UnwrapGroup(r.body) == [p, q] && DecidablePair(p, q)
    ensures DisjointParts(t, p, q)
  {
    var body := [p, q];
    var P, Q := ConsumedByElement(p), ConsumedByElement(q);
    if HasBacktrackingRepeat(p) {
      AcceptedBody(t, items, r, 0);
      assert body[..0] + body[1..] == [q];
      assert Separates(t, q, P);
      OverlapsExact(t, Q, P);
    } else {
      AcceptedBody(t, items, r, 1);
      assert body[..1] + body[2..] == [p];
      assert Separates(t, p, Q);
      OverlapsExact(t, P, Q);
    }
  }

  predicate IsSingle(e: Element) {
    e.Literal? || e.NotLiteral? || e.AnyChar? || e.In?
  }

  /** A single character, or a repeat of one with at least one iteration: `\w`, `\w+`, `[ab]{2,}`. */
  predicate IsRun(e: Element) {
    IsSingle(e) || (e.Repeat? && e.count.min >= 1 && |e.body| == 1 && IsSingle(e.body[0]))
  }

  /** Bodies such as `\w+\s+` and `\d-` are of one of the two kinds. */
  lemma RunsAreDecidable(t: CharTable, p: Element, q: Element)
    requires IsRun(p) && IsRun(q)
    ensures UniquelyCut(t, [p, q])
  {
    RunIsSolid(p);
    RunIsSolid(q);
    var body := [p, q];
    if IsDecidedPart(p) && IsDecidedPart(q) {
      assert forall i | 0 <= i < |body| :: IsDecidedPart(body[i]);
    }
  }

  lemma RunIsSolid(e: Element)
    requires IsRun(e)
    ensures !NullableElement(e) && (HasBacktrackingRepeat(e) || ElementWidth(e).Some?)
  {
    if !IsSingle(e) {
      var body, count := e.body, e.count;
      SingleBody(body);
      if count.max.AtMost? && count.max.n <= 1 {
        assert count.max == AtMost(count.min) && count.min == 1;
        assert ElementWidth(e) == TimesWidth(count, Width(body));
      }
    }
  }

  lemma SingleBody(body: seq<Element>)
    requires |body| == 1 && IsSingle(body[0])
    ensures !Nullable(body) && Width(body) == Some(1)
  {
    assert body[1..] == [];
    assert body[0] in body && !NullableElement(body[0]);
    assert ElementWidth(body[0]) == Some(1);
  }

  /** The bodies whose words can be cut in only one way: (a) self-delimiting ones, such as those of
      `(?:ab|c)+`, `(?:\w+,\s)+` and `(?:[A-Z]\w*\s)+`, (b) two parts of which one holds a backtracking
      quantifier. */
  predicate UniquelyCut(t: CharTable, body: seq<Element>) {
    SelfDelimiting(t, body) || (|body| == 2 && DecidablePair(body[0], body[1]))
  }

  /** Every text that is iterations of such a repeat, in an accepted pattern, is cut into one
      number of iterations in one way, and each branch takes one alternative. */
  lemma UniqueParse(t: CharTable, items: seq<Element>, r: Element, k: nat, w: Word) returns (parse: seq<Cut>)
    requires FindBacktrackingRisk(t, items).None? && Visits(items, r) && WideRepeat(r)
    requires UniquelyCut(t, UnwrapGroup(r.body))
    requires MatchesTimes(t, r.body, k, w)
    ensures IsParse(t, UnwrapGroup(r.body), parse) && |parse| == k && Text(parse) == w
    ensures forall other | IsParse(t, UnwrapGroup(r.body), other) && Text(other) == w :: other == parse
    ensures forall m | MatchesTimes(t, UnwrapGroup(r.body), m, w) :: m == k
    ensures forall cut, index | cut in parse && BranchAt(UnwrapGroup(r.body), index) ::
              |cut| == |UnwrapGroup(r.body)| && TakesOne(t, UnwrapGroup(r.body)[index].alternatives, cut[index])
  {
    var body := UnwrapGroup(r.body);
    UnwrapKeepsIterations(t, r.body, k, w);
    parse := ParseOfWord(t, body, k, w);
    forall other | IsParse(t, body, other) && Text(other) == w ensures other == parse {
      ParsesAreEqual(t, items, r, other, parse);
    }
    forall m | MatchesTimes(t, body, m, w) ensures m == k {
      var other := ParseOfWord(t, body, m, w);
    }
    forall cut, index | cut in parse && BranchAt(body, index)
      ensures |cut| == |body| && TakesOne(t, body[index].alternatives, cut[index])
    {
      OneAlternative(t, items, r, parse, cut, index);
    }
  }

  predicate BranchAt(body: seq<Element>, index: int) {
    0 <= index < |body| && body[index].Branch?
  }

  lemma ParsesAreEqual(t: CharTable, items: seq<Element>, r: Element, a: seq<Cut>, b: seq<Cut>)
    requires FindBacktrackingRisk(t, items).None? && Visits(items, r) && WideRepeat(r)
    requires UniquelyCut(t, UnwrapGroup(r.body))
    requires IsParse(t, UnwrapGroup(r.body), a) && IsParse(t, UnwrapGroup(r.body), b)
    requires Text(a) == Text(b)
    ensures a == b
  {
    var body := UnwrapGroup(r.body);
    if SelfDelimiting(t, body) {
      UniquePartsParse(t, items, r, a, b);
    } else {
      assert body == [body[0], body[1]];
      UniquePairParse(t, items, r, body[0], body[1], a, b);
    }
  }
}
