/** Backreferences to what their groups have captured, and which accepted patterns match empty text.

    A match leads from captures to captures. As in java.util.regex, a reference to a group that has
    captured nothing fails, and an iteration that consumes nothing ends its repeat. */
module RegexCaptures {
  import opened Wrappers
  import opened CharSets
  import opened RegexTree
  import opened RegexAnalysis
  import opened RegexSoundness

  type Captures = map<nat, Word>

  /** An assertion looks at any text, and a positive one keeps what its groups captured there. */
  ghost predicate ElementCaptures(t: CharTable, e: Element, before: Captures, w: Word, after: Captures)
    decreases e, 0
  {
    match e
    case At(_) => w == [] && after == before
    case Assert(negative, body) =>
      w == [] &&
      (if negative then after == before else exists ahead: Word :: SequenceCaptures(t, body, before, ahead, after))
    case GroupRef(n) => n in before && w == before[n] && after == before
    case Branch(alternatives) =>
      exists j | 0 <= j < |alternatives| :: SequenceCaptures(t, alternatives[j].items, before, w, after)
    case Group(capture, body) =>
      exists inner: Captures ::
        SequenceCaptures(t, body, before, w, inner) && after == Captured(inner, capture, w)
    case Repeat(_, count, body) => LoopCaptures(t, body, count, 0, before, w, after)
    case Possessive(count, body) => LoopCaptures(t, body, count, 0, before, w, after)
    case Atomic(body) => SequenceCaptures(t, body, before, w, after)
    case _ => MatchesElement(t, e, w) && after == before
  }

  function Captured(captures: Captures, group: Option<nat>, w: Word): Captures {
    if group.Some? then captures[group.value := w] else captures
  }

  ghost predicate SequenceCaptures(t: CharTable, items: seq<Element>, before: Captures, w: Word, after: Captures)
    decreases items, 0
  {
    if items == [] then
      w == [] && after == before
    else
      exists i, middle: Captures | 0 <= i <= |w| ::
        ElementCaptures(t, items[0], before, w[..i], middle) && SequenceCaptures(t, items[1..], middle, w[i..], after)
  }

  predicate AllowsMore(count: RawCount, done: nat) {
    count.max.AtMost? ==> done < count.max.n
  }

  /** The rest of a repeat after `done` iterations. */
  ghost predicate LoopCaptures(t: CharTable, body: seq<Element>, count: RawCount, done: nat,
                               before: Captures, w: Word, after: Captures)
    decreases body, 1, |w|
  {
    || (count.min <= done && w == [] && after == before)
    || (AllowsMore(count, done) && w == [] && SequenceCaptures(t, body, before, [], after))
    || (AllowsMore(count, done) && exists i, middle: Captures | 0 < i <= |w| ::
          && SequenceCaptures(t, body, before, w[..i], middle)
          && LoopCaptures(t, body, count, done + 1, middle, w[i..], after))
  }

  // --- forgetting the captures ---

  /** Every word matched with captures is in the over-approximated language. */
  lemma {:induction false} CapturesErase(t: CharTable, items: seq<Element>, before: Captures, w: Word, after: Captures)
    requires SequenceCaptures(t, items, before, w, after)
    ensures MatchesSequence(t, items, w)
    decreases items, 0
  {
    if items != [] {
      var i, middle :| 0 <= i <= |w| && ElementCaptures(t, items[0], before, w[..i], middle)
        && SequenceCaptures(t, items[1..], middle, w[i..], after);
      CapturesEraseElement(t, items[0], before, w[..i], middle);
      CapturesErase(t, items[1..], middle, w[i..], after);
    }
  }

  lemma {:induction false} CapturesEraseElement(t: CharTable, e: Element, before: Captures, w: Word, after: Captures)
    requires ElementCaptures(t, e, before, w, after)
    ensures MatchesElement(t, e, w)
    decreases e, 0
  {
    match e
    case Branch(alternatives) =>
      var j :| 0 <= j < |alternatives| && SequenceCaptures(t, alternatives[j].items, before, w, after);
      CapturesErase(t, alternatives[j].items, before, w, after);
    case Group(capture, body) =>
      var inner :| SequenceCaptures(t, body, before, w, inner) && after == Captured(inner, capture, w);
      CapturesErase(t, body, before, w, inner);
    case Repeat(_, count, body) => var k := LoopErases(t, body, count, 0, before, w, after);
    case Possessive(count, body) => var k := LoopErases(t, body, count, 0, before, w, after);
    case Atomic(body) => CapturesErase(t, body, before, w, after);
    case _ =>
  }

  lemma {:induction false} LoopErases(t: CharTable, body: seq<Element>, count: Count, done: nat,
                                      before: Captures, w: Word, after: Captures) returns (k: nat)
    requires LoopCaptures(t, body, count, done, before, w, after)
    requires count.max.AtMost? ==> done <= count.max.n
    ensures WithinCount(done + k, count) && MatchesTimes(t, body, k, w)
    decreases body, 1, |w|
  {
    if count.min <= done && w == [] && after == before {
      k := 0;
    } else if w == [] {
      CapturesErase(t, body, before, w, after);
      k := if count.min <= done then 1 else count.min - done;
      EmptyTimes(t, body, k);
    } else {
      var i, middle :| 0 < i <= |w| && SequenceCaptures(t, body, before, w[..i], middle)
        && LoopCaptures(t, body, count, done + 1, middle, w[i..], after);
      CapturesErase(t, body, before, w[..i], middle);
      var rest := LoopErases(t, body, count, done + 1, middle, w[i..], after);
      k := rest + 1;
    }
  }

  // --- empty matches ---

  /** The sets of groups that can have captured after an empty match, for each the empty word, when
      the groups in `set` had before. */
  ghost function EndsOfElement(e: Element, groups: set<nat>): set<set<nat>>
    decreases e, 0
  {
    match e
    case At(_) => {groups}
    case Assert(_, _) => {groups}
    case GroupRef(n) => if n in groups then {groups} else {}
    case Branch(alternatives) => set a, ends | a in alternatives && ends in Ends(a.items, groups) :: ends
    case Group(capture, body) => set ends | ends in Ends(body, groups) :: With(ends, capture)
    case Repeat(_, count, body) => EndsOfLoop(count, groups, Ends(body, groups))
    case Possessive(count, body) => EndsOfLoop(count, groups, Ends(body, groups))
    case Atomic(body) => Ends(body, groups)
    case _ => {}
  }

  function With(groups: set<nat>, group: Option<nat>): set<nat> {
    if group.Some? then groups + {group.value} else groups
  }

  ghost function EndsOfLoop(count: RawCount, groups: set<nat>, once: set<set<nat>>): set<set<nat>> {
    (if count.min == 0 then {groups} else {}) + (if AllowsMore(count, 0) then once else {})
  }

  ghost function Ends(items: seq<Element>, groups: set<nat>): set<set<nat>>
    decreases items, 0
  {
    if items == [] then
      {groups}
    else
      set middle, ends | middle in EndsOfElement(items[0], groups) && ends in Ends(items[1..], middle) :: ends
  }

  predicate AssertionFreeElement(e: Element)
    decreases e, 0
  {
    match e
    case Assert(_, _) => false
    case Branch(alternatives) => forall a | a in alternatives :: AssertionFree(a.items)
    case Group(_, body) => AssertionFree(body)
    case Repeat(_, _, body) => AssertionFree(body)
    case Possessive(_, body) => AssertionFree(body)
    case Atomic(body) => AssertionFree(body)
    case _ => true
  }

  predicate AssertionFree(items: seq<Element>)
    decreases items, 0
  {
    forall e | e in items :: AssertionFreeElement(e)
  }

  /** The groups have captured the empty word. */
  ghost function Blank(groups: set<nat>): Captures {
    map n | n in groups :: []
  }

  lemma {:induction false} EmptyMatchEnds(t: CharTable, items: seq<Element>, groups: set<nat>, after: Captures)
    returns (ends: set<nat>)
    requires AssertionFree(items) && SequenceCaptures(t, items, Blank(groups), [], after)
    ensures ends in Ends(items, groups) && after == Blank(ends)
    decreases items, 0
  {
    if items == [] {
      ends := groups;
    } else {
      var w: Word := [];
      var i, middle :| 0 <= i <= |w| && ElementCaptures(t, items[0], Blank(groups), w[..i], middle)
        && SequenceCaptures(t, items[1..], middle, w[i..], after);
      assert w[..i] == [] && w[i..] == [] && items[0] in items;
      var between := EmptyMatchEndsElement(t, items[0], groups, middle);
      ends := EmptyMatchEnds(t, items[1..], between, after);
    }
  }

  lemma {:induction false} EmptyMatchEndsElement(t: CharTable, e: Element, groups: set<nat>, after: Captures)
    returns (ends: set<nat>)
    requires AssertionFreeElement(e) && ElementCaptures(t, e, Blank(groups), [], after)
    ensures ends in EndsOfElement(e, groups) && after == Blank(ends)
    decreases e, 0
  {
    match e
    case Branch(alternatives) =>
      var w: Word := [];
      var j :| 0 <= j < |alternatives| && SequenceCaptures(t, alternatives[j].items, Blank(groups), w, after);
      assert alternatives[j] in alternatives;
      ends := EmptyMatchEnds(t, alternatives[j].items, groups, after);
    case Group(capture, body) =>
      var w: Word := [];
      var inner :| SequenceCaptures(t, body, Blank(groups), w, inner) && after == Captured(inner, capture, w);
      var within := EmptyMatchEnds(t, body, groups, inner);
      ends := With(within, capture);
    case Repeat(_, count, body) =>
      if count.min == 0 && after == Blank(groups) {
        ends := groups;
      } else {
        ends := EmptyMatchEnds(t, body, groups, after);
      }
    case Possessive(count, body) =>
      if count.min == 0 && after == Blank(groups) {
        ends := groups;
      } else {
        ends := EmptyMatchEnds(t, body, groups, after);
      }
    case Atomic(body) => ends := EmptyMatchEnds(t, body, groups, after);
    case _ => ends := groups;
  }

  lemma {:induction false} EndsAreMatched(t: CharTable, items: seq<Element>, groups: set<nat>, ends: set<nat>)
    requires AssertionFree(items) && ends in Ends(items, groups)
    ensures SequenceCaptures(t, items, Blank(groups), [], Blank(ends))
    decreases items, 0
  {
    if items != [] {
      var w: Word := [];
      var middle :| middle in EndsOfElement(items[0], groups) && ends in Ends(items[1..], middle);
      assert items[0] in items;
      EndsAreMatchedElement(t, items[0], groups, middle);
      EndsAreMatched(t, items[1..], middle, ends);
      assert w[..0] == [] && w[0..] == [];
    }
  }

  lemma {:induction false} EndsAreMatchedElement(t: CharTable, e: Element, groups: set<nat>, ends: set<nat>)
    requires AssertionFreeElement(e) && ends in EndsOfElement(e, groups)
    ensures ElementCaptures(t, e, Blank(groups), [], Blank(ends))
    decreases e, 0
  {
    match e
    case Branch(alternatives) =>
      var a :| a in alternatives && ends in Ends(a.items, groups);
      var j :| 0 <= j < |alternatives| && alternatives[j] == a;
      EndsAreMatched(t, alternatives[j].items, groups, ends);
    case Group(capture, body) =>
      var within :| within in Ends(body, groups) && ends == With(within, capture);
      EndsAreMatched(t, body, groups, within);
      assert Blank(ends) == Captured(Blank(within), capture, []);
    case Repeat(_, count, body) =>
      if !(count.min == 0 && ends == groups) {
        EndsAreMatched(t, body, groups, ends);
      }
    case Possessive(count, body) =>
      if !(count.min == 0 && ends == groups) {
        EndsAreMatched(t, body, groups, ends);
      }
    case Atomic(body) => EndsAreMatched(t, body, groups, ends);
    case _ =>
  }

  // --- which patterns match empty text ---

  /** Some match of the pattern, from no captures, is empty. */
  ghost predicate MatchesEmptyText(t: CharTable, parsed: seq<Element>) {
    exists after: Captures :: SequenceCaptures(t, parsed, map[], [], after)
  }

  /** Only a pattern that could be empty if its backreferences were can match empty text. */
  lemma EmptyTextNeeds(t: CharTable, parsed: seq<Element>)
    requires MatchesEmptyText(t, parsed)
    ensures CanBeEmpty(parsed)
    ensures StructuralVerdict(t, parsed) == Accepted ==> !BackrefFreeSequence(parsed)
  {
    var after :| SequenceCaptures(t, parsed, map[], [], after);
    CapturesErase(t, parsed, map[], [], after);
    EmptyMatchCanBe(t, parsed);
    if BackrefFreeSequence(parsed) {
      NullableExact(t, parsed);
    }
  }

  /** A pattern without assertions matches empty text exactly when the computed ends of an empty match,
      from no captured group, are not empty; if it was accepted nevertheless, it has a backreference.
      For a pattern with anchors, atomic groups or possessive repeats this is the language's answer,
      which an engine's can only fall short of. */
  lemma EmptyTextExactly(t: CharTable, parsed: seq<Element>)
    requires AssertionFree(parsed)
    ensures MatchesEmptyText(t, parsed) <==> Ends(parsed, {}) != {}
    ensures StructuralVerdict(t, parsed) == Accepted && Ends(parsed, {}) != {} ==> !BackrefFreeSequence(parsed)
  {
    var none: Captures := map[];
    assert Blank({}) == none;
    if MatchesEmptyText(t, parsed) {
      var after :| SequenceCaptures(t, parsed, map[], [], after);
      var ends := EmptyMatchEnds(t, parsed, {}, after);
    }
    if Ends(parsed, {}) != {} {
      var ends :| ends in Ends(parsed, {});
      EndsAreMatched(t, parsed, {}, ends);
      EmptyTextNeeds(t, parsed);
    }
  }

  // --- patterns of one and two elements ---

  lemma EndsOfOne(e: Element, groups: set<nat>, ends: set<nat>)
    ensures ends in Ends([e], groups) <==> ends in EndsOfElement(e, groups)
  {
    assert [e][1..] == [] && Ends([], ends) == {ends};
    if ends in Ends([e], groups) {
      var middle :| middle in EndsOfElement(e, groups) && ends in Ends([], middle);
    }
  }

  lemma EndsOfTwo(e: Element, f: Element, groups: set<nat>, middle: set<nat>, ends: set<nat>)
    requires middle in EndsOfElement(e, groups) && ends in EndsOfElement(f, middle)
    ensures ends in Ends([e, f], groups)
  {
    EndsOfOne(f, middle, ends);
    assert [e, f][1..] == [f];
  }

  lemma One(e: Element)
    ensures AssertionFree([e]) <==> AssertionFreeElement(e)
    ensures CanBeEmpty([e]) <==> CanBeEmptyElement(e)
    ensures Nullable([e]) <==> NullableElement(e)
  {
    assert e in [e];
  }

  lemma NoRiskInOne(t: CharTable, e: Element)
    requires RiskOfElement(t, e).None?
    ensures FindBacktrackingRisk(t, [e]).None?
  {
    assert [e][1..] == [];
  }

  /** A reference after an element without risk. */
  lemma ReferenceIsAccepted(t: CharTable, e: Element, n: nat)
    requires RiskOfElement(t, e).None?
    ensures StructuralVerdict(t, [e, GroupRef(n)]) == Accepted
  {
    var f := GroupRef(n);
    NoRiskInOne(t, f);
    assert [e, f][1..] == [f];
    assert [e, f][1] in [e, f] && !NullableElement(f);
  }

  // --- three accepted patterns ---

  function Group1(e: Element): Element {
    Group(Some(1), [e])
  }

  function Optional(c: char): Element {
    Repeat(false, Count(0, AtMost(1)), [Literal(c)])
  }

  /** The analysis takes a backreference to consume something, so it accepts `(c?)\1`, which
      matches empty text: the group captures nothing but the empty word, and its copy repeats it. */
  lemma BackreferenceMatchesEmpty(t: CharTable, c: char)
    ensures StructuralVerdict(t, [Group1(Optional(c)), GroupRef(1)]) == Accepted
    ensures MatchesEmptyText(t, [Group1(Optional(c)), GroupRef(1)])
  {
    var group, copy := Group1(Optional(c)), GroupRef(1);
    NoRiskInOne(t, Literal(c));
    NoRiskInOne(t, Optional(c));
    ReferenceIsAccepted(t, group, 1);
    One(Literal(c));
    One(Optional(c));
    EndsOfOptionalGroup(c);
    EndsOfTwo(group, copy, {}, {1}, {1});
    EndsAreMatched(t, [group, copy], {}, {1});
    assert Blank({}) == map[];
  }

  lemma EndsOfOptionalGroup(c: char)
    ensures {1} in EndsOfElement(Group1(Optional(c)), {})
  {
    var none: set<nat> := {};
    assert none in EndsOfElement(Optional(c), none);
    EndsOfOne(Optional(c), none, none);
    assert With(none, Some(1)) == {1};
  }

  function Either(e: Element, f: Element): Element {
    Branch([Alternative([e]), Alternative([f])])
  }

  /** To be nullable but for backreferences is not enough: `(c)|\1` is accepted and never matches
      empty text, because the reference fails until the group has captured. */
  lemma UnsetNeverEmpty(t: CharTable, c: char)
    ensures StructuralVerdict(t, [Either(Group1(Literal(c)), GroupRef(1))]) == Accepted
    ensures CanBeEmpty([Either(Group1(Literal(c)), GroupRef(1))])
    ensures !MatchesEmptyText(t, [Either(Group1(Literal(c)), GroupRef(1))])
  {
    var group, copy := Group1(Literal(c)), GroupRef(1);
    One(Literal(c));
    NoRiskInOne(t, Literal(c));
    EitherIsAccepted(t, group, copy);
    One(group);
    One(copy);
    One(Either(group, copy));
    assert Alternative([copy]) in Either(group, copy).alternatives;
    assert AssertionFreeElement(group) && AssertionFreeElement(copy) && AssertionFreeElement(Either(group, copy));
    if MatchesEmptyText(t, [Either(group, copy)]) {
      EmptyTextExactly(t, [Either(group, copy)]);
      var ends :| ends in Ends([Either(group, copy)], {});
      EndsOfOne(Either(group, copy), {}, ends);
      EndsOfEither(group, copy, {}, ends);
      EndsOfGroup(Literal(c), {}, ends);
    }
  }

  lemma EitherIsAccepted(t: CharTable, e: Element, f: Element)
    requires RiskOfElement(t, e).None? && RiskOfElement(t, f).None? && !NullableElement(e) && !NullableElement(f)
    ensures StructuralVerdict(t, [Either(e, f)]) == Accepted
  {
    var first, second := Alternative([e]), Alternative([f]);
    NoRiskInOne(t, e);
    NoRiskInOne(t, f);
    One(e);
    One(f);
    assert [first, second][1..] == [second] && [second][1..] == [];
    assert RiskOfAny(t, [second]).None?;
    NoRiskInOne(t, Either(e, f));
    One(Either(e, f));
  }

  lemma EndsOfEither(e: Element, f: Element, groups: set<nat>, ends: set<nat>)
    requires ends in EndsOfElement(Either(e, f), groups)
    ensures ends in EndsOfElement(e, groups) || ends in EndsOfElement(f, groups)
  {
    var a :| a in Either(e, f).alternatives && ends in Ends(a.items, groups);
    EndsOfOne(e, groups, ends);
    EndsOfOne(f, groups, ends);
  }

  lemma EndsOfGroup(e: Element, groups: set<nat>, ends: set<nat>)
    requires ends in EndsOfElement(Group1(e), groups)
    ensures exists within :: within in EndsOfElement(e, groups)
  {
    var within :| within in Ends([e], groups) && ends == With(within, Some(1));
    EndsOfOne(e, groups, within);
  }

  /** Nor does `(?=(c))\1`: the reference repeats the character that the assertion has captured. */
  lemma SeenNeverEmpty(t: CharTable, c: char)
    ensures StructuralVerdict(t, [Assert(false, [Group1(Literal(c))]), GroupRef(1)]) == Accepted
    ensures CanBeEmpty([Assert(false, [Group1(Literal(c))]), GroupRef(1)])
    ensures !MatchesEmptyText(t, [Assert(false, [Group1(Literal(c))]), GroupRef(1)])
  {
    var assertion := Assert(false, [Group1(Literal(c))]);
    NoRiskInOne(t, Literal(c));
    NoRiskInOne(t, Group1(Literal(c)));
    ReferenceIsAccepted(t, assertion, 1);
    if MatchesEmptyText(t, [assertion, GroupRef(1)]) {
      var after: Captures :| SequenceCaptures(t, [assertion, GroupRef(1)], map[], [], after);
      SeenIsLong(t, c, map[], [], after);
    }
  }

  lemma SeenIsLong(t: CharTable, c: char, before: Captures, w: Word, after: Captures)
    requires SequenceCaptures(t, [Assert(false, [Group1(Literal(c))]), GroupRef(1)], before, w, after)
    ensures w != []
  {
    var assertion, reference := Assert(false, [Group1(Literal(c))]), GroupRef(1);
    assert [assertion, reference][1..] == [reference];
    var i, middle :| 0 <= i <= |w| && ElementCaptures(t, assertion, before, w[..i], middle)
      && SequenceCaptures(t, [reference], middle, w[i..], after);
    var ahead := LookedAhead(t, [Group1(Literal(c))], before, w[..i], middle);
    GroupCaptures(t, c, before, ahead, middle);
    ReferenceRepeats(t, 1, middle, w[i..], after);
  }

  lemma LookedAhead(t: CharTable, body: seq<Element>, before: Captures, w: Word, after: Captures) returns (ahead: Word)
    requires ElementCaptures(t, Assert(false, body), before, w, after)
    ensures SequenceCaptures(t, body, before, ahead, after)
  {
    ahead :| SequenceCaptures(t, body, before, ahead, after);
  }

  lemma OneCaptures(t: CharTable, e: Element, before: Captures, w: Word, after: Captures)
    requires SequenceCaptures(t, [e], before, w, after)
    ensures ElementCaptures(t, e, before, w, after)
  {
    assert [e][1..] == [];
    var i, middle :| 0 <= i <= |w| && ElementCaptures(t, e, before, w[..i], middle)
      && SequenceCaptures(t, [], middle, w[i..], after);
    assert w == w[..i] + w[i..] && w[..i] == w;
  }

  lemma GroupCaptures(t: CharTable, c: char, before: Captures, w: Word, after: Captures)
    requires SequenceCaptures(t, [Group1(Literal(c))], before, w, after)
    ensures 1 in after && after[1] == [c]
  {
    OneCaptures(t, Group1(Literal(c)), before, w, after);
    GroupKeeps(t, [Literal(c)], 1, before, w, after);
    var inner :| SequenceCaptures(t, [Literal(c)], before, w, inner);
    OneCaptures(t, Literal(c), before, w, inner);
  }

  lemma GroupKeeps(t: CharTable, body: seq<Element>, n: nat, before: Captures, w: Word, after: Captures)
    requires ElementCaptures(t, Group(Some(n), body), before, w, after)
    ensures n in after && after[n] == w
    ensures exists inner :: SequenceCaptures(t, body, before, w, inner)
  {
    var inner :| SequenceCaptures(t, body, before, w, inner) && after == Captured(inner, Some(n), w);
  }

  lemma ReferenceRepeats(t: CharTable, n: nat, before: Captures, w: Word, after: Captures)
    requires SequenceCaptures(t, [GroupRef(n)], before, w, after)
    ensures n in before && w == before[n]
  {
    OneCaptures(t, GroupRef(n), before, w, after);
  }
}
