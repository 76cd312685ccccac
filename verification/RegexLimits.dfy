/** Where the structural analysis stops short of what its documentation says: concrete patterns
    it accepts, and what a reported risk does prove. */
module RegexLimits {
  import opened Strings
  import opened Wrappers
  import opened CharSets
  import opened RegexTree
  import opened RegexAnalysis
  import opened RegexSoundness
  import opened RegexRisk
  import opened RegexParses

  // --- bodies the search accepts although they can be cut in two ways ---

  function Plus(c: char): Element {
    Repeat(false, Count(1, Unbounded), [Literal(c)])
  }

  /** `(?:c+dc+)+`. */
  function ThreeParts(c: char, d: char): Element {
    Repeat(false, Count(1, Unbounded), [Plus(c), Literal(d), Plus(c)])
  }

  lemma {:induction false} RunOf(t: CharTable, c: char, w: Word)
    requires forall x | x in w :: x == c
    ensures MatchesTimes(t, [Literal(c)], |w|, w)
  {
    if w != [] {
      assert w[0] in w && w[..1] == [c];
      SingletonSequence(t, Literal(c), w[..1]);
      assert forall x | x in w[1..] :: x in w;
      RunOf(t, c, w[1..]);
    }
  }

  lemma PlusMatches(t: CharTable, c: char, w: Word)
    requires |w| >= 1 && forall x | x in w :: x == c
    ensures MatchesElement(t, Plus(c), w)
  {
    RunOf(t, c, w);
    assert WithinCount(|w|, Plus(c).count);
  }

  /** Each part of `c+dc+` has `d` as its separator, so the search accepts the repeat; yet the
      text "cdcccdc" has two parses. */
  lemma AcceptedButAmbiguous(t: CharTable, c: char, d: char) returns (a: seq<Cut>, b: seq<Cut>)
    requires c != d
    ensures FindBacktrackingRisk(t, [ThreeParts(c, d)]).None?
    ensures IsParse(t, ThreeParts(c, d).body, a) && IsParse(t, ThreeParts(c, d).body, b)
    ensures Text(a) == Text(b) == [c, d, c, c, c, d, c] && a != b
  {
    ThreePartsAccepted(t, c, d);
    var one, two, sep := [c], [c, c], [d];
    CutOfThree(t, c, d, one, one);
    CutOfThree(t, c, d, two, one);
    CutOfThree(t, c, d, one, two);
    a, b := [[one, sep, one], [two, sep, one]], [[one, sep, two], [one, sep, one]];
    TextOfTwo(a[0], a[1]);
    TextOfTwo(b[0], b[1]);
    SameText(c, d);
    assert a[0][2] == one && b[0][2] == two;
  }

  lemma SameText(c: char, d: char)
    ensures [c] + [d] + [c] + ([c, c] + [d] + [c]) == [c, d, c, c, c, d, c]
    ensures [c] + [d] + [c, c] + ([c] + [d] + [c]) == [c, d, c, c, c, d, c]
  {
  }

  lemma CutOfThree(t: CharTable, c: char, d: char, x: Word, y: Word)
    requires |x| >= 1 && forall k | k in x :: k == c
    requires |y| >= 1 && forall k | k in y :: k == c
    ensures IsCut(t, ThreeParts(c, d).body, [x, [d], y])
  {
    PlusMatches(t, c, x);
    PlusMatches(t, c, y);
  }

  lemma TextOfTwo(c: Cut, d: Cut)
    requires |c| == 3 && |d| == 3
    ensures Text([c, d]) == c[0] + c[1] + c[2] + (d[0] + d[1] + d[2])
  {
    JoinedTriple(c);
    JoinedTriple(d);
    assert [c, d][1..] == [d] && [d][1..] == [];
    assert Text([d]) == Joined(d) + [];
  }

  lemma JoinedTriple(c: Cut)
    requires |c| == 3
    ensures Joined(c) == c[0] + c[1] + c[2]
  {
    assert c[1..] == [c[1], c[2]];
    JoinedPair(c[1..]);
    Regroup(c[0], c[1], c[2]);
  }

  lemma RiskOfOne(t: CharTable, e: Element)
    ensures FindBacktrackingRisk(t, [e]) == RiskOfElement(t, e)
  {
    assert [e][1..] == [];
  }

  lemma PlusAccepted(t: CharTable, c: char)
    ensures RiskOfElement(t, Plus(c)).None?
    ensures ConsumedByElement(Plus(c)) == CharSet({c}, {}, false)
  {
    var body := [Literal(c)];
    ConsumedIsByElement(Literal(c));
    assert UnwrapGroup(body) == body;
    assert body[0] in body && !NullableElement(body[0]);
    assert RiskAt(t, body, 0).None? && RiskFrom(t, body, 1).None?;
    assert RiskInRepeatedBody(t, body).None?;
    RiskOfOne(t, Literal(c));
  }

  lemma ThreePartsAccepted(t: CharTable, c: char, d: char)
    requires c != d
    ensures FindBacktrackingRisk(t, [ThreeParts(c, d)]).None?
  {
    var e := ThreeParts(c, d);
    var body := e.body;
    ThreePartsSafe(t, c, d);
    assert body[1] in body && !NullableElement(body[1]);
    assert RiskInRepeatedBody(t, body).None?;
    assert UnwrapGroup(body) == body;
    PlusAccepted(t, c);
    NoRiskInParts(t, body);
    RiskOfOne(t, e);
  }

  lemma ThreePartsSafe(t: CharTable, c: char, d: char)
    requires c != d
    ensures RiskFrom(t, ThreeParts(c, d).body, 0).None?
  {
    var body, b := ThreeParts(c, d).body, Literal(d);
    PlusAccepted(t, c);
    ConsumedIsByElement(b);
    assert Separates(t, b, ConsumedByElement(Plus(c)));
    assert (body[..0] + body[1..])[0] == b && (body[..2] + body[3..])[1] == b;
    assert RiskAt(t, body, 0).None?;
    assert RiskAt(t, body, 1).None?;
    assert RiskAt(t, body, 2).None?;
    NoRiskAnywhere(t, body, 0);
  }

  lemma {:induction false} NoRiskAnywhere(t: CharTable, body: seq<Element>, start: nat)
    requires start <= |body| && forall i | start <= i < |body| :: RiskAt(t, body, i).None?
    ensures RiskFrom(t, body, start).None?
    decreases |body| - start
  {
    if start < |body| {
      NoRiskAnywhere(t, body, start + 1);
    }
  }

  lemma {:induction false} NoRiskInParts(t: CharTable, items: seq<Element>)
    requires forall e | e in items :: RiskOfElement(t, e).None?
    ensures FindBacktrackingRisk(t, items).None?
  {
    if items != [] {
      NoRiskInParts(t, items[1..]);
    }
  }

  // --- what a reported risk proves ---

  /** A reported risk is the risk of the body of some wide repeat the search visits. */
  lemma {:induction false} RiskHasACause(t: CharTable, items: seq<Element>) returns (e: Element)
    requires FindBacktrackingRisk(t, items).Some?
    ensures Visits(items, e) && WideRepeat(e)
    ensures RiskInRepeatedBody(t, UnwrapGroup(e.body)) == FindBacktrackingRisk(t, items)
    decreases items, 0
  {
    if RiskOfElement(t, items[0]).Some? {
      e := RiskHasACauseElement(t, items[0]);
      assert items[0] in items;
    } else {
      e := RiskHasACause(t, items[1..]);
      var y :| y in items[1..] && (y == e || VisitsInside(y, e));
      assert y in items;
    }
  }

  lemma {:induction false} RiskHasACauseElement(t: CharTable, x: Element) returns (e: Element)
    requires RiskOfElement(t, x).Some?
    ensures (x == e || VisitsInside(x, e)) && WideRepeat(e)
    ensures RiskInRepeatedBody(t, UnwrapGroup(e.body)) == RiskOfElement(t, x)
    decreases x, 0
  {
    if WideRepeat(x) && !RiskFreeBody(t, x) {
      e := x;
    } else if x.Branch? {
      var a;
      e, a := RiskHasACauseAny(t, x.alternatives);
    } else {
      e := RiskHasACause(t, x.body);
    }
  }

  lemma {:induction false} RiskHasACauseAny(t: CharTable, alternatives: seq<Alternative>)
    returns (e: Element, a: Alternative)
    requires RiskOfAny(t, alternatives).Some?
    ensures a in alternatives && Visits(a.items, e) && WideRepeat(e)
    ensures RiskInRepeatedBody(t, UnwrapGroup(e.body)) == RiskOfAny(t, alternatives)
    decreases alternatives, 0
  {
    if FindBacktrackingRisk(t, alternatives[0].items).Some? {
      e := RiskHasACause(t, alternatives[0].items);
      a := alternatives[0];
    } else {
      e, a := RiskHasACauseAny(t, alternatives[1..]);
    }
  }

  /** An empty-iteration risk is real: the empty text is any number of iterations. */
  lemma EmptyIterationIsReal(t: CharTable, items: seq<Element>, e: Element, k: nat)
    requires WideRepeat(e) && RiskInRepeatedBody(t, UnwrapGroup(e.body)) == Some(EmptyIteration)
    ensures MatchesTimes(t, e.body, k, [])
  {
    EmptyIterationOnly(t, UnwrapGroup(e.body), 0);
    NullableMatchesEmpty(t, UnwrapGroup(e.body));
    UnwrapKeepsLanguage(t, e.body, []);
    EmptyTimes(t, e.body, k);
  }

  lemma {:induction false} EmptyIterationOnly(t: CharTable, body: seq<Element>, index: nat)
    requires index <= |body|
    ensures RiskFrom(t, body, index) != Some(EmptyIteration)
    decreases |body| - index
  {
    if index < |body| {
      EmptyIterationOnly(t, body, index + 1);
    }
  }
}
