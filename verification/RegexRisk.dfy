/** What acceptance by the backtracking search means: which repeats it has looked at, and what it
    guarantees about cutting a word into iterations of a repeated group. */
module RegexRisk {
  import opened CharSets
  import opened RegexTree
  import opened RegexAnalysis
  import opened RegexSoundness

  /** The search over `items` comes to `e`: it never looks inside an atomic group or a possessive
      repeat. */
  ghost predicate Visits(items: seq<Element>, e: Element)
    decreases items, 0
  {
    exists x | x in items :: x == e || VisitsInside(x, e)
  }

  ghost predicate VisitsInside(x: Element, e: Element)
    decreases x, 0
  {
    && !x.Atomic?
    && !x.Possessive?
    && ((x.Branch? && exists a | a in x.alternatives :: Visits(a.items, e)) || (x.HasBody() && Visits(x.body, e)))
  }

  predicate WideRepeat(e: Element) {
    e.Repeat? && IsWide(e.count.max)
  }

  ghost predicate RiskFreeBody(t: CharTable, e: Element)
    requires e.Repeat?
  {
    RiskInRepeatedBody(t, UnwrapGroup(e.body)).None?
  }

  /** The search accepts exactly when every wide repeat it visits has a risk-free body. */
  lemma {:induction false} SearchExact(t: CharTable, items: seq<Element>)
    ensures FindBacktrackingRisk(t, items).None? <==>
            forall e | Visits(items, e) && WideRepeat(e) :: RiskFreeBody(t, e)
    decreases items, 0
  {
    if items != [] {
      var x, rest := items[0], items[1..];
      assert items == [x] + rest;
      SearchExactElement(t, x);
      SearchExact(t, rest);
      forall e ensures Visits(items, e) <==> x == e || VisitsInside(x, e) || Visits(rest, e) {
        VisitsSplit(items, e);
      }
    }
  }

  lemma VisitsSplit(items: seq<Element>, e: Element)
    requires items != []
    ensures Visits(items, e) <==> items[0] == e || VisitsInside(items[0], e) || Visits(items[1..], e)
  {
    var x, rest := items[0], items[1..];
    assert items == [x] + rest;
    if Visits(items, e) {
      var y :| y in items && (y == e || VisitsInside(y, e));
      assert y == x || y in rest;
    }
    if x == e || VisitsInside(x, e) {
      assert x in items;
    }
    if Visits(rest, e) {
      var y :| y in rest && (y == e || VisitsInside(y, e));
      assert y in items;
    }
  }

  lemma {:induction false} SearchExactElement(t: CharTable, x: Element)
    ensures RiskOfElement(t, x).None? <==>
            forall e | (x == e || VisitsInside(x, e)) && WideRepeat(e) :: RiskFreeBody(t, e)
    decreases x, 0
  {
    if x.Branch? {
      SearchExactAny(t, x.alternatives);
    } else if x.HasBody() && !x.Atomic? && !x.Possessive? {
      SearchExact(t, x.body);
      assert forall e :: VisitsInside(x, e) <==> Visits(x.body, e);
      if WideRepeat(x) {
        assert RiskOfElement(t, x).None? <==> RiskFreeBody(t, x) && FindBacktrackingRisk(t, x.body).None?;
      }
    }
  }

  lemma {:induction false} SearchExactAny(t: CharTable, alternatives: seq<Alternative>)
    ensures RiskOfAny(t, alternatives).None? <==>
            forall a, e | a in alternatives && Visits(a.items, e) && WideRepeat(e) :: RiskFreeBody(t, e)
    decreases alternatives, 0
  {
    if alternatives != [] {
      SearchExact(t, alternatives[0].items);
      SearchExactAny(t, alternatives[1..]);
      assert alternatives == [alternatives[0]] + alternatives[1..];
    }
  }

  lemma {:induction false} VisitsTransitive(items: seq<Element>, x: Element, e: Element)
    requires Visits(items, x) && VisitsInside(x, e)
    ensures Visits(items, e)
    decreases items, 0
  {
    var y :| y in items && (y == x || VisitsInside(y, x));
    if y != x {
      VisitsInsideTransitive(y, x, e);
    }
  }

  lemma {:induction false} VisitsInsideTransitive(y: Element, x: Element, e: Element)
    requires VisitsInside(y, x) && VisitsInside(x, e)
    ensures VisitsInside(y, e)
    decreases y, 0
  {
    if y.Branch? {
      var a :| a in y.alternatives && Visits(a.items, x);
      VisitsTransitive(a.items, x, e);
    } else {
      VisitsTransitive(y.body, x, e);
    }
  }

  /** Acceptance is inherited by every sub-sequence the search visits. */
  lemma AcceptanceInherited(t: CharTable, items: seq<Element>, x: Element, sub: seq<Element>)
    requires FindBacktrackingRisk(t, items).None? && Visits(items, x) && !x.Atomic? && !x.Possessive?
    requires (x.HasBody() && sub == x.body) || (x.Branch? && Alternative(sub) in x.alternatives)
    ensures FindBacktrackingRisk(t, sub).None?
  {
    SearchExact(t, items);
    SearchExact(t, sub);
    forall e | Visits(sub, e) && WideRepeat(e) ensures RiskFreeBody(t, e) {
      if x.Branch? {
        assert Visits(Alternative(sub).items, e);
      }
      assert VisitsInside(x, e);
      VisitsTransitive(items, x, e);
    }
  }

  /** Unwrapping a group does not change the language. */
  lemma {:induction false} UnwrapKeepsLanguage(t: CharTable, items: seq<Element>, w: Word)
    ensures MatchesSequence(t, UnwrapGroup(items), w) <==> MatchesSequence(t, items, w)
    decreases items
  {
    if |items| == 1 && items[0].Group? {
      UnwrapKeepsLanguage(t, items[0].body, w);
      SingletonSequence(t, items[0], w);
      assert items == [items[0]];
    }
  }

  lemma SingletonSequence(t: CharTable, e: Element, w: Word)
    ensures MatchesSequence(t, [e], w) <==> MatchesElement(t, e, w)
  {
    var items := [e];
    assert items[1..] == [];
    assert w[..|w|] == w && w[|w|..] == [];
    if MatchesSequence(t, items, w) {
      var i :| 0 <= i <= |w| && MatchesElement(t, items[0], w[..i]) && MatchesSequence(t, items[1..], w[i..]);
      assert w[i..] == [];
    }
  }

  lemma {:induction false} UnwrapKeepsIterations(t: CharTable, items: seq<Element>, k: nat, w: Word)
    requires MatchesTimes(t, items, k, w)
    ensures MatchesTimes(t, UnwrapGroup(items), k, w)
  {
    if k > 0 {
      var i :| 0 <= i <= |w| && MatchesSequence(t, items, w[..i]) && MatchesTimes(t, items, k - 1, w[i..]);
      UnwrapKeepsLanguage(t, items, w[..i]);
      UnwrapKeepsIterations(t, items, k - 1, w[i..]);
    }
  }

  // --- what one accepted body guarantees ---

  lemma {:induction false} RiskFromNone(t: CharTable, body: seq<Element>, start: nat, index: nat)
    requires start <= index < |body| && RiskFrom(t, body, start).None?
    ensures RiskAt(t, body, index).None?
    decreases index - start
  {
    if start < index {
      RiskFromNone(t, body, start + 1, index);
    }
  }

  /** An accepted repeat has a body that cannot be empty, no overlapping alternatives, and a
      separator for each part that holds a backtracking quantifier. */
  lemma AcceptedBody(t: CharTable, items: seq<Element>, r: Element, index: nat)
    requires FindBacktrackingRisk(t, items).None? && Visits(items, r) && WideRepeat(r)
    requires index < |UnwrapGroup(r.body)|
    ensures RiskAt(t, UnwrapGroup(r.body), index).None?
    ensures !Nullable(UnwrapGroup(r.body))
  {
    SearchExact(t, items);
    assert RiskFreeBody(t, r);
    RiskFromNone(t, UnwrapGroup(r.body), 0, index);
  }

  // --- separators ---

  lemma {:induction false} FirstWithinConsumed(items: seq<Element>)
    ensures First(items).universal ==> Consumed(items).universal
    decreases items, 0
  {
    if items != [] {
      FirstWithinConsumedElement(items[0]);
      FirstWithinConsumed(items[1..]);
    }
  }

  lemma {:induction false} FirstWithinConsumedElement(e: Element)
    ensures FirstOfElement(e).universal ==> ConsumedByElement(e).universal
    decreases e, 0
  {
    if e.Branch? {
      FirstWithinConsumedAny(e.alternatives);
    } else if e.HasBody() {
      FirstWithinConsumed(e.body);
    }
  }

  lemma {:induction false} FirstWithinConsumedAny(alternatives: seq<Alternative>)
    ensures FirstOfAny(alternatives).universal ==> ConsumedByAny(alternatives).universal
    decreases alternatives, 0
  {
    if alternatives != [] {
      FirstWithinConsumed(alternatives[0].items);
      FirstWithinConsumedAny(alternatives[1..]);
    }
  }

  /** A part that is not nullable and not universal has no empty word, backreferences or not. */
  lemma SolidPart(t: CharTable, e: Element, w: Word)
    requires !NullableElement(e) && !ConsumedByElement(e).universal && MatchesElement(t, e, w)
    ensures w != []
  {
    if w == [] {
      EmptyMatchSeenElement(t, e);
      FirstWithinConsumedElement(e);
    }
  }

  /** A separator's words are non-empty and share no character with the set it separates. */
  lemma SeparatorWord(t: CharTable, o: Element, inner: CharSet, w: Word)
    requires Separates(t, o, inner) && MatchesElement(t, o, w)
    ensures w != []
    ensures forall c | c in w :: !inner.Denotes(t, c)
  {
    ConsumedIsByElement(o);
    SolidPart(t, o, w);
    ConsumedCoversElement(t, o, w);
    OverlapsExact(t, ConsumedByElement(o), inner);
  }

  lemma ConsumedIsByElement(e: Element)
    ensures Consumed([e]) == ConsumedByElement(e)
  {
    assert [e][1..] == [];
    assert Consumed([e]) == ConsumedByElement(e).Union(NOTHING);
  }

  ghost function CountOutside(t: CharTable, s: CharSet, w: Word): nat {
    if w == [] then 0 else (if s.Denotes(t, w[0]) then 0 else 1) + CountOutside(t, s, w[1..])
  }

  lemma {:induction false} CountOutsideAdds(t: CharTable, s: CharSet, u: Word, v: Word)
    ensures CountOutside(t, s, u + v) == CountOutside(t, s, u) + CountOutside(t, s, v)
  {
    if u == [] {
      assert u + v == v;
    } else {
      assert (u + v)[1..] == u[1..] + v;
      CountOutsideAdds(t, s, u[1..], v);
    }
  }

  lemma {:induction false} CountOutsideNone(t: CharTable, s: CharSet, w: Word)
    requires DenotesAll(t, s, w)
    ensures CountOutside(t, s, w) == 0
  {
    if w != [] {
      assert w[0] in w;
      assert forall c | c in w[1..] :: c in w;
      CountOutsideNone(t, s, w[1..]);
    }
  }

  /** Every word of a sequence holds a word of each of its elements, so a separator in the
      sequence puts a character outside the separated set into it. */
  lemma {:induction false} SequenceHoldsSeparator(t: CharTable, items: seq<Element>, o: Element, inner: CharSet,
                                                  w: Word)
    requires o in items && Separates(t, o, inner) && MatchesSequence(t, items, w)
    ensures CountOutside(t, inner, w) >= 1
  {
    var i :| 0 <= i <= |w| && MatchesElement(t, items[0], w[..i]) && MatchesSequence(t, items[1..], w[i..]);
    assert w == w[..i] + w[i..];
    CountOutsideAdds(t, inner, w[..i], w[i..]);
    if items[0] == o {
      SeparatorWord(t, o, inner, w[..i]);
      assert w[..i][0] in w[..i];
    } else {
      SequenceHoldsSeparator(t, items[1..], o, inner, w[i..]);
    }
  }

  lemma {:induction false} IterationsHoldSeparators(t: CharTable, body: seq<Element>, o: Element, inner: CharSet,
                                                    k: nat, w: Word)
    requires o in body && Separates(t, o, inner) && MatchesTimes(t, body, k, w)
    ensures CountOutside(t, inner, w) >= k
  {
    if k > 0 {
      var i :| 0 <= i <= |w| && MatchesSequence(t, body, w[..i]) && MatchesTimes(t, body, k - 1, w[i..]);
      assert w == w[..i] + w[i..];
      CountOutsideAdds(t, inner, w[..i], w[i..]);
      SequenceHoldsSeparator(t, body, o, inner, w[..i]);
      IterationsHoldSeparators(t, body, o, inner, k - 1, w[i..]);
    }
  }

  /** In an accepted pattern, `k` iterations of a wide repeat hold at least `k` characters that a
      part with a backtracking quantifier cannot consume. */
  lemma SeparatorBound(t: CharTable, items: seq<Element>, r: Element, index: nat, k: nat, w: Word)
    requires FindBacktrackingRisk(t, items).None? && Visits(items, r) && WideRepeat(r)
    requires index < |UnwrapGroup(r.body)| && HasBacktrackingRepeat(UnwrapGroup(r.body)[index])
    requires MatchesTimes(t, r.body, k, w)
    ensures CountOutside(t, ConsumedByElement(UnwrapGroup(r.body)[index]), w) >= k
  {
    var body := UnwrapGroup(r.body);
    var inner := ConsumedByElement(body[index]);
    AcceptedBody(t, items, r, index);
    var o :| o in body[..index] + body[index + 1..] && Separates(t, o, inner);
    UnwrapKeepsIterations(t, r.body, k, w);
    IterationsHoldSeparators(t, body, o, inner, k, w);
  }

  /** So a run of characters that such a part could eat contains no whole iteration. */
  lemma NoIterationInsideARun(t: CharTable, items: seq<Element>, r: Element, index: nat, k: nat, w: Word)
    requires FindBacktrackingRisk(t, items).None? && Visits(items, r) && WideRepeat(r)
    requires index < |UnwrapGroup(r.body)| && HasBacktrackingRepeat(UnwrapGroup(r.body)[index])
    requires MatchesTimes(t, r.body, k, w)
    requires DenotesAll(t, ConsumedByElement(UnwrapGroup(r.body)[index]), w)
    ensures k == 0
  {
    SeparatorBound(t, items, r, index, k, w);
    CountOutsideNone(t, ConsumedByElement(UnwrapGroup(r.body)[index]), w);
  }
}
