/** Where the structural analysis is exact (backend/processing/regex_safety.py, lines 173-324): the
    nested quantifiers it finds, and, for elements whose character sets are not approximated, the sets
    themselves and what is decided from them. */
module RegexPrecision {
  import opened CharSets
  import opened RegexTree
  import opened RegexAnalysis
  import opened RegexSoundness
  import opened RegexRisk
  import opened Wrappers

  // --- nested quantifiers ---

  /** A repeat that the engine can backtrack into: it allows more than one iteration. */
  ghost predicate IteratesTwice(r: Element) {
    r.Repeat? && exists k: nat :: k > 1 && WithinCount(k, r.count)
  }

  /** The search comes to `r` when it starts at `e`. */
  ghost predicate Holds(e: Element, r: Element) {
    r == e || VisitsInside(e, r)
  }

  lemma TwiceByMaximum(count: Count)
    ensures (exists k: nat :: k > 1 && WithinCount(k, count)) <==> count.max.Unbounded? || count.max.n > 1
  {
    if count.max.Unbounded? {
      assert WithinCount(count.min + 2, count);
    } else if count.max.n > 1 {
      assert WithinCount(count.max.n, count);
    }
  }

  /** A part holds a backtracking repeat exactly when some repeat of more than one iteration can be
      reached in it without passing through an atomic group or a possessive repeat. */
  lemma {:induction false} NestedExactly(e: Element)
    ensures HasBacktrackingRepeat(e) <==> exists r :: Holds(e, r) && IteratesTwice(r)
    decreases e, 0
  {
    if e.Repeat? {
      TwiceByMaximum(e.count);
    }
    if IteratesTwice(e) {
      assert Holds(e, e) && HasBacktrackingRepeat(e);
    } else if e.Atomic? || e.Possessive? {
    } else if e.Branch? {
      NestedInBranch(e);
    } else if e.HasBody() {
      NestedInBody(e.body);
      assert forall r :: Holds(e, r) <==> r == e || Visits(e.body, r);
    } else {
      assert forall r :: Holds(e, r) <==> r == e;
    }
  }

  lemma {:induction false} NestedInBody(items: seq<Element>)
    ensures HasBacktrackingRepeatIn(items) <==> exists r :: Visits(items, r) && IteratesTwice(r)
    decreases items, 0
  {
    if HasBacktrackingRepeatIn(items) {
      var x :| x in items && HasBacktrackingRepeat(x);
      NestedExactly(x);
      var r :| Holds(x, r) && IteratesTwice(r);
      assert Visits(items, r);
    }
    if r :| Visits(items, r) && IteratesTwice(r) {
      var x :| x in items && (x == r || VisitsInside(x, r));
      NestedExactly(x);
      assert Holds(x, r);
    }
  }

  lemma {:induction false} NestedInBranch(e: Element)
    requires e.Branch?
    ensures HasBacktrackingRepeat(e) <==> exists r :: Holds(e, r) && IteratesTwice(r)
    decreases e, 0, 0
  {
    if HasBacktrackingRepeat(e) {
      var a :| a in e.alternatives && HasBacktrackingRepeatIn(a.items);
      NestedInBody(a.items);
      var r :| Visits(a.items, r) && IteratesTwice(r);
      assert Holds(e, r);
    }
    if r :| Holds(e, r) && IteratesTwice(r) {
      var a :| a in e.alternatives && Visits(a.items, r);
      NestedInBody(a.items);
    }
  }

  // --- what is refused ---

  /** Another part of the body separates this one from the next iteration. */
  predicate SeparatedAt(t: CharTable, body: seq<Element>, i: nat)
    requires i < |body|
  {
    exists j | 0 <= j < |body| && j != i :: Separates(t, body[j], ConsumedByElement(body[i]))
  }

  ghost predicate SafePart(t: CharTable, body: seq<Element>, i: nat)
    requires i < |body|
  {
    && NoOverlapAt(t, body[i])
    && (NestedAt(body, i) ==> SeparatedAt(t, body, i))
  }

  predicate NoOverlapAt(t: CharTable, e: Element) {
    e.Branch? ==> !BranchesOverlap(t, e.alternatives)
  }

  lemma OthersAt(t: CharTable, body: seq<Element>, i: nat, inner: CharSet)
    requires i < |body|
    ensures (exists o | o in body[..i] + body[i + 1..] :: Separates(t, o, inner)) <==>
            exists j | 0 <= j < |body| && j != i :: Separates(t, body[j], inner)
  {
    var others := body[..i] + body[i + 1..];
    if o :| o in others && Separates(t, o, inner) {
      var k :| 0 <= k < |others| && others[k] == o;
      var j := if k < i then k else k + 1;
      assert body[j] == o && j != i;
    }
    if j :| 0 <= j < |body| && j != i && Separates(t, body[j], inner) {
      assert others[if j < i then j else j - 1] == body[j];
      assert body[j] in others;
    }
  }

  lemma SafePartExactly(t: CharTable, body: seq<Element>, i: nat)
    requires i < |body|
    ensures RiskAt(t, body, i).None? <==> SafePart(t, body, i)
  {
    NestedExactly(body[i]);
    OthersAt(t, body, i, ConsumedByElement(body[i]));
  }

  lemma {:induction false} SafeFromExactly(t: CharTable, body: seq<Element>, from: nat)
    requires from <= |body|
    ensures RiskFrom(t, body, from).None? <==> forall i | from <= i < |body| :: SafePart(t, body, i)
    decreases |body| - from
  {
    if from < |body| {
      SafePartExactly(t, body, from);
      SafeFromExactly(t, body, from + 1);
    }
  }

  lemma {:induction false} RiskFromNamed(t: CharTable, body: seq<Element>, from: nat)
    requires from <= |body|
    ensures RiskFrom(t, body, from) != Some(EmptyIteration)
    ensures RiskFrom(t, body, from) == Some(OverlappingAlternatives) ==>
              exists i | 0 <= i < |body| :: !NoOverlapAt(t, body[i])
    ensures RiskFrom(t, body, from) == Some(UnseparatedQuantifier) ==>
              exists i | 0 <= i < |body| :: NestedAt(body, i) && !SeparatedAt(t, body, i)
    decreases |body| - from
  {
    if from < |body| {
      SafePartExactly(t, body, from);
      NestedExactly(body[from]);
      OthersAt(t, body, from, ConsumedByElement(body[from]));
      assert RiskAt(t, body, from) == Some(UnseparatedQuantifier) ==> NestedAt(body, from);
      RiskFromNamed(t, body, from + 1);
    }
  }

  ghost predicate NestedAt(body: seq<Element>, i: nat)
    requires i < |body|
  {
    exists r :: Holds(body[i], r) && IteratesTwice(r)
  }

  /** The reported risk is the one that is there. */
  lemma RiskNamed(t: CharTable, body: seq<Element>)
    ensures RiskInRepeatedBody(t, body) == Some(EmptyIteration) <==> Nullable(body)
    ensures RiskInRepeatedBody(t, body) == Some(OverlappingAlternatives) ==>
              exists i | 0 <= i < |body| :: !NoOverlapAt(t, body[i])
    ensures RiskInRepeatedBody(t, body) == Some(UnseparatedQuantifier) ==>
              exists i | 0 <= i < |body| :: NestedAt(body, i) && !SeparatedAt(t, body, i)
  {
    RiskFromNamed(t, body, 0);
  }

  /** A repeat of more than `WIDE_REPEAT_THRESHOLD` iterations. */
  ghost predicate IteratesWidely(r: Element) {
    r.Repeat? && exists k: nat :: k > 10 && WithinCount(k, r.count)
  }

  lemma WideExactly(r: Element)
    ensures WideRepeat(r) <==> IteratesWidely(r)
  {
    if r.Repeat? {
      if r.count.max.Unbounded? {
        assert WithinCount(r.count.min + 11, r.count);
      } else if r.count.max.n > 10 {
        assert WithinCount(r.count.max.n, r.count);
      }
    }
  }

  ghost predicate SafeBody(t: CharTable, body: seq<Element>) {
    !Nullable(body) && forall i | 0 <= i < |body| :: SafePart(t, body, i)
  }

  /** The structural checks accept a pattern exactly when it is not nullable and, in every reachable
      repeat of more than ten iterations, the unwrapped body is not nullable, no branch overlaps, and
      each part that holds a backtracking repeat is separated by another part. */
  lemma AcceptedExactly(t: CharTable, parsed: seq<Element>)
    ensures StructuralVerdict(t, parsed) == Accepted <==>
            !Nullable(parsed) && forall e | Visits(parsed, e) && IteratesWidely(e) :: SafeBody(t, UnwrapGroup(e.body))
  {
    SearchExact(t, parsed);
    forall e | Visits(parsed, e) && e.Repeat?
      ensures WideRepeat(e) <==> IteratesWidely(e)
      ensures RiskFreeBody(t, e) <==> SafeBody(t, UnwrapGroup(e.body))
    {
      WideExactly(e);
      SafeFromExactly(t, UnwrapGroup(e.body), 0);
    }
  }

  /** A backtracking repeat anywhere in a part that no other part separates is refused. */
  lemma NestedIsRefused(t: CharTable, parsed: seq<Element>, e: Element, i: nat, r: Element)
    requires Visits(parsed, e) && IteratesWidely(e) && i < |UnwrapGroup(e.body)|
    requires Holds(UnwrapGroup(e.body)[i], r) && IteratesTwice(r) && !SeparatedAt(t, UnwrapGroup(e.body), i)
    ensures StructuralVerdict(t, parsed) != Accepted
  {
    AcceptedExactly(t, parsed);
    assert !SafePart(t, UnwrapGroup(e.body), i);
  }

  // --- elements whose character sets are exact ---

  /** One item of a class for which the analysis has the exact characters. */
  predicate PreciseItem(item: ClassItem) {
    match item
    case ClassLiteral(_) => true
    case Range(low, high) => high as int - low as int <= 256
    case CategoryItem(_) => true
    case _ => false
  }

  /** The analysis approximates nothing in the element, and the element has a word. */
  ghost predicate PreciseElement(t: CharTable, e: Element)
    decreases e, 0
  {
    match e
    case Literal(_) => true
    case In(items) => (forall item | item in items :: PreciseItem(item)) && exists c :: ClassMatches(t, items, c)
    case At(_) => true
    case Assert(_, _) => true
    case Branch(alternatives) => alternatives != [] && forall a | a in alternatives :: Precise(t, a.items)
    case Group(_, body) => Precise(t, body)
    case Repeat(_, count, body) => count.max != AtMost(0) && Precise(t, body)
    case Possessive(count, body) => count.max != AtMost(0) && Precise(t, body)
    case Atomic(body) => Precise(t, body)
    case _ => false
  }

  ghost predicate Precise(t: CharTable, items: seq<Element>)
    decreases items, 0
  {
    forall e | e in items :: PreciseElement(t, e)
  }

  // --- words of precise elements ---

  lemma JoinWords(t: CharTable, items: seq<Element>, x: Word, y: Word)
    requires items != [] && MatchesElement(t, items[0], x) && MatchesSequence(t, items[1..], y)
    ensures MatchesSequence(t, items, x + y)
  {
    var w, i := x + y, |x|;
    assert w[..i] == x && w[i..] == y;
  }

  lemma OneIterationMore(t: CharTable, body: seq<Element>, k: nat, x: Word, y: Word)
    requires MatchesSequence(t, body, x) && MatchesTimes(t, body, k, y)
    ensures MatchesTimes(t, body, k + 1, x + y)
  {
    var w, i := x + y, |x|;
    assert w[..i] == x && w[i..] == y;
  }

  lemma {:induction false} SomeTimes(t: CharTable, body: seq<Element>, x: Word, k: nat) returns (w: Word)
    requires MatchesSequence(t, body, x)
    ensures MatchesTimes(t, body, k, w)
  {
    if k == 0 {
      w := [];
    } else {
      var rest := SomeTimes(t, body, x, k - 1);
      OneIterationMore(t, body, k - 1, x, rest);
      w := x + rest;
    }
  }

  /** A repeat that starts with a given iteration. */
  lemma StartsRepeat(t: CharTable, count: Count, body: seq<Element>, x: Word) returns (k: nat, rest: Word)
    requires count.max != AtMost(0) && MatchesSequence(t, body, x)
    ensures WithinCount(k, count) && MatchesTimes(t, body, k, x + rest)
  {
    k := if count.min == 0 then 1 else count.min;
    rest := SomeTimes(t, body, x, k - 1);
    OneIterationMore(t, body, k - 1, x, rest);
  }

  lemma {:induction false} SomeWord(t: CharTable, items: seq<Element>) returns (w: Word)
    requires Precise(t, items)
    ensures MatchesSequence(t, items, w)
    decreases items, 0
  {
    if items == [] {
      w := [];
    } else {
      assert items[0] in items;
      var x := SomeWordOfElement(t, items[0]);
      var y := SomeWord(t, items[1..]);
      JoinWords(t, items, x, y);
      w := x + y;
    }
  }

  lemma {:induction false} SomeWordOfElement(t: CharTable, e: Element) returns (w: Word)
    requires PreciseElement(t, e)
    ensures MatchesElement(t, e, w)
    decreases e, 0
  {
    match e
    case Literal(c) => w := [c];
    case In(items) =>
      var c :| ClassMatches(t, items, c);
      w := [c];
    case Branch(alternatives) =>
      assert alternatives[0] in alternatives;
      w := SomeWord(t, alternatives[0].items);
    case Group(_, body) => w := SomeWord(t, body);
    case Atomic(body) => w := SomeWord(t, body);
    case Repeat(_, count, body) =>
      var x := SomeWord(t, body);
      var k, rest := StartsRepeat(t, count, body, x);
      w := x + rest;
    case Possessive(count, body) =>
      var x := SomeWord(t, body);
      var k, rest := StartsRepeat(t, count, body, x);
      w := x + rest;
    case _ => w := [];
  }

  // --- classes ---

  lemma {:induction false} PreciseClass(t: CharTable, items: seq<ClassItem>, c: char)
    requires forall item | item in items :: PreciseItem(item)
    ensures !ClassCharSet(items).universal
    ensures ClassCharSet(items).Denotes(t, c) <==> exists item | item in items :: ItemMatches(t, item, c)
  {
    if items != [] {
      var first, rest := items[0], items[1..];
      PreciseClass(t, rest, c);
      assert PreciseItem(first);
      PreciseItemDenotes(t, first, c);
      UnionDenotes(t, ItemCharSet(first).value, ClassCharSet(rest), c);
      assert items == [first] + rest;
    }
  }

  /** The set of a class is universal exactly when the class is negated, has a category without a name
      or a range of more than 257 characters. */
  lemma GivesUpExactly(items: seq<ClassItem>)
    ensures ClassCharSet(items).universal <==> exists item | item in items :: !PreciseItem(item)
  {
    ClassCharSetUniversal(items);
    assert forall item :: ItemCharSet(item).None? <==> !PreciseItem(item);
  }

  lemma PreciseItemDenotes(t: CharTable, item: ClassItem, c: char)
    requires PreciseItem(item)
    ensures ItemCharSet(item).Some? && !ItemCharSet(item).value.universal
    ensures ItemCharSet(item).value.Denotes(t, c) <==> ItemMatches(t, item, c)
  {
    if item.Range? {
      assert c in CharRange(item.low, item.high) <==> Between(item.low, c, item.high);
    }
  }

  // --- first characters ---

  ghost predicate Starts(t: CharTable, items: seq<Element>, c: char) {
    exists w: Word :: w != [] && w[0] == c && MatchesSequence(t, items, w)
  }

  ghost predicate StartsElement(t: CharTable, e: Element, c: char) {
    exists w: Word :: w != [] && w[0] == c && MatchesElement(t, e, w)
  }

  /** On precise sequences `_first` is exact: it denotes the first characters of the words. */
  lemma FirstExactly(t: CharTable, items: seq<Element>, c: char)
    requires Precise(t, items)
    ensures First(items).Denotes(t, c) <==> Starts(t, items, c)
  {
    if First(items).Denotes(t, c) {
      FirstPrecise(t, items, c);
    }
    if w: Word :| w != [] && w[0] == c && MatchesSequence(t, items, w) {
      FirstSound(t, items, w);
    }
  }

  lemma {:induction false} FirstPrecise(t: CharTable, items: seq<Element>, c: char)
    requires Precise(t, items) && First(items).Denotes(t, c)
    ensures Starts(t, items, c)
    decreases items, 0
  {
    if items != [] {
      var head, tail := items[0], items[1..];
      assert head in items;
      if FirstOfElement(head).Denotes(t, c) {
        FirstPreciseElement(t, head, c);
        var x: Word :| x != [] && x[0] == c && MatchesElement(t, head, x);
        var y := SomeWord(t, tail);
        JoinWords(t, items, x, y);
        assert (x + y)[0] == c;
      } else {
        UnionDenotes(t, FirstOfElement(head), First(tail), c);
        FirstPrecise(t, tail, c);
        var y: Word :| y != [] && y[0] == c && MatchesSequence(t, tail, y);
        EmptyHead(t, head);
        JoinWords(t, items, [], y);
        assert ([] + y) == y;
      }
    }
  }

  lemma EmptyHead(t: CharTable, e: Element)
    requires NullableElement(e)
    ensures MatchesElement(t, e, [])
  {
    NullableElementCanBeEmpty(e);
    CanBeEmptyMatchesElement(t, e);
  }

  lemma {:induction false} FirstPreciseElement(t: CharTable, e: Element, c: char)
    requires PreciseElement(t, e) && FirstOfElement(e).Denotes(t, c)
    ensures StartsElement(t, e, c)
    decreases e, 0
  {
    match e
    case Literal(d) => SingleStart(t, e, c);
    case In(items) =>
      PreciseClass(t, items, c);
      SingleStart(t, e, c);
    case Branch(alternatives) =>
      var j := FirstOfSome(t, alternatives, c);
      assert alternatives[j] in alternatives;
      FirstPrecise(t, alternatives[j].items, c);
      var w: Word :| w != [] && w[0] == c && MatchesSequence(t, alternatives[j].items, w);
      assert MatchesElement(t, e, w);
    case Group(_, body) => FirstPrecise(t, body, c);
    case Atomic(body) => FirstPrecise(t, body, c);
    case Repeat(_, count, body) =>
      FirstPrecise(t, body, c);
      var x: Word :| x != [] && x[0] == c && MatchesSequence(t, body, x);
      var k, rest := StartsRepeat(t, count, body, x);
      assert (x + rest)[0] == c && MatchesElement(t, e, x + rest);
    case Possessive(count, body) =>
      FirstPrecise(t, body, c);
      var x: Word :| x != [] && x[0] == c && MatchesSequence(t, body, x);
      var k, rest := StartsRepeat(t, count, body, x);
      assert (x + rest)[0] == c && MatchesElement(t, e, x + rest);
    case _ =>
  }

  lemma SingleStart(t: CharTable, e: Element, c: char)
    requires MatchesElement(t, e, [c])
    ensures StartsElement(t, e, c)
  {
    var w := [c];
    assert w[0] == c;
  }

  lemma {:induction false} FirstOfSome(t: CharTable, alternatives: seq<Alternative>, c: char) returns (j: nat)
    requires FirstOfAny(alternatives).Denotes(t, c)
    ensures j < |alternatives| && First(alternatives[j].items).Denotes(t, c)
  {
    if First(alternatives[0].items).Denotes(t, c) {
      j := 0;
    } else {
      UnionDenotes(t, First(alternatives[0].items), FirstOfAny(alternatives[1..]), c);
      var k := FirstOfSome(t, alternatives[1..], c);
      j := k + 1;
    }
  }

  // --- consumed characters ---

  ghost predicate Contains(t: CharTable, items: seq<Element>, c: char) {
    exists w: Word :: c in w && MatchesSequence(t, items, w)
  }

  ghost predicate ContainsElement(t: CharTable, e: Element, c: char) {
    exists w: Word :: c in w && MatchesElement(t, e, w)
  }

  lemma {:induction false} ConsumedPrecise(t: CharTable, items: seq<Element>, c: char)
    requires Precise(t, items)
    ensures !Consumed(items).universal
    ensures Consumed(items).Denotes(t, c) ==> Contains(t, items, c)
    decreases items, 0
  {
    if items != [] {
      var head, tail := items[0], items[1..];
      assert head in items;
      ConsumedPreciseElement(t, head, c);
      ConsumedPrecise(t, tail, c);
      UnionDenotes(t, ConsumedByElement(head), Consumed(tail), c);
      if Consumed(items).Denotes(t, c) {
        ContainsFromParts(t, items, c);
      }
    }
  }

  lemma ContainsFromParts(t: CharTable, items: seq<Element>, c: char)
    requires items != [] && Precise(t, items)
    requires ContainsElement(t, items[0], c) || Contains(t, items[1..], c)
    ensures Contains(t, items, c)
  {
    assert items[0] in items;
    var x := SomeWordOfElement(t, items[0]);
    var y := SomeWord(t, items[1..]);
    if ContainsElement(t, items[0], c) {
      x :| c in x && MatchesElement(t, items[0], x);
    } else {
      y :| c in y && MatchesSequence(t, items[1..], y);
    }
    JoinWords(t, items, x, y);
    assert c in x + y;
  }

  lemma {:induction false} ConsumedPreciseElement(t: CharTable, e: Element, c: char)
    requires PreciseElement(t, e)
    ensures !ConsumedByElement(e).universal
    ensures ConsumedByElement(e).Denotes(t, c) ==> ContainsElement(t, e, c)
    decreases e, 0
  {
    match e
    case Literal(_) =>
      if ConsumedByElement(e).Denotes(t, c) { SingleContains(t, e, c); }
    case In(items) =>
      PreciseClass(t, items, c);
      if ConsumedByElement(e).Denotes(t, c) { SingleContains(t, e, c); }
    case Branch(alternatives) => ConsumedPreciseAny(t, alternatives, c);
    case Group(_, body) => ConsumedPrecise(t, body, c);
    case Atomic(body) => ConsumedPrecise(t, body, c);
    case Repeat(_, count, body) =>
      ConsumedPrecise(t, body, c);
      if ConsumedByElement(e).Denotes(t, c) { RepeatContains(t, e, count, body, c); }
    case Possessive(count, body) =>
      ConsumedPrecise(t, body, c);
      if ConsumedByElement(e).Denotes(t, c) { RepeatContains(t, e, count, body, c); }
    case _ =>
  }

  lemma SingleContains(t: CharTable, e: Element, c: char)
    requires MatchesElement(t, e, [c])
    ensures ContainsElement(t, e, c)
  {
    assert c in [c];
  }

  lemma RepeatContains(t: CharTable, e: Element, count: Count, body: seq<Element>, c: char)
    requires (e.Repeat? || e.Possessive?) && e.count == count && e.body == body
    requires count.max != AtMost(0) && Contains(t, body, c)
    ensures ContainsElement(t, e, c)
  {
    var x :| c in x && MatchesSequence(t, body, x);
    var k, rest := StartsRepeat(t, count, body, x);
    assert c in x + rest && MatchesElement(t, e, x + rest);
  }

  lemma {:induction false} ConsumedPreciseAny(t: CharTable, alternatives: seq<Alternative>, c: char)
    requires forall a | a in alternatives :: Precise(t, a.items)
    ensures !ConsumedByAny(alternatives).universal
    ensures ConsumedByAny(alternatives).Denotes(t, c) ==> ContainsElement(t, Branch(alternatives), c)
    decreases alternatives, 0
  {
    if alternatives != [] {
      var head, tail := alternatives[0], alternatives[1..];
      assert head in alternatives;
      ConsumedPrecise(t, head.items, c);
      ConsumedPreciseAny(t, tail, c);
      UnionDenotes(t, Consumed(head.items), ConsumedByAny(tail), c);
      if Contains(t, head.items, c) {
        var w :| c in w && MatchesSequence(t, alternatives[0].items, w);
        assert MatchesElement(t, Branch(alternatives), w);
      } else if ContainsElement(t, Branch(tail), c) {
        var w :| c in w && MatchesElement(t, Branch(tail), w);
        var j :| 0 <= j < |tail| && MatchesSequence(t, tail[j].items, w);
        assert tail[j] == alternatives[j + 1];
        assert MatchesElement(t, Branch(alternatives), w);
      }
    }
  }

  /** On precise sequences `_consumed` is exact: it denotes the characters of the words. */
  lemma ConsumedExactly(t: CharTable, items: seq<Element>, c: char)
    requires Precise(t, items)
    ensures Consumed(items).Denotes(t, c) <==> Contains(t, items, c)
  {
    ConsumedPrecise(t, items, c);
    if w :| c in w && MatchesSequence(t, items, w) {
      ConsumedCovers(t, items, w);
    }
  }

  // --- what is decided from the sets ---

  lemma {:induction false} PreciseBackrefFree(t: CharTable, items: seq<Element>)
    requires Precise(t, items)
    ensures BackrefFreeSequence(items)
    decreases items, 0
  {
    forall e | e in items ensures BackrefFree(e) {
      PreciseBackrefFreeElement(t, e);
    }
  }

  lemma {:induction false} PreciseBackrefFreeElement(t: CharTable, e: Element)
    requires PreciseElement(t, e)
    ensures BackrefFree(e)
    decreases e, 0
  {
    match e
    case Branch(alternatives) =>
      forall a | a in alternatives ensures BackrefFreeSequence(a.items) {
        PreciseBackrefFree(t, a.items);
      }
    case Group(_, body) => PreciseBackrefFree(t, body);
    case Repeat(_, _, body) => PreciseBackrefFree(t, body);
    case Possessive(_, body) => PreciseBackrefFree(t, body);
    case Atomic(body) => PreciseBackrefFree(t, body);
    case _ =>
  }

  /** Two sequences have words that start with the same character. */
  ghost predicate StartAlike(t: CharTable, a: seq<Element>, b: seq<Element>) {
    exists c :: Starts(t, a, c) && Starts(t, b, c)
  }

  lemma FirstsOverlapExactly(t: CharTable, a: seq<Element>, b: seq<Element>)
    requires Precise(t, a) && Precise(t, b)
    ensures First(a).Overlaps(t, First(b)) <==> StartAlike(t, a, b)
  {
    OverlapsExact(t, First(a), First(b));
    forall c
      ensures First(a).Denotes(t, c) <==> Starts(t, a, c)
      ensures First(b).Denotes(t, c) <==> Starts(t, b, c)
    {
      FirstExactly(t, a, c);
      FirstExactly(t, b, c);
    }
  }

  ghost predicate MatchesEmpty(t: CharTable, a: Alternative) {
    MatchesSequence(t, a.items, [])
  }

  ghost predicate PairStartsAlike(t: CharTable, alternatives: seq<Alternative>, i: nat, j: nat)
    requires i < |alternatives| && j < |alternatives|
  {
    StartAlike(t, alternatives[i].items, alternatives[j].items)
  }

  /** On precise alternatives `_branches_overlap` is exact: it reports that one of them matches empty
      text or that two different ones have words that start with the same character, and nothing else. */
  lemma BranchesOverlapExactly(t: CharTable, alternatives: seq<Alternative>)
    requires forall a | a in alternatives :: Precise(t, a.items)
    ensures BranchesOverlap(t, alternatives) <==>
            || (exists a | a in alternatives :: MatchesEmpty(t, a))
            || exists i, j | 0 <= i < j < |alternatives| :: PairStartsAlike(t, alternatives, i, j)
  {
    forall a | a in alternatives ensures Nullable(a.items) <==> MatchesEmpty(t, a) {
      PreciseBackrefFree(t, a.items);
      NullableExact(t, a.items);
    }
    forall i, j | 0 <= i < j < |alternatives|
      ensures First(alternatives[i].items).Overlaps(t, First(alternatives[j].items)) <==>
              PairStartsAlike(t, alternatives, i, j)
    {
      assert alternatives[i] in alternatives && alternatives[j] in alternatives;
      FirstsOverlapExactly(t, alternatives[i].items, alternatives[j].items);
    }
  }

  /** On precise parts a part separates another exactly when it matches no empty text and no character
      occurs in words of both. */
  lemma SeparatesExactly(t: CharTable, o: Element, e: Element)
    requires PreciseElement(t, o) && PreciseElement(t, e)
    ensures Separates(t, o, ConsumedByElement(e)) <==>
            !MatchesElement(t, o, []) && forall c :: !(ContainsElement(t, o, c) && ContainsElement(t, e, c))
  {
    PreciseBackrefFreeElement(t, o);
    if NullableElement(o) {
      EmptyHead(t, o);
    } else if MatchesElement(t, o, []) {
      EmptyMatchSeenElement(t, o);
    }
    OverlapsExact(t, ConsumedByElement(o), ConsumedByElement(e));
    forall c
      ensures ConsumedByElement(o).Denotes(t, c) <==> ContainsElement(t, o, c)
      ensures ConsumedByElement(e).Denotes(t, c) <==> ContainsElement(t, e, c)
      ensures !ConsumedByElement(o).universal
    {
      ElementConsumedExactly(t, o, c);
      ElementConsumedExactly(t, e, c);
    }
    assert !ConsumedByElement(o).universal by {
      ElementConsumedExactly(t, o, 'a');
    }
  }

  lemma ElementConsumedExactly(t: CharTable, e: Element, c: char)
    requires PreciseElement(t, e)
    ensures ConsumedByElement(e).Denotes(t, c) <==> ContainsElement(t, e, c)
    ensures !ConsumedByElement(e).universal
  {
    ConsumedPreciseElement(t, e, c);
    if w :| c in w && MatchesElement(t, e, w) {
      ConsumedCoversElement(t, e, w);
    }
  }
}
