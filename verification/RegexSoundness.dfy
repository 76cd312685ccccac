/** What the character and emptiness analyses promise about the words of a pattern. */
module RegexSoundness {
  import opened CharSets
  import opened RegexTree
  import opened RegexAnalysis

  ghost predicate DenotesAll(t: CharTable, s: CharSet, w: Word) {
    forall c | c in w :: s.Denotes(t, c)
  }

  lemma DenotesAllUnion(t: CharTable, a: CharSet, b: CharSet, u: Word, v: Word)
    requires DenotesAll(t, a, u) && DenotesAll(t, b, v)
    ensures DenotesAll(t, a.Union(b), u + v)
  {
    forall c | c in u + v ensures a.Union(b).Denotes(t, c) {
      UnionDenotes(t, a, b, c);
    }
  }

  // --- classes ---

  lemma {:induction false} ClassCharSetUniversal(items: seq<ClassItem>)
    ensures ClassCharSet(items).universal <==> exists item | item in items :: ItemCharSet(item).None?
  {
    if items != [] {
      ClassCharSetUniversal(items[1..]);
      assert items == [items[0]] + items[1..];
    }
  }

  /** The set computed for a class contains every character the class matches. */
  lemma {:induction false} ClassCharSetCovers(t: CharTable, items: seq<ClassItem>, c: char)
    requires ClassMatches(t, items, c)
    ensures ClassCharSet(items).Denotes(t, c)
  {
    ClassCharSetUniversal(items);
    if !ClassCharSet(items).universal {
      assert Negate !in items by {
        assert Negate in items ==> ItemCharSet(Negate).None?;
      }
      var item :| item in items && ItemMatches(t, item, c);
      ItemInClass(t, items, item, c);
    }
  }

  lemma {:induction false} ItemInClass(t: CharTable, items: seq<ClassItem>, item: ClassItem, c: char)
    requires item in items && ItemMatches(t, item, c)
    ensures ClassCharSet(items).Denotes(t, c)
  {
    ClassCharSetUniversal(items);
    if !ClassCharSet(items).universal {
      var first, rest := ItemCharSet(items[0]).value, ClassCharSet(items[1..]);
      UnionDenotes(t, first, rest, c);
      if item != items[0] {
        ItemInClass(t, items[1..], item, c);
      } else if item.Range? {
        assert Between(item.low, c, item.high);
      }
    }
  }

  // --- consumed characters ---

  /** `_consumed` covers every character of every word of a sequence. */
  lemma {:induction false} ConsumedCovers(t: CharTable, items: seq<Element>, w: Word)
    requires MatchesSequence(t, items, w)
    ensures DenotesAll(t, Consumed(items), w)
    decreases items, 0
  {
    if items != [] {
      var i :| 0 <= i <= |w| && MatchesElement(t, items[0], w[..i]) && MatchesSequence(t, items[1..], w[i..]);
      ConsumedCoversElement(t, items[0], w[..i]);
      ConsumedCovers(t, items[1..], w[i..]);
      DenotesAllUnion(t, ConsumedByElement(items[0]), Consumed(items[1..]), w[..i], w[i..]);
      assert w[..i] + w[i..] == w;
    }
  }

  lemma {:induction false} ConsumedCoversTimes(t: CharTable, body: seq<Element>, k: nat, w: Word)
    requires MatchesTimes(t, body, k, w)
    ensures DenotesAll(t, Consumed(body), w)
    decreases body, 1, k
  {
    if k > 0 {
      var i :| 0 <= i <= |w| && MatchesSequence(t, body, w[..i]) && MatchesTimes(t, body, k - 1, w[i..]);
      ConsumedCovers(t, body, w[..i]);
      ConsumedCoversTimes(t, body, k - 1, w[i..]);
      DenotesAllUnion(t, Consumed(body), Consumed(body), w[..i], w[i..]);
      assert w[..i] + w[i..] == w;
      assert Consumed(body).Union(Consumed(body)) == Consumed(body);
    }
  }

  lemma {:induction false} ConsumedCoversElement(t: CharTable, e: Element, w: Word)
    requires MatchesElement(t, e, w)
    ensures DenotesAll(t, ConsumedByElement(e), w)
    decreases e, 0
  {
    match e
    case In(items) => ClassCharSetCovers(t, items, w[0]);
    case Branch(alternatives) =>
      var j :| 0 <= j < |alternatives| && MatchesSequence(t, alternatives[j].items, w);
      ConsumedCovers(t, alternatives[j].items, w);
      forall c | c in w ensures ConsumedByElement(e).Denotes(t, c) {
        ConsumedByAnyContains(t, alternatives, j, c);
      }
    case Group(_, body) => ConsumedCovers(t, body, w);
    case Atomic(body) => ConsumedCovers(t, body, w);
    case Repeat(_, count, body) =>
      var k: nat :| WithinCount(k, count) && MatchesTimes(t, body, k, w);
      ConsumedCoversTimes(t, body, k, w);
    case Possessive(count, body) =>
      var k: nat :| WithinCount(k, count) && MatchesTimes(t, body, k, w);
      ConsumedCoversTimes(t, body, k, w);
    case _ =>
  }

  lemma {:induction false} ConsumedByAnyContains(t: CharTable, alternatives: seq<Alternative>, j: nat, c: char)
    requires j < |alternatives| && Consumed(alternatives[j].items).Denotes(t, c)
    ensures ConsumedByAny(alternatives).Denotes(t, c)
  {
    UnionDenotes(t, Consumed(alternatives[0].items), ConsumedByAny(alternatives[1..]), c);
    if j > 0 {
      ConsumedByAnyContains(t, alternatives[1..], j - 1, c);
    }
  }

  // --- empty text ---

  /** Whether the element can match empty text when a backreference can; the analysis says that a
      backreference cannot. */
  predicate CanBeEmptyElement(e: Element)
    decreases e, 0
  {
    match e
    case At(_) => true
    case Assert(_, _) => true
    case GroupRef(_) => true
    case Repeat(_, count, body) => count.min == 0 || CanBeEmpty(body)
    case Possessive(count, body) => count.min == 0 || CanBeEmpty(body)
    case Branch(alternatives) => exists a | a in alternatives :: CanBeEmpty(a.items)
    case Group(_, body) => CanBeEmpty(body)
    case Atomic(body) => CanBeEmpty(body)
    case _ => false
  }

  predicate CanBeEmpty(items: seq<Element>)
    decreases items, 0
  {
    forall e | e in items :: CanBeEmptyElement(e)
  }

  lemma {:induction false} CanBeEmptyMatches(t: CharTable, items: seq<Element>)
    requires CanBeEmpty(items)
    ensures MatchesSequence(t, items, [])
    decreases items, 0
  {
    if items != [] {
      var w: Word := [];
      assert items[0] in items;
      CanBeEmptyMatchesElement(t, items[0]);
      CanBeEmptyMatches(t, items[1..]);
      assert w[..0] == [] && w[0..] == [];
    }
  }

  lemma {:induction false} CanBeEmptyMatchesElement(t: CharTable, e: Element)
    requires CanBeEmptyElement(e)
    ensures MatchesElement(t, e, [])
    decreases e, 0
  {
    match e
    case Branch(alternatives) =>
      var a :| a in alternatives && CanBeEmpty(a.items);
      var j :| 0 <= j < |alternatives| && alternatives[j] == a;
      CanBeEmptyMatches(t, alternatives[j].items);
    case Group(_, body) => CanBeEmptyMatches(t, body);
    case Atomic(body) => CanBeEmptyMatches(t, body);
    case Repeat(_, count, body) =>
      if count.min > 0 { CanBeEmptyMatches(t, body); }
      EmptyTimes(t, body, count.min);
      assert WithinCount(count.min, count);
    case Possessive(count, body) =>
      if count.min > 0 { CanBeEmptyMatches(t, body); }
      EmptyTimes(t, body, count.min);
      assert WithinCount(count.min, count);
    case _ =>
  }

  lemma {:induction false} EmptyMatchCanBe(t: CharTable, items: seq<Element>)
    requires MatchesSequence(t, items, [])
    ensures CanBeEmpty(items)
    decreases items, 0
  {
    if items != [] {
      EmptyMatchSplits(t, items);
      EmptyMatchCanBeElement(t, items[0]);
      EmptyMatchCanBe(t, items[1..]);
      assert items == [items[0]] + items[1..];
    }
  }

  lemma {:induction false} EmptyMatchCanBeElement(t: CharTable, e: Element)
    requires MatchesElement(t, e, [])
    ensures CanBeEmptyElement(e)
    decreases e, 0
  {
    match e
    case Branch(alternatives) =>
      var w: Word := [];
      var j :| 0 <= j < |alternatives| && MatchesSequence(t, alternatives[j].items, w);
      EmptyMatchCanBe(t, alternatives[j].items);
      assert alternatives[j] in alternatives;
    case Group(_, body) => EmptyMatchCanBe(t, body);
    case Atomic(body) => EmptyMatchCanBe(t, body);
    case Repeat(_, count, body) =>
      if count.min > 0 {
        EmptyIterationOfRepeat(t, count, body);
        EmptyMatchCanBe(t, body);
      }
    case Possessive(count, body) =>
      if count.min > 0 {
        EmptyIterationOfRepeat(t, count, body);
        EmptyMatchCanBe(t, body);
      }
    case _ =>
  }

  lemma EmptyIterationOfRepeat(t: CharTable, count: Count, body: seq<Element>)
    requires count.min > 0 && exists k: nat | WithinCount(k, count) :: MatchesTimes(t, body, k, [])
    ensures MatchesSequence(t, body, [])
  {
    var w: Word := [];
    var k: nat :| WithinCount(k, count) && MatchesTimes(t, body, k, w);
    EmptyIterationOf(t, body, k);
  }

  lemma {:induction false} NullableCanBeEmpty(items: seq<Element>)
    requires Nullable(items)
    ensures CanBeEmpty(items)
    decreases items, 0
  {
    forall e | e in items ensures CanBeEmptyElement(e) {
      NullableElementCanBeEmpty(e);
    }
  }

  lemma {:induction false} NullableElementCanBeEmpty(e: Element)
    requires NullableElement(e)
    ensures CanBeEmptyElement(e)
    decreases e, 0
  {
    match e
    case Branch(alternatives) =>
      var a :| a in alternatives && Nullable(a.items);
      NullableCanBeEmpty(a.items);
    case Group(_, body) => NullableCanBeEmpty(body);
    case Atomic(body) => NullableCanBeEmpty(body);
    case Repeat(_, count, body) => if count.min > 0 { NullableCanBeEmpty(body); }
    case Possessive(count, body) => if count.min > 0 { NullableCanBeEmpty(body); }
    case _ =>
  }

  /** A pattern called nullable does match the empty word, whatever it contains. */
  lemma NullableMatchesEmpty(t: CharTable, items: seq<Element>)
    requires Nullable(items)
    ensures MatchesSequence(t, items, [])
  {
    NullableCanBeEmpty(items);
    CanBeEmptyMatches(t, items);
  }

  lemma {:induction false} EmptyTimes(t: CharTable, body: seq<Element>, k: nat)
    requires k > 0 ==> MatchesSequence(t, body, [])
    ensures MatchesTimes(t, body, k, [])
  {
    if k > 0 {
      var w: Word := [];
      EmptyTimes(t, body, k - 1);
      assert w[..0] == [] && w[0..] == [];
    }
  }

  lemma EmptyIterationOf(t: CharTable, body: seq<Element>, k: nat)
    requires k > 0 && MatchesTimes(t, body, k, [])
    ensures MatchesSequence(t, body, [])
  {
    var w: Word := [];
    var i :| 0 <= i <= |w| && MatchesSequence(t, body, w[..i]) && MatchesTimes(t, body, k - 1, w[i..]);
    assert w[..i] == [];
  }

  lemma EmptyMatchSplits(t: CharTable, items: seq<Element>)
    requires items != [] && MatchesSequence(t, items, [])
    ensures MatchesElement(t, items[0], []) && MatchesSequence(t, items[1..], [])
  {
    var w: Word := [];
    var i :| 0 <= i <= |w| && MatchesElement(t, items[0], w[..i]) && MatchesSequence(t, items[1..], w[i..]);
    assert w[..i] == [] && w[i..] == [];
  }

  lemma SeenFromParts(items: seq<Element>)
    requires items != []
    requires NullableElement(items[0]) || (FirstOfElement(items[0]).universal && !BackrefFree(items[0]))
    requires Nullable(items[1..]) || (First(items[1..]).universal && !BackrefFreeSequence(items[1..]))
    ensures Nullable(items) || (First(items).universal && !BackrefFreeSequence(items))
  {
    assert items == [items[0]] + items[1..];
    assert items[0] in items && forall e | e in items[1..] :: e in items;
  }

  /** What the analysis misses about empty text can only come from a backreference, and then the
      first-set is universal. */
  lemma {:induction false} EmptyMatchSeen(t: CharTable, items: seq<Element>)
    requires MatchesSequence(t, items, [])
    ensures Nullable(items) || (First(items).universal && !BackrefFreeSequence(items))
    decreases items, 0
  {
    if items != [] {
      EmptyMatchSplits(t, items);
      EmptyMatchSeenElement(t, items[0]);
      EmptyMatchSeen(t, items[1..]);
      SeenFromParts(items);
    }
  }

  lemma {:induction false} EmptyMatchSeenElement(t: CharTable, e: Element)
    requires MatchesElement(t, e, [])
    ensures NullableElement(e) || (FirstOfElement(e).universal && !BackrefFree(e))
    decreases e, 0
  {
    match e
    case Branch(alternatives) =>
      var w: Word := [];
      var j :| 0 <= j < |alternatives| && MatchesSequence(t, alternatives[j].items, w);
      EmptyMatchSeen(t, alternatives[j].items);
      assert alternatives[j] in alternatives;
      if !Nullable(alternatives[j].items) {
        FirstOfAnyUniversal(alternatives, j);
      }
    case Group(_, body) => EmptyMatchSeen(t, body);
    case Atomic(body) => EmptyMatchSeen(t, body);
    case Repeat(_, count, body) =>
      if count.min > 0 {
        EmptyIterationOfRepeat(t, count, body);
        EmptyMatchSeen(t, body);
      }
    case Possessive(count, body) =>
      if count.min > 0 {
        EmptyIterationOfRepeat(t, count, body);
        EmptyMatchSeen(t, body);
      }
    case _ =>
  }

  lemma {:induction false} FirstOfAnyUniversal(alternatives: seq<Alternative>, j: nat)
    requires j < |alternatives| && First(alternatives[j].items).universal
    ensures FirstOfAny(alternatives).universal
  {
    if j > 0 {
      FirstOfAnyUniversal(alternatives[1..], j - 1);
    }
  }

  /** `_nullable` is exact for every pattern without backreferences. */
  lemma NullableExact(t: CharTable, items: seq<Element>)
    requires BackrefFreeSequence(items)
    ensures Nullable(items) <==> MatchesSequence(t, items, [])
  {
    if Nullable(items) {
      NullableMatchesEmpty(t, items);
    }
    if MatchesSequence(t, items, []) {
      EmptyMatchSeen(t, items);
    }
  }

  // --- first characters ---

  /** `_first` contains the first character of every non-empty word of a sequence. */
  lemma {:induction false} FirstSound(t: CharTable, items: seq<Element>, w: Word)
    requires MatchesSequence(t, items, w) && w != []
    ensures First(items).Denotes(t, w[0])
    decreases items, 0
  {
    var e, rest := items[0], items[1..];
    var i :| 0 <= i <= |w| && MatchesElement(t, e, w[..i]) && MatchesSequence(t, rest, w[i..]);
    UnionDenotes(t, FirstOfElement(e), First(rest), w[0]);
    if i > 0 {
      FirstSoundElement(t, e, w[..i]);
    } else {
      assert w[..i] == [] && w[i..] == w;
      EmptyMatchSeenElement(t, e);
      FirstSound(t, rest, w);
    }
  }

  lemma {:induction false} FirstSoundElement(t: CharTable, e: Element, w: Word)
    requires MatchesElement(t, e, w) && w != []
    ensures FirstOfElement(e).Denotes(t, w[0])
    decreases e, 0
  {
    match e
    case Branch(alternatives) =>
      var j :| 0 <= j < |alternatives| && MatchesSequence(t, alternatives[j].items, w);
      FirstSound(t, alternatives[j].items, w);
      FirstOfAnyContains(t, alternatives, j, w[0]);
    case Group(_, body) => FirstSound(t, body, w);
    case Atomic(body) => FirstSound(t, body, w);
    case Repeat(_, count, body) =>
      var k: nat :| WithinCount(k, count) && MatchesTimes(t, body, k, w);
      FirstSoundTimes(t, body, k, w);
    case Possessive(count, body) =>
      var k: nat :| WithinCount(k, count) && MatchesTimes(t, body, k, w);
      FirstSoundTimes(t, body, k, w);
    case _ => ConsumedCoversElement(t, e, w);
  }

  lemma {:induction false} FirstSoundTimes(t: CharTable, body: seq<Element>, k: nat, w: Word)
    requires MatchesTimes(t, body, k, w) && w != []
    ensures First(body).Denotes(t, w[0])
    decreases body, 1, k
  {
    var i :| 0 <= i <= |w| && MatchesSequence(t, body, w[..i]) && MatchesTimes(t, body, k - 1, w[i..]);
    if i > 0 {
      FirstSound(t, body, w[..i]);
    } else {
      assert w[i..] == w;
      FirstSoundTimes(t, body, k - 1, w);
    }
  }

  lemma {:induction false} FirstOfAnyContains(t: CharTable, alternatives: seq<Alternative>, j: nat, c: char)
    requires j < |alternatives| && First(alternatives[j].items).Denotes(t, c)
    ensures FirstOfAny(alternatives).Denotes(t, c)
  {
    UnionDenotes(t, First(alternatives[0].items), FirstOfAny(alternatives[1..]), c);
    if j > 0 {
      FirstOfAnyContains(t, alternatives[1..], j - 1, c);
    }
  }

  // --- alternatives ---

  /** When the analysis finds no overlap, at any position of any text at most one alternative
      can match. */
  lemma AtMostOneAlternative(t: CharTable, alternatives: seq<Alternative>, i: nat, j: nat, text: string, m: nat, n: nat)
    requires !BranchesOverlap(t, alternatives)
    requires i < |alternatives| && j < |alternatives| && m <= |text| && n <= |text|
    requires MatchesSequence(t, alternatives[i].items, text[..m])
    requires MatchesSequence(t, alternatives[j].items, text[..n])
    ensures i == j
  {
    if i < j {
      OverlapOfPrefixes(t, alternatives[i].items, alternatives[j].items, text, m, n);
    } else if j < i {
      OverlapOfPrefixes(t, alternatives[j].items, alternatives[i].items, text, n, m);
    }
  }

  lemma OverlapOfPrefixes(t: CharTable, a: seq<Element>, b: seq<Element>, text: string, m: nat, n: nat)
    requires m <= |text| && n <= |text|
    requires MatchesSequence(t, a, text[..m]) && MatchesSequence(t, b, text[..n])
    ensures Nullable(a) || Nullable(b) || First(a).Overlaps(t, First(b))
  {
    if m == 0 { EmptyMatchSeen(t, a); } else { FirstSound(t, a, text[..m]); }
    if n == 0 { EmptyMatchSeen(t, b); } else { FirstSound(t, b, text[..n]); }
    OverlapsExact(t, First(a), First(b));
    if text == [] {
      assert First(a).universal && First(b).universal ==> First(a).Denotes(t, 'a') && First(b).Denotes(t, 'a');
    } else {
      var c := text[0];
      assert !Nullable(a) ==> First(a).Denotes(t, c);
      assert !Nullable(b) ==> First(b).Denotes(t, c);
    }
  }

  // --- accepted patterns never match empty text ---

  /** A pattern the structural checks accept consumes at least one character in every match,
      provided it has no backreference. */
  lemma AcceptedNeverMatchesEmpty(t: CharTable, parsed: seq<Element>, w: Word)
    requires BackrefFreeSequence(parsed)
    requires StructuralVerdict(t, parsed) == Accepted
    requires MatchesSequence(t, parsed, w)
    ensures w != []
  {
    NullableExact(t, parsed);
  }
}
