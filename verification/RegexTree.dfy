/** The parse tree that Python's `re._parser` hands to the analysis, and the words it stands for.

    The language is an over-approximation of what a backtracking engine can match: anchors and
    assertions denote the empty word, atomic groups and possessive repeats denote their plain
    counterparts, `.` denotes every character and a backreference denotes every word. RegexCaptures
    has the language in which a backreference denotes what its group has captured. */
module RegexTree {
  import opened CharSets
  import opened Wrappers

  type Word = string

  /** One item of a character class: `[^...]`, a literal, a range, one of \d \w \s, or a
      category the analysis has no name for (\D, \W, \S). */
  datatype ClassItem =
    | Negate
    | ClassLiteral(c: char)
    | Range(low: char, high: char)
    | CategoryItem(category: Category)
    | Complement(category: Category)

  datatype Bound = AtMost(n: nat) | Unbounded

  datatype RawCount = Count(min: nat, max: Bound)

  /** The parser refuses a repeat whose minimum exceeds its maximum. */
  type Count = c: RawCount | c.max.AtMost? ==> c.min <= c.max.n witness Count(0, Unbounded)

  datatype Element =
    | Literal(c: char)
    | NotLiteral(c: char)
    | AnyChar
    | In(items: seq<ClassItem>)
    | At(anchor: string)
    | Assert(negative: bool, body: seq<Element>)
    | GroupRef(group: nat)
    | Branch(alternatives: seq<Alternative>)
    | Group(capture: Option<nat>, body: seq<Element>)
    | Repeat(lazy: bool, count: Count, body: seq<Element>)
    | Possessive(count: Count, body: seq<Element>)
    | Atomic(body: seq<Element>)

  {
    /** The sub-sequence nested inside the element; alternatives are nested separately. */
    predicate HasBody() {
      Group? || Repeat? || Possessive? || Atomic? || Assert?
    }
  }

  datatype Alternative = Alternative(items: seq<Element>)

  ghost predicate WithinCount(k: nat, count: RawCount) {
    count.min <= k && (count.max.AtMost? ==> k <= count.max.n)
  }

  ghost predicate ItemMatches(t: CharTable, item: ClassItem, c: char) {
    match item
    case Negate => false
    case ClassLiteral(d) => c == d
    case Range(low, high) => low <= c <= high
    case CategoryItem(category) => t.InCategory(c, category)
    case Complement(category) => !t.InCategory(c, category)
  }

  /** A class matches what one of its items matches, or the opposite when it is negated. */
  ghost predicate ClassMatches(t: CharTable, items: seq<ClassItem>, c: char) {
    (Negate in items) != (exists item | item in items :: ItemMatches(t, item, c))
  }

  ghost predicate MatchesElement(t: CharTable, e: Element, w: Word)
    decreases e, 0
  {
    match e
    case Literal(c) => w == [c]
    case NotLiteral(c) => |w| == 1 && w[0] != c
    case AnyChar => |w| == 1
    case In(items) => |w| == 1 && ClassMatches(t, items, w[0])
    case At(_) => w == []
    case Assert(_, _) => w == []
    case GroupRef(_) => true
    case Branch(alternatives) =>
      exists j | 0 <= j < |alternatives| :: MatchesSequence(t, alternatives[j].items, w)
    case Group(_, body) => MatchesSequence(t, body, w)
    case Repeat(_, count, body) => exists k: nat | WithinCount(k, count) :: MatchesTimes(t, body, k, w)
    case Possessive(count, body) => exists k: nat | WithinCount(k, count) :: MatchesTimes(t, body, k, w)
    case Atomic(body) => MatchesSequence(t, body, w)
  }

  ghost predicate MatchesSequence(t: CharTable, items: seq<Element>, w: Word)
    decreases items, 0
  {
    if items == [] then
      w == []
    else
      exists i | 0 <= i <= |w| :: MatchesElement(t, items[0], w[..i]) && MatchesSequence(t, items[1..], w[i..])
  }

  /** `w` is `k` iterations of `body`, one after the other. */
  ghost predicate MatchesTimes(t: CharTable, body: seq<Element>, k: nat, w: Word)
    decreases body, 1, k
  {
    if k == 0 then
      w == []
    else
      exists i | 0 <= i <= |w| :: MatchesSequence(t, body, w[..i]) && MatchesTimes(t, body, k - 1, w[i..])
  }

  /** Whether the element has no backreference outside its assertions. */
  predicate BackrefFree(e: Element)
    decreases e, 0
  {
    match e
    case GroupRef(_) => false
    case Branch(alternatives) => forall a | a in alternatives :: BackrefFreeSequence(a.items)
    case Group(_, body) => BackrefFreeSequence(body)
    case Repeat(_, _, body) => BackrefFreeSequence(body)
    case Possessive(_, body) => BackrefFreeSequence(body)
    case Atomic(body) => BackrefFreeSequence(body)
    case _ => true
  }

  predicate BackrefFreeSequence(items: seq<Element>)
    decreases items, 0
  {
    forall e | e in items :: BackrefFree(e)
  }
}
