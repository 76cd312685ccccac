/** The structural analysis of backend/processing/regex_safety.py, lines 173-324: what a pattern
    can consume, whether it can match empty text, what can start a match, and whether a repeated
    group can be cut ambiguously. */
module RegexAnalysis {
  import opened Wrappers
  import opened CharSets
  import opened RegexTree

  const WIDE_REPEAT_THRESHOLD := 10
  const WIDEST_RANGE := 256

  datatype Risk = EmptyIteration | OverlappingAlternatives | UnseparatedQuantifier

  // --- character sets ---

  predicate Between(low: char, c: char, high: char) {
    low <= c <= high
  }

  function CharRange(low: char, high: char): set<char> {
    set c: char | Between(low, c, high)
  }

  /** The set of one class item, or None when the analysis gives up on it. */
  function ItemCharSet(item: ClassItem): Option<CharSet> {
    match item
    case Negate => None
    case ClassLiteral(c) => Some(CharSet({c}, {}, false))
    case Range(low, high) =>
      if high as int - low as int > WIDEST_RANGE then None else Some(CharSet(CharRange(low, high), {}, false))
    case CategoryItem(category) => Some(CharSet({}, {category}, false))
    case Complement(_) => None
  }

  function ClassCharSet(items: seq<ClassItem>): CharSet {
    if items == [] then
      NOTHING
    else
      var rest := ClassCharSet(items[1..]);
      match ItemCharSet(items[0])
      case None => UNIVERSAL
      case Some(first) => if rest.universal then UNIVERSAL else first.Union(rest)
  }

  // --- structure ---

  function ConsumedByElement(e: Element): CharSet
    decreases e, 0
  {
    match e
    case Literal(c) => CharSet({c}, {}, false)
    case In(items) => ClassCharSet(items)
    case AnyChar => UNIVERSAL
    case NotLiteral(_) => UNIVERSAL
    case GroupRef(_) => UNIVERSAL
    case Assert(_, _) => NOTHING
    case At(_) => NOTHING
    case Branch(alternatives) => ConsumedByAny(alternatives)
    case Group(_, body) => Consumed(body)
    case Repeat(_, _, body) => Consumed(body)
    case Possessive(_, body) => Consumed(body)
    case Atomic(body) => Consumed(body)
  }

  function ConsumedByAny(alternatives: seq<Alternative>): CharSet
    decreases alternatives, 0
  {
    if alternatives == [] then
      NOTHING
    else
      Consumed(alternatives[0].items).Union(ConsumedByAny(alternatives[1..]))
  }

  /** `_consumed`: every character a match of the sequence can contain. */
  function Consumed(items: seq<Element>): CharSet
    decreases items, 0
  {
    if items == [] then NOTHING else ConsumedByElement(items[0]).Union(Consumed(items[1..]))
  }

  predicate NullableElement(e: Element)
    decreases e, 0
  {
    match e
    case At(_) => true
    case Assert(_, _) => true
    case Repeat(_, count, body) => count.min == 0 || Nullable(body)
    case Possessive(count, body) => count.min == 0 || Nullable(body)
    case Branch(alternatives) => exists a | a in alternatives :: Nullable(a.items)
    case Group(_, body) => Nullable(body)
    case Atomic(body) => Nullable(body)
    case _ => false
  }

  /** `_nullable`: whether the sequence can match empty text. */
  predicate Nullable(items: seq<Element>)
    decreases items, 0
  {
    forall e | e in items :: NullableElement(e)
  }

  function FirstOfElement(e: Element): CharSet
    decreases e, 0
  {
    match e
    case Branch(alternatives) => FirstOfAny(alternatives)
    case At(_) => NOTHING
    case Assert(_, _) => NOTHING
    case Group(_, body) => First(body)
    case Repeat(_, _, body) => First(body)
    case Possessive(_, body) => First(body)
    case Atomic(body) => First(body)
    case _ => ConsumedByElement(e)
  }

  function FirstOfAny(alternatives: seq<Alternative>): CharSet
    decreases alternatives, 0
  {
    if alternatives == [] then NOTHING else First(alternatives[0].items).Union(FirstOfAny(alternatives[1..]))
  }

  /** `_first`: the characters that can start a match of the sequence. */
  function First(items: seq<Element>): CharSet
    decreases items, 0
  {
    if items == [] then
      NOTHING
    else if NullableElement(items[0]) then
      FirstOfElement(items[0]).Union(First(items[1..]))
    else
      FirstOfElement(items[0])
  }

  // --- backtracking risk ---

  predicate IsWide(max: Bound) {
    max.Unbounded? || max.n > WIDE_REPEAT_THRESHOLD
  }

  predicate HasBacktrackingRepeat(e: Element)
    decreases e, 0
  {
    if e.Repeat? && (e.count.max.Unbounded? || e.count.max.n > 1) then
      true
    else if e.Atomic? || e.Possessive? then
      false
    else
      || (e.Branch? && exists a | a in e.alternatives :: HasBacktrackingRepeatIn(a.items))
      || (e.HasBody() && HasBacktrackingRepeatIn(e.body))
  }

  predicate HasBacktrackingRepeatIn(items: seq<Element>)
    decreases items, 0
  {
    exists e | e in items :: HasBacktrackingRepeat(e)
  }

  function UnwrapGroup(items: seq<Element>): seq<Element>
    decreases items
  {
    if |items| == 1 && items[0].Group? then UnwrapGroup(items[0].body) else items
  }

  predicate BranchesOverlap(t: CharTable, alternatives: seq<Alternative>) {
    || (exists a | a in alternatives :: Nullable(a.items))
    || (exists i, j | 0 <= i < j < |alternatives| ::
          First(alternatives[i].items).Overlaps(t, First(alternatives[j].items)))
  }

  /** Whether `o` must consume a character that the set `inner` does not contain. */
  predicate Separates(t: CharTable, o: Element, inner: CharSet) {
    !NullableElement(o) && !ConsumedByElement(o).universal && !ConsumedByElement(o).Overlaps(t, inner)
  }

  function RiskAt(t: CharTable, body: seq<Element>, index: nat): Option<Risk>
    requires index < |body|
  {
    var e := body[index];
    if e.Branch? && BranchesOverlap(t, e.alternatives) then
      Some(OverlappingAlternatives)
    else if !HasBacktrackingRepeat(e) then
      None
    else
      var others := body[..index] + body[index + 1..];
      if exists o | o in others :: Separates(t, o, ConsumedByElement(e)) then None else Some(UnseparatedQuantifier)
  }

  function RiskFrom(t: CharTable, body: seq<Element>, index: nat): Option<Risk>
    requires index <= |body|
    decreases |body| - index
  {
    if index == |body| then
      None
    else
      match RiskAt(t, body, index)
      case Some(risk) => Some(risk)
      case None => RiskFrom(t, body, index + 1)
  }

  function RiskInRepeatedBody(t: CharTable, body: seq<Element>): Option<Risk> {
    if Nullable(body) then Some(EmptyIteration) else RiskFrom(t, body, 0)
  }

  function RiskOfElement(t: CharTable, e: Element): Option<Risk>
    decreases e, 0
  {
    if e.Atomic? || e.Possessive? then
      None
    else
      var own := if e.Repeat? && IsWide(e.count.max) then RiskInRepeatedBody(t, UnwrapGroup(e.body)) else None;
      if own.Some? then own
      else if e.Branch? then RiskOfAny(t, e.alternatives)
      else if e.HasBody() then FindBacktrackingRisk(t, e.body)
      else None
  }

  function RiskOfAny(t: CharTable, alternatives: seq<Alternative>): Option<Risk>
    decreases alternatives, 0
  {
    if alternatives == [] then
      None
    else
      var risk := FindBacktrackingRisk(t, alternatives[0].items);
      if risk.Some? then risk else RiskOfAny(t, alternatives[1..])
  }

  /** `_find_backtracking_risk`: the first risk the search meets, if any. */
  function FindBacktrackingRisk(t: CharTable, items: seq<Element>): Option<Risk>
    decreases items, 0
  {
    if items == [] then
      None
    else
      var risk := RiskOfElement(t, items[0]);
      if risk.Some? then risk else FindBacktrackingRisk(t, items[1..])
  }

  datatype Verdict = Accepted | MatchesEmptyText | RisksBacktracking(risk: Risk)

  /** The structural checks of `validate_pattern`, in its order. */
  function StructuralVerdict(t: CharTable, parsed: seq<Element>): Verdict {
    if Nullable(parsed) then
      MatchesEmptyText
    else
      match FindBacktrackingRisk(t, parsed)
      case Some(risk) => RisksBacktracking(risk)
      case None => Accepted
  }
}
