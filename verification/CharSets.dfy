/** Character sets, as the structural analysis of patterns uses them
    (backend/processing/regex_safety.py, lines 116-190). */
module CharSets {

  datatype Category = Digit | Word | Space

  /** What Python's character database answers for one character. */
  datatype RawCharTable = CharTable(digit: char -> bool, word: char -> bool, space: char -> bool) {

    predicate InCategory(c: char, category: Category) {
      match category
      case Digit => digit(c)
      case Word => word(c)
      case Space => space(c)
    }

    /** The facts about the database that the analysis relies on: digits are word characters,
        word characters are never blank, and there is a digit and a blank. */
    ghost predicate Consistent() {
      && (forall c :: digit(c) ==> word(c))
      && (forall c :: word(c) ==> !space(c))
      && (exists c :: digit(c))
      && (exists c :: space(c))
    }
  }

  const ASCII := CharTable(
    c => '0' <= c <= '9',
    c => '0' <= c <= '9' || 'A' <= c <= 'Z' || 'a' <= c <= 'z' || c == '_',
    c => c == ' ' || c == '\t' || c == '\n' || c == '\r')

  lemma AsciiIsConsistent()
    ensures ASCII.Consistent()
  {
    assert ASCII.digit('0') && ASCII.space(' ');
  }

  ghost function ConsistentExample(): (t: RawCharTable)
    ensures t.Consistent()
  {
    AsciiIsConsistent();
    ASCII
  }

  /** Any consistent character table: every result below holds for all of them. */
  type CharTable = table: RawCharTable | table.Consistent() ghost witness ConsistentExample()

  /** Over-approximation of the characters a pattern element can consume. */
  datatype CharSet = CharSet(chars: set<char>, categories: set<Category>, universal: bool) {

    predicate Empty() {
      !(chars != {} || categories != {} || universal)
    }

    function Union(other: CharSet): CharSet {
      CharSet(chars + other.chars, categories + other.categories, universal || other.universal)
    }

    predicate Overlaps(t: CharTable, other: CharSet) {
      if Empty() || other.Empty() then
        false
      else if universal || other.universal then
        true
      else if chars * other.chars != {} then
        true
      else if exists category, c | category in categories && c in other.chars :: t.InCategory(c, category) then
        true
      else if exists category, c | category in other.categories && c in chars :: t.InCategory(c, category) then
        true
      else
        exists a, b | a in categories && b in other.categories :: a == b || {a, b} == {Digit, Word}
    }

    /** The meaning of a character set: the characters it stands for. */
    ghost predicate Denotes(t: CharTable, c: char) {
      universal || c in chars || exists category | category in categories :: t.InCategory(c, category)
    }
  }

  const NOTHING := CharSet({}, {}, false)
  const UNIVERSAL := CharSet({}, {}, true)

  lemma UnionDenotes(t: CharTable, a: CharSet, b: CharSet, c: char)
    ensures a.Union(b).Denotes(t, c) <==> a.Denotes(t, c) || b.Denotes(t, c)
  {
    forall category | category in a.categories + b.categories && t.InCategory(c, category)
      ensures a.Denotes(t, c) || b.Denotes(t, c)
    {
    }
  }

  lemma UnionAssociates(a: CharSet, b: CharSet, c: CharSet)
    ensures a.Union(b).Union(c) == a.Union(b.Union(c))
  {
  }

  lemma NonEmptyDenotesSome(t: CharTable, a: CharSet) returns (c: char)
    requires !a.Empty()
    ensures a.Denotes(t, c)
  {
    if a.universal {
      c := 'a';
    } else if a.chars != {} {
      c :| c in a.chars;
    } else {
      var category :| category in a.categories;
      c := CategoryMember(t, category);
    }
  }

  lemma CategoryMember(t: CharTable, category: Category) returns (c: char)
    ensures t.InCategory(c, category)
  {
    match category
    case Digit => c :| t.digit(c);
    case Word => c :| t.digit(c);
    case Space => c :| t.space(c);
  }

  /** `_CharSet.overlaps` is exact: it answers whether the two denoted sets share a character. */
  lemma OverlapsExact(t: CharTable, a: CharSet, b: CharSet)
    ensures a.Overlaps(t, b) <==> exists c :: a.Denotes(t, c) && b.Denotes(t, c)
  {
    if a.Overlaps(t, b) {
      var c := OverlapWitness(t, a, b);
    }
    if c :| a.Denotes(t, c) && b.Denotes(t, c) {
      SharedMeansOverlap(t, a, b, c);
    }
  }

  lemma OverlapWitness(t: CharTable, a: CharSet, b: CharSet) returns (c: char)
    requires a.Overlaps(t, b)
    ensures a.Denotes(t, c) && b.Denotes(t, c)
  {
    if a.universal {
      c := NonEmptyDenotesSome(t, b);
    } else if b.universal {
      c := NonEmptyDenotesSome(t, a);
    } else if a.chars * b.chars != {} {
      c :| c in a.chars * b.chars;
    } else if exists category, d | category in a.categories && d in b.chars :: t.InCategory(d, category) {
      var category, d :| category in a.categories && d in b.chars && t.InCategory(d, category);
      c := d;
    } else if exists category, d | category in b.categories && d in a.chars :: t.InCategory(d, category) {
      var category, d :| category in b.categories && d in a.chars && t.InCategory(d, category);
      c := d;
    } else {
      var x, y :| x in a.categories && y in b.categories && (x == y || {x, y} == {Digit, Word});
      if x == y {
        c := CategoryMember(t, x);
      } else {
        assert x in {Digit, Word} && y in {Digit, Word};
        c := CategoryMember(t, Digit);
        assert t.InCategory(c, x) && t.InCategory(c, y);
      }
    }
  }

  lemma SharedMeansOverlap(t: CharTable, a: CharSet, b: CharSet, c: char)
    requires a.Denotes(t, c) && b.Denotes(t, c)
    ensures a.Overlaps(t, b)
  {
    assert c in a.chars && c in b.chars ==> c in a.chars * b.chars;
    if !a.universal && !b.universal && c !in a.chars && c !in b.chars {
      var x :| x in a.categories && t.InCategory(c, x);
      var y :| y in b.categories && t.InCategory(c, y);
      SharedCategories(t, c, x, y);
    }
  }

  lemma SharedCategories(t: CharTable, c: char, x: Category, y: Category)
    requires t.InCategory(c, x) && t.InCategory(c, y)
    ensures x == y || {x, y} == {Digit, Word}
  {
  }
}
