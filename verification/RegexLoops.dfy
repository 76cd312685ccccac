/** The analyses that the program runs as loops over a running result
    (backend/processing/regex_safety.py, lines 173-190, 213-227, 246-261, 276-324), each proved to
    compute the function that the results of this project are about. */
module RegexLoops {
  import opened Wrappers
  import opened CharSets
  import opened RegexTree
  import opened RegexAnalysis
  import opened RegexSoundness
  import opened RegexRisk

  /** `_class_charset`: collects literals, ranges and categories, and gives up on the rest. */
  method CollectClass(items: seq<ClassItem>) returns (result: CharSet)
    ensures result == ClassCharSet(items)
  {
    var chars: set<char>, categories: set<Category> := {}, {};
    for i := 0 to |items|
      invariant ClassCharSet(items) == Gathered(CharSet(chars, categories, false), items[i..])
    {
      var item := items[i];
      ClassCharSetUniversal(items[i..]);
      assert items[i..][0] == item && items[i..][1..] == items[i + 1..];
      match item
      case ClassLiteral(c) =>
        chars := chars + {c};
      case Range(low, high) =>
        if high as int - low as int > WIDEST_RANGE {
          return UNIVERSAL;
        }
        chars := chars + CharRange(low, high);
      case CategoryItem(category) =>
        categories := categories + {category};
      case Negate =>
        return UNIVERSAL;
      case Complement(_) =>
        return UNIVERSAL;
    }
    result := CharSet(chars, categories, false);
  }

  /** The set gathered so far joined with what the remaining items add. */
  function Gathered(sofar: CharSet, rest: seq<ClassItem>): CharSet {
    if ClassCharSet(rest).universal then UNIVERSAL else sofar.Union(ClassCharSet(rest))
  }

  /** `_consumed`, as the loop over items with its recursive calls. */
  method CollectConsumed(items: seq<Element>) returns (result: CharSet)
    ensures result == Consumed(items)
    decreases items, 0
  {
    result := NOTHING;
    for i := 0 to |items|
      invariant Consumed(items) == result.Union(Consumed(items[i..]))
    {
      var e := items[i];
      assert items[i..][0] == e && items[i..][1..] == items[i + 1..];
      UnionAssociates(result, ConsumedByElement(e), Consumed(items[i + 1..]));
      if e.Literal? {
        result := result.Union(CharSet({e.c}, {}, false));
      } else if e.In? {
        var class_ := CollectClass(e.items);
        result := result.Union(class_);
      } else if e.AnyChar? || e.NotLiteral? || e.GroupRef? {
        result := result.Union(UNIVERSAL);
      } else if e.Assert? || e.At? {
        assert result.Union(NOTHING) == result;
      } else if e.Branch? {
        var any := CollectConsumedByAny(e.alternatives);
        result := result.Union(any);
      } else {
        var nested := CollectConsumed(e.body);
        result := result.Union(nested);
      }
    }
  }

  method CollectConsumedByAny(alternatives: seq<Alternative>) returns (result: CharSet)
    ensures result == ConsumedByAny(alternatives)
    decreases alternatives, 0
  {
    result := NOTHING;
    for i := 0 to |alternatives|
      invariant ConsumedByAny(alternatives) == result.Union(ConsumedByAny(alternatives[i..]))
    {
      var nested := CollectConsumed(alternatives[i].items);
      assert alternatives[i..][0] == alternatives[i] && alternatives[i..][1..] == alternatives[i + 1..];
      UnionAssociates(result, nested, ConsumedByAny(alternatives[i + 1..]));
      result := result.Union(nested);
    }
  }

  /** `_first`: stops after the first element that must consume something. */
  method CollectFirst(items: seq<Element>) returns (result: CharSet)
    ensures result == First(items)
    decreases items, 0
  {
    result := NOTHING;
    for i := 0 to |items|
      invariant First(items) == result.Union(First(items[i..]))
    {
      var e := items[i];
      assert items[i..][0] == e && items[i..][1..] == items[i + 1..];
      UnionAssociates(result, FirstOfElement(e), First(items[i + 1..]));
      var head := NOTHING;
      if e.Branch? {
        for j := 0 to |e.alternatives|
          invariant FirstOfAny(e.alternatives) == head.Union(FirstOfAny(e.alternatives[j..]))
        {
          var nested := CollectFirst(e.alternatives[j].items);
          assert e.alternatives[j..][0] == e.alternatives[j] && e.alternatives[j..][1..] == e.alternatives[j + 1..];
          UnionAssociates(head, nested, FirstOfAny(e.alternatives[j + 1..]));
          head := head.Union(nested);
        }
      } else if e.At? || e.Assert? {
      } else if e.HasBody() {
        head := CollectFirst(e.body);
      } else {
        head := CollectConsumed([e]);
        ConsumedIsByElement(e);
      }
      result := result.Union(head);
      if !NullableElement(e) {
        return;
      }
    }
  }

  /** `_unwrap_group`. */
  method Unwrap(items: seq<Element>) returns (result: seq<Element>)
    ensures result == UnwrapGroup(items)
    ensures |result| != 1 || !result[0].Group?
  {
    result := items;
    while |result| == 1 && result[0].Group?
      invariant UnwrapGroup(result) == UnwrapGroup(items)
      decreases result
    {
      result := result[0].body;
    }
  }

  /** `_risk_in_repeated_body`: looks at each part of the body with the rest around it. */
  method SearchBody(t: CharTable, body: seq<Element>) returns (risk: Option<Risk>)
    ensures risk == RiskInRepeatedBody(t, body)
  {
    if Nullable(body) {
      return Some(EmptyIteration);
    }
    for index := 0 to |body|
      invariant RiskFrom(t, body, 0) == RiskFrom(t, body, index)
    {
      var e := body[index];
      if e.Branch? && BranchesOverlap(t, e.alternatives) {
        return Some(OverlappingAlternatives);
      }
      if HasBacktrackingRepeat(e) {
        var inner := CollectConsumed([e]);
        ConsumedIsByElement(e);
        var others := body[..index] + body[index + 1..];
        var separated := false;
        for k := 0 to |others|
          invariant separated <==> exists o | o in others[..k] :: Separates(t, o, inner)
        {
          assert others[..k + 1] == others[..k] + [others[k]];
          separated := separated || Separates(t, others[k], inner);
        }
        assert others[..|others|] == others;
        if !separated {
          return Some(UnseparatedQuantifier);
        }
      }
    }
    risk := None;
  }

  /** `_find_backtracking_risk`: a depth-first search that skips atomic and possessive elements
      and stops at the first risk. */
  method Search(t: CharTable, items: seq<Element>) returns (risk: Option<Risk>)
    ensures risk == FindBacktrackingRisk(t, items)
    decreases items, 0
  {
    for i := 0 to |items|
      invariant FindBacktrackingRisk(t, items) == FindBacktrackingRisk(t, items[i..])
    {
      var e := items[i];
      assert items[i..][0] == e && items[i..][1..] == items[i + 1..];
      if e.Atomic? || e.Possessive? {
        continue;
      }
      if e.Repeat? && IsWide(e.count.max) {
        var body := Unwrap(e.body);
        risk := SearchBody(t, body);
        if risk.Some? {
          return;
        }
      }
      if e.Branch? {
        for j := 0 to |e.alternatives|
          invariant RiskOfAny(t, e.alternatives) == RiskOfAny(t, e.alternatives[j..])
        {
          assert e.alternatives[j..][0] == e.alternatives[j] && e.alternatives[j..][1..] == e.alternatives[j + 1..];
          risk := Search(t, e.alternatives[j].items);
          if risk.Some? {
            return;
          }
        }
      } else if e.HasBody() {
        risk := Search(t, e.body);
        if risk.Some? {
          return;
        }
      }
    }
    risk := None;
  }
}
