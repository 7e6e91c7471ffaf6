/** How the middle grammar (src/filterspec.ts) reads an item with an empty
    bracket: as the same item without one. */
module SrcFilterSpecExamples {
  import opened Wrappers
  import opened Parse
  import opened ItemText
  import opened WebGrammar
  import opened SrcFilterSpec
  import SrcFilterExamples

  /** A single-ended range needs a comparison sign first. */
  lemma NoSingleRangeWithoutSign(s: string)
    requires s == [] || (s[0] != '=' && s[0] != '<' && s[0] != '>')
    ensures SrcFilterSpec.DaysRangeSingle(s).Err?
  {
    assert RangeOpMatch(s).None?;
    assert NightsRangeSingleOp(s).Err?;
    AndMapLaw(Space(NightsRangeSingleOp), Space(Int), SrcFilterSpec.MakeRangeSingle, s);
  }

  lemma NoRangeWithoutDigits(s: string)
    requires s == [] || (s[0] != '=' && s[0] != '<' && s[0] != '>')
    requires SrcFilterExamples.HasNoDigit(s)
    ensures SrcFilterSpec.DaysRangeParser(s).Err?
  {
    NoSingleRangeWithoutSign(s);
    SrcFilterExamples.NoDoubleRangeWithoutDigits(s);
    OrOfTwo(SrcFilterSpec.DaysRangeSingle, NightsRangeDouble, s);
  }

  /** No expression starts at a `]`. */
  lemma NoExpressionAtClose(t: string)
    requires t != [] && t[0] == ']' && SrcFilterExamples.HasNoDigit(t)
    ensures SrcFilterSpec.TagExprParse(t).Err?
  {
    assert SrcFilterSpec.ParenExprParse(t).Err?;
    assert SrcFilterSpec.NotExprParse(t).Err?;
    NoRangeWithoutDigits(t);
    SrcFilterExamples.NoTagAtClose(t);
    assert SrcFilterSpec.OtherTagExprParse(t).Err?;
  }

  /** `[]` is a bracket with nothing in it. */
  lemma EmptyBracket(s: string)
    requires |s| == 2 && s[0] == '[' && s[1] == ']'
    ensures SrcFilterSpec.ItemBracket(s) == Ok(DefaultENDTE, [])
  {
    var t := s[1..];
    SrcFilterExamples.BracketOpens(s);
    SrcFilterExamples.CloseHasNoDigit(t);
    NoExpressionAtClose(t);
    SrcFilterExamples.EmptyBodyAtClose(SrcFilterSpec.TagExprParse, t);
    SrcFilterExamples.BracketCloses(t);
    SrcFilterExamples.EnclosedBy(SrcFilterSpec.ItemBracketBody, Space(Symbol("[")), Space(Symbol("]")),
                                 s, "[", t, DefaultENDTE, "]");
  }

  /** An empty bracket after the description gives the same item as none:
      no cadence and the empty expression. */
  lemma ItemWithEmptyBracket(name: string, s: string)
    requires Space(TextDesc)(s) == Ok(name, "[]")
    ensures SrcFilterSpec.ItemParser(s) == Ok(ItemLine(Item(name, None, Empty)), [])
  {
    EmptyBracket("[]");
    AndMapLaw(Space(TextDesc), SrcFilterSpec.ItemBracket, MakeItem, s);
    EofLaw(AndMap(Space(TextDesc), SrcFilterSpec.ItemBracket, MakeItem), s);
  }
}
