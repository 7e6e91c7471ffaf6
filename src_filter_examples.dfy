/** How the oldest grammar (src/filter.ts) reads some characteristic lines:
    operator chains nest to the right, `!` takes the whole chain after it,
    an empty item bracket is the same as none, and a lone `#` is an item.
    The words stand for any tag names made of letters. */
module SrcFilterExamples {
  import opened Wrappers
  import opened JsString
  import opened Parse
  import opened ItemText
  import opened SrcFilter
  import WebGrammar
  import WebGrammarExamples
  import SrcFilterSpec

  predicate IsWord(id: string) {
    WebGrammarExamples.IsWord(id)
  }

  predicate HasNoDigit(s: string) {
    forall k :: 0 <= k < |s| ==> !IsDigit(s[k])
  }

  // -------------------------------------------------------------------
  // Single steps of the grammar

  lemma NoParenAt(s: string)
    requires s == [] || s[0] != '('
    ensures ParenExprParse(s).Err?
  {
  }

  lemma NoNegationAt(s: string)
    requires s == [] || s[0] != '!'
    ensures NotExprParse(s).Err?
  {
  }

  lemma NoOperatorAt(u: string)
    requires u == [] || !WebGrammar.IsBinOpChar(u[0])
    ensures BinOpExprRestParse(u).Err?
  {
  }

  /** A single-ended range needs a comparison sign first. */
  lemma NoSingleRangeWithoutSign(s: string)
    requires s == [] || (s[0] != '=' && s[0] != '<' && s[0] != '>')
    ensures DaysRangeSingle(s).Err?
  {
    assert WebGrammar.RangeOpMatch(s).None?;
    assert WebGrammar.NightsRangeSingleOp(s).Err?;
    AndMapLaw(Space(WebGrammar.NightsRangeSingleOp), Space(Int), MakeRangeSingle, s);
  }

  /** A double-ended range needs a digit somewhere. */
  lemma NoDoubleRangeWithoutDigits(s: string)
    requires HasNoDigit(s)
    ensures WebGrammar.NightsRangeDouble(s).Err?
  {
    IntLaw(s);
    AndMapLaw(Space(Int), WebGrammar.NightsRangeDoubleHi, WebGrammar.MakeRangeDouble, s);
  }

  lemma NoRangeWithoutDigits(s: string)
    requires s == [] || (s[0] != '=' && s[0] != '<' && s[0] != '>')
    requires HasNoDigit(s)
    ensures DaysRangeParser(s).Err?
  {
    NoSingleRangeWithoutSign(s);
    NoDoubleRangeWithoutDigits(s);
    OrOfTwo(DaysRangeSingle, WebGrammar.NightsRangeDouble, s);
  }

  /** A word of letters, not followed by an identifier character, is read
      as a tag, with the spaces after it dropped. */
  lemma TagOnWord(id: string, rest: string)
    requires IsWord(id)
    requires rest == [] || !WebGrammar.IsIdentChar(rest[0])
    ensures SrcFilterSpec.TagIdentParser(id + rest) == Ok(WebGrammar.TagIdent(id), SkipSpaces(rest))
  {
    var s := id + rest;
    assert s[1..] == id[1..] + rest;
    WebGrammarExamples.IdentRunOf(id[1..], rest);
    assert s[..|id|] == id && s[|id|..] == rest;
    SrcFilterSpec.TagIdentLaw(s);
  }

  lemma AtomIsTagParser(s: string)
    requires s != [] && SrcFilterSpec.IsIdentStart(s[0])
    requires DaysRangeParser(s).Err?
    ensures OtherTagExprParse(s) == SrcFilterSpec.TagIdentParser(s)
  {
    NoParenAt(s);
    NoNegationAt(s);
    SrcFilterSpec.TagIdentLaw(s);
  }

  lemma IdentAtom(id: string, rest: string)
    requires IsWord(id)
    requires rest == [] || !WebGrammar.IsIdentChar(rest[0])
    requires HasNoDigit(id + rest)
    ensures OtherTagExprParse(id + rest) == Ok(WebGrammar.TagIdent(id), SkipSpaces(rest))
  {
    var s := id + rest;
    assert s[0] == id[0];
    NoRangeWithoutDigits(s);
    TagOnWord(id, rest);
    AtomIsTagParser(s);
  }

  /** An atom with no operator after it is the whole expression. */
  lemma AtomAlone(s: string)
    requires OtherTagExprParse(s).Ok?
    requires BinOpExprRestParse(OtherTagExprParse(s).rest).Err?
    ensures TagExprParse(s) == OtherTagExprParse(s)
  {
  }

  /** An atom followed by an operator step. */
  lemma AtomThenStep(s: string)
    requires OtherTagExprParse(s).Ok?
    requires BinOpExprRestParse(OtherTagExprParse(s).rest).Ok?
    ensures var step := BinOpExprRestParse(OtherTagExprParse(s).rest);
      TagExprParse(s) == Ok(WebGrammar.BinOpExpr(OtherTagExprParse(s).value, step.value.0, step.value.1), step.rest)
  {
  }

  lemma PadShape(c: char, t: string)
    ensures [' ', c, ' '] + t == [' '] + ([c, ' '] + t)
    ensures ([c, ' '] + t)[1..] == [' '] + t && ([c, ' '] + t)[..1] == [c]
  {
  }

  /** An operator, one space, and an expression that reads to the end. */
  lemma OperatorStep(c: char, t: string, x: WebGrammar.TagExpr)
    requires WebGrammar.IsBinOpChar(c)
    requires t == [] || t[0] != ' '
    requires TagExprParse(t) == Ok(x, [])
    ensures BinOpExprRestParse([c, ' '] + t) == Ok((WebGrammar.OpOf([c]), x), [])
  {
    PadShape(c, t);
    SkipOneSpace([' '] + t);
    NothingToSkip();
    StepAt([c, ' '] + t, t, x, []);
  }

  lemma SpacedOperator(c: char, t: string)
    requires WebGrammar.IsBinOpChar(c)
    ensures SkipSpaces([' ', c, ' '] + t) == [c, ' '] + t
  {
    PadShape(c, t);
    SkipSpacesOfPad([' '], [c, ' '] + t);
  }

  lemma WordAlone(w: string)
    requires IsWord(w)
    ensures TagExprParse(w) == Ok(WebGrammar.TagIdent(w), [])
  {
    assert w + [] == w;
    assert HasNoDigit(w);
    IdentAtom(w, []);
    SkipSpacesOfPad([], []);
    NoOperatorAt([]);
    AtomAlone(w);
  }

  /** A word, a spaced operator, and an expression `t` that reads to the
      end: the operator's right operand is all of `t`. */
  lemma WordThenOperator(w: string, c: char, t: string, x: WebGrammar.TagExpr)
    requires IsWord(w) && WebGrammar.IsBinOpChar(c)
    requires t == [] || t[0] != ' '
    requires HasNoDigit(w + ([' ', c, ' '] + t))
    requires TagExprParse(t) == Ok(x, [])
    ensures TagExprParse(w + ([' ', c, ' '] + t)) == Ok(WebGrammar.BinOpExpr(WebGrammar.TagIdent(w), WebGrammar.OpOf([c]), x), [])
  {
    IdentAtom(w, [' ', c, ' '] + t);
    SpacedOperator(c, t);
    OperatorStep(c, t, x);
    AtomThenStep(w + ([' ', c, ' '] + t));
  }

  // -------------------------------------------------------------------
  // Nesting

  lemma ChainShape(a: string, c1: char, b: string, c2: char, c: string)
    ensures a + [' ', c1, ' '] + b + [' ', c2, ' '] + c == a + ([' ', c1, ' '] + (b + ([' ', c2, ' '] + c)))
  {
  }

  lemma NoDigitInChain(a: string, c1: char, b: string, c2: char, c: string)
    requires IsWord(a) && IsWord(b) && IsWord(c)
    requires WebGrammar.IsBinOpChar(c1) && WebGrammar.IsBinOpChar(c2)
    ensures HasNoDigit(a + ([' ', c1, ' '] + (b + ([' ', c2, ' '] + c))))
    ensures HasNoDigit(b + ([' ', c2, ' '] + c))
  {
  }

  /** A chain of three words joined by two operators nests to the right,
      whatever the operators: `a | b & c` is `a | (b & c)` and `a & b | c`
      is `a & (b | c)`. */
  lemma ChainNestsRight(a: string, c1: char, b: string, c2: char, c: string)
    requires IsWord(a) && IsWord(b) && IsWord(c)
    requires WebGrammar.IsBinOpChar(c1) && WebGrammar.IsBinOpChar(c2)
    ensures TagExprParse(a + [' ', c1, ' '] + b + [' ', c2, ' '] + c) ==
      Ok(WebGrammar.BinOpExpr(WebGrammar.TagIdent(a), WebGrammar.OpOf([c1]),
           WebGrammar.BinOpExpr(WebGrammar.TagIdent(b), WebGrammar.OpOf([c2]), WebGrammar.TagIdent(c))), [])
  {
    ChainShape(a, c1, b, c2, c);
    NoDigitInChain(a, c1, b, c2, c);
    WordAlone(c);
    WordThenOperator(b, c2, c, WebGrammar.TagIdent(c));
    WordThenOperator(a, c1, b + ([' ', c2, ' '] + c),
      WebGrammar.BinOpExpr(WebGrammar.TagIdent(b), WebGrammar.OpOf([c2]), WebGrammar.TagIdent(c)));
  }

  /** The same text means something else in the newer grammar: `a | b & c`
      with only `a` active holds here and fails there. */
  lemma ChainDiffersFromNewer(a: string, b: string, c: string)
    requires IsWord(a) && IsWord(b) && IsWord(c) && a != b && a != c
    ensures var text := a + [' ', '|', ' '] + b + [' ', '&', ' '] + c;
      && TagExprParse(text).Ok? && WebGrammar.TagExprParse(text).Ok?
      && ExprIsMatch({a}, 0, TagExprParse(text).value)
      && !ExprIsMatch({a}, 0, WebGrammar.TagExprParse(text).value)
  {
    ChainNestsRight(a, '|', b, '&', c);
    WebGrammarExamples.ChainFoldsLeft(a, '|', b, '&', c);
    OrAndOps();
    RightNestedHolds(a, b, c);
    LeftNestedFails(a, b, c);
  }

  lemma OrAndOps()
    ensures WebGrammar.OpOf(['|']) == WebGrammar.OrOp && WebGrammar.OpOf(['&']) == WebGrammar.AndOp
  {
  }

  lemma RightNestedHolds(a: string, b: string, c: string)
    ensures ExprIsMatch({a}, 0, WebGrammar.BinOpExpr(WebGrammar.TagIdent(a), WebGrammar.OrOp,
      WebGrammar.BinOpExpr(WebGrammar.TagIdent(b), WebGrammar.AndOp, WebGrammar.TagIdent(c))))
  {
  }

  lemma LeftNestedFails(a: string, b: string, c: string)
    requires a != c
    ensures !ExprIsMatch({a}, 0, WebGrammar.BinOpExpr(WebGrammar.BinOpExpr(WebGrammar.TagIdent(a),
      WebGrammar.OrOp, WebGrammar.TagIdent(b)), WebGrammar.AndOp, WebGrammar.TagIdent(c)))
  {
  }

  lemma NotShape(a: string, c: char, b: string)
    ensures (['!'] + a + ([' ', c, ' '] + b))[0] == '!'
    ensures (['!'] + a + ([' ', c, ' '] + b))[1..] == a + ([' ', c, ' '] + b)
  {
  }

  lemma NegationAt(s: string)
    requires s != [] && s[0] == '!' && TagExprParse(s[1..]).Ok?
    ensures OtherTagExprParse(s) == Ok(WebGrammar.NotExpr(TagExprParse(s[1..]).value), TagExprParse(s[1..]).rest)
  {
    NoParenAt(s);
  }

  /** `!` takes the whole chain after it: `!a | b` is `!(a | b)`, where the
      newer grammar reads `(!a) | b`. */
  lemma NotTakesWholeChain(a: string, c: char, b: string)
    requires IsWord(a) && IsWord(b) && WebGrammar.IsBinOpChar(c)
    ensures var text := ['!'] + a + ([' ', c, ' '] + b);
      TagExprParse(text) ==
        Ok(WebGrammar.NotExpr(WebGrammar.BinOpExpr(WebGrammar.TagIdent(a), WebGrammar.OpOf([c]), WebGrammar.TagIdent(b))), [])
  {
    var text := ['!'] + a + ([' ', c, ' '] + b);
    var x := WebGrammar.BinOpExpr(WebGrammar.TagIdent(a), WebGrammar.OpOf([c]), WebGrammar.TagIdent(b));
    NotShape(a, c, b);
    assert HasNoDigit(a + ([' ', c, ' '] + b));
    WordAlone(b);
    WordThenOperator(a, c, b, WebGrammar.TagIdent(b));
    NegationAt(text);
    NoOperatorAt([]);
    AtomAlone(text);
  }

  // -------------------------------------------------------------------
  // Lines

  /** A lone `#` reads as a description of itself. */
  lemma HashDescription()
    ensures Space(TextDesc)("#") == Ok("#", [])
  {
    var s := "#";
    assert !IsDelimiter(s[0]);
    assert DescLength(s) == 1;
    assert s[..1] == "#";
    assert TrimEnd("#") == "#";
    assert s[1..] == [];
    SkipSpacesOfPad([], []);
  }

  /** `#` followed by nothing is not a category: it names nothing. */
  lemma LoneHashNamesNothing()
    ensures CategoryParser("#").Err?
  {
    SpacedCharLaw('#', "#");
    assert "#"[1..] == [];
    SkipSpacesOfPad([], []);
    TextDescFails([]);
    AndMapLaw(Space(Symbol("#")), TextDesc, MakeCategoryHeading, "#");
  }

  /** A lone `#` is not a category, so the item grammar reads it as an
      item called `#`. */
  lemma LoneHashIsItem()
    ensures LineParser("#") == Ok(ItemEntry(WebGrammar.Item("#", None, WebGrammar.Empty)), [])
  {
    LoneHashNamesNothing();
    HashDescription();
    ItemWithoutBracket("#", "#");
    OrOfTwo(CategoryParser, ItemParser, "#");
  }

  /** No cadence starts at a `]`. */
  lemma NoCadenceAtClose(t: string)
    requires t != [] && t[0] == ']'
    ensures Optional(Map(Space(EveryNNights), WebGrammar.MakeSome), None)(t) == Ok(None, t)
  {
    SymbolCharFails('*', t);
    AndMapLaw(Symbol("*"), Float, SecondOf, t);
    OptionalLaw(Map(Space(EveryNNights), WebGrammar.MakeSome), None, t);
  }

  lemma NoTagAtClose(t: string)
    requires t != [] && t[0] == ']'
    ensures SrcFilterSpec.TagIdentParser(t).Err?
  {
    SrcFilterSpec.TagIdentLaw(t);
  }

  lemma NoAtomAtClose(t: string)
    requires t != [] && t[0] == ']' && HasNoDigit(t)
    ensures OtherTagExprParse(t).Err?
  {
    NoParenAt(t);
    NoNegationAt(t);
    NoRangeWithoutDigits(t);
    NoTagAtClose(t);
  }

  /** No expression starts at a `]`. */
  lemma NoExpressionAtClose(t: string)
    requires t != [] && t[0] == ']' && HasNoDigit(t)
    ensures TagExprParse(t).Err?
  {
    NoAtomAtClose(t);
  }

  /** Inside a bracket, both optional parts read nothing at the `]`. */
  lemma EmptyBracketBody(t: string)
    requires t != [] && t[0] == ']' && HasNoDigit(t)
    ensures ItemBracketBody(t) == Ok(WebGrammar.DefaultENDTE, t)
  {
    NoExpressionAtClose(t);
    EmptyBodyAtClose(TagExprParse, t);
  }

  /** An item bracket's body over any tag-expression grammar reads nothing
      at a `]` where no expression starts: no cadence, no expression. */
  lemma EmptyBodyAtClose(tagExpr: Parser<WebGrammar.TagExpr>, t: string)
    requires t != [] && t[0] == ']' && tagExpr(t).Err?
    ensures Optional(And(Optional(Map(Space(EveryNNights), WebGrammar.MakeSome), None),
                         Optional(Space(tagExpr), WebGrammar.Empty)),
                     WebGrammar.DefaultENDTE)(t) == Ok(WebGrammar.DefaultENDTE, t)
  {
    var every := Optional(Map(Space(EveryNNights), WebGrammar.MakeSome), None);
    var tags := Optional(Space(tagExpr), WebGrammar.Empty);
    NoCadenceAtClose(t);
    SpaceLaw(tagExpr, t);
    OptionalLaw(Space(tagExpr), WebGrammar.Empty, t);
    AndLaw(every, tags, t);
    OptionalLaw(And(every, tags), WebGrammar.DefaultENDTE, t);
  }

  lemma BracketOpens(s: string)
    requires |s| == 2 && s[0] == '[' && s[1] == ']'
    ensures Space(Symbol("["))(s) == Ok("[", s[1..])
  {
    SpacedCharLaw('[', s);
    SkipSpacesOfPad([], s[1..]);
    assert [] + s[1..] == s[1..];
  }

  lemma BracketCloses(t: string)
    requires |t| == 1 && t[0] == ']'
    ensures Space(Symbol("]"))(t) == Ok("]", [])
  {
    SpacedCharLaw(']', t);
    assert t[1..] == [];
    NothingToSkip();
  }

  /** `[]` is a bracket with nothing in it. */
  lemma EmptyBracket(s: string)
    requires |s| == 2 && s[0] == '[' && s[1] == ']'
    ensures ItemBracket(s) == Ok(WebGrammar.DefaultENDTE, [])
  {
    var t := s[1..];
    BracketOpens(s);
    CloseHasNoDigit(t);
    EmptyBracketBody(t);
    BracketCloses(t);
    EnclosedBy(ItemBracketBody, Space(Symbol("[")), Space(Symbol("]")), s, "[", t, WebGrammar.DefaultENDTE, "]");
  }

  lemma CloseHasNoDigit(t: string)
    requires |t| == 1 && t[0] == ']'
    ensures t != [] && t[0] == ']' && HasNoDigit(t)
  {
  }

  /** A bracketed body that reads nothing, between an opening and a closing
      symbol that together read the whole input. */
  lemma EnclosedBy<T>(body: Parser<T>, open: Parser<string>, close: Parser<string>, s: string,
                      o: string, t: string, v: T, c: string)
    requires open(s) == Ok(o, t) && body(t) == Ok(v, t) && close(t) == Ok(c, [])
    ensures Optional(Parens(body, open, close), v)(s) == Ok(v, [])
  {
    ParensLaw(body, open, close, s);
    OptionalLaw(Parens(body, open, close), v, s);
  }

  /** An empty bracket after the description gives the same item as none. */
  lemma ItemWithEmptyBracket(name: string, s: string)
    requires Space(TextDesc)(s) == Ok(name, "[]")
    ensures ItemParser(s) == Ok(ItemEntry(WebGrammar.Item(name, None, WebGrammar.Empty)), [])
  {
    EmptyBracket("[]");
    AndMapLaw(Space(TextDesc), ItemBracket, MakeItemEntry, s);
  }
}
