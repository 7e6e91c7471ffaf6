/** How the newest grammar (web/src/filterspec.ts) reads some characteristic
    lines: chains fold to the left with no precedence, `!` takes one atom,
    the unanchored `int` turns `x-1` into a range, identifiers may start with
    a digit, and an unclosed item bracket fails only at the end of the line. */
module WebGrammarExamples {
  import opened Wrappers
  import opened JsString
  import opened Parse
  import opened ItemText
  import opened WebGrammar

  predicate IsLetter(c: char) {
    ('A' <= c <= 'Z') || ('a' <= c <= 'z')
  }

  predicate HasNoDigit(s: string) {
    forall k :: 0 <= k < |s| ==> !IsDigit(s[k])
  }

  /** `w` is all identifier characters and is not followed by one. */
  lemma {:induction false} IdentRunOf(w: string, rest: string)
    requires forall k :: 0 <= k < |w| ==> IsIdentChar(w[k])
    requires rest == [] || !IsIdentChar(rest[0])
    ensures IdentRun(w + rest) == |w|
    decreases |w|
  {
    if w != [] {
      assert (w + rest)[1..] == w[1..] + rest;
      IdentRunOf(w[1..], rest);
    } else {
      assert w + rest == rest;
    }
  }

  lemma NoRangeOpAtLetter(s: string)
    requires s != [] && IsLetter(s[0])
    ensures Space(NightsRangeSingleOp)(s).Err?
  {
    assert RangeOpMatch(s).None?;
    TagLaw(Regex("^(==|<=?|>=?)", RangeOpMatch), RangeOps, s);
  }

  lemma NoSingleRangeAtLetter(s: string)
    requires s != [] && IsLetter(s[0])
    ensures NightsRangeSingle(s).Err? && NightsRangeSingle(s).rest == s
  {
    NoRangeOpAtLetter(s);
    AndMapLaw(Space(NightsRangeSingleOp), Space(Int), MakeRangeSingle, s);
  }

  lemma NoDoubleRangeWithoutDigits(s: string)
    requires HasNoDigit(s)
    ensures NightsRangeDouble(s).Err? && NightsRangeDouble(s).rest == s
  {
    assert FirstDigitRun(s).None?;
    AndMapLaw(Space(Int), NightsRangeDoubleHi, MakeRangeDouble, s);
  }

  /** Without digits in the input, neither range form can start. */
  lemma NoRangeWithoutDigits(s: string)
    requires s != [] && IsLetter(s[0]) && HasNoDigit(s)
    ensures NightsRangeParser(s).Err? && NightsRangeParser(s).rest == s
  {
    OrOfTwo(NightsRangeSingle, NightsRangeDouble, s);
    NoSingleRangeAtLetter(s);
    NoDoubleRangeWithoutDigits(s);
  }

  predicate IsWord(id: string) {
    id != [] && forall k :: 0 <= k < |id| ==> IsLetter(id[k])
  }

  lemma IdentMatchOfWord(id: string, rest: string)
    requires IsWord(id)
    requires rest == [] || !IsIdentChar(rest[0])
    ensures IdentMatch(id + rest) == Some(id)
  {
    var s := id + rest;
    assert s[1..] == id[1..] + rest;
    IdentRunOf(id[1..], rest);
    assert s[..|id|] == id;
  }

  lemma TagIdentOnWord(id: string, rest: string)
    requires IsWord(id)
    requires rest == [] || !IsIdentChar(rest[0])
    ensures TagIdentParser(id + rest) == Ok(id, rest)
  {
    IdentMatchOfWord(id, rest);
    assert Drop(id + rest, |id|) == rest;
    TagLaw(Regex("^[A-Za-z0-9_][A-Za-z0-9_-]*", IdentMatch), ["identifier"], id + rest);
  }

  lemma TagLitOnWord(id: string, rest: string)
    requires IsWord(id)
    requires rest == [] || !IsIdentChar(rest[0])
    ensures TagLit(id + rest) == Ok(TagIdent(id), SkipSpaces(rest))
  {
    TagIdentOnWord(id, rest);
    MapLaw(Space(TagIdentParser), MakeTagIdent, id + rest);
  }

  /** Without `(` or `!` in front, the first two alternatives of
      `otherTagExpr` fail. */
  lemma NoCompoundAt(s: string)
    requires s != [] && s[0] != '(' && s[0] != '!'
    ensures ParenExprParse(s).Err? && NotExprParse(s).Err?
  {
  }

  /** A word of letters followed by a non-identifier character is read as a
      tag, and the spaces after it are dropped. */
  lemma IdentAtom(id: string, rest: string)
    requires IsWord(id)
    requires rest == [] || !IsIdentChar(rest[0])
    requires HasNoDigit(id + rest)
    ensures OtherTagExprParse(id + rest) == Ok(TagIdent(id), SkipSpaces(rest))
  {
    var s := id + rest;
    assert s[0] == id[0];
    NoCompoundAt(s);
    NoRangeWithoutDigits(s);
    TagLitOnWord(id, rest);
    OrFromFour(s, ParenExprParse(s), NotExprParse(s), NightsRangeParser(s), TagLit(s));
  }

  predicate AllSpaces(pad: string) {
    forall k :: 0 <= k < |pad| ==> pad[k] == ' '
  }

  lemma ConsFacts(c: char, pad: string, t: string)
    ensures ([c] + pad + t)[..1] == [c]
    ensures ([c] + pad + t)[1..] == pad + t
  {
  }

  lemma RestParseAt(s: string)
    requires s != [] && IsBinOpChar(s[0])
    requires OtherTagExprParse(SkipSpaces(s[1..])).Ok?
    ensures BinOpExprRestParse(s) ==
      Ok((OpOf(s[..1]), OtherTagExprParse(SkipSpaces(s[1..])).value),
         SkipSpaces(OtherTagExprParse(SkipSpaces(s[1..])).rest))
  {
  }

  /** One link of a chain: an operator, spaces, and a word. */
  lemma OpWordStep(c: char, pad: string, id: string, rest: string)
    requires IsBinOpChar(c) && AllSpaces(pad) && IsWord(id)
    requires rest == [] || !IsIdentChar(rest[0])
    requires HasNoDigit(id + rest)
    ensures BinOpExprRestParse([c] + pad + (id + rest)) == Ok((OpOf([c]), TagIdent(id)), SkipSpaces(rest))
  {
    var t := id + rest;
    var s := [c] + pad + t;
    assert t[0] == id[0];
    SkipSpacesOfPad(pad, t);
    ConsFacts(c, pad, t);
    IdentAtom(id, rest);
    RestParseAt(s);
    SkipSpacesIdempotent(rest);
  }

  lemma RestsStep(s: string)
    requires s != [] && BinOpExprRestParse(s).Ok?
    ensures BinOpExprRests(s) ==
      Ok([BinOpExprRestParse(s).value] + BinOpExprRests(BinOpExprRestParse(s).rest).value,
         BinOpExprRests(BinOpExprRestParse(s).rest).rest)
  {
  }

  lemma RestsStop(s: string)
    requires s == [] || BinOpExprRestParse(s).Err?
    ensures BinOpExprRests(s) == Ok([], s)
  {
  }

  lemma TagExprOk(s: string)
    requires OtherTagExprParse(s).Ok?
    ensures TagExprParse(s) ==
      Ok(BinOpTree(OtherTagExprParse(s).value, BinOpExprRests(OtherTagExprParse(s).rest).value),
         BinOpExprRests(OtherTagExprParse(s).rest).rest)
  {
  }

  lemma LinksShape(c1: char, w1: string, c2: char, w2: string)
    ensures [c1, ' '] + w1 + ([' ', c2, ' '] + w2) == [c1] + [' '] + (w1 + ([' '] + ([c2, ' '] + w2)))
    ensures [c2, ' '] + w2 == [c2] + [' '] + (w2 + [])
    ensures w2 + [] == w2
  {
  }

  /** A chain of two operator links, each an operator, one space and a
      word, read from the rest of a line. */
  lemma TwoLinks(c1: char, w1: string, c2: char, w2: string)
    requires IsBinOpChar(c1) && IsBinOpChar(c2) && IsWord(w1) && IsWord(w2)
    requires HasNoDigit(w1 + ([' ', c2, ' '] + w2)) && HasNoDigit(w2)
    ensures BinOpExprRests([c1, ' '] + w1 + ([' ', c2, ' '] + w2)) ==
      Ok([(OpOf([c1]), TagIdent(w1)), (OpOf([c2]), TagIdent(w2))], [])
  {
    var tail := [c2, ' '] + w2;
    var s1 := [c1] + [' '] + (w1 + ([' '] + tail));
    LinksShape(c1, w1, c2, w2);
    assert AllSpaces([' ']) && AllSpaces([]);
    SkipSpacesOfPad([' '], tail);
    OpWordStep(c1, [' '], w1, [' '] + tail);
    SkipSpacesOfPad([], []);
    OpWordStep(c2, [' '], w2, []);
    CombineLinks(s1, tail, (OpOf([c1]), TagIdent(w1)), (OpOf([c2]), TagIdent(w2)));
  }

  lemma CombineLinks(s1: string, tail: string, link1: (BinOp, TagExpr), link2: (BinOp, TagExpr))
    requires s1 != [] && tail != []
    requires BinOpExprRestParse(s1) == Ok(link1, tail)
    requires BinOpExprRestParse(tail) == Ok(link2, [])
    ensures BinOpExprRests(s1) == Ok([link1, link2], [])
  {
    LastLink(tail, link2);
    PairOfLinks(link1, link2);
    RestsCons(s1, link1, tail, [link2], []);
  }

  lemma PairOfLinks(link1: (BinOp, TagExpr), link2: (BinOp, TagExpr))
    ensures [link1] + [link2] == [link1, link2]
  {
  }

  /** One more link in front of a parsed run of links. */
  lemma RestsCons(s: string, link: (BinOp, TagExpr), tail: string, links: seq<(BinOp, TagExpr)>, end: string)
    requires s != [] && BinOpExprRestParse(s) == Ok(link, tail)
    requires BinOpExprRests(tail) == Ok(links, end)
    ensures BinOpExprRests(s) == Ok([link] + links, end)
  {
    RestsStep(s);
  }

  lemma LastLink(tail: string, link: (BinOp, TagExpr))
    requires tail != []
    requires BinOpExprRestParse(tail) == Ok(link, [])
    ensures BinOpExprRests(tail) == Ok([link], [])
  {
    RestsStop([]);
    RestsStep(tail);
    assert [link] + [] == [link];
  }

  lemma FoldTwoLinks(s: string, x: TagExpr, links: string, link1: (BinOp, TagExpr), link2: (BinOp, TagExpr))
    requires OtherTagExprParse(s) == Ok(x, links)
    requires BinOpExprRests(links) == Ok([link1, link2], [])
    ensures TagExprParse(s) == Ok(BinOpExpr(BinOpExpr(x, link1.0, link1.1), link2.0, link2.1), [])
  {
    var binops := [link1, link2];
    assert binops[..1] == [link1] && [link1][..0] == [];
    assert BinOpTree(x, [link1]) == BinOpExpr(x, link1.0, link1.1);
    assert BinOpTree(x, binops) == BinOpExpr(BinOpTree(x, [link1]), link2.0, link2.1);
    TagExprOk(s);
  }

  lemma ChainShape(a: string, c1: char, b: string, c2: char, c: string)
    ensures a + [' ', c1, ' '] + b + [' ', c2, ' '] + c ==
      a + ([' '] + ([c1, ' '] + b + ([' ', c2, ' '] + c)))
  {
  }

  /** A chain of three words joined by two operators, spaced as usual, is
      folded to the left whatever the operators: `a & b | c` is
      `(a & b) | c` and `a | b & c` is `(a | b) & c`. */
  lemma ChainFoldsLeft(a: string, c1: char, b: string, c2: char, c: string)
    requires IsWord(a) && IsWord(b) && IsWord(c) && IsBinOpChar(c1) && IsBinOpChar(c2)
    ensures TagExprParse(a + [' ', c1, ' '] + b + [' ', c2, ' '] + c) ==
      Ok(BinOpExpr(BinOpExpr(TagIdent(a), OpOf([c1]), TagIdent(b)), OpOf([c2]), TagIdent(c)), [])
  {
    var links := [c1, ' '] + b + ([' ', c2, ' '] + c);
    var rest := [' '] + links;
    ChainShape(a, c1, b, c2, c);
    NoDigitInChain(a, c1, b, c2, c);
    assert AllSpaces([' ']);
    SkipSpacesOfPad([' '], links);
    IdentAtom(a, rest);
    TwoLinks(c1, b, c2, c);
    FoldTwoLinks(a + rest, TagIdent(a), links, (OpOf([c1]), TagIdent(b)), (OpOf([c2]), TagIdent(c)));
  }

  lemma NoDigitInChain(a: string, c1: char, b: string, c2: char, c: string)
    requires IsWord(a) && IsWord(b) && IsWord(c) && IsBinOpChar(c1) && IsBinOpChar(c2)
    ensures HasNoDigit(a + ([' '] + ([c1, ' '] + b + ([' ', c2, ' '] + c))))
    ensures HasNoDigit(b + ([' ', c2, ' '] + c)) && HasNoDigit(c)
  {
  }

  /** `!` followed by an atom is itself an atom. */
  lemma NotAt(s: string)
    requires s != [] && s[0] == '!' && OtherTagExprParse(s[1..]).Ok?
    ensures OtherTagExprParse(s) ==
      Ok(NotExpr(OtherTagExprParse(s[1..]).value), OtherTagExprParse(s[1..]).rest)
  {
  }

  lemma OneLink(s: string, link: (BinOp, TagExpr))
    requires s != [] && BinOpExprRestParse(s) == Ok(link, [])
    ensures BinOpExprRests(s) == Ok([link], [])
  {
    RestsStop([]);
    RestsStep(s);
    assert [link] + [] == [link];
  }

  lemma FoldOneLink(s: string, x: TagExpr, links: string, link: (BinOp, TagExpr))
    requires OtherTagExprParse(s) == Ok(x, links)
    requires BinOpExprRests(links) == Ok([link], [])
    ensures TagExprParse(s) == Ok(BinOpExpr(x, link.0, link.1), [])
  {
    assert [link][..0] == [];
    TagExprOk(s);
  }

  lemma NotShape(a: string, c: char, b: string)
    ensures (['!'] + a + ([' ', c, ' '] + b))[0] == '!'
    ensures (['!'] + a + ([' ', c, ' '] + b))[1..] == a + ([' '] + ([c, ' '] + b))
    ensures [c, ' '] + b == [c] + [' '] + (b + [])
    ensures b + [] == b
  {
  }

  /** `!` takes only the atom right after it: `!a | b` is `(!a) | b`. */
  lemma NotBindsOneAtom(a: string, c: char, b: string)
    requires IsWord(a) && IsWord(b) && IsBinOpChar(c)
    ensures TagExprParse(['!'] + a + ([' ', c, ' '] + b)) ==
      Ok(BinOpExpr(NotExpr(TagIdent(a)), OpOf([c]), TagIdent(b)), [])
  {
    var s := ['!'] + a + ([' ', c, ' '] + b);
    var links := [c, ' '] + b;
    NotShape(a, c, b);
    NoDigitInNot(a, c, b);
    assert AllSpaces([' ']) && AllSpaces([]);
    SkipSpacesOfPad([' '], links);
    IdentAtom(a, [' '] + links);
    NotAt(s);
    SkipSpacesOfPad([], []);
    OpWordStep(c, [' '], b, []);
    OneLink(links, (OpOf([c]), TagIdent(b)));
    FoldOneLink(s, NotExpr(TagIdent(a)), links, (OpOf([c]), TagIdent(b)));
  }

  lemma NoDigitInNot(a: string, c: char, b: string)
    requires IsWord(a) && IsWord(b) && IsBinOpChar(c)
    ensures HasNoDigit(a + ([' '] + ([c, ' '] + b))) && HasNoDigit(b + [])
  {
  }

  // -------------------------------------------------------------------
  // `x-1`: the unanchored `int` makes a range out of a word with a number

  lemma IntOfOne()
    ensures Int("1") == Ok(1, "")
  {
    IntLaw("1");
    assert DigitRun("1") == 1 by { assert "1"[1..] == []; }
    assert "1"[..1] == "1" && "1"[1..] == "";
    assert DecimalValue("1") == 1 by { assert "1"[..0] == []; }
  }

  lemma SpacedIntOfOne()
    ensures Space(Int)("1") == Ok(1, "")
  {
    IntOfOne();
    SkipSpacesOfPad([], []);
  }

  lemma DashOneHi()
    ensures NightsRangeDoubleHi("-1") == Ok(1, "")
  {
    SpacedCharLaw('-', "-1");
    assert "-1"[1..] == "1";
    SkipSpacesOfPad([], "1");
    assert [] + "1" == "1";
    SpacedIntOfOne();
    AndMapLaw(Space(NightsRangeDoubleOp), Space(Int), SecondOf, "-1");
  }

  lemma XDashOneDouble()
    ensures NightsRangeDouble("x-1") == Ok(NightsRange(Some(1), Some(1)), "")
  {
    IntFindsDigitsAnywhere();
    SkipSpacesOfPad([], "-1");
    assert [] + "-1" == "-1";
    DashOneHi();
    AndMapLaw(Space(Int), NightsRangeDoubleHi, MakeRangeDouble, "x-1");
  }

  lemma XDashOneRange()
    ensures NightsRangeParser("x-1") == Ok(NightsRange(Some(1), Some(1)), "")
  {
    NoSingleRangeAtLetter("x-1");
    XDashOneDouble();
    OrOfTwo(NightsRangeSingle, NightsRangeDouble, "x-1");
  }

  /** Ranges are tried before tags, and `int` finds the digit wherever it
      is: `x-1` is the range from 1 to 1 nights, not the tag `x-1`. */
  lemma WordDashOneIsRange()
    ensures TagExprParse("x-1") == Ok(NightsRange(Some(1), Some(1)), "")
  {
    NoCompoundAt("x-1");
    XDashOneRange();
    RestsStop([]);
    TagExprOk("x-1");
  }

  // -------------------------------------------------------------------
  // `3x`: a digit may open an identifier

  lemma ThreeXNotSingle()
    ensures NightsRangeSingle("3x").Err?
  {
    assert "3x"[..2] == "3x" && "3x"[..1] == "3";
    assert RangeOpMatch("3x").None?;
    TagLaw(Regex("^(==|<=?|>=?)", RangeOpMatch), RangeOps, "3x");
    AndMapLaw(Space(NightsRangeSingleOp), Space(Int), MakeRangeSingle, "3x");
  }

  lemma ThreeXNotDouble()
    ensures NightsRangeDouble("3x").Err?
  {
    IntLaw("3x");
    assert DigitRun("3x") == 1 by { assert "3x"[1..] == "x"; }
    assert "3x"[1..] == "x";
    SkipSpacesOfPad([], "x");
    assert [] + "x" == "x";
    SpacedCharLaw('-', "x");
    AndMapLaw(Space(NightsRangeDoubleOp), Space(Int), SecondOf, "x");
    AndMapLaw(Space(Int), NightsRangeDoubleHi, MakeRangeDouble, "3x");
  }

  lemma ThreeXTagLit()
    ensures TagLit("3x") == Ok(TagIdent("3x"), "")
  {
    assert IdentRun("x") == 1 by { assert "x"[1..] == []; }
    assert "3x"[1..] == "x" && "3x"[..2] == "3x";
    assert IdentMatch("3x") == Some("3x");
    assert Drop("3x", 2) == [];
    TagLaw(Regex("^[A-Za-z0-9_][A-Za-z0-9_-]*", IdentMatch), ["identifier"], "3x");
    SkipSpacesOfPad([], []);
    MapLaw(Space(TagIdentParser), MakeTagIdent, "3x");
  }

  lemma ThreeXAtom()
    ensures OtherTagExprParse("3x") == Ok(TagIdent("3x"), "")
  {
    NoCompoundAt("3x");
    ThreeXNotSingle();
    ThreeXNotDouble();
    OrOfTwo(NightsRangeSingle, NightsRangeDouble, "3x");
    ThreeXTagLit();
  }

  /** An identifier may start with a digit: `3x` is the tag `3x` (neither
      range form matches it, as no `-` follows the 3). */
  lemma DigitLedIdentifier()
    ensures TagExprParse("3x") == Ok(TagIdent("3x"), "")
  {
    ThreeXAtom();
    RestsStop([]);
    TagExprOk("3x");
  }

  // -------------------------------------------------------------------
  // `foo [`: the item bracket is optional, so an unclosed one is left over

  lemma FooDescription()
    ensures TextDesc("foo [") == Ok("foo", " [")
  {
    var s := "foo [";
    FooDescLength();
    TrimFoo();
    assert s[..4] == "foo ";
    assert s[3..] == " [";
  }

  lemma FooDescLength()
    ensures DescLength("foo [") == 4
  {
    var s := "foo [";
    assert s[4] == '[' && !IsDelimiter(s[0]) && !IsDelimiter(s[1]) && !IsDelimiter(s[2]) && !IsDelimiter(s[3]);
    assert s[1..][1..][1..][1..] == "[";
  }

  lemma TrimFoo()
    ensures TrimEnd("foo ") == "foo"
  {
    assert "foo "[..3] == "foo" && "foo"[..2] == "fo";
  }

  lemma SpacedFooDescription()
    ensures Space(TextDesc)("foo [") == Ok("foo", "[")
  {
    FooDescription();
    assert AllSpaces([' ']);
    SkipSpacesOfPad([' '], "[");
    assert [' '] + "[" == " [";
  }

  lemma EmptyRestOfEmpty(r: string)
    requires IsSuffix(r, [])
    ensures r == []
  {
  }

  lemma ItemBracketBodySuffixing()
    ensures Suffixing(ItemBracketBody)
  {
    EveryNNightsSuffixing();
    assert Suffixing(TagExprParse) by {
      forall s ensures IsSuffix(TagExprParse(s).rest, s) { }
    }
  }

  /** An opening bracket with nothing after it is no bracket: the optional
      bracket falls back to its default and leaves the `[` unread. */
  lemma UnclosedBracket()
    ensures ItemBracket("[") == Ok(DefaultENDTE, "[")
  {
    var open, close := Space(Symbol("[")), Space(Symbol("]"));
    SpacedCharLaw('[', "[");
    assert "["[1..] == [];
    SkipSpacesOfPad([], []);
    ItemBracketBodySuffixing();
    EmptyRestOfEmpty(ItemBracketBody([]).rest);
    SpacedCharLaw(']', []);
    ParensLaw(ItemBracketBody, open, close, "[");
    OptionalLaw(Parens(ItemBracketBody, open, close), DefaultENDTE, "[");
  }

  lemma FooItem()
    ensures ItemParser("foo [") == Ok(ItemLine(Item("foo", None, Empty)), "[")
  {
    SpacedFooDescription();
    UnclosedBracket();
    AndMapLaw(Space(TextDesc), ItemBracket, MakeItem, "foo [");
  }

  lemma FooNotCategory()
    ensures CategoryParser("foo [").Err?
  {
    SpacedCharLaw('#', "foo [");
    AndLaw(Space(Symbol("#")), Space(TextDesc), "foo [");
    AndLaw(And(Space(Symbol("#")), Space(TextDesc)), CategoryBracket, "foo [");
    MapLaw(And(And(Space(Symbol("#")), Space(TextDesc)), CategoryBracket), MakeCategory, "foo [");
  }

  lemma NoLeadingSpaces(s: string)
    requires s != [] && s[0] != ' '
    ensures Space(EmptyParser())(s) == Ok((), s)
  {
    SkipSpacesOfPad([], s);
    assert [] + s == s;
  }

  lemma FooLineAlternatives()
    ensures Or([CategoryParser, AndMap(Space(EmptyParser()), ItemParser, SecondOf)])("foo [") ==
      Ok(ItemLine(Item("foo", None, Empty)), "[")
  {
    var itemAlt := AndMap(Space(EmptyParser()), ItemParser, SecondOf);
    NoLeadingSpaces("foo [");
    FooItem();
    AndMapLaw(Space(EmptyParser()), ItemParser, SecondOf, "foo [");
    FooNotCategory();
    OrOfTwo(CategoryParser, itemAlt, "foo [");
  }

  /** `foo [` is an item `foo` followed by text the line parser cannot use:
      the line fails only at the end-of-line check, at the `[`. */
  lemma UnclosedItemBracketFailsAtEof()
    ensures FilterLineParser("foo [") == Err({"<eof>"}, "[")
  {
    var alternatives := Or([CategoryParser, AndMap(Space(EmptyParser()), ItemParser, SecondOf)]);
    NoLeadingSpaces("foo [");
    FooLineAlternatives();
    AndMapLaw(Space(EmptyParser()), alternatives, SecondOf, "foo [");
    EofLaw(AndMap(Space(EmptyParser()), alternatives, SecondOf), "foo [");
  }
}
