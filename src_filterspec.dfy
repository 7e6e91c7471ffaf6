/** The older template language of src/filterspec.ts. Its trees, items,
    categories and the line-by-line compilation (`parseDatabase`) have the
    same shape as in web/src/filterspec.ts and reuse those definitions (a
    `DaysRange` is the `NightsRange` constructor, its `days` the `nights`
    of the filter); what differs is modelled here: the single-ended ranges
    are built for an EXCLUSIVE upper bound, identifiers start with a letter
    or `_`, `!` takes a whole expression, a failing expression is reported
    at its start, and a line is a category exactly when it starts with `#`. */
module SrcFilterSpec {
  import opened Wrappers
  import opened JsString
  import opened Parse
  import opened ItemText
  import opened WebGrammar
  import opened WebEval
  import opened WebCompile

  // ---------------------------------------------------------------------
  // Ranges

  /** `makeRangeSingle` of this version. As in the newer grammar, the
      operator pattern only yields the five operators of `RangeOps`, so
      the last branch stands for `>=`. */
  function MakeRangeSingle(op: string, num: nat): (r: TagExpr)
    ensures r.NightsRange?
  {
    if op == "==" then NightsRange(Some(num), Some(num))
    else if op == "<" then NightsRange(None, Some(num))
    else if op == "<=" then NightsRange(None, Some(num))
    else if op == ">" then NightsRange(Some(num + 1), None)
    else NightsRange(Some(num), None)
  }

  /** The range check of `exprIsMatch`: the lower bound is inclusive, the
      upper bound exclusive. */
  predicate DaysRangeIsMatch(days: int, lo: Option<int>, hi: Option<int>) {
    !(lo.Some? && days < lo.value) && !(hi.Some? && days >= hi.value)
  }

  /** `<`, `>` and `>=` accept exactly the days they name. */
  lemma StrictAndLowerRangesAccept(op: string, num: nat, days: int)
    requires op == "<" || op == ">" || op == ">="
    ensures var r := MakeRangeSingle(op, num);
      DaysRangeIsMatch(days, r.lo, r.hi) <==> Compares(op, days, num)
  {
  }

  /** `<=N` builds the same range as `<N`, so it accepts only days below N. */
  lemma AtMostIsBelow(num: nat, days: int)
    ensures MakeRangeSingle("<=", num) == MakeRangeSingle("<", num)
    ensures var r := MakeRangeSingle("<=", num);
      DaysRangeIsMatch(days, r.lo, r.hi) <==> days < num
  {
  }

  /** `==N` builds a range whose exclusive upper bound equals its lower
      bound: it accepts no number of days at all. */
  lemma EqualsMatchesNothing(num: nat, days: int)
    ensures var r := MakeRangeSingle("==", num); !DaysRangeIsMatch(days, r.lo, r.hi)
  {
  }

  /** `A-B` accepts the days from A up to, but not including, B. */
  lemma DoubleRangeAcceptsBelowHi(lo: nat, hi: nat, days: int)
    ensures var r := MakeRangeDouble(lo, hi);
      DaysRangeIsMatch(days, r.lo, r.hi) <==> lo <= days < hi
  {
  }

  /** A witness that the single-ended ranges as written miss what `<=` and
      `==` name: ten days are not "at most ten", nor "exactly ten". */
  lemma RangeAsWrittenMisses()
    ensures Compares("<=", 10, 10) && !DaysRangeIsMatch(10, MakeRangeSingle("<=", 10).lo, MakeRangeSingle("<=", 10).hi)
    ensures Compares("==", 10, 10) && !DaysRangeIsMatch(10, MakeRangeSingle("==", 10).lo, MakeRangeSingle("==", 10).hi)
  {
  }

  /** The ranges the operators evidently mean, for the exclusive upper
      bound the evaluator checks: `<=N` and `==N` end before N + 1. */
  function IntendedRangeSingle(op: string, num: nat): (r: TagExpr)
    ensures r.NightsRange?
  {
    if op == "==" then NightsRange(Some(num), Some(num + 1))
    else if op == "<" then NightsRange(None, Some(num))
    else if op == "<=" then NightsRange(None, Some(num + 1))
    else if op == ">" then NightsRange(Some(num + 1), None)
    else NightsRange(Some(num), None)
  }

  /** With the intended ranges every operator accepts exactly the days it
      names. */
  lemma IntendedRangeAccepts(op: string, num: nat, days: int)
    requires op in RangeOps
    ensures var r := IntendedRangeSingle(op, num);
      DaysRangeIsMatch(days, r.lo, r.hi) <==> Compares(op, days, num)
  {
  }

  // ---------------------------------------------------------------------
  // Lexical pieces

  predicate IsIdentStart(c: char) {
    ('A' <= c <= 'Z') || ('a' <= c <= 'z') || c == '_'
  }

  /** The first match of `/^[A-Za-z_][A-Za-z0-9_-]*\/`: a letter or `_`,
      then any run of letters, digits, `_` and `-`. */
  function IdentMatch(s: string): Option<string> {
    if s != [] && IsIdentStart(s[0]) then Some(s[..1 + IdentRun(s[1..])]) else None
  }

  const DaysRangeSingle: Parser<TagExpr> :=
    AndMap(Space(NightsRangeSingleOp), Space(Int), MakeRangeSingle)

  const DaysRangeParser: Parser<TagExpr> := Or([DaysRangeSingle, NightsRangeDouble])

  const IdentParser: Parser<string> :=
    Tag(Regex("^[A-Za-z_][A-Za-z0-9_-]*", IdentMatch), ["identifier"])

  const TagIdentParser: Parser<TagExpr> := Map(Space(IdentParser), MakeTagIdent)

  /** `ident` reads a whole identifier, which starts with a letter or
      `_`; at any other character, a digit in particular, it fails where it
      stands expecting an identifier. */
  lemma IdentLaw(s: string)
    ensures IdentParser(s).Ok? <==> s != [] && IsIdentStart(s[0])
    ensures IdentParser(s).Ok? ==>
      var n := 1 + IdentRun(s[1..]);
      n <= |s| && IdentParser(s) == Ok(s[..n], s[n..])
    ensures IdentParser(s).Err? ==> IdentParser(s) == Err({"identifier"}, s)
  {
    var m := IdentMatch(s);
    if m.Some? {
      assert Drop(s, |m.value|) == s[|m.value|..];
    } else {
      assert (set n | n in ["identifier"]) == {"identifier"};
    }
  }

  /** `tagIdent`: the identifier as a tag, with the spaces after it
      dropped. */
  lemma TagIdentLaw(s: string)
    ensures TagIdentParser(s).Ok? <==> s != [] && IsIdentStart(s[0])
    ensures TagIdentParser(s).Ok? ==>
      var n := 1 + IdentRun(s[1..]);
      n <= |s| && TagIdentParser(s) == Ok(TagIdent(s[..n]), SkipSpaces(s[n..]))
    ensures TagIdentParser(s).Err? ==> TagIdentParser(s) == Err({"identifier"}, s)
  {
    IdentLaw(s);
  }

  lemma DaysRangeSuffixing()
    ensures Suffixing(DaysRangeParser)
  {
    IntSuffixing();
    assert Suffixing(DaysRangeSingle);
    assert Suffixing(NightsRangeDouble);
    var alternatives := [DaysRangeSingle, NightsRangeDouble];
    assert forall i :: 0 <= i < |alternatives| ==> Suffixing(alternatives[i]);
  }

  lemma DaysRangeRestSuffix(s: string)
    ensures IsSuffix(DaysRangeParser(s).rest, s)
  {
    DaysRangeSuffixing();
  }

  lemma TagIdentRestSuffix(s: string)
    ensures IsSuffix(TagIdentParser(s).rest, s)
  {
    TagIdentLaw(s);
  }

  // ---------------------------------------------------------------------
  // The recursive tag-expression grammar, as mutually recursive functions
  // on the input text; the agreement lemmas below tie each to the
  // combinator composition of the source.

  /** `notExpr`: `!` directly followed by a whole tag expression. */
  function NotExprParse(s: string): (r: PResult<TagExpr>)
    ensures IsSuffix(r.rest, s)
    decreases |s|, 0
  {
    if s != [] && s[0] == '!' then
      var inner := TagExprParse(s[1..]);
      SuffixTrans(inner.rest, s[1..], s);
      match inner
      case Err(e, rest) => Err(e, rest)
      case Ok(x, rest) => Ok(NotExpr(x), rest)
    else Err({"'!'"}, s)
  }

  /** `parenExpr`: a spaced `(`, a spaced tag expression, a spaced `)`. */
  function ParenExprParse(s: string): (r: PResult<TagExpr>)
    ensures IsSuffix(r.rest, s)
    decreases |s|, 0
  {
    if s != [] && s[0] == '(' then
      var open := SkipSpaces(s[1..]);
      SuffixTrans(open, s[1..], s);
      var body := TagExprParse(open);
      SuffixTrans(body.rest, open, s);
      match body
      case Err(e, rest) => Err(e, rest)
      case Ok(x, rest) =>
        var after := SkipSpaces(rest);
        SuffixTrans(after, rest, s);
        if after != [] && after[0] == ')' then
          SuffixTrans(SkipSpaces(after[1..]), after[1..], after);
          SuffixTrans(SkipSpaces(after[1..]), after, s);
          Ok(x, SkipSpaces(after[1..]))
        else Err({"')'"}, after)
    else Err({"'('"}, s)
  }

  /** `otherTagExpr`: a parenthesised expression, a negation, a days range
      or a tag, tried in that order on the same input. */
  function OtherTagExprParse(s: string): (r: PResult<TagExpr>)
    ensures IsSuffix(r.rest, s)
    ensures r.Err? ==> r.rest == s
    decreases |s|, 1
  {
    var paren := ParenExprParse(s);
    if paren.Ok? then paren
    else
      var not := NotExprParse(s);
      if not.Ok? then not
      else
        var range := DaysRangeParser(s);
        DaysRangeRestSuffix(s);
        if range.Ok? then range
        else
          var lit := TagIdentParser(s);
          TagIdentRestSuffix(s);
          if lit.Ok? then lit
          else Err(paren.expected + not.expected + range.expected + lit.expected, s)
  }

  /** `binOpExprRest`: a spaced operator and a spaced atom. */
  function BinOpExprRestParse(s: string): (r: PResult<(BinOp, TagExpr)>)
    ensures IsSuffix(r.rest, s)
    ensures r.Ok? ==> |r.rest| < |s|
    decreases |s|, 0
  {
    if s != [] && IsBinOpChar(s[0]) then
      var t := SkipSpaces(s[1..]);
      SuffixTrans(t, s[1..], s);
      var atom := OtherTagExprParse(t);
      SuffixTrans(atom.rest, t, s);
      if atom.Err? then Err(atom.expected, atom.rest)
      else
        SuffixTrans(SkipSpaces(atom.rest), atom.rest, s);
        Ok((OpOf(s[..1]), atom.value), SkipSpaces(atom.rest))
    else Err({"'&'", "'|'", "'^'"}, s)
  }

  /** `binOpExprRest.many()`. */
  function BinOpExprRests(s: string): (r: PResult<seq<(BinOp, TagExpr)>>)
    ensures r.Ok? && IsSuffix(r.rest, s)
    decreases |s|, 1
  {
    if s == [] then Ok([], s)
    else
      var step := BinOpExprRestParse(s);
      if step.Err? then Ok([], s)
      else
        var more := BinOpExprRests(step.rest);
        SuffixTrans(more.rest, step.rest, s);
        Ok([step.value] + more.value, more.rest)
  }

  /** `tagExpr`: `binOpExprOrOther.or(otherTagExpr)`. The chain folds to the
      left; when its first atom fails, so does the second alternative, the
      same atom on the same input, and the failure is reported at the start
      of the expression. */
  function TagExprParse(s: string): (r: PResult<TagExpr>)
    ensures IsSuffix(r.rest, s)
    decreases |s|, 2
  {
    var first := OtherTagExprParse(s);
    if first.Err? then Err(first.expected, s)
    else
      var chain := BinOpExprRests(first.rest);
      SuffixTrans(chain.rest, first.rest, s);
      Ok(BinOpTree(first.value, chain.value), chain.rest)
  }

  // ---------------------------------------------------------------------
  // The grammar as the source composes it

  const NotExpr': Parser<TagExpr> := AndMap(Symbol("!"), TagExprParse, MakeNotExpr)

  const ParenExpr: Parser<TagExpr> :=
    Parens(Space(TagExprParse), Space(Symbol("(")), Space(Symbol(")")))

  const OtherTagExpr: Parser<TagExpr> :=
    Or([ParenExprParse, NotExprParse, DaysRangeParser, TagIdentParser])

  const BinOpExprRest: Parser<(BinOp, TagExpr)> :=
    And(Space(BinOpParser), Space(OtherTagExprParse))

  lemma NotExprAgrees(s: string)
    ensures NotExprParse(s) == NotExpr'(s)
  {
    AndMapLaw(Symbol("!"), TagExprParse, MakeNotExpr, s);
    if s != [] && s[0] == '!' {
      SymbolCharLaw('!', s);
    } else {
      SymbolCharFails('!', s);
    }
  }

  lemma ParenExprAgrees(s: string)
    ensures ParenExprParse(s) == ParenExpr(s)
  {
    SpacedParensLaw(TagExprParse, s);
  }

  lemma OtherTagExprAgrees(s: string)
    ensures OtherTagExprParse(s) == OtherTagExpr(s)
  {
    OrOfFour(ParenExprParse, NotExprParse, DaysRangeParser, TagIdentParser, s);
    OrFromFour(s, ParenExprParse(s), NotExprParse(s), DaysRangeParser(s), TagIdentParser(s));
  }

  lemma BinOpExprRestAgrees(s: string)
    ensures BinOpExprRestParse(s) == BinOpExprRest(s)
  {
    BinOpParserConsumes(s);
    AndLaw(Space(BinOpParser), Space(OtherTagExprParse), s);
  }

  lemma BinOpExprRestProgressing()
    ensures Progressing(BinOpExprRest)
  {
    forall s | s != [] && BinOpExprRest(s).Ok?
      ensures |BinOpExprRest(s).rest| < |s|
    {
      BinOpExprRestAgrees(s);
    }
  }

  lemma {:induction false} BinOpExprRestsAgrees(s: string)
    ensures Progressing(BinOpExprRest)
    ensures BinOpExprRests(s) == Many(BinOpExprRest)(s)
    decreases |s|
  {
    BinOpExprRestProgressing();
    BinOpExprRestAgrees(s);
    if s != [] && BinOpExprRest(s).Ok? {
      BinOpExprRestsAgrees(BinOpExprRest(s).rest);
    }
  }

  /** `binOpExprOrOther`: an atom and the operator chain after it. */
  lemma ChainedAgrees(s: string)
    ensures Progressing(BinOpExprRest)
    ensures OtherTagExprParse(s).Ok? ==>
      TagExprParse(s) == AndMap(OtherTagExprParse, Many(BinOpExprRest), BinOpTree)(s)
    ensures OtherTagExprParse(s).Err? ==>
      AndMap(OtherTagExprParse, Many(BinOpExprRest), BinOpTree)(s) == Err(OtherTagExprParse(s).expected, s)
  {
    BinOpExprRestProgressing();
    AndMapLaw(OtherTagExprParse, Many(BinOpExprRest), BinOpTree, s);
    if OtherTagExprParse(s).Ok? {
      BinOpExprRestsAgrees(OtherTagExprParse(s).rest);
    }
  }

  /** An alternation whose first alternative fails exactly when the
      second does, and then with the second's error at the input. */
  lemma OrWithFallback<T>(p1: Parser<T>, p2: Parser<T>, s: string, r: PResult<T>)
    requires p2(s).Ok? ==> r.Ok? && p1(s) == r
    requires p2(s).Err? ==> p1(s) == Err(p2(s).expected, s) && r == p1(s)
    ensures Or([p1, p2])(s) == r
  {
    OrOfTwo(p1, p2, s);
    if p2(s).Err? {
      var e := p2(s).expected;
      assert e + e == e;
    }
  }

  /** `tagExpr`: `binOpExprOrOther.or(otherTagExpr)`. */
  lemma TagExprAgrees(s: string)
    ensures Progressing(BinOpExprRest)
    ensures TagExprParse(s) ==
      Or([AndMap(OtherTagExprParse, Many(BinOpExprRest), BinOpTree), OtherTagExprParse])(s)
  {
    ChainedAgrees(s);
    OrWithFallback(AndMap(OtherTagExprParse, Many(BinOpExprRest), BinOpTree), OtherTagExprParse, s, TagExprParse(s));
  }

  // ---------------------------------------------------------------------
  // What `!` takes

  /** An operator chain stops where it cannot go on: started again where it
      stopped, it reads nothing. */
  lemma {:induction false} ChainStops(s: string)
    ensures BinOpExprRests(BinOpExprRests(s).rest) == Ok([], BinOpExprRests(s).rest)
    decreases |s|
  {
    if s != [] && BinOpExprRestParse(s).Ok? {
      ChainStops(BinOpExprRestParse(s).rest);
    }
  }

  /** `!` negates the whole expression after it: an expression that starts
      with a successful negation is that negation, whatever operators
      follow (`!a | b` is `!(a | b)`). */
  lemma NegationTakesWholeExpression(s: string)
    requires NotExprParse(s).Ok?
    ensures s[0] == '!' && TagExprParse(s[1..]).Ok?
    ensures TagExprParse(s) == NotExprParse(s)
    ensures NotExprParse(s) == Ok(NotExpr(TagExprParse(s[1..]).value), TagExprParse(s[1..]).rest)
  {
    var inner := TagExprParse(s[1..]);
    var atom := OtherTagExprParse(s[1..]);
    assert atom.Ok? && inner.rest == BinOpExprRests(atom.rest).rest;
    ChainStops(atom.rest);
    var not := NotExprParse(s);
    assert not.rest == inner.rest;
    assert OtherTagExprParse(s) == not by {
      assert ParenExprParse(s).Err?;
    }
    assert BinOpExprRests(not.rest) == Ok([], not.rest);
    assert BinOpTree(not.value, []) == not.value;
  }

  // ---------------------------------------------------------------------
  // Lines

  /** The inside of an item bracket: an optional `*N`, then an optional tag
      expression. */
  const ItemBracketBody: Parser<(Option<real>, TagExpr)> :=
    Optional(And(Optional(Map(Space(EveryNNights), MakeSome), None),
                 Optional(Space(TagExprParse), Empty)),
             DefaultENDTE)

  const ItemBracket: Parser<(Option<real>, TagExpr)> :=
    Optional(Parens(ItemBracketBody, Space(Symbol("[")), Space(Symbol("]"))), DefaultENDTE)

  /** `item`: a description, an optional bracket, and nothing after it. */
  const ItemParser: Parser<FilterLine> := Eof(AndMap(Space(TextDesc), ItemBracket, MakeItem))

  const CategoryBracket: Parser<TagExpr> :=
    Optional(Parens(Optional(Space(TagExprParse), Empty), Space(Symbol("[")), Space(Symbol("]"))), Empty)

  /** `category`: `#`, a description, an optional bracket, and nothing
      after it. */
  const CategoryParser: Parser<FilterLine> :=
    Eof(Map(And(And(Space(Symbol("#")), Space(TextDesc)), CategoryBracket), MakeCategory))

  /** `filterLine`: the category grammar for a line that starts with `#`,
      the item grammar otherwise. */
  function FilterLineParse(s: string): PResult<FilterLine> {
    if StartsWith(s, "#") then CategoryParser(s) else ItemParser(s)
  }

  /** A line that reads is a category exactly when it starts with `#`, and
      it is read to its end. */
  lemma FilterLineDispatch(s: string)
    requires FilterLineParse(s).Ok?
    ensures FilterLineParse(s).value.CategoryLine? <==> StartsWith(s, "#")
    ensures FilterLineParse(s).rest == []
  {
    if StartsWith(s, "#") {
      var inner := Map(And(And(Space(Symbol("#")), Space(TextDesc)), CategoryBracket), MakeCategory);
      EofLaw(inner, s);
      MapLaw(And(And(Space(Symbol("#")), Space(TextDesc)), CategoryBracket), MakeCategory, s);
    } else {
      EofLaw(AndMap(Space(TextDesc), ItemBracket, MakeItem), s);
      AndMapLaw(Space(TextDesc), ItemBracket, MakeItem, s);
    }
  }

  /** An item without a bracket has no cadence and the empty expression
      (`SrcFilterSpecExamples.ItemWithEmptyBracket` shows the same for an
      empty bracket). */
  lemma ItemWithoutTags(name: string, s: string)
    requires Space(TextDesc)(s) == Ok(name, [])
    ensures ItemParser(s) == Ok(ItemLine(Item(name, None, Empty)), [])
  {
    OptionalLaw(Parens(ItemBracketBody, Space(Symbol("[")), Space(Symbol("]"))), DefaultENDTE, []);
    ParensLaw(ItemBracketBody, Space(Symbol("[")), Space(Symbol("]")), []);
    SpacedCharLaw('[', []);
    AndMapLaw(Space(TextDesc), ItemBracket, MakeItem, s);
    EofLaw(AndMap(Space(TextDesc), ItemBracket, MakeItem), s);
  }

  // ---------------------------------------------------------------------
  // Evaluation

  /** The meaning of a tag expression in this version: as in the newer one,
      except that a range's upper bound is exclusive. */
  predicate Holds(f: Filter, e: TagExpr) {
    match e
    case BinOpExpr(l, op, r) =>
      (match op
       case AndOp => Holds(f, l) && Holds(f, r)
       case OrOp => Holds(f, l) || Holds(f, r)
       case XorOp => Holds(f, l) == Holds(f, r))
    case NotExpr(inner) => !Holds(f, inner)
    case TagIdent(ident) => ident in f.tags
    case NightsRange(lo, hi) => DaysRangeIsMatch(f.nights, lo, hi)
    case Empty => true
  }

  /** `exprIsMatch` of this version. Its verdict is `Holds`; the tags it
      lists as active are active tags of the expression, those it lists as
      inactive inactive ones. */
  function ExprIsMatch(f: Filter, e: TagExpr): (r: MatchResult)
    ensures r.isMatch == Holds(f, e)
    ensures forall t :: t in r.isTrue ==> t in f.tags && Mentions(e, t)
    ensures forall t :: t in r.isFalse ==> t !in f.tags && Mentions(e, t)
  {
    match e
    case BinOpExpr(l, op, r) =>
      var left, right := ExprIsMatch(f, l), ExprIsMatch(f, r);
      var allTrue, allFalse := left.isTrue + right.isTrue, left.isFalse + right.isFalse;
      if op == AndOp && !left.isMatch then left
      else if op == AndOp then MatchResult(right.isMatch, allTrue, allFalse)
      else if op == OrOp && left.isMatch then left
      else if op == OrOp then MatchResult(right.isMatch, right.isTrue, right.isFalse)
      else if op == XorOp && left.isMatch != !right.isMatch then MatchResult(true, allTrue, allFalse)
      else NoMatch
    case NightsRange(lo, hi) =>
      if DaysRangeIsMatch(f.nights, lo, hi) then MatchResult(true, [], []) else NoMatch
    case NotExpr(inner) =>
      var i := ExprIsMatch(f, inner);
      if i.isMatch then NoMatch else MatchResult(true, i.isTrue, i.isFalse)
    case TagIdent(ident) =>
      if ident !in f.tags then MatchResult(false, [], [ident]) else MatchResult(true, [ident], [])
    case Empty => MatchResult(true, [], [])
  }

  /** `e` has no range anywhere. */
  predicate RangeFree(e: TagExpr) {
    match e
    case BinOpExpr(l, _, r) => RangeFree(l) && RangeFree(r)
    case NotExpr(inner) => RangeFree(inner)
    case NightsRange(_, _) => false
    case _ => true
  }

  /** Away from ranges this version and the newer one give the same
      verdict and the same explanation: the `&`, `|`, `!` and `^` rules
      are the same, `^` included, which holds when both sides agree. */
  lemma {:induction false} AgreesWithNewerWithoutRanges(f: Filter, e: TagExpr)
    requires RangeFree(e)
    ensures ExprIsMatch(f, e) == WebEval.ExprIsMatch(f, e)
  {
    match e
    case BinOpExpr(l, _, r) =>
      AgreesWithNewerWithoutRanges(f, l);
      AgreesWithNewerWithoutRanges(f, r);
    case NotExpr(inner) =>
      AgreesWithNewerWithoutRanges(f, inner);
    case _ =>
  }

  /** On a range the two versions differ only at the upper bound: this one
      rejects the bound itself. */
  lemma RangesDifferAtUpperBound(f: Filter, lo: Option<int>, hi: Option<int>)
    ensures ExprIsMatch(f, NightsRange(lo, hi)).isMatch <==>
      WebEval.ExprIsMatch(f, NightsRange(lo, hi)).isMatch && !(hi.Some? && f.nights == hi.value)
  {
  }

  // ---------------------------------------------------------------------
  // Compiling a template

  /** `parseDatabase`, which throws where the error is returned here. */
  function ParseDatabaseChecked(input: string): Result<BringList, CompileError> {
    CompileFrom(FilterLineParse, NonEmptyLines(Split(input, '\n')), None, [])
  }

  /** `parseDatabase`: the same loop as `parseBLT` over this version's
      line grammar. */
  method ParseDatabase(input: string) returns (result: Result<BringList, CompileError>)
    ensures result == ParseDatabaseChecked(input)
  {
    var lines := Split(input, '\n');
    var nonEmptyLines := NonEmptyLines(lines);
    result := CompileLines(FilterLineParse, nonEmptyLines);
  }

  /** A template compiles exactly when each kept line reads and the first
      is a category; its categories and items, flattened, are the lines in
      template order. */
  lemma ParseDatabaseSucceeds(input: string)
    ensures ParseDatabaseChecked(input).Success? <==>
      var entries := NonEmptyLines(Split(input, '\n'));
      AllParse(FilterLineParse, entries) &&
      (Parsed(FilterLineParse, entries) == [] || Parsed(FilterLineParse, entries)[0].CategoryLine?)
    ensures ParseDatabaseChecked(input).Success? ==>
      Flatten(ParseDatabaseChecked(input).value) == Parsed(FilterLineParse, NonEmptyLines(Split(input, '\n')))
  {
    var entries := NonEmptyLines(Split(input, '\n'));
    CompileFromSucceeds(FilterLineParse, entries, None, []);
    if ParseDatabaseChecked(input).Success? {
      CompileFromFlattens(FilterLineParse, entries, None, []);
    }
  }
}
