/** The oldest template language, src/filter.ts. It shares the expression
    trees and items of the later versions (a `DaysRange` is the
    `NightsRange` constructor), but its binary operators nest to the RIGHT
    (the right operand of an operator is a whole expression), `^` is a true
    exclusive or, `<=N` is built for the exclusive upper bound, a category
    line carries no tag qualifier, and lines are not required to be read to
    their end. Its grammar is written against a function-style combinator
    API (`parse.and`, `parse.or`, ...) whose functions behave as the
    same-named methods of the `Parse` module. */
module SrcFilter {
  import opened Wrappers
  import opened JsString
  import opened Parse
  import opened ItemText
  import opened WebGrammar
  import SrcFilterSpec
  import WebEval

  /** A line of this version: a category is only a name. */
  datatype FilterLine = CategoryHeading(name: string) | ItemEntry(item: Item)

  // ---------------------------------------------------------------------
  // Ranges

  /** `makeRangeSingle` of this version (the fifth branch stands for
      `>=`, the only other operator the operator pattern yields). */
  function MakeRangeSingle(op: string, num: nat): (r: TagExpr)
    ensures r.NightsRange?
  {
    if op == "==" then NightsRange(Some(num), Some(num))
    else if op == "<" then NightsRange(None, Some(num))
    else if op == "<=" then NightsRange(None, Some(num + 1))
    else if op == ">" then NightsRange(Some(num + 1), None)
    else NightsRange(Some(num), None)
  }

  /** Apart from `==`, these are the ranges the operators mean, so `<`,
      `<=`, `>` and `>=` accept exactly the days they name. */
  lemma RangesAcceptWhatTheyName(op: string, num: nat, days: int)
    requires op in RangeOps && op != "=="
    ensures MakeRangeSingle(op, num) == SrcFilterSpec.IntendedRangeSingle(op, num)
    ensures var r := MakeRangeSingle(op, num);
      SrcFilterSpec.DaysRangeIsMatch(days, r.lo, r.hi) <==> WebEval.Compares(op, days, num)
  {
    SrcFilterSpec.IntendedRangeAccepts(op, num, days);
  }

  /** `==N` builds `lo = hi = N`, which the exclusive upper bound makes
      empty: ten days are not "exactly ten". */
  lemma EqualsMatchesNothing(num: nat, days: int)
    ensures WebEval.Compares("==", num, num)
    ensures var r := MakeRangeSingle("==", num); !ExprIsMatch({}, days, r)
  {
  }

  const DaysRangeSingle: Parser<TagExpr> :=
    AndMap(Space(NightsRangeSingleOp), Space(Int), MakeRangeSingle)

  const DaysRangeParser: Parser<TagExpr> := Or([DaysRangeSingle, NightsRangeDouble])

  lemma DaysRangeSuffixing()
    ensures Suffixing(DaysRangeParser)
  {
    IntSuffixing();
    assert Suffixing(DaysRangeSingle);
    assert Suffixing(NightsRangeDouble);
    var alternatives := [DaysRangeSingle, NightsRangeDouble];
    assert forall i :: 0 <= i < |alternatives| ==> Suffixing(alternatives[i]);
  }

  lemma DaysRangeRestSuffix(s: string)
    ensures IsSuffix(DaysRangeParser(s).rest, s)
  {
    DaysRangeSuffixing();
  }

  lemma TagIdentRestSuffix(s: string)
    ensures IsSuffix(SrcFilterSpec.TagIdentParser(s).rest, s)
  {
    SrcFilterSpec.TagIdentLaw(s);
  }

  // ---------------------------------------------------------------------
  // The recursive grammar, as mutually recursive functions on the text

  /** `notExpr`: `!` directly followed by a whole tag expression. */
  function NotExprParse(s: string): (r: PResult<TagExpr>)
    ensures IsSuffix(r.rest, s)
    decreases |s|, 0
  {
    if s != [] && s[0] == '!' then
      var inner := TagExprParse(s[1..]);
      SuffixTrans(inner.rest, s[1..], s);
      match inner
      case Err(e, rest) => Err(e, rest)
      case Ok(x, rest) => Ok(NotExpr(x), rest)
    else Err({"'!'"}, s)
  }

  /** `parenExpr`: a spaced `(`, a spaced tag expression, a spaced `)`. */
  function ParenExprParse(s: string): (r: PResult<TagExpr>)
    ensures IsSuffix(r.rest, s)
    decreases |s|, 0
  {
    if s != [] && s[0] == '(' then
      var open := SkipSpaces(s[1..]);
      SuffixTrans(open, s[1..], s);
      var body := TagExprParse(open);
      SuffixTrans(body.rest, open, s);
      match body
      case Err(e, rest) => Err(e, rest)
      case Ok(x, rest) =>
        var after := SkipSpaces(rest);
        SuffixTrans(after, rest, s);
        if after != [] && after[0] == ')' then
          SuffixTrans(SkipSpaces(after[1..]), after[1..], after);
          SuffixTrans(SkipSpaces(after[1..]), after, s);
          Ok(x, SkipSpaces(after[1..]))
        else Err({"')'"}, after)
    else Err({"'('"}, s)
  }

  /** `otherTagExpr`: a parenthesised expression, a negation, a days range
      or a tag, tried in that order on the same input. */
  function OtherTagExprParse(s: string): (r: PResult<TagExpr>)
    ensures IsSuffix(r.rest, s)
    ensures r.Err? ==> r.rest == s
    decreases |s|, 1
  {
    var paren := ParenExprParse(s);
    if paren.Ok? then paren
    else
      var not := NotExprParse(s);
      if not.Ok? then not
      else
        var range := DaysRangeParser(s);
        DaysRangeRestSuffix(s);
        if range.Ok? then range
        else
          var lit := SrcFilterSpec.TagIdentParser(s);
          TagIdentRestSuffix(s);
          if lit.Ok? then lit
          else Err(paren.expected + not.expected + range.expected + lit.expected, s)
  }

  /** `binOpExprRest`: a spaced operator and a spaced WHOLE expression. */
  function BinOpExprRestParse(s: string): (r: PResult<(BinOp, TagExpr)>)
    ensures IsSuffix(r.rest, s)
    decreases |s|, 0
  {
    if s != [] && IsBinOpChar(s[0]) then
      var t := SkipSpaces(s[1..]);
      SuffixTrans(t, s[1..], s);
      var right := TagExprParse(t);
      SuffixTrans(right.rest, t, s);
      if right.Err? then Err(right.expected, right.rest)
      else
        SuffixTrans(SkipSpaces(right.rest), right.rest, s);
        Ok((OpOf(s[..1]), right.value), SkipSpaces(right.rest))
    else Err({"'&'", "'|'", "'^'"}, s)
  }

  /** `decideBinOpExprOrOther`: the atom alone, or the atom as the left
      operand of the operator that follows. */
  function Decide(other: TagExpr, binop: Option<(BinOp, TagExpr)>): TagExpr {
    match binop
    case None => other
    case Some(b) => BinOpExpr(other, b.0, b.1)
  }

  /** `tagExpr`: `or(binOpExprOrOther, otherTagExpr)`. When the first atom
      fails, so does the second alternative, and the failure is reported at
      the start of the expression. */
  function TagExprParse(s: string): (r: PResult<TagExpr>)
    ensures IsSuffix(r.rest, s)
    decreases |s|, 2
  {
    var first := OtherTagExprParse(s);
    if first.Err? then Err(first.expected, s)
    else
      var step := BinOpExprRestParse(first.rest);
      SuffixTrans(step.rest, first.rest, s);
      if step.Ok? then Ok(BinOpExpr(first.value, step.value.0, step.value.1), step.rest)
      else first
  }

  /** At an operator, the step is that operator and the expression after
      the spaces that follow it. */
  lemma StepAt(u: string, t: string, x: TagExpr, rest: string)
    requires u != [] && IsBinOpChar(u[0])
    requires SkipSpaces(u[1..]) == t
    requires TagExprParse(t) == Ok(x, rest)
    ensures BinOpExprRestParse(u) == Ok((OpOf(u[..1]), x), SkipSpaces(rest))
  {
  }

  // ---------------------------------------------------------------------
  // The grammar as the source composes it

  const NotExpr': Parser<TagExpr> := AndMap(Symbol("!"), TagExprParse, MakeNotExpr)

  const ParenExpr: Parser<TagExpr> :=
    Parens(Space(TagExprParse), Space(Symbol("(")), Space(Symbol(")")))

  const OtherTagExpr: Parser<TagExpr> :=
    Or([ParenExprParse, NotExprParse, DaysRangeParser, SrcFilterSpec.TagIdentParser])

  const BinOpExprRest: Parser<(BinOp, TagExpr)> :=
    And(Space(BinOpParser), Space(TagExprParse))

  function MakeSomeStep(b: (BinOp, TagExpr)): Option<(BinOp, TagExpr)> {
    Some(b)
  }

  /** `optional(binOpExprRest, undefined)`. */
  const OptionalRest: Parser<Option<(BinOp, TagExpr)>> :=
    Optional(Map(BinOpExprRestParse, MakeSomeStep), None)

  const BinOpExprOrOther: Parser<TagExpr> := AndMap(OtherTagExprParse, OptionalRest, Decide)

  lemma NotExprAgrees(s: string)
    ensures NotExprParse(s) == NotExpr'(s)
  {
    AndMapLaw(Symbol("!"), TagExprParse, MakeNotExpr, s);
    if s != [] && s[0] == '!' {
      SymbolCharLaw('!', s);
    } else {
      SymbolCharFails('!', s);
    }
  }

  lemma ParenExprAgrees(s: string)
    ensures ParenExprParse(s) == ParenExpr(s)
  {
    SpacedParensLaw(TagExprParse, s);
  }

  lemma OtherTagExprAgrees(s: string)
    ensures OtherTagExprParse(s) == OtherTagExpr(s)
  {
    OrOfFour(ParenExprParse, NotExprParse, DaysRangeParser, SrcFilterSpec.TagIdentParser, s);
    OrFromFour(s, ParenExprParse(s), NotExprParse(s), DaysRangeParser(s), SrcFilterSpec.TagIdentParser(s));
  }

  lemma BinOpExprRestAgrees(s: string)
    ensures BinOpExprRestParse(s) == BinOpExprRest(s)
  {
    BinOpParserConsumes(s);
    AndLaw(Space(BinOpParser), Space(TagExprParse), s);
  }

  lemma BinOpExprOrOtherAgrees(s: string)
    ensures OtherTagExprParse(s).Ok? ==> TagExprParse(s) == BinOpExprOrOther(s)
    ensures OtherTagExprParse(s).Err? ==> BinOpExprOrOther(s) == Err(OtherTagExprParse(s).expected, s)
  {
    AndMapLaw(OtherTagExprParse, OptionalRest, Decide, s);
    var first := OtherTagExprParse(s);
    if first.Ok? {
      OptionalLaw(Map(BinOpExprRestParse, MakeSomeStep), None, first.rest);
      MapLaw(BinOpExprRestParse, MakeSomeStep, first.rest);
    }
  }

  lemma TagExprAgrees(s: string)
    ensures TagExprParse(s) == Or([BinOpExprOrOther, OtherTagExprParse])(s)
  {
    BinOpExprOrOtherAgrees(s);
    SrcFilterSpec.OrWithFallback(BinOpExprOrOther, OtherTagExprParse, s, TagExprParse(s));
  }

  // ---------------------------------------------------------------------
  // How expressions nest

  /** The right operand of an operator is everything after it, read as a
      whole expression: the tree is nested to the right. */
  lemma RightOperandIsWholeExpression(s: string)
    requires OtherTagExprParse(s).Ok?
    requires BinOpExprRestParse(OtherTagExprParse(s).rest).Ok?
    ensures var u := OtherTagExprParse(s).rest;
      var right := TagExprParse(SkipSpaces(u[1..]));
      right.Ok? &&
      TagExprParse(s) == Ok(BinOpExpr(OtherTagExprParse(s).value, OpOf(u[..1]), right.value), SkipSpaces(right.rest))
  {
  }

  // ---------------------------------------------------------------------
  // Lines

  function MakeItemEntry(name: string, endte: (Option<real>, TagExpr)): FilterLine {
    ItemEntry(Item(name, endte.0, endte.1))
  }

  const ItemBracketBody: Parser<(Option<real>, TagExpr)> :=
    Optional(And(Optional(Map(Space(EveryNNights), MakeSome), None),
                 Optional(Space(TagExprParse), Empty)),
             DefaultENDTE)

  const ItemBracket: Parser<(Option<real>, TagExpr)> :=
    Optional(Parens(ItemBracketBody, Space(Symbol("[")), Space(Symbol("]"))), DefaultENDTE)

  /** `item`: a description and an optional bracket; the line need not end
      there. */
  const ItemParser: Parser<FilterLine> := AndMap(Space(TextDesc), ItemBracket, MakeItemEntry)

  function MakeCategoryHeading(hash: string, name: string): FilterLine {
    CategoryHeading(name)
  }

  /** `category`: `#`, then a description; no tag qualifier. */
  const CategoryParser: Parser<FilterLine> := AndMap(Space(Symbol("#")), TextDesc, MakeCategoryHeading)

  /** `line`: a category if one reads, otherwise an item. */
  const LineParser: Parser<FilterLine> := Or([CategoryParser, ItemParser])

  /** A line of `#` and a name is a category with that name; the rest of
      the line is what the name left over. */
  lemma CategoryLine(s: string)
    requires s != [] && s[0] == '#'
    requires TextDesc(SkipSpaces(s[1..])).Ok?
    ensures var d := TextDesc(SkipSpaces(s[1..]));
      LineParser(s) == Ok(CategoryHeading(d.value), d.rest)
  {
    OrOfTwo(CategoryParser, ItemParser, s);
    SpacedCharLaw('#', s);
    AndMapLaw(Space(Symbol("#")), TextDesc, MakeCategoryHeading, s);
  }

  /** A line that does not start with `#` is read as an item. */
  lemma NonCategoryLine(s: string)
    requires s == [] || s[0] != '#'
    ensures LineParser(s) == if ItemParser(s).Ok? then ItemParser(s)
      else Err({"'#'"} + ItemParser(s).expected, s)
  {
    OrOfTwo(CategoryParser, ItemParser, s);
    SpacedCharLaw('#', s);
    AndMapLaw(Space(Symbol("#")), TextDesc, MakeCategoryHeading, s);
  }

  /** An item without a bracket has no cadence and the empty expression. */
  lemma ItemWithoutBracket(name: string, s: string)
    requires Space(TextDesc)(s) == Ok(name, [])
    ensures ItemParser(s) == Ok(ItemEntry(Item(name, None, Empty)), [])
  {
    OptionalLaw(Parens(ItemBracketBody, Space(Symbol("[")), Space(Symbol("]"))), DefaultENDTE, []);
    ParensLaw(ItemBracketBody, Space(Symbol("[")), Space(Symbol("]")), []);
    SpacedCharLaw('[', []);
    AndMapLaw(Space(TextDesc), ItemBracket, MakeItemEntry, s);
  }

  // ---------------------------------------------------------------------
  // Evaluation

  /** The private `exprIsMatch`: plain boolean logic, with `^` a true
      exclusive or and a range's upper bound exclusive. */
  predicate ExprIsMatch(tags: set<string>, days: int, e: TagExpr) {
    match e
    case BinOpExpr(l, op, r) =>
      (match op
       case AndOp => ExprIsMatch(tags, days, l) && ExprIsMatch(tags, days, r)
       case OrOp => ExprIsMatch(tags, days, l) || ExprIsMatch(tags, days, r)
       case XorOp => ExprIsMatch(tags, days, l) != ExprIsMatch(tags, days, r))
    case NightsRange(lo, hi) => SrcFilterSpec.DaysRangeIsMatch(days, lo, hi)
    case NotExpr(inner) => !ExprIsMatch(tags, days, inner)
    case TagIdent(ident) => ident in tags
    case Empty => true
  }

  /** `itemIsMatch`: an item is kept when its expression matches. */
  predicate ItemIsMatch(tags: set<string>, days: int, item: Item) {
    ExprIsMatch(tags, days, item.tags)
  }

  /** `e` has no `^` anywhere. */
  predicate XorFree(e: TagExpr) {
    match e
    case BinOpExpr(l, op, r) => op != XorOp && XorFree(l) && XorFree(r)
    case NotExpr(inner) => XorFree(inner)
    case _ => true
  }

  /** Without `^` this evaluator gives the verdict of src/filterspec.ts,
      ranges included. */
  lemma {:induction false} AgreesWithoutXor(tags: set<string>, days: int, e: TagExpr)
    requires XorFree(e)
    ensures ExprIsMatch(tags, days, e) == SrcFilterSpec.Holds(WebEval.Filter(tags, days), e)
  {
    match e
    case BinOpExpr(l, _, r) =>
      AgreesWithoutXor(tags, days, l);
      AgreesWithoutXor(tags, days, r);
    case NotExpr(inner) =>
      AgreesWithoutXor(tags, days, inner);
    case _ =>
  }

  /** On `^` between operands without `^`, the verdict is the opposite of
      the later versions', whose `^` holds when both sides agree. */
  lemma XorIsOppositeOfLaterCaret(tags: set<string>, days: int, l: TagExpr, r: TagExpr)
    requires XorFree(l) && XorFree(r)
    ensures ExprIsMatch(tags, days, BinOpExpr(l, XorOp, r)) ==
      !SrcFilterSpec.Holds(WebEval.Filter(tags, days), BinOpExpr(l, XorOp, r))
  {
    AgreesWithoutXor(tags, days, l);
    AgreesWithoutXor(tags, days, r);
  }

  /** Only the tags the expression mentions matter. */
  lemma {:induction false} VerdictDependsOnMentionedTags(t1: set<string>, t2: set<string>, days: int, e: TagExpr)
    requires forall t :: WebEval.Mentions(e, t) ==> (t in t1 <==> t in t2)
    ensures ExprIsMatch(t1, days, e) == ExprIsMatch(t2, days, e)
  {
    match e
    case BinOpExpr(l, _, r) =>
      VerdictDependsOnMentionedTags(t1, t2, days, l);
      VerdictDependsOnMentionedTags(t1, t2, days, r);
    case NotExpr(inner) =>
      VerdictDependsOnMentionedTags(t1, t2, days, inner);
    case _ =>
  }
}
