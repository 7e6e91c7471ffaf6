/** The tag-expression grammar of the newest template language
    (web/src/filterspec.ts): nights ranges, tag identifiers, `!`, parentheses
    and left-folded binary chains, and the item, category and whole-line
    parsers built on them. */
module WebGrammar {
  import opened Wrappers
  import opened JsString
  import opened Parse
  import opened ItemText

  datatype BinOp = AndOp | OrOp | XorOp

  datatype TagExpr =
    | BinOpExpr(left: TagExpr, op: BinOp, right: TagExpr)
    | NotExpr(inner: TagExpr)
    | TagIdent(ident: string)
    | NightsRange(lo: Option<int>, hi: Option<int>)
    | Empty

  datatype Item = Item(name: string, everyNNights: Option<real>, tags: TagExpr)

  /** One parsed template line. */
  datatype FilterLine = CategoryLine(name: string, tags: TagExpr) | ItemLine(item: Item)

  /** A category of the compiled list with its items in template order. */
  datatype BringListCategory = BringListCategory(category: string, tags: TagExpr, items: seq<Item>)

  type BringList = seq<BringListCategory>

  /** The text of the single-ended range operators the grammar accepts. */
  const RangeOps: seq<string> := ["==", "<", "<=", ">", ">="]

  /** `makeRangeSingle`. The source throws on any other operator; the operator
      pattern only ever yields the five of `RangeOps` (`RangeOpMatchIsRangeOp`),
      so the last branch stands for `>=`. */
  function MakeRangeSingle(op: string, num: nat): (r: TagExpr)
    ensures r.NightsRange?
  {
    if op == "==" then NightsRange(Some(num), Some(num))
    else if op == "<" then NightsRange(None, Some(num - 1))
    else if op == "<=" then NightsRange(None, Some(num))
    else if op == ">" then NightsRange(Some(num + 1), None)
    else NightsRange(Some(num), None)
  }

  /** The left fold `makeBinOpTree` computes: every operator takes the tree
      built so far as its left operand. */
  function BinOpTree(left: TagExpr, binops: seq<(BinOp, TagExpr)>): TagExpr
    decreases |binops|
  {
    if binops == [] then left
    else
      var last := binops[|binops| - 1];
      BinOpExpr(BinOpTree(left, binops[..|binops| - 1]), last.0, last.1)
  }

  /** The left spine of a tree: its leftmost non-binary operand and the
      operator/operand pairs met going back up. */
  function Spine(e: TagExpr): (TagExpr, seq<(BinOp, TagExpr)>) {
    match e
    case BinOpExpr(l, op, r) => (Spine(l).0, Spine(l).1 + [(op, r)])
    case _ => (e, [])
  }

  /** Folding is undone by reading the spine back: the fold keeps every
      operator and operand, in order, and nests them to the left. */
  lemma {:induction false} SpineOfBinOpTree(left: TagExpr, binops: seq<(BinOp, TagExpr)>)
    ensures Spine(BinOpTree(left, binops)) == (Spine(left).0, Spine(left).1 + binops)
    decreases |binops|
  {
    if binops == [] {
      assert Spine(left).1 + binops == Spine(left).1;
    } else {
      var init := binops[..|binops| - 1];
      SpineOfBinOpTree(left, init);
      assert init + [binops[|binops| - 1]] == binops;
      assert Spine(left).1 + init + [binops[|binops| - 1]] == Spine(left).1 + binops;
    }
  }

  /** `makeBinOpTree`: the loop that reassigns `tree`. */
  method MakeBinOpTree(left: TagExpr, binops: seq<(BinOp, TagExpr)>) returns (tree: TagExpr)
    ensures tree == BinOpTree(left, binops)
  {
    tree := left;
    for i := 0 to |binops|
      invariant tree == BinOpTree(left, binops[..i])
    {
      assert binops[..i + 1][..i] == binops[..i];
      tree := BinOpExpr(tree, binops[i].0, binops[i].1);
    }
    assert binops[..|binops|] == binops;
  }

  // ---------------------------------------------------------------------
  // Lexical pieces

  /** The first match of `/^(==|<=?|>=?)/`. */
  function RangeOpMatch(s: string): Option<string> {
    if StartsWith(s, "==") then Some("==")
    else if StartsWith(s, "<=") then Some("<=")
    else if StartsWith(s, "<") then Some("<")
    else if StartsWith(s, ">=") then Some(">=")
    else if StartsWith(s, ">") then Some(">")
    else None
  }

  lemma RangeOpMatchIsRangeOp(s: string)
    ensures RangeOpMatch(s).Some? ==> RangeOpMatch(s).value in RangeOps
    ensures RangeOpMatch(s).Some? ==> StartsWith(s, RangeOpMatch(s).value)
  {
  }

  predicate IsIdentChar(c: char) {
    ('A' <= c <= 'Z') || ('a' <= c <= 'z') || ('0' <= c <= '9') || c == '_' || c == '-'
  }

  /** Length of the leading run of `[A-Za-z0-9_-]`. */
  function IdentRun(s: string): (n: nat)
    ensures n <= |s|
    ensures forall k :: 0 <= k < n ==> IsIdentChar(s[k])
    ensures n < |s| ==> !IsIdentChar(s[n])
  {
    if s != [] && IsIdentChar(s[0]) then 1 + IdentRun(s[1..]) else 0
  }

  /** The first match of the identifier pattern: one of `[A-Za-z0-9_]`, then
      any run of `[A-Za-z0-9_-]`; a digit may open an identifier, a hyphen may
      not. */
  function IdentMatch(s: string): Option<string> {
    if s != [] && IsIdentChar(s[0]) && s[0] != '-' then Some(s[..1 + IdentRun(s[1..])])
    else None
  }

  // ---------------------------------------------------------------------
  // Non-recursive grammar values

  const NightsRangeSingleOp: Parser<string> :=
    Tag(Regex("^(==|<=?|>=?)", RangeOpMatch), RangeOps)

  const NightsRangeSingle: Parser<TagExpr> :=
    AndMap(Space(NightsRangeSingleOp), Space(Int), MakeRangeSingle)

  const NightsRangeDoubleOp: Parser<string> := Symbol("-")

  /** The semantic action of `nightsRangeDouble`. */
  function MakeRangeDouble(lo: nat, hi: nat): TagExpr {
    NightsRange(Some(lo), Some(hi))
  }

  const NightsRangeDoubleHi: Parser<nat> := AndMap(Space(NightsRangeDoubleOp), Space(Int), SecondOf)

  const NightsRangeDouble: Parser<TagExpr> := AndMap(Space(Int), NightsRangeDoubleHi, MakeRangeDouble)

  const NightsRangeParser: Parser<TagExpr> := Or([NightsRangeSingle, NightsRangeDouble])

  const TagIdentParser: Parser<string> :=
    Tag(Regex("^[A-Za-z0-9_][A-Za-z0-9_-]*", IdentMatch), ["identifier"])

  /** The semantic action of `tagLit`. */
  function MakeTagIdent(ident: string): TagExpr {
    TagIdent(ident)
  }

  const TagLit: Parser<TagExpr> := Map(Space(TagIdentParser), MakeTagIdent)

  /** The `op as BinOp` cast on the three symbols `binOp` accepts. */
  function OpOf(symbol: string): BinOp {
    if symbol == "&" then AndOp else if symbol == "|" then OrOp else XorOp
  }

  const BinOpSymbol: Parser<string> := Or([Symbol("&"), Symbol("|"), Symbol("^")])

  const BinOpParser: Parser<BinOp> := Map(BinOpSymbol, OpOf)

  lemma IntSuffixing()
    ensures Suffixing(Int)
  {
    forall s ensures IsSuffix(Int(s).rest, s) { }
  }

  lemma NightsRangeSuffixing()
    ensures Suffixing(NightsRangeParser)
  {
    IntSuffixing();
    assert Suffixing(NightsRangeSingle);
    assert Suffixing(NightsRangeDouble);
    var alternatives := [NightsRangeSingle, NightsRangeDouble];
    assert forall i :: 0 <= i < |alternatives| ==> Suffixing(alternatives[i]);
  }

  lemma TagLitSuffixing()
    ensures Suffixing(TagLit)
  {
  }

  predicate IsBinOpChar(c: char) {
    c == '&' || c == '|' || c == '^'
  }

  lemma BinOpSymbolConsumes(s: string)
    ensures BinOpSymbol(s).Ok? <==> s != [] && IsBinOpChar(s[0])
    ensures BinOpSymbol(s).Ok? ==> BinOpSymbol(s) == Ok(s[..1], s[1..])
    ensures BinOpSymbol(s).Err? ==> BinOpSymbol(s).rest == s
  {
    OrOfThree(Symbol("&"), Symbol("|"), Symbol("^"), s);
    SymbolCharLaw('&', s);
    SymbolCharLaw('|', s);
    SymbolCharLaw('^', s);
    if s != [] {
      assert s[..1] == [s[0]];
    }
  }

  lemma BinOpSymbolFails(s: string)
    requires s == [] || !IsBinOpChar(s[0])
    ensures BinOpSymbol(s) == Err({"'&'", "'|'", "'^'"}, s)
  {
    OrOfThree(Symbol("&"), Symbol("|"), Symbol("^"), s);
    SymbolCharFails('&', s);
    SymbolCharFails('|', s);
    SymbolCharFails('^', s);
    BinOpExpectedUnion();
  }

  lemma BinOpExpectedUnion()
    ensures {"'&'"} + {"'|'"} + {"'^'"} == {"'&'", "'|'", "'^'"}
  {
  }

  /** `binOp` consumes exactly its one-character operator and yields the
      operator that character names. */
  lemma BinOpParserConsumes(s: string)
    ensures BinOpParser(s).Ok? <==> s != [] && IsBinOpChar(s[0])
    ensures BinOpParser(s).Ok? ==> BinOpParser(s) == Ok(OpOf(s[..1]), s[1..])
    ensures BinOpParser(s).Err? ==> BinOpParser(s) == Err({"'&'", "'|'", "'^'"}, s)
  {
    BinOpSymbolConsumes(s);
    if s == [] || !IsBinOpChar(s[0]) {
      BinOpSymbolFails(s);
    }
  }

  lemma NightsRangeRestSuffix(s: string)
    ensures IsSuffix(NightsRangeParser(s).rest, s)
  {
    NightsRangeSuffixing();
  }

  lemma TagLitRestSuffix(s: string)
    ensures IsSuffix(TagLit(s).rest, s)
  {
    TagLitSuffixing();
  }

  /** A spaced operator: a suffix, and strictly shorter after a success. */
  lemma SpacedBinOpConsumes(s: string)
    ensures IsSuffix(Space(BinOpParser)(s).rest, s)
    ensures Space(BinOpParser)(s).Ok? ==> |Space(BinOpParser)(s).rest| < |s|
  {
    BinOpParserConsumes(s);
    if s != [] && IsBinOpChar(s[0]) {
      SuffixTrans(SkipSpaces(s[1..]), s[1..], s);
    }
  }

  // ---------------------------------------------------------------------
  // The recursive tag-expression grammar. The source ties `tagExpr`,
  // `otherTagExpr`, `notExpr`, `parenExpr` and `binOpExprRest.many()`
  // together through the functions `tagExprParse` and `otherTagExprParse`;
  // here they are mutually recursive functions on the input text, each
  // re-entering only on a shorter input or at a lower rank.  The agreement
  // lemmas below show each equals the combinator composition of the source.

  /** `notExpr`: `!` directly followed by one atom. */
  function NotExprParse(s: string): (r: PResult<TagExpr>)
    ensures IsSuffix(r.rest, s)
    decreases |s|, 0
  {
    if s != [] && s[0] == '!' then
      var inner := OtherTagExprParse(s[1..]);
      SuffixTrans(inner.rest, s[1..], s);
      match inner
      case Err(e, rest) => Err(e, rest)
      case Ok(x, rest) => Ok(NotExpr(x), rest)
    else Err({"'!'"}, s)
  }

  /** `parenExpr`: a spaced `(`, a spaced tag expression, a spaced `)`. */
  function ParenExprParse(s: string): (r: PResult<TagExpr>)
    ensures IsSuffix(r.rest, s)
    decreases |s|, 0
  {
    if s != [] && s[0] == '(' then
      var open := SkipSpaces(s[1..]);
      SuffixTrans(open, s[1..], s);
      var body := TagExprParse(open);
      SuffixTrans(body.rest, open, s);
      match body
      case Err(e, rest) => Err(e, rest)
      case Ok(x, rest) =>
        var after := SkipSpaces(rest);
        SuffixTrans(after, rest, s);
        if after != [] && after[0] == ')' then
          SuffixTrans(SkipSpaces(after[1..]), after[1..], after);
          SuffixTrans(SkipSpaces(after[1..]), after, s);
          Ok(x, SkipSpaces(after[1..]))
        else Err({"')'"}, after)
    else Err({"'('"}, s)
  }

  /** `otherTagExpr`: a parenthesised expression, a negation, a nights range
      or a tag, tried in that order on the same input. */
  function OtherTagExprParse(s: string): (r: PResult<TagExpr>)
    ensures IsSuffix(r.rest, s)
    decreases |s|, 1
  {
    var paren := ParenExprParse(s);
    if paren.Ok? then paren
    else
      var not := NotExprParse(s);
      if not.Ok? then not
      else
        var range := NightsRangeParser(s);
        NightsRangeRestSuffix(s);
        if range.Ok? then range
        else
          var lit := TagLit(s);
          TagLitRestSuffix(s);
          if lit.Ok? then lit
          else Err(paren.expected + not.expected + range.expected + lit.expected, s)
  }

  /** `binOpExprRest`: a spaced operator and a spaced atom. */
  function BinOpExprRestParse(s: string): (r: PResult<(BinOp, TagExpr)>)
    ensures IsSuffix(r.rest, s)
    ensures r.Ok? ==> |r.rest| < |s|
    decreases |s|, 0
  {
    if s != [] && IsBinOpChar(s[0]) then
      var t := SkipSpaces(s[1..]);
      SuffixTrans(t, s[1..], s);
      var atom := OtherTagExprParse(t);
      SuffixTrans(atom.rest, t, s);
      if atom.Err? then Err(atom.expected, atom.rest)
      else
        SuffixTrans(SkipSpaces(atom.rest), atom.rest, s);
        Ok((OpOf(s[..1]), atom.value), SkipSpaces(atom.rest))
    else Err({"'&'", "'|'", "'^'"}, s)
  }

  /** `binOpExprRest.many()`. */
  function BinOpExprRests(s: string): (r: PResult<seq<(BinOp, TagExpr)>>)
    ensures r.Ok? && IsSuffix(r.rest, s)
    decreases |s|, 1
  {
    if s == [] then Ok([], s)
    else
      var step := BinOpExprRestParse(s);
      if step.Err? then Ok([], s)
      else
        var more := BinOpExprRests(step.rest);
        SuffixTrans(more.rest, step.rest, s);
        Ok([step.value] + more.value, more.rest)
  }

  /** `tagExpr` (`binOpExprOrOther`): an atom and the operator chain that
      follows it, folded to the left. */
  function TagExprParse(s: string): (r: PResult<TagExpr>)
    ensures IsSuffix(r.rest, s)
    decreases |s|, 2
  {
    var first := OtherTagExprParse(s);
    if first.Err? then Err(first.expected, first.rest)
    else
      var chain := BinOpExprRests(first.rest);
      SuffixTrans(chain.rest, first.rest, s);
      Ok(BinOpTree(first.value, chain.value), chain.rest)
  }

  // ---------------------------------------------------------------------
  // The grammar as the source composes it

  /** The semantic action of `notExpr`. */
  function MakeNotExpr(bang: string, inner: TagExpr): TagExpr {
    NotExpr(inner)
  }

  const NotExpr': Parser<TagExpr> := AndMap(Symbol("!"), OtherTagExprParse, MakeNotExpr)

  const ParenExpr: Parser<TagExpr> :=
    Parens(Space(TagExprParse), Space(Symbol("(")), Space(Symbol(")")))

  const OtherTagExpr: Parser<TagExpr> :=
    Or([ParenExprParse, NotExprParse, NightsRangeParser, TagLit])

  const BinOpExprRest: Parser<(BinOp, TagExpr)> :=
    And(Space(BinOpParser), Space(OtherTagExprParse))

  lemma NotExprAgrees(s: string)
    ensures NotExprParse(s) == NotExpr'(s)
  {
    AndMapLaw(Symbol("!"), OtherTagExprParse, MakeNotExpr, s);
    if s != [] && s[0] == '!' {
      SymbolCharLaw('!', s);
    } else {
      SymbolCharFails('!', s);
    }
  }

  lemma ParenExprAgrees(s: string)
    ensures ParenExprParse(s) == ParenExpr(s)
  {
    SpacedParensLaw(TagExprParse, s);
  }

  lemma OtherTagExprAgrees(s: string)
    ensures OtherTagExprParse(s) == OtherTagExpr(s)
  {
    OrOfFour(ParenExprParse, NotExprParse, NightsRangeParser, TagLit, s);
    OrFromFour(s, ParenExprParse(s), NotExprParse(s), NightsRangeParser(s), TagLit(s));
  }

  lemma BinOpExprRestAgrees(s: string)
    ensures BinOpExprRestParse(s) == BinOpExprRest(s)
  {
    BinOpParserConsumes(s);
    AndLaw(Space(BinOpParser), Space(OtherTagExprParse), s);
  }

  lemma BinOpExprRestProgressing()
    ensures Progressing(BinOpExprRest)
  {
    forall s | s != [] && BinOpExprRest(s).Ok?
      ensures |BinOpExprRest(s).rest| < |s|
    {
      BinOpExprRestAgrees(s);
    }
  }

  lemma {:induction false} BinOpExprRestsAgrees(s: string)
    ensures Progressing(BinOpExprRest)
    ensures BinOpExprRests(s) == Many(BinOpExprRest)(s)
    decreases |s|
  {
    BinOpExprRestProgressing();
    BinOpExprRestAgrees(s);
    if s != [] && BinOpExprRest(s).Ok? {
      BinOpExprRestsAgrees(BinOpExprRest(s).rest);
    }
  }

  lemma TagExprAgrees(s: string)
    ensures Progressing(BinOpExprRest)
    ensures TagExprParse(s) == AndMap(OtherTagExprParse, Many(BinOpExprRest), BinOpTree)(s)
  {
    BinOpExprRestProgressing();
    if OtherTagExprParse(s).Ok? {
      BinOpExprRestsAgrees(OtherTagExprParse(s).rest);
    }
  }

  // ---------------------------------------------------------------------
  // Lines

  function MakeSome(x: real): Option<real> {
    Some(x)
  }

  /** What an item line without a bracket, or with an empty or unclosed
      one, gets: no cadence and the empty expression. */
  const DefaultENDTE: (Option<real>, TagExpr) := (None, Empty)

  /** The inside of an item bracket: an optional `*N`, then an optional tag
      expression. */
  const ItemBracketBody: Parser<(Option<real>, TagExpr)> :=
    Optional(And(Optional(Map(Space(EveryNNights), MakeSome), None),
                 Optional(Space(TagExprParse), Empty)),
             DefaultENDTE)

  /** The optional bracket of an item. */
  const ItemBracket: Parser<(Option<real>, TagExpr)> :=
    Optional(Parens(ItemBracketBody, Space(Symbol("[")), Space(Symbol("]"))), DefaultENDTE)

  /** The semantic action of `item`. */
  function MakeItem(name: string, endte: (Option<real>, TagExpr)): FilterLine {
    ItemLine(Item(name, endte.0, endte.1))
  }

  const ItemParser: Parser<FilterLine> := AndMap(Space(TextDesc), ItemBracket, MakeItem)

  /** The optional bracket of a category. */
  const CategoryBracket: Parser<TagExpr> :=
    Optional(Parens(Optional(Space(TagExprParse), Empty), Space(Symbol("[")), Space(Symbol("]"))), Empty)

  /** The semantic action of `category`. */
  function MakeCategory(x: ((string, string), TagExpr)): FilterLine {
    CategoryLine(x.0.1, x.1)
  }

  const CategoryParser: Parser<FilterLine> :=
    Map(And(And(Space(Symbol("#")), Space(TextDesc)), CategoryBracket), MakeCategory)

  /** `filterLine`: leading spaces, then a category or an item, then the end
      of the line. */
  const FilterLineParser: Parser<FilterLine> :=
    Eof(AndMap(Space(EmptyParser()),
               Or([CategoryParser, AndMap(Space(EmptyParser()), ItemParser, SecondOf)]),
               SecondOf))
}
