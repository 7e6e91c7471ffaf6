# backpack: the packing-list template engine, in Dafny

Backpack builds a packing list from a template. A template is plain text:

- a line starting with `#` opens a category;
- every other line is an item that belongs to the category above it;
- either may carry a bracketed tag expression;
- an item may also carry a cadence (`*N`, one more every N nights).

A tag expression combines:

- tags (`warm`);
- negation (`!warm`);
- the binary operators `&`, `|` and `^`;
- parentheses;
- ranges of nights (`<3`, `>=7`, `2-5`).

A filter is the active tags plus the number of nights. It decides which items are shown, and which tags explain the verdict.

This project models the engine and the state that holds a list:

- **`Parse`**: the parser-combinator library (`web/src/parse.ts`; `src/parse.ts` is the same code one line earlier).
  - Results are `Ok(value, rest)` / `Err(expected, rest)`.
  - `map`, `and`, `andMap`, `optional`, `eof`, `parens`, `tag`, `Symbol`, `Regex`, `int` and `float` are pure functions returning parsers.
  - The loops of `or`, `many` and `space` are methods, each proved equal to the function that specifies it.
- **The newest template language (`web/src/filterspec.ts`):**
  - the grammar (`WebGrammar`);
  - the line-by-line compiler `parseBLT` (`WebCompile`);
  - the evaluator `exprIsMatch` and the tag and bound collectors (`WebEval`);
  - `combinations` and `product` (`Combinatorics`);
  - the duplicate-item checker `getBLTWarnings` (`WebWarnings`);
  - `warningToString` (`WebWarningText`).
  - `textDesc` is shared by all three grammars and lives in `ItemText`.
- **The two older versions, each its own module:**
  - `SrcFilterSpec` (`src/filterspec.ts`): exclusive upper bounds; `!` takes a whole expression.
  - `SrcFilter` (`src/filter.ts`): right-nested chains; `^` is exclusive or.
- **The state reducers:**
  - `ClientStore.Store` (`client/store.ts`): sorted tag and checked lists.
  - `WebBringlist.Bringlist` (`web/src/bringlistSlice.ts`): key sets and a revision counter.
  - Each reducer is a method that updates the object in place.
- **Support modules:**
  - `JsString`: the JavaScript string built-ins the source relies on (`trim`, `trimEnd`, `split`, `slice`, decimal printing).
  - `JsSet`: `Set` built from an array, kept in insertion order.
  - `JsObject`: plain objects `{}` used as dictionaries. A lookup at the name of a member of `Object.prototype` (`constructor`, `toString`, `__proto__`, …) finds the inherited member even where the object has no such key. The duplicate checker and the bring-list reducers both depend on this.
  - `StringSort`: the default `Array.prototype.sort()` on strings, and the filter that removes one string.

The grammar's mutually recursive parsers are first-order functions, so Dafny can see that each call consumes input. Lemmas named `…Agrees` show that each equals the combinator composition the source writes. The example lemmas run the grammars on concrete text:

- `x-1` is a range;
- `3x` is a tag;
- `foo [` fails at end of input;
- `!a | b` and `a | b & c` parse differently in each version.

## Model

| member | source | states |
|---|---|---|
| Parse.Map | web/src/parse.ts:17-32 | `map` of a parser that leaves a suffix of its input again leaves a suffix |
| Parse.MapLaw | web/src/parse.ts:17-32 | `map` passes a failure through with its expected set; a success keeps its rest and only its value changes, by `f` |
| Parse.And | web/src/parse.ts:34-57 | `and` of two suffix-leaving parsers leaves a suffix |
| Parse.AndLaw | web/src/parse.ts:34-57 | `and` fails with the first failing component's error unchanged; a success yields the pair, with what the second parser left |
| Parse.AndMap | web/src/parse.ts:59-69 | `andMap` of two suffix-leaving parsers leaves a suffix |
| Parse.AndMapLaw | web/src/parse.ts:59-69 | `andMap` fails like `and`; a success combines both values with `f` |
| Parse.ApplyAll | web/src/parse.ts:71-86 | every alternative is run on the same original input |
| Parse.Or | web/src/parse.ts:71-86 | `or` of suffix-leaving alternatives leaves a suffix |
| Parse.RunOr | web/src/parse.ts:71-86 | the accumulation loop returns exactly what `Or` specifies |
| Parse.OrFirstSuccess | web/src/parse.ts:71-86 | the first alternative that succeeds gives the result, unchanged |
| Parse.OrAllFail | web/src/parse.ts:71-86 | when all fail, the failure is at the original input and expects exactly the union of the alternatives' expected sets |
| Parse.OrSuffix | web/src/parse.ts:71-86 | an alternation of suffixes of the input is a suffix of the input |
| Parse.ManyFrom | web/src/parse.ts:88-104 | the `many` loop never fails |
| Parse.Many | web/src/parse.ts:88-104 | `many` of a suffix-leaving parser leaves a suffix |
| Parse.ManySuffix | web/src/parse.ts:88-104 | what `many` leaves is a suffix of its input |
| Parse.RunMany | web/src/parse.ts:88-104 | the push loop returns exactly what `Many` specifies |
| Parse.ManyStops | web/src/parse.ts:88-104 | `many` never fails and stops only at the end of input or where the inner parser fails |
| Parse.Many1 | web/src/parse.ts:106-116 | `some` of a suffix-leaving parser leaves a suffix |
| Parse.Many1Law | web/src/parse.ts:106-116 | `some` fails exactly when the first application fails; otherwise it yields at least one value, the first being that one |
| Parse.LeadingSpaces | web/src/parse.ts:118-135 | the `trim` counter counts exactly the leading `' '` characters |
| Parse.SkipSpaces | web/src/parse.ts:118-135 | dropping the leading spaces leaves a suffix |
| Parse.Space | web/src/parse.ts:118-135 | `space` of a suffix-leaving parser leaves a suffix |
| Parse.RunSpace | web/src/parse.ts:118-135 | the counting loop returns exactly what `Space` specifies |
| Parse.SpaceLaw | web/src/parse.ts:118-135 | `space` returns failures unchanged; after a success it drops exactly the `' '` run that follows (no other white space) and keeps the value |
| Parse.SkipSpacesOfPad | web/src/parse.ts:118-135 | a run of spaces in front of text not starting with a space is dropped exactly |
| Parse.SkipSpacesIdempotent | web/src/parse.ts:118-135 | skipping spaces twice is skipping them once |
| Parse.Optional | web/src/parse.ts:137-152 | `optional` of a suffix-leaving parser leaves a suffix |
| Parse.OptionalLaw | web/src/parse.ts:137-152 | `optional(d)` never fails; on a failure it yields `d` with the input unchanged, otherwise the inner result |
| Parse.Eof | web/src/parse.ts:154-168 | `eof` of a suffix-leaving parser leaves a suffix |
| Parse.EofLaw | web/src/parse.ts:154-168 | `eof` succeeds exactly when the inner parser succeeds with nothing left; a success that leaves text fails with `<eof>` at that text |
| Parse.Parens | web/src/parse.ts:170-181 | `parens` of suffix-leaving parsers leaves a suffix |
| Parse.ParensLaw | web/src/parse.ts:170-181 | `parens` fails with the first failure among left, middle and right, unchanged, and otherwise keeps only the middle value |
| Parse.SpacedParensLaw | web/src/filterspec.ts:126-128 | a spaced body between spaced parentheses fails expecting `'('` without one, passes a body failure through, fails expecting `')'` at what follows an unclosed body, and otherwise yields the body's value with the spaces after `)` dropped |
| Parse.Tag | web/src/parse.ts:183-198 | `tag` of a suffix-leaving parser leaves a suffix |
| Parse.TagLaw | web/src/parse.ts:183-198 | `tag` replaces only a failure's expected set, by exactly the given names; the rest and every success are untouched |
| Parse.Symbol | web/src/parse.ts:202-215 | a symbol leaves a suffix, and a non-empty one always consumes on success |
| Parse.SymbolLaw | web/src/parse.ts:202-215 | `Symbol(lit)` succeeds exactly when the input starts with `lit`, consuming exactly it; otherwise it fails at the input expecting `'lit'` |
| Parse.SymbolCharLaw | web/src/parse.ts:202-215 | a one-character symbol consumes exactly that character |
| Parse.SymbolCharFails | web/src/parse.ts:202-215 | a missing one-character symbol fails at the input, expecting the character in quotes |
| Parse.SpacedCharLaw | web/src/parse.ts:202-215 | a spaced one-character symbol consumes the character and the spaces after it, or fails at the input |
| Parse.SpacedSymbolConsumes | web/src/parse.ts:202-215 | a spaced symbol succeeds exactly when the input starts with it, and then consumes at least the symbol |
| Parse.Regex | web/src/parse.ts:217-235 | a regex parser leaves a suffix: the length of the first match is cut off the front |
| Parse.EmptyParser | web/src/filterspec.ts:198 | `parse.empty` succeeds without consuming anything |
| Parse.FirstDigit | web/src/parse.ts:237-245 | the index of the first decimal digit, with no digit before it |
| Parse.FirstDigitRun | web/src/parse.ts:237-245 | `/\d+/` finds no match exactly when the input has no digit |
| Parse.Int | web/src/parse.ts:237-245 | `int` leaves a suffix of its input |
| Parse.IntLaw | web/src/parse.ts:237-245 | `int` fails with `integer` at the input exactly when there is no digit; a success consumes something; on input that starts with digits it reads exactly that number |
| Parse.IntFindsDigitsAnywhere | web/src/parse.ts:237-245 | the unanchored match reads the 1 of `x-1` but cuts only one character off the front, leaving `-1` |
| Parse.FloatBody | web/src/parse.ts:247-255 | an unsigned float lexeme is a non-empty prefix of the text |
| Parse.FloatAt | web/src/parse.ts:247-255 | a signed float lexeme is a non-empty prefix of the text |
| Parse.FirstFloat | web/src/parse.ts:247-255 | the leftmost float lexeme is no longer than the text |
| Parse.Float | web/src/parse.ts:247-255 | `float` leaves a suffix of its input |
| Parse.FloatLaw | web/src/parse.ts:247-255 | `float` fails with `float` at the input exactly when no float lexeme occurs; a success consumes something |
| JsString.Drop | web/src/parse.ts:210 | `slice(n)` drops the first n characters, or all of them when n is past the end |
| JsString.TrimEnd | web/src/filterspec.ts:148 | `trimEnd` leaves a prefix that does not end in white space |
| JsString.TrimEndRemovesWhiteSpace | web/src/filterspec.ts:148 | what `trimEnd` removes is white space |
| JsString.TrimStart | web/src/filterspec.ts:209-211 | `trimStart` leaves a suffix that does not start with white space |
| JsString.TrimStartRemovesWhiteSpace | web/src/filterspec.ts:209-211 | what `trimStart` removes is white space |
| JsString.TrimEmptyIffAllWhiteSpace | web/src/filterspec.ts:209-211 | a line is blank for `parseBLT` exactly when all of it is white space |
| JsString.Split | web/src/filterspec.ts:207 | `split` yields at least one piece, and no piece holds the separator |
| JsString.SplitJoin | web/src/filterspec.ts:207 | joining the pieces of a split gives the input back |
| JsString.DigitRun | web/src/parse.ts:239 | the leading run of decimal digits |
| JsString.NatToDecimal | web/src/filterspec.ts:483-485 | a number prints as a non-empty string of digits |
| JsString.NatToDecimalRoundTrip | web/src/filterspec.ts:483-485 | reading back a printed number gives the number |
| JsSet.Dedup | web/src/filterspec.ts:324 | `new Set([...xs])` keeps each element once, the same elements, and is no longer |
| JsSet.DedupOfDistinct | web/src/filterspec.ts:324 | a list without repeats is left as it is, order included |
| ItemText.DescLength | web/src/filterspec.ts:143-147 | the scan stops at the first delimiter (`[ ] { } \r \n` or the end), and no earlier |
| ItemText.TextDesc | web/src/filterspec.ts:141-162 | `textDesc` leaves a suffix of its input |
| ItemText.TextDescFails | web/src/filterspec.ts:141-162 | `textDesc` fails, at its input and expecting `item description`, exactly when the text before the delimiter is all white space |
| ItemText.TextDescYields | web/src/filterspec.ts:141-162 | on success the input is the description followed by the rest; the description is non-empty, has no delimiter and no trailing white space; only white space lies between it and the delimiter |
| ItemText.RunTextDesc | web/src/filterspec.ts:141-162 | the counting loop returns exactly what `TextDesc` specifies |
| ItemText.EveryNNightsSuffixing | web/src/filterspec.ts:138-139 | `*` followed by a float leaves a suffix |
| WebGrammar.SpineOfBinOpTree | web/src/filterspec.ts:55-63 | the left fold keeps every operator and operand, in order, nested to the left: reading the left spine back gives them all |
| WebGrammar.MakeBinOpTree | web/src/filterspec.ts:55-63 | the loop that reassigns `tree` computes the left fold |
| WebGrammar.RangeOpMatchIsRangeOp | web/src/filterspec.ts:65-67 | the operator pattern only yields one of the five range operators, matched at the start of the text |
| WebGrammar.IdentRun | web/src/filterspec.ts:87-88 | the run of identifier characters, and no further |
| WebGrammar.IntSuffixing | web/src/parse.ts:237-245 | `int` leaves a suffix on every input |
| WebGrammar.NightsRangeSuffixing | web/src/filterspec.ts:65-85 | both range forms leave a suffix |
| WebGrammar.TagLitSuffixing | web/src/filterspec.ts:87-93 | a tag literal leaves a suffix |
| WebGrammar.BinOpSymbolConsumes | web/src/filterspec.ts:114-117 | the operator symbols succeed exactly on `&`, `\|` or `^`, consuming that one character |
| WebGrammar.BinOpSymbolFails | web/src/filterspec.ts:114-117 | without an operator character, the failure expects all three operators |
| WebGrammar.BinOpParserConsumes | web/src/filterspec.ts:114-117 | `binOp` consumes exactly its character and yields the operator it names, or fails at the input expecting the three operators |
| WebGrammar.SpacedBinOpConsumes | web/src/filterspec.ts:119-120 | a spaced operator leaves a suffix, strictly shorter on success |
| WebGrammar.NotExprParse | web/src/filterspec.ts:107-112 | `notExpr` leaves a suffix |
| WebGrammar.ParenExprParse | web/src/filterspec.ts:126-128 | `parenExpr` leaves a suffix |
| WebGrammar.OtherTagExprParse | web/src/filterspec.ts:130-132 | an atom leaves a suffix |
| WebGrammar.BinOpExprRestParse | web/src/filterspec.ts:119-120 | an operator link leaves a suffix, strictly shorter on success |
| WebGrammar.BinOpExprRests | web/src/filterspec.ts:123-124 | the repeated links never fail and leave a suffix |
| WebGrammar.TagExprParse | web/src/filterspec.ts:134-136 | a tag expression leaves a suffix |
| WebGrammar.NotExprAgrees | web/src/filterspec.ts:107-112 | `notExpr` is `!` followed directly by one atom |
| WebGrammar.ParenExprAgrees | web/src/filterspec.ts:126-128 | `parenExpr` is a spaced expression between spaced parentheses |
| WebGrammar.OtherTagExprAgrees | web/src/filterspec.ts:130-132 | an atom is a parenthesised expression, a negation, a range or a tag, tried in that order |
| WebGrammar.BinOpExprRestAgrees | web/src/filterspec.ts:119-120 | a link is a spaced operator and a spaced atom |
| WebGrammar.BinOpExprRestProgressing | web/src/filterspec.ts:119-120 | a link always consumes input, so `many` of it terminates |
| WebGrammar.BinOpExprRestsAgrees | web/src/filterspec.ts:123-124 | the repeated links are `binOpExprRest.many()` |
| WebGrammar.TagExprAgrees | web/src/filterspec.ts:123-124 | a tag expression is an atom and its links, folded to the left |
| WebGrammarExamples.ChainFoldsLeft | web/src/filterspec.ts:123-124 | `a op b op c` is `((a op b) op c)` for any operators: no precedence |
| WebGrammarExamples.NotBindsOneAtom | web/src/filterspec.ts:107-112 | `!a op b` is `(!a) op b` |
| WebGrammarExamples.WordDashOneIsRange | web/src/filterspec.ts:130-132 | `x-1` parses as the range from 1 to 1, because ranges are tried before tags and `int` is unanchored |
| WebGrammarExamples.DigitLedIdentifier | web/src/filterspec.ts:87-88 | `3x` is the tag `3x`: an identifier may start with a digit |
| WebGrammarExamples.FooItem | web/src/filterspec.ts:164-180 | `foo [` reads as the item `foo` with the `[` left over, since the bracket is optional |
| WebGrammarExamples.UnclosedItemBracketFailsAtEof | web/src/filterspec.ts:198-204 | the line `foo [` fails expecting `<eof>` at `[` |
| WebEval.RangeAcceptsWhatItNames | web/src/filterspec.ts:44-53 | with the inclusive check, `==N`, `<N`, `<=N`, `>N` and `>=N` each accept exactly the nights they name |
| WebEval.DoubleRangeAccepts | web/src/filterspec.ts:253-261 | `A-B` accepts exactly the nights from A to B, both included |
| WebEval.ExprIsMatch | web/src/filterspec.ts:263-318 | the verdict is the intended meaning (`&` and, `\|` or, `!` not, `^` equivalence, a tag by membership, a range by its bounds, empty always); every tag listed as active is active and named by the expression, likewise for inactive |
| WebEval.TagExplainsItself | web/src/filterspec.ts:307-312 | a tag lists itself as active when active, otherwise as inactive |
| WebEval.ExplanationRules | web/src/filterspec.ts:266-306 | a failing left side of `&` is returned as is; `&` with a matching left side lists both sides; `\|` returns the left side when it matches, otherwise the right side only; a matching negation lists its inner tags, a failing one nothing; a failing `^` lists nothing |
| WebEval.CaretIsEquivalence | web/src/filterspec.ts:287-293 | `^` matches exactly when both sides give the same verdict |
| WebEval.CollectTagsFromExpr | web/src/filterspec.ts:320-334 | the collected tags are exactly the tags the expression names, each once |
| WebEval.VerdictDependsOnlyOnCollectedTags | web/src/filterspec.ts:263-334 | two filters with the same nights that agree on the collected tags give the same verdict |
| WebEval.VerdictStableAwayFromBounds | web/src/filterspec.ts:349-370 | the verdict can only change between n and n + 1 nights where one of them is a bound the collector returns |
| WebEval.AddItemTagsElems | web/src/filterspec.ts:340-342 | after the item loop, a tag is present exactly when it was before or some item expression names it |
| WebEval.AddCategoryTagsElems | web/src/filterspec.ts:336-345 | after the category loop, a tag is present exactly when it was before or some category or item expression names it |
| WebEval.TagsOfDBAreTheMentionedTags | web/src/filterspec.ts:336-345 | the tags of a template are exactly those some category or item expression names, each once |
| WebEval.AddCategoryTagsDistinct | web/src/filterspec.ts:336-345 | the set reassignments never introduce a repeat |
| WebEval.AddItemTagsDistinct | web/src/filterspec.ts:340-342 | the item loop never introduces a repeat |
| WebEval.CollectTagsFromDB | web/src/filterspec.ts:336-345 | the nested loops compute the tags of the template in order |
| WebEval.AddItemBoundsElems | web/src/filterspec.ts:377-379 | after the item loop, a bound is present exactly when it was before or is a bound of some item range; no repeats appear |
| WebEval.AddCategoryBoundsElems | web/src/filterspec.ts:374-380 | after the category loop, a bound is present exactly when it was before or is a bound of some range of the template; no repeats appear |
| WebEval.Insert | web/src/filterspec.ts:382 | one insertion keeps the bounds strictly ascending, with the new one added |
| WebEval.SortAscending | web/src/filterspec.ts:381-383 | the numeric sort of distinct numbers is strictly ascending with the same elements |
| WebEval.GetAllNightBounds | web/src/filterspec.ts:373-384 | the loops and the sort return the sorted bounds starting from 1 |
| WebEval.AllNightBoundsLaw | web/src/filterspec.ts:373-384 | the night bounds are strictly ascending, without repeats, and are exactly 1 and the bounds of the template's ranges |
| WebCompile.KeepLines | web/src/filterspec.ts:208-211 | the filter keeps at most the lines it was given |
| WebCompile.KeepLinesSound | web/src/filterspec.ts:208-211 | each kept line comes with its own index and is not blank or a comment |
| WebCompile.KeepLinesOrdered | web/src/filterspec.ts:208-211 | kept lines are in input order |
| WebCompile.KeepLinesComplete | web/src/filterspec.ts:208-211 | every line that is not blank or a comment is kept |
| WebCompile.FirstKeptLine | web/src/filterspec.ts:208-211 | every line before the first kept one is blank or a comment |
| WebCompile.CompileLines | web/src/filterspec.ts:212-242 | the loop with its open category returns what the compilation function specifies, a thrown error as a `Failure` |
| WebCompile.ParseBLT | web/src/filterspec.ts:206-251 | `parseBLT`, with the throw caught as in `parseBLTChecked`, returns the compiled list or the error |
| WebCompile.FlattenClose | web/src/filterspec.ts:239-241 | closing the open category appends its heading and items to the list's lines |
| WebCompile.CompileFromSucceeds | web/src/filterspec.ts:214-238 | compilation succeeds exactly when every remaining line parses and no item comes before the first category |
| WebCompile.CompileFromFlattens | web/src/filterspec.ts:214-241 | the compiled list, read back as lines, is the closed categories, the open one and the remaining lines in order |
| WebCompile.CompileFromParseError | web/src/filterspec.ts:215-219 | a parse error comes from a line that fails with exactly that expected set and rest, after every earlier line parsed |
| WebCompile.CompileFromNoCategory | web/src/filterspec.ts:231-233 | an item without a category can only be the first compiled line, while no category is open |
| WebCompile.ParseBLTSucceeds | web/src/filterspec.ts:206-251 | a template compiles exactly when every line that is not blank or a comment parses and the first is a category; the compiled list, read back as lines, is those lines in input order |
| WebCompile.CompileSucceeds | web/src/filterspec.ts:212-242 | for any line parser, compilation from no category succeeds exactly when every line parses and the first is a category, and then reads back as the parsed lines |
| WebCompile.LinesParseError | web/src/filterspec.ts:214-219 | a parse error names the 1-based number of a line that is not skipped and fails with that expected set and rest; every non-skipped line before it parsed |
| WebCompile.LinesNoCategory | web/src/filterspec.ts:230-233 | the no-category error names the 1-based number and text of the first non-skipped line, and that line is an item |
| Combinatorics.WithAndWithout | web/src/filterspec.ts:386-393 | each combination is taken with and without the head: twice as many |
| Combinatorics.WithAndWithoutMembers | web/src/filterspec.ts:386-393 | a result is a combination with or without the head in front |
| Combinatorics.CombinationsCount | web/src/filterspec.ts:386-393 | n elements have 2^n combinations |
| Combinatorics.CombinationsFirst | web/src/filterspec.ts:386-393 | the first combination is the whole array |
| Combinatorics.CombinationsComplete | web/src/filterspec.ts:386-393 | every sub-sequence is among the combinations |
| Combinatorics.CombinationsSound | web/src/filterspec.ts:386-393 | every combination is a sub-sequence |
| Combinatorics.CombinationsAreSubsequences | web/src/filterspec.ts:386-393 | the combinations are exactly the sub-sequences |
| Combinatorics.SelectFromArray | web/src/filterspec.ts:386-393 | a sub-sequence holds only elements of the array |
| Combinatorics.Pairs | web/src/filterspec.ts:398-400 | the inner loop pairs the element with each of the other list |
| Combinatorics.PairsMembers | web/src/filterspec.ts:398-400 | those are exactly the pairs with that first element |
| Combinatorics.ProductMembers | web/src/filterspec.ts:395-403 | `product` holds exactly the pairs of an element of each list |
| Combinatorics.ProductLoop | web/src/filterspec.ts:395-403 | the nested push loops compute the product in order |
| WebWarnings.FlattenCategory | web/src/filterspec.ts:411-412 | each item of a category becomes one flat item |
| WebWarnings.ItemsNamed | web/src/filterspec.ts:417-425 | the items of a name are as many as its count, all with that name |
| WebWarnings.CountsOfLaw | web/src/filterspec.ts:413-416 | a name has a numeric entry in `itemCounts` exactly when it occurs and is not inherited from `Object.prototype`, and the entry is its number of occurrences |
| WebWarnings.CountItems | web/src/filterspec.ts:413-416 | the counting loop builds exactly those counts; an inherited name never gets a numeric entry, because `?? 0` reads the inherited member |
| WebWarnings.GroupOfLaw | web/src/filterspec.ts:417-425 | a name is a candidate exactly when it occurs and its count is not 1; its list is its items in order; the key order lists exactly the candidates |
| WebWarnings.KeyOrderDistinct | web/src/filterspec.ts:417-425 | each candidate key appears once |
| WebWarnings.GroupCandidates | web/src/filterspec.ts:417-425 | the grouping loop throws exactly when it reaches an item that is not single and has an inherited name, and names the first such item; otherwise it builds exactly those candidate lists, with keys in insertion order |
| WebWarnings.CandidateNamesLaw | web/src/filterspec.ts:413-425 | the candidates are exactly the names of at least two items, plus the inherited names of at least one, each once, with their items |
| WebWarnings.FirstThrowing | web/src/filterspec.ts:417-425 | the item at which the grouping loop throws is the first one at which it can |
| WebWarnings.ThrowsOnInheritedName | web/src/filterspec.ts:405-425 | `getBLTWarnings` throws a TypeError exactly when some item is named after a member of `Object.prototype`, at the first such item; otherwise it returns the duplicate warnings |
| WebWarnings.ConstructorItemThrows | web/src/filterspec.ts:413-424 | a template whose only item is called `constructor` throws |
| WebWarnings.NoInheritedWhenSucceeds | web/src/filterspec.ts:405-425 | when `getBLTWarnings` returns, no item name is inherited, and the candidates are exactly the names of two or more items |
| WebWarnings.ItemTagUnionHas | web/src/filterspec.ts:434 | every tag of an item expression is in the item tag union |
| WebWarnings.ItemTagUnionFrom | web/src/filterspec.ts:434 | every tag of the item union comes from some item expression |
| WebWarnings.CatTagUnionHas | web/src/filterspec.ts:435 | every tag of a category expression is in the category tag union |
| WebWarnings.CatTagUnionFrom | web/src/filterspec.ts:435 | every tag of the category union comes from some category expression |
| WebWarnings.ItemBoundListHas | web/src/filterspec.ts:438 | every bound of an item range is in the item bounds |
| WebWarnings.ItemBoundListFrom | web/src/filterspec.ts:438 | every item bound comes from some item range |
| WebWarnings.CatBoundListHas | web/src/filterspec.ts:439 | every bound of a category range is in the category bounds |
| WebWarnings.CatBoundListFrom | web/src/filterspec.ts:439 | every category bound comes from some category range |
| WebWarnings.TriedValues | web/src/filterspec.ts:434-440 | the tags tried are exactly those of the items' and their categories' expressions; the nights tried are exactly their range bounds, with 1 not added |
| WebWarnings.Matching | web/src/filterspec.ts:444 | the matching items are at most all of them |
| WebWarnings.MatchingLaw | web/src/filterspec.ts:444 | an item matches exactly when both its own and its category's expression match |
| WebWarnings.TryPairs | web/src/filterspec.ts:441-455 | the loop over the pairs builds the entry the fold specifies |
| WebWarnings.FindDuplicate | web/src/filterspec.ts:433-455 | the check of one name builds the entry `DupFor` specifies |
| WebWarnings.FoldDupKeeps | web/src/filterspec.ts:446-453 | once made, an entry keeps its item and tags and its range only widens |
| WebWarnings.FoldDupFindsCollision | web/src/filterspec.ts:441-455 | any collision among the pairs makes an entry |
| WebWarnings.FoldDupFirst | web/src/filterspec.ts:446 | a new entry takes the name and the tags of the first colliding pair |
| WebWarnings.FoldDupCovers | web/src/filterspec.ts:447-452 | the entry's range covers the nights of every colliding pair |
| WebWarnings.FoldDupAttained | web/src/filterspec.ts:446-453 | each end of the range is the nights of some colliding pair, or of the entry it started from |
| WebWarnings.FoldDupConcat | web/src/filterspec.ts:441 | folding over two runs of pairs is folding over one, then the other |
| WebWarnings.FoldProductSome | web/src/filterspec.ts:441-455 | over the product, an entry is made exactly when some combination collides at some bound |
| WebWarnings.FoldProductRange | web/src/filterspec.ts:446-453 | the entry's range is ordered, its ends are colliding bounds, and it covers every colliding bound |
| WebWarnings.FoldProductTags | web/src/filterspec.ts:441-446 | the entry's tags are the first colliding combination in `combinations` order |
| WebWarnings.CollateIgnoresOtherKeys | web/src/filterspec.ts:466-474 | collating keys does not look at entries for other names |
| WebWarnings.CheckCandidates | web/src/filterspec.ts:433-461 | the loop over the candidates fills `duplicateItems`; collated in key order it gives the warnings the specification lists |
| WebWarnings.CollateLoop | web/src/filterspec.ts:465-474 | the collation loop pushes one warning per entry, in key order |
| WebWarnings.GetBLTWarningsLoop | web/src/filterspec.ts:405-477 | `getBLTWarnings` returns exactly the warnings of the specification, or throws exactly where it does |
| WebWarnings.DupForSome | web/src/filterspec.ts:433-455 | a name gets an entry exactly when some tag combination collides at some bound tried |
| WebWarnings.DupForEntry | web/src/filterspec.ts:446-453 | the entry names the item; its range is ordered and its ends are colliding bounds |
| WebWarnings.DupForCovers | web/src/filterspec.ts:447-452 | the range covers every colliding bound |
| WebWarnings.DupForTags | web/src/filterspec.ts:437-446 | the entry's tags are the first colliding combination, the full tag set being tried first |
| WebWarnings.NoRangeNoDuplicate | web/src/filterspec.ts:438-441 | a name whose items and categories have no range gets no entry |
| WebWarnings.WarningsForMembers | web/src/filterspec.ts:466-474 | a warning is listed exactly when it is made from the entry of some candidate |
| WebWarnings.DupOfItem | web/src/filterspec.ts:446 | the entry of a name is about that name |
| WebWarnings.WarningsForAbout | web/src/filterspec.ts:466-474 | every warning is a duplicate-item warning about a candidate |
| WebWarnings.WarningsForDistinct | web/src/filterspec.ts:466-474 | distinct candidates give warnings about distinct items |
| WebWarnings.WarningIsDuplicate | web/src/filterspec.ts:405-477 | when `getBLTWarnings` returns, every warning is about a name shared by at least two items, with an ordered range and a combination of their tags under which two of them match at a bound tried |
| WebWarnings.OneWarningPerName | web/src/filterspec.ts:405-477 | when `getBLTWarnings` returns, at most one warning per item name, each a duplicate-item warning |
| WebWarnings.CollisionIsReported | web/src/filterspec.ts:405-477 | unless `getBLTWarnings` throws, a name shared by two or more items that collide under some combination at some bound gets a warning whose range covers that bound |
| WebWarnings.NoRangeNoWarning | web/src/filterspec.ts:438-441 | when `getBLTWarnings` returns, a name whose items and categories have no range gets no warning |
| WebWarningText.JoinWith | web/src/filterspec.ts:494 | joining no pieces gives the empty text, and one piece gives that piece |
| WebWarningText.JoinWithShows | web/src/filterspec.ts:494 | every tag appears in the joined text |
| WebWarningText.WarningToString | web/src/filterspec.ts:479-501 | the text starts with the kind and the name (and the tags for an item) and ends with the nights range text |
| WebWarningText.IntToDecimalRoundTrip | web/src/filterspec.ts:483-485 | a printed integer reads back as itself and holds no dash or space |
| WebWarningText.SplitNoSeparator | web/src/filterspec.ts:485 | text without the separator splits into itself |
| WebWarningText.SplitAfterPiece | web/src/filterspec.ts:485 | splitting after a piece without the separator yields that piece first |
| WebWarningText.NightsRangeTextRoundTrip | web/src/filterspec.ts:480-487 | the nights range text reads back as the range it was made from, single night or `between lo–hi` |
| WebWarningText.TagTextShowsTags | web/src/filterspec.ts:488-495 | every active tag appears in the tag text, which then never reads `no tags are active` |
| SrcFilterSpec.StrictAndLowerRangesAccept | src/filterspec.ts:25-34 | with the exclusive upper check, `<N`, `>N` and `>=N` accept exactly the days they name |
| SrcFilterSpec.AtMostIsBelow | src/filterspec.ts:29 | `<=N` builds the same range as `<N` and accepts only days below N |
| SrcFilterSpec.EqualsMatchesNothing | src/filterspec.ts:27 | `==N` accepts no number of days at all |
| SrcFilterSpec.DoubleRangeAcceptsBelowHi | src/filterspec.ts:56-64 | `A-B` accepts the days from A up to, but not including, B |
| SrcFilterSpec.RangeAsWrittenMisses | src/filterspec.ts:27-29 | ten days are neither "at most ten" nor "exactly ten" under the ranges as written |
| SrcFilterSpec.IntendedRangeSingle | src/filterspec.ts:25-34 | the corrected ranges (`<=N` and `==N` end before N + 1) |
| SrcFilterSpec.IntendedRangeAccepts | src/filterspec.ts:263-268 | with the corrected ranges every operator accepts exactly the days it names |
| SrcFilterSpec.IdentLaw | src/filterspec.ts:68-70 | an identifier succeeds exactly on a letter or `_` first, reading the identifier run; otherwise it fails at the input expecting `identifier` |
| SrcFilterSpec.TagIdentLaw | src/filterspec.ts:72-75 | the same for the spaced tag, which yields the tag |
| SrcFilterSpec.DaysRangeSuffixing | src/filterspec.ts:46-66 | both range forms leave a suffix |
| SrcFilterSpec.NotExprParse | src/filterspec.ts:83-88 | `notExpr` leaves a suffix |
| SrcFilterSpec.ParenExprParse | src/filterspec.ts:108-110 | `parenExpr` leaves a suffix |
| SrcFilterSpec.OtherTagExprParse | src/filterspec.ts:112-114 | an atom leaves a suffix, and fails at its input |
| SrcFilterSpec.BinOpExprRestParse | src/filterspec.ts:101-102 | a link leaves a suffix, strictly shorter on success |
| SrcFilterSpec.BinOpExprRests | src/filterspec.ts:105-106 | the repeated links never fail and leave a suffix |
| SrcFilterSpec.TagExprParse | src/filterspec.ts:116-118 | a tag expression leaves a suffix |
| SrcFilterSpec.NotExprAgrees | src/filterspec.ts:83-88 | `notExpr` is `!` followed by a whole tag expression |
| SrcFilterSpec.ParenExprAgrees | src/filterspec.ts:108-110 | `parenExpr` is a spaced expression between spaced parentheses |
| SrcFilterSpec.OtherTagExprAgrees | src/filterspec.ts:112-114 | an atom is a parenthesised expression, a negation, a range or a tag, tried in that order |
| SrcFilterSpec.BinOpExprRestAgrees | src/filterspec.ts:101-102 | a link is a spaced operator and a spaced atom |
| SrcFilterSpec.BinOpExprRestsAgrees | src/filterspec.ts:105-106 | the repeated links are `binOpExprRest.many()` |
| SrcFilterSpec.ChainedAgrees | src/filterspec.ts:105-106 | an atom with its links folds left; without an atom the chain fails at the input |
| SrcFilterSpec.OrWithFallback | src/filterspec.ts:116-118 | an alternation whose fallback repeats the first alternative's atom gives the first alternative's result |
| SrcFilterSpec.TagExprAgrees | src/filterspec.ts:116-118 | a tag expression is the folded chain, or failing that the atom |
| SrcFilterSpec.ChainStops | src/filterspec.ts:105-106 | the links stop where no further link parses |
| SrcFilterSpec.NegationTakesWholeExpression | src/filterspec.ts:83-88 | a negation is `!` followed by a whole expression, and then the expression is that negation |
| SrcFilterSpec.FilterLineDispatch | src/filterspec.ts:181-188 | a line parses as a category exactly when it starts with `#`, and either kind consumes the whole line |
| SrcFilterSpec.ItemWithoutTags | src/filterspec.ts:146-162 | an item without a bracket has no cadence and the empty expression |
| SrcFilterSpecExamples.NoExpressionAtClose | src/filterspec.ts:104-117 | no tag expression starts at a `]` |
| SrcFilterSpecExamples.EmptyBracket | src/filterspec.ts:148-161 | `[]` reads as a bracket with no cadence and the empty expression, to the end |
| SrcFilterSpecExamples.ItemWithEmptyBracket | src/filterspec.ts:146-162 | for every description, an item with `[]` is the same as one without a bracket |
| SrcFilterSpec.ExprIsMatch | src/filterspec.ts:229-290 | the verdict is the intended meaning with exclusive upper bounds; listed tags are named by the expression, active or inactive as listed |
| SrcFilterSpec.AgreesWithNewerWithoutRanges | src/filterspec.ts:229-290 | without ranges, verdict and explanation equal the newer evaluator's |
| SrcFilterSpec.RangesDifferAtUpperBound | src/filterspec.ts:262-269 | a range matches exactly when the newer one does, except at the upper bound itself |
| SrcFilterSpec.ParseDatabase | src/filterspec.ts:190-227 | the compilation loop returns the compiled list, or the thrown error as a value |
| SrcFilterSpec.ParseDatabaseSucceeds | src/filterspec.ts:190-227 | a database compiles exactly when every line that is not blank or a comment parses and the first is a category; read back as lines, it is those lines in order |
| SrcFilter.RangesAcceptWhatTheyName | src/filter.ts:20-29 | `<`, `<=`, `>` and `>=` build the corrected ranges and accept exactly the days they name |
| SrcFilter.EqualsMatchesNothing | src/filter.ts:22 | `==N` matches no number of days, though N days are "exactly N" |
| SrcFilter.DaysRangeSuffixing | src/filter.ts:38-57 | both range forms leave a suffix |
| SrcFilter.NotExprParse | src/filter.ts:67-70 | `notExpr` leaves a suffix |
| SrcFilter.ParenExprParse | src/filter.ts:85-89 | `parenExpr` leaves a suffix |
| SrcFilter.OtherTagExprParse | src/filter.ts:91-93 | an atom leaves a suffix, and fails at its input |
| SrcFilter.BinOpExprRestParse | src/filter.ts:77-80 | a link leaves a suffix |
| SrcFilter.TagExprParse | src/filter.ts:95-97 | a tag expression leaves a suffix |
| SrcFilter.NotExprAgrees | src/filter.ts:67-70 | `notExpr` is `!` followed by a whole tag expression |
| SrcFilter.ParenExprAgrees | src/filter.ts:85-89 | `parenExpr` is a spaced expression between spaced parentheses |
| SrcFilter.OtherTagExprAgrees | src/filter.ts:91-93 | an atom is a parenthesised expression, a negation, a range or a tag, tried in that order |
| SrcFilter.BinOpExprRestAgrees | src/filter.ts:77-80 | a link is a spaced operator and a spaced tag expression |
| SrcFilter.BinOpExprOrOtherAgrees | src/filter.ts:81-84 | an atom with an optional link is decided into the atom or one binary node; without an atom it fails at the input |
| SrcFilter.TagExprAgrees | src/filter.ts:95-97 | a tag expression is `binOpExprOrOther`, or failing that an atom |
| SrcFilter.RightOperandIsWholeExpression | src/filter.ts:77-97 | after an atom and an operator, the right operand is the whole rest of the expression |
| SrcFilter.CategoryLine | src/filter.ts:135-141 | a line starting with `#` and a description is the category of that description |
| SrcFilter.NonCategoryLine | src/filter.ts:135-141 | any other line is read as an item, or fails at the line expecting `'#'` or what the item expected |
| SrcFilter.ItemWithoutBracket | src/filter.ts:121-133 | an item without a bracket has no cadence and the empty expression |
| SrcFilter.AgreesWithoutXor | src/filter.ts:143-171 | without `^`, the verdict is the older evaluator's intended meaning |
| SrcFilter.XorIsOppositeOfLaterCaret | src/filter.ts:148 | `^` is exclusive or, the opposite of the later versions' `^` |
| SrcFilter.VerdictDependsOnMentionedTags | src/filter.ts:143-171 | the verdict depends only on the tags the expression names |
| SrcFilterExamples.ChainNestsRight | src/filter.ts:95-97 | `a op b op c` is `a op (b op c)` |
| SrcFilterExamples.ChainDiffersFromNewer | src/filter.ts:81-84 | the same text `a \| b & c` matches with only `a` active here and not in the newest grammar |
| SrcFilterExamples.NotTakesWholeChain | src/filter.ts:67-70 | `!a op b` is `!(a op b)` |
| SrcFilterExamples.LoneHashIsItem | src/filter.ts:135-141 | a lone `#` is not a category, so it is read as an item named `#` |
| SrcFilterExamples.ItemWithEmptyBracket | src/filter.ts:121-133 | an item with `[]` is the same as one without a bracket |
| StringSort.StrLeTotal | client/store.ts:65 | any two strings are ordered one way or the other |
| StringSort.StrLeAntisymmetric | client/store.ts:65 | strings ordered both ways are equal |
| StringSort.StrLeTransitive | client/store.ts:65 | the string order is transitive |
| StringSort.Insert | client/store.ts:65 | insertion adds one copy and keeps a sorted list sorted |
| StringSort.Sort | client/store.ts:65 | `sort()` returns the same strings, in sorted order |
| StringSort.SortedUnique | client/store.ts:65 | two sorted lists with the same strings are equal: the sorted order does not depend on the way the list was built |
| StringSort.SortOfSorted | client/store.ts:65 | sorting a sorted list changes nothing |
| StringSort.Without | client/store.ts:67-68 | the filter leaves no copy of the string |
| StringSort.WithoutCounts | client/store.ts:67-68 | every copy of the string goes and every other string keeps its count |
| StringSort.WithoutSorted | client/store.ts:67-68 | what is left of a sorted list stays sorted |
| StringSort.WithoutAppend | client/store.ts:67-68 | the filter keeps the other strings in their order |
| StringSort.WithoutAbsent | client/store.ts:67-68 | the filter leaves a list without the string as it is |
| StringSort.AddThenRemove | client/store.ts:61-68 | adding a string and sorting, then filtering it out, is sorting the list without it |
| StringSort.AddThenRemoveRestores | client/store.ts:61-68 | on a sorted list without the string, adding and removing it restores the list |
| ClientStore.Switched | client/store.ts:61-78 | switching on gives a sorted list with one more copy; switching off removes every copy; the string is present exactly when switched on |
| ClientStore.SwitchedKeepsSorted | client/store.ts:61-78 | switching keeps a sorted list sorted |
| ClientStore.SwitchOnAddsOneCopy | client/store.ts:64-65 | switching on adds a copy even if one is already there |
| ClientStore.SwitchOnThenOffSorted | client/store.ts:61-78 | on a sorted list, on then off is off, and restores the list when the string was absent |
| ClientStore.Store.constructor | client/store.ts:38-49 | the starting state: the given template, no tags, nothing checked, 3 nights, empty header, no greeting |
| ClientStore.Store.SetBringListTemplate | client/store.ts:58-60 | only the template changes |
| ClientStore.Store.SetTagEnabled | client/store.ts:61-69 | the tag list is switched and stays sorted; nothing else changes |
| ClientStore.Store.SetChecked | client/store.ts:70-78 | the checked list is switched and stays sorted; nothing else changes |
| ClientStore.Store.SetNights | client/store.ts:79-81 | only the nights change |
| ClientStore.Store.SetHeader | client/store.ts:82-84 | only the header changes |
| ClientStore.Store.ResetAllExceptTemplate | client/store.ts:85-89 | the starting list values come back; template and greeting stay |
| ClientStore.Store.SetHelloMessage | client/store.ts:90-92 | only the greeting changes |
| JsObject.Assigned | web/src/bringlistSlice.ts:61 | `obj[k] = true` makes `k` an own key, except `__proto__`, which goes through the prototype accessor and adds no key; other keys are left alone |
| WebBringlist.Toggled | web/src/bringlistSlice.ts:57-65 | toggling switches the key on exactly when it is off and not named after a member of `Object.prototype` (such a name is always found, so the delete branch runs), and leaves every other key alone |
| WebBringlist.Marked | web/src/bringlistSlice.ts:66-83 | marking makes the key present exactly when asked, except that marking `__proto__` on adds no key; every other key is left alone |
| WebBringlist.ToggleTwice | web/src/bringlistSlice.ts:57-65 | toggling twice restores the key set, except that an inherited name ends up off |
| WebBringlist.ToggleIsMarkOfAbsence | web/src/bringlistSlice.ts:57-83 | a toggle is a mark that switches the key on exactly when it is off and not an inherited name |
| WebBringlist.LastMarkWins | web/src/bringlistSlice.ts:66-83 | of two marks of one key, the last decides, except that `__proto__` marked off stays off |
| WebBringlist.Bringlist.constructor | web/src/bringlistSlice.ts:17-26 | the default state: the given template and time, no tags, nothing checked or struck, 3 nights, empty header, revision 0 |
| WebBringlist.Bringlist.SetHeader | web/src/bringlistSlice.ts:47-51 | the header changes, the revision goes up by one and the time is recorded; nothing else changes |
| WebBringlist.Bringlist.SetNights | web/src/bringlistSlice.ts:52-56 | the nights change, the revision goes up by one and the time is recorded; nothing else changes |
| WebBringlist.Bringlist.ToggleTag | web/src/bringlistSlice.ts:57-65 | the tag is switched on exactly when it was off and is not an inherited name, and off otherwise; the revision goes up by one and the time is recorded; nothing else changes |
| WebBringlist.Bringlist.SetCheckedBLItem | web/src/bringlistSlice.ts:66-74 | the item is checked exactly when asked (an item called `__proto__` only if it already was), the revision goes up by one and the time is recorded; nothing else changes |
| WebBringlist.Bringlist.SetStrikedBLItem | web/src/bringlistSlice.ts:75-83 | the item is struck exactly when asked (an item called `__proto__` only if it already was), the revision goes up by one and the time is recorded; nothing else changes |
| WebBringlist.Bringlist.SetBLT | web/src/bringlistSlice.ts:84-88 | the template changes, the revision goes up by one and the time is recorded; nothing else changes |
| WebBringlist.Bringlist.ResetAll | web/src/bringlistSlice.ts:89-97 | tags, checked and struck items empty, 3 nights, empty header, same template; the revision still goes up by one |

## Left out

- The older versions reuse the newer definitions where their code is the same up to syntax:
  - `makeBinOpTree` and `collectTagsFromExpr`/`collectTagsFromDB` of `src/filterspec.ts` (lines 36-44 and 292-318);
  - the `textDesc` of all three grammars;
  - the line filter and the category/item loop of `parseDatabase`.
- `src/parse.ts` is the same library as `web/src/parse.ts`, one line earlier, and is modelled once.
- The function-style `parse.tag`, `parse.andMap`, `parse.symbol`, … that `src/filter.ts` calls are not in the repository. They are taken to behave like the methods of the same name.
- `Parse.Many`, `Parse.ManyFrom`, `Parse.Many1`, `Parse.RunMany`: require the inner parser to consume input on every success. The source loops forever otherwise, and every parser it repeats meets this.
- Integers and floats:
  - numbers are unbounded integers;
  - `parseFloat` is an exact rational built from the matched text, not an IEEE double;
  - `nights` is an `int` rather than any JavaScript number.
- Strings are sequences of characters. JavaScript's UTF-16 code units, and the order `sort()` uses on them, are not modelled: `StringSort.StrLe` compares characters by code point.
- The `throw` branches marked unreachable in the source are left out of the case analysis:
  - `makeRangeSingle`'s default branch (the operator pattern only yields the five operators; `WebGrammar.RangeOpMatchIsRangeOp`);
  - the unknown-kind branches of `exprIsMatch`, `collectTagsFromExpr` and `parseBLT`.
- `WebWarnings`:
  - The duplicate-category warning is never produced by `getBLTWarnings`; it is modelled only as text.
  - The night bounds are not put through `toSorted()` (`web/src/filterspec.ts:440`). Only their least and greatest colliding values are kept, so their order changes nothing.
  - `Object.entries` lists integer-like keys first. That order is not modelled: keys stay in insertion order.
- Error messages are a datatype carrying the 1-based line number and either the expected set and rest, or the line. The exact message strings are not modelled.
- `WebWarningText.WarningToString`: states the text's beginning and end, and the round trip of the nights range. It does not spell out every character of the message.
- The state reducers take the default template and the current time as parameters. Not modelled:
  - `initialState` and the store middleware: `localStorage` load and save (`client/store.ts:51-54`, `client/store.ts:95-103`, `web/src/bringlistSlice.ts:28-41`, `web/src/bringlistSlice.ts:101-109`);
  - `fetchHelloMessage`, a network call (`client/store.ts:29-35`).
- The bring-list dictionaries of `web/src/bringlistSlice.ts` are kept as the sets of their own keys, since the reducers only ever store `true`. A value other than `true` could come only from a stored state loaded from `localStorage`, which is not modelled.
- `WebWarnings.GetBLTWarningsLoop`: the TypeError it throws is returned as a `Failure`. Nothing catches it in `web/src/worker.ts:12`, so no result is posted; that worker is not part of this model.
- `SrcFilterSpec.MakeRangeSingle`, `SrcFilter.MakeRangeSingle`: the grammars use the ranges as written, so that the model parses what the code parses. The corrected ranges of the findings below are stated and proved beside them, and are not substituted into the grammar.
- The tests in `src/filterspec.test.ts` expect `<10` to build an upper bound of 9 and `<=10` one of 10. The code builds 10 for both, and the model follows the code.

## Findings

| source | as written | input that shows it | evidently intended | confidence | as-written member | corrected member |
|---|---|---|---|---|---|---|
| src/filterspec.ts:27-29 | `<=N` builds the same exclusive upper bound N as `<N`, and `==N` builds lo = hi = N; the match check at lines 263-268 rejects days >= hi | 10 days with `<=10` or `==10` | `<=N` and `==N` accept N days, upper bound N + 1 | high (not executed) | SrcFilterSpec.RangeAsWrittenMisses | SrcFilterSpec.IntendedRangeAccepts |
| src/filter.ts:22 | `==N` builds lo = hi = N; the match check at line 158 rejects days >= hi, so nothing matches | any number of days with `==N`, e.g. 10 days with `==10` | `==N` accepts exactly N days, upper bound N + 1 | high (not executed) | SrcFilter.EqualsMatchesNothing | SrcFilterSpec.IntendedRangeAccepts |
