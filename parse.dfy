/** The parser-combinator library (web/src/parse.ts; src/parse.ts is the same
    code). A parser maps the remaining input to a `PResult`: a value and the
    input left over, or the set of descriptions of what was expected and the
    input at which it failed. Each combinator of class `P` becomes a function
    from parsers to a parser. */
module Parse {
  import opened JsString
  import opened Wrappers

  datatype PResult<+T> = Ok(value: T, rest: string) | Err(expected: set<string>, rest: string)

  type Parser<T> = string -> PResult<T>

  /** `r` is what is left of `s` after dropping some prefix. */
  predicate IsSuffix(r: string, s: string) {
    |r| <= |s| && s[|s| - |r|..] == r
  }

  /** Every result of `p` leaves a suffix of its input. */
  ghost predicate Suffixing<T>(p: Parser<T>) {
    forall s :: IsSuffix(p(s).rest, s)
  }

  /** A success of `p` on non-empty input consumes at least one character. */
  ghost predicate Progressing<T>(p: Parser<T>) {
    forall s :: s != [] && p(s).Ok? ==> |p(s).rest| < |s|
  }

  lemma SuffixTrans(a: string, b: string, c: string)
    requires IsSuffix(a, b) && IsSuffix(b, c)
    ensures IsSuffix(a, c)
  {
    assert c[|c| - |a|..] == c[|c| - |b|..][|b| - |a|..];
  }

  lemma SuffixOfDrop(s: string, n: nat)
    ensures IsSuffix(Drop(s, n), s)
  {
  }

  // ---------------------------------------------------------------------------
  // Combinators (class P)

  /** `p.map(f)` */
  function Map<T, U>(p: Parser<T>, f: T -> U): (q: Parser<U>)
    ensures Suffixing(p) ==> Suffixing(q)
  {
    s => match p(s)
         case Ok(v, r) => Ok(f(v), r)
         case Err(e, r) => Err(e, r)
  }

  /** `p1.and(p2)` */
  function And<T, U>(p1: Parser<T>, p2: Parser<U>): (q: Parser<(T, U)>)
    ensures Suffixing(p1) && Suffixing(p2) ==> Suffixing(q)
  {
    var q := s => match p1(s)
                  case Err(e, r) => Err(e, r)
                  case Ok(v1, r1) =>
                    match p2(r1)
                    case Err(e, r) => Err(e, r)
                    case Ok(v2, r2) => Ok((v1, v2), r2);
    assert Suffixing(p1) && Suffixing(p2) ==> Suffixing(q) by {
      if Suffixing(p1) && Suffixing(p2) {
        forall s ensures IsSuffix(q(s).rest, s) {
          if p1(s).Ok? {
            SuffixTrans(p2(p1(s).rest).rest, p1(s).rest, s);
          }
        }
      }
    }
    q
  }

  /** `p1.andMap(f, p2)` */
  function AndMap<T, U, V>(p1: Parser<T>, p2: Parser<U>, f: (T, U) -> V): (q: Parser<V>)
    ensures Suffixing(p1) && Suffixing(p2) ==> Suffixing(q)
  {
    Map(And(p1, p2), (x: (T, U)) => f(x.0, x.1))
  }

  /** The alternation loop of `p0.or(...ps)` once the alternatives have been
      applied to the input `s`: the first success is returned unchanged; the
      failures' expected sets are accumulated in `expected`. */
  function OrFrom<T>(s: string, results: seq<PResult<T>>, expected: set<string>): PResult<T>
    decreases |results|
  {
    if results == [] then Err(expected, s)
    else if results[0].Ok? then results[0]
    else OrFrom(s, results[1..], expected + results[0].expected)
  }

  /** Every alternative applied to the same input. */
  function ApplyAll<T>(ps: seq<Parser<T>>, s: string): (rs: seq<PResult<T>>)
    ensures |rs| == |ps| && forall i :: 0 <= i < |ps| ==> rs[i] == ps[i](s)
  {
    seq(|ps|, i requires 0 <= i < |ps| => ps[i](s))
  }

  /** `p0.or(...ps)`, the alternatives listed in order. */
  function Or<T>(ps: seq<Parser<T>>): (q: Parser<T>)
    ensures (forall i :: 0 <= i < |ps| ==> Suffixing(ps[i])) ==> Suffixing(q)
  {
    var q := s => OrFrom(s, ApplyAll(ps, s), {});
    assert (forall i :: 0 <= i < |ps| ==> Suffixing(ps[i])) ==> Suffixing(q) by {
      if forall i :: 0 <= i < |ps| ==> Suffixing(ps[i]) {
        forall s ensures IsSuffix(q(s).rest, s) {
          OrSuffix(s, ApplyAll(ps, s), {});
        }
      }
    }
    q
  }

  /** One round of the alternation loop: a failure adds its expected set and
      moves on. */
  lemma OrFromStep<T>(s: string, r: PResult<T>, rs: seq<PResult<T>>, expected: set<string>)
    ensures OrFrom(s, [r] + rs, expected) ==
      if r.Ok? then r else OrFrom(s, rs, expected + r.expected)
  {
    assert ([r] + rs)[1..] == rs;
  }

  /** Two results already computed on `s`, alternated. */
  lemma OrFromTwo<T>(s: string, a: PResult<T>, b: PResult<T>)
    ensures OrFrom(s, [a, b], {}) ==
      if a.Ok? then a
      else if b.Ok? then b
      else Err(a.expected + b.expected, s)
  {
    OrFromStep(s, a, [b], {});
    if a.Err? {
      assert {} + a.expected == a.expected;
      OrFromStep(s, b, [], a.expected);
    }
  }

  /** Three results already computed on `s`, alternated. */
  lemma OrFromThree<T>(s: string, a: PResult<T>, b: PResult<T>, c: PResult<T>)
    ensures OrFrom(s, [a, b, c], {}) ==
      if a.Ok? then a
      else if b.Ok? then b
      else if c.Ok? then c
      else Err(a.expected + b.expected + c.expected, s)
  {
    OrFromStep(s, a, [b, c], {});
    if a.Err? {
      assert {} + a.expected == a.expected;
      OrFromStep(s, b, [c], a.expected);
      if b.Err? {
        OrFromStep(s, c, [], a.expected + b.expected);
      }
    }
  }

  /** Four results already computed on `s`, alternated. */
  lemma OrFromFour<T>(s: string, a: PResult<T>, b: PResult<T>, c: PResult<T>, d: PResult<T>)
    ensures OrFrom(s, [a, b, c, d], {}) ==
      if a.Ok? then a
      else if b.Ok? then b
      else if c.Ok? then c
      else if d.Ok? then d
      else Err(a.expected + b.expected + c.expected + d.expected, s)
  {
    OrFromStep(s, a, [b, c, d], {});
    if a.Err? {
      assert {} + a.expected == a.expected;
      OrFromStep(s, b, [c, d], a.expected);
      if b.Err? {
        OrFromStep(s, c, [d], a.expected + b.expected);
        if c.Err? {
          OrFromStep(s, d, [], a.expected + b.expected + c.expected);
        }
      }
    }
  }

  /** `p1.or(p2)` on one input, spelled out. */
  lemma OrOfTwo<T>(p1: Parser<T>, p2: Parser<T>, s: string)
    ensures Or([p1, p2])(s) ==
      if p1(s).Ok? then p1(s)
      else if p2(s).Ok? then p2(s)
      else Err(p1(s).expected + p2(s).expected, s)
  {
    assert ApplyAll([p1, p2], s) == [p1(s), p2(s)];
    OrFromTwo(s, p1(s), p2(s));
  }

  /** `p1.or(p2, p3)` on one input, spelled out. */
  lemma OrOfThree<T>(p1: Parser<T>, p2: Parser<T>, p3: Parser<T>, s: string)
    ensures Or([p1, p2, p3])(s) ==
      if p1(s).Ok? then p1(s)
      else if p2(s).Ok? then p2(s)
      else if p3(s).Ok? then p3(s)
      else Err(p1(s).expected + p2(s).expected + p3(s).expected, s)
  {
    assert ApplyAll([p1, p2, p3], s) == [p1(s), p2(s), p3(s)];
    OrFromThree(s, p1(s), p2(s), p3(s));
  }

  /** `p1.or(p2, p3, p4)` on one input, spelled out. */
  lemma OrOfFour<T>(p1: Parser<T>, p2: Parser<T>, p3: Parser<T>, p4: Parser<T>, s: string)
    ensures Or([p1, p2, p3, p4])(s) == OrFrom(s, [p1(s), p2(s), p3(s), p4(s)], {})
  {
    assert ApplyAll([p1, p2, p3, p4], s) == [p1(s), p2(s), p3(s), p4(s)];
  }

  lemma {:induction false} OrSuffix<T>(s: string, rs: seq<PResult<T>>, expected: set<string>)
    requires forall i :: 0 <= i < |rs| ==> IsSuffix(rs[i].rest, s)
    ensures IsSuffix(OrFrom(s, rs, expected).rest, s)
    decreases |rs|
  {
    if rs != [] && rs[0].Err? {
      OrSuffix(s, rs[1..], expected + rs[0].expected);
    }
  }

  /** The `Many` loop: apply `p` until it fails or the input runs out. */
  function ManyFrom<T>(p: Parser<T>, s: string): (r: PResult<seq<T>>)
    requires Progressing(p)
    ensures r.Ok?
    decreases |s|
  {
    if s == [] then Ok([], s)
    else
      match p(s)
      case Err(_, _) => Ok([], s)
      case Ok(v, r) =>
        var m := ManyFrom(p, r);
        Ok([v] + m.value, m.rest)
  }

  /** `p.many()`. The source loops forever when `p` succeeds on non-empty input
      without consuming anything, so `p` must make progress. */
  function Many<T>(p: Parser<T>): (q: Parser<seq<T>>)
    requires Progressing(p)
    ensures Suffixing(p) ==> Suffixing(q)
  {
    var q := s => ManyFrom(p, s);
    assert Suffixing(p) ==> Suffixing(q) by {
      if Suffixing(p) {
        forall s ensures IsSuffix(q(s).rest, s) {
          ManySuffix(p, s);
        }
      }
    }
    q
  }

  lemma {:induction false} ManySuffix<T>(p: Parser<T>, s: string)
    requires Progressing(p) && Suffixing(p)
    ensures IsSuffix(ManyFrom(p, s).rest, s)
    decreases |s|
  {
    if s != [] && p(s).Ok? {
      ManySuffix(p, p(s).rest);
      SuffixTrans(ManyFrom(p, p(s).rest).rest, p(s).rest, s);
    }
  }

  /** `p.some()`: `p` followed by `p.many()`, as one list. */
  function Many1<T>(p: Parser<T>): (q: Parser<seq<T>>)
    requires Progressing(p)
    ensures Suffixing(p) ==> Suffixing(q)
  {
    Map(And(p, Many(p)), (x: (T, seq<T>)) => [x.0] + x.1)
  }

  /** The number of leading `' '` characters of `s` (the `trim` counter of `space`). */
  function LeadingSpaces(s: string): (n: nat)
    ensures n <= |s|
    ensures forall k :: 0 <= k < n ==> s[k] == ' '
    ensures n < |s| ==> s[n] != ' '
  {
    if s != [] && s[0] == ' ' then 1 + LeadingSpaces(s[1..]) else 0
  }

  /** `r` without its leading `' '` characters. */
  function SkipSpaces(r: string): (q: string)
    ensures IsSuffix(q, r)
  {
    r[LeadingSpaces(r)..]
  }

  /** `p.space()`: after a success, drop the spaces that follow. */
  function Space<T>(p: Parser<T>): (q: Parser<T>)
    ensures Suffixing(p) ==> Suffixing(q)
  {
    var q := s => match p(s)
                  case Err(e, r) => Err(e, r)
                  case Ok(v, r) => Ok(v, SkipSpaces(r));
    assert Suffixing(p) ==> Suffixing(q) by {
      if Suffixing(p) {
        forall s ensures IsSuffix(q(s).rest, s) {
          if p(s).Ok? {
            var r := p(s).rest;
            SuffixTrans(SkipSpaces(r), r, s);
          }
        }
      }
    }
    q
  }

  /** `SkipSpaces` drops exactly a leading run of spaces. */
  lemma SkipSpacesOfPad(pad: string, t: string)
    requires forall k :: 0 <= k < |pad| ==> pad[k] == ' '
    requires t == [] || t[0] != ' '
    ensures SkipSpaces(pad + t) == t
  {
    var s := pad + t;
    assert forall k :: 0 <= k < |pad| ==> s[k] == pad[k];
    assert |pad| < |s| ==> s[|pad|] == t[0];
    assert LeadingSpaces(s) == |pad|;
    assert s[|pad|..] == t;
  }

  lemma NothingToSkip()
    ensures SkipSpaces([]) == []
  {
  }

  lemma SkipOneSpace(v: string)
    requires v != [] && v[0] == ' ' && (|v| == 1 || v[1] != ' ')
    ensures SkipSpaces(v) == v[1..]
  {
    assert v == [' '] + v[1..];
    SkipSpacesOfPad([' '], v[1..]);
  }

  lemma SkipSpacesIdempotent(r: string)
    ensures SkipSpaces(SkipSpaces(r)) == SkipSpaces(r)
  {
    SkipSpacesOfPad([], SkipSpaces(r));
    assert [] + SkipSpaces(r) == SkipSpaces(r);
  }

  /** A spaced symbol consumes at least the symbol itself. */
  lemma SpacedSymbolConsumes(literal: string, s: string)
    ensures Space(Symbol(literal))(s).Ok? <==> StartsWith(s, literal)
    ensures Space(Symbol(literal))(s).Ok? ==>
      |Space(Symbol(literal))(s).rest| <= |s| - |literal|
    ensures IsSuffix(Space(Symbol(literal))(s).rest, s)
  {
    SymbolLaw(literal, s);
  }

  /** `p.optional(d)` */
  function Optional<T>(p: Parser<T>, d: T): (q: Parser<T>)
    ensures Suffixing(p) ==> Suffixing(q)
  {
    s => match p(s)
         case Err(_, _) => Ok(d, s)
         case Ok(v, r) => Ok(v, r)
  }

  /** `p.eof()` */
  function Eof<T>(p: Parser<T>): (q: Parser<T>)
    ensures Suffixing(p) ==> Suffixing(q)
  {
    s => match p(s)
         case Err(e, r) => Err(e, r)
         case Ok(v, r) => if r != [] then Err({"<eof>"}, r) else Ok(v, r)
  }

  /** `p.parens(left, right)`: `left`, `p`, `right` in sequence, keeping `p`'s value. */
  function Parens<T, L, R>(p: Parser<T>, left: Parser<L>, right: Parser<R>): (q: Parser<T>)
    ensures Suffixing(p) && Suffixing(left) && Suffixing(right) ==> Suffixing(q)
  {
    Map(And(And(left, p), right), (x: ((L, T), R)) => x.0.1)
  }

  /** `p.tag(names)`: a failure's expected set becomes `names`. */
  function Tag<T>(p: Parser<T>, names: seq<string>): (q: Parser<T>)
    ensures Suffixing(p) ==> Suffixing(q)
  {
    s => match p(s)
         case Err(_, r) => Err((set n | n in names), r)
         case Ok(v, r) => Ok(v, r)
  }

  // ---------------------------------------------------------------------------
  // Primitive parsers

  /** `new Symbol(literal)` */
  function Symbol(literal: string): (q: Parser<string>)
    ensures Suffixing(q)
    ensures |literal| > 0 ==> Progressing(q)
  {
    s => var peek := s[..if |literal| <= |s| then |literal| else |s|];
         if literal == peek then Ok(peek, s[|literal|..])
         else Err({"'" + literal + "'"}, s)
  }

  /** `new Regex(pattern)`: `firstMatch` gives the text of the first match of
      the pattern anywhere in the input (`rest.match(pattern)[0]`), `source` its
      source text. The length of the match is then cut off the front. */
  function Regex(source: string, firstMatch: string -> Option<string>): (q: Parser<string>)
    ensures Suffixing(q)
  {
    var q := s => match firstMatch(s)
                  case None => Err({"/" + source + "/"}, s)
                  case Some(m) => Ok(m, Drop(s, |m|));
    assert Suffixing(q) by {
      forall s ensures IsSuffix(q(s).rest, s) {
        if firstMatch(s).Some? {
          SuffixOfDrop(s, |firstMatch(s).value|);
        }
      }
    }
    q
  }

  /** The parser `parse.empty`: it succeeds without consuming anything. */
  function EmptyParser(): (q: Parser<()>)
    ensures Suffixing(q)
  {
    s => Ok((), s)
  }

  /** The index of the first decimal digit of `s`, or `|s|`. */
  function FirstDigit(s: string): (i: nat)
    ensures i <= |s|
    ensures i < |s| ==> IsDigit(s[i])
    ensures forall k :: 0 <= k < i ==> !IsDigit(s[k])
  {
    if s == [] || IsDigit(s[0]) then 0 else 1 + FirstDigit(s[1..])
  }

  /** The text of the first match of `/\d+/` in `s`. */
  function FirstDigitRun(s: string): (m: Option<string>)
    ensures m.None? <==> forall k :: 0 <= k < |s| ==> !IsDigit(s[k])
    ensures m.Some? ==> 0 < |m.value| <= |s|
  {
    var i := FirstDigit(s);
    if i == |s| then None else Some(s[i..][..DigitRun(s[i..])])
  }

  /** The `int` parser: the first run of digits anywhere in the input; as
      many characters as it has are then cut off the FRONT of the input. */
  function Int(s: string): (r: PResult<nat>)
    ensures IsSuffix(r.rest, s)
  {
    match FirstDigitRun(s)
    case None => Err({"integer"}, s)
    case Some(m) => Ok(DecimalValue(m), s[|m|..])
  }

  /** The match of `[0-9]+([.][0-9]*)?|[.][0-9]+` at the very start of `t`. */
  function FloatBody(t: string): (m: Option<string>)
    ensures m.Some? ==> 0 < |m.value| <= |t| && m.value == t[..|m.value|]
  {
    if t != [] && IsDigit(t[0]) then
      var n := DigitRun(t);
      if n < |t| && t[n] == '.' then Some(t[..n + 1 + DigitRun(t[n + 1..])]) else Some(t[..n])
    else if |t| >= 2 && t[0] == '.' && IsDigit(t[1]) then
      Some(t[..1 + DigitRun(t[1..])])
    else None
  }

  /** The match of `[+-]?([0-9]+([.][0-9]*)?|[.][0-9]+)` at the very start of
      `t`. Without the sign the body cannot match at a sign character, so
      backtracking over the optional sign never finds a second match. */
  function FloatAt(t: string): (m: Option<string>)
    ensures m.Some? ==> 0 < |m.value| <= |t| && m.value == t[..|m.value|]
  {
    if t != [] && (t[0] == '+' || t[0] == '-') then
      match FloatBody(t[1..])
      case None => None
      case Some(b) => Some([t[0]] + b)
    else FloatBody(t)
  }

  /** The text of the first (leftmost) match of the float pattern in `t`. */
  function FirstFloat(t: string): (m: Option<string>)
    ensures m.Some? ==> 0 < |m.value| <= |t|
    decreases |t|
  {
    if t == [] then None
    else match FloatAt(t)
      case Some(m) => Some(m)
      case None => FirstFloat(t[1..])
  }

  /** `parseFloat` of a float lexeme, as an exact rational number. */
  function FloatValue(m: string): real {
    if m != [] && m[0] == '-' then -UnsignedFloatValue(m[1..])
    else if m != [] && m[0] == '+' then UnsignedFloatValue(m[1..])
    else UnsignedFloatValue(m)
  }

  function UnsignedFloatValue(m: string): real {
    var n := DigitRun(m);
    var whole := DecimalValue(m[..n]) as real;
    if n < |m| && m[n] == '.' then
      var frac := m[n + 1..][..DigitRun(m[n + 1..])];
      whole + DecimalValue(frac) as real / Pow10(|frac|) as real
    else whole
  }

  /** The `float` parser: like `int`, the first match anywhere in the input,
      its length cut off the front. */
  function Float(s: string): (r: PResult<real>)
    ensures IsSuffix(r.rest, s)
  {
    match FirstFloat(s)
    case None => Err({"float"}, s)
    case Some(m) => Ok(FloatValue(m), s[|m|..])
  }

  // ---------------------------------------------------------------------------
  // The loops of `or`, `many` and `space`, as the source runs them

  /** The `for` loop of `Or.parse`: try each alternative on the original input,
      return the first success, otherwise fail with the union of all expected
      sets at the original input. */
  method RunOr<T>(ps: seq<Parser<T>>, input: string) returns (result: PResult<T>)
    ensures result == Or(ps)(input)
  {
    var expected: set<string> := {};
    ghost var rs := ApplyAll(ps, input);
    for i := 0 to |ps|
      invariant OrFrom(input, rs[i..], expected) == OrFrom(input, rs, {})
    {
      assert rs[i..][1..] == rs[i + 1..];
      var r := ps[i](input);
      if r.Ok? {
        return r;
      }
      expected := expected + r.expected;
    }
    result := Err(expected, input);
  }

  /** The `while` loop of `Many.parse`: push values while the input is not
      empty and `p` succeeds. */
  method RunMany<T>(p: Parser<T>, input: string) returns (result: PResult<seq<T>>)
    requires Progressing(p)
    ensures result == Many(p)(input)
  {
    var items: seq<T> := [];
    var rest := input;
    assert items + ManyFrom(p, rest).value == ManyFrom(p, rest).value;
    while rest != []
      invariant ManyFrom(p, input) == Ok(items + ManyFrom(p, rest).value, ManyFrom(p, rest).rest)
      decreases |rest|
    {
      var r := p(rest);
      if r.Err? {
        break;
      }
      assert items + ManyFrom(p, rest).value == (items + [r.value]) + ManyFrom(p, r.rest).value;
      items := items + [r.value];
      rest := r.rest;
    }
    assert ManyFrom(p, rest) == Ok([], rest);
    assert items + [] == items;
    result := Ok(items, rest);
  }

  /** The counting loop of `Space.parse`. */
  method RunSpace<T>(p: Parser<T>, input: string) returns (result: PResult<T>)
    ensures result == Space(p)(input)
  {
    result := p(input);
    if result.Err? {
      return;
    }
    var rest := result.rest;
    var trim := 0;
    while trim < |rest| && rest[trim] == ' '
      invariant trim <= |rest|
      invariant forall k :: 0 <= k < trim ==> rest[k] == ' '
      invariant LeadingSpaces(rest) >= trim
    {
      LeadingSpacesAt(rest, trim);
      trim := trim + 1;
    }
    assert trim == LeadingSpaces(rest);
    result := Ok(result.value, Drop(rest, trim));
  }

  lemma {:induction false} LeadingSpacesAt(s: string, n: nat)
    requires n < |s| && s[n] == ' '
    requires forall k :: 0 <= k < n ==> s[k] == ' '
    ensures LeadingSpaces(s) > n
    decreases n
  {
    if n > 0 {
      LeadingSpacesAt(s[1..], n - 1);
    }
  }

  // ---------------------------------------------------------------------------
  // What each combinator promises

  /** `map` passes a failure through untouched and on success changes only the
      value, never the remaining input. */
  lemma MapLaw<T, U>(p: Parser<T>, f: T -> U, s: string)
    ensures Map(p, f)(s).Ok? == p(s).Ok? && Map(p, f)(s).rest == p(s).rest
    ensures p(s).Err? ==> Map(p, f)(s).expected == p(s).expected
    ensures p(s).Ok? ==> Map(p, f)(s).value == f(p(s).value)
  {
  }

  /** `and` fails with the first failing component's error, unchanged; on
      success its value is the pair and its rest is what the second left. */
  lemma AndLaw<T, U>(p1: Parser<T>, p2: Parser<U>, s: string)
    ensures p1(s).Err? ==> And(p1, p2)(s) == Err(p1(s).expected, p1(s).rest)
    ensures p1(s).Ok? && p2(p1(s).rest).Err? ==>
      And(p1, p2)(s) == Err(p2(p1(s).rest).expected, p2(p1(s).rest).rest)
    ensures p1(s).Ok? && p2(p1(s).rest).Ok? ==>
      And(p1, p2)(s) == Ok((p1(s).value, p2(p1(s).rest).value), p2(p1(s).rest).rest)
  {
  }

  /** `andMap` fails with the first failing component's error, unchanged; on
      success it combines both values with `f`. */
  lemma AndMapLaw<T, U, V>(p1: Parser<T>, p2: Parser<U>, f: (T, U) -> V, s: string)
    ensures p1(s).Err? ==> AndMap(p1, p2, f)(s) == Err(p1(s).expected, p1(s).rest)
    ensures p1(s).Ok? && p2(p1(s).rest).Err? ==>
      AndMap(p1, p2, f)(s) == Err(p2(p1(s).rest).expected, p2(p1(s).rest).rest)
    ensures p1(s).Ok? && p2(p1(s).rest).Ok? ==>
      AndMap(p1, p2, f)(s) == Ok(f(p1(s).value, p2(p1(s).rest).value), p2(p1(s).rest).rest)
  {
    AndLaw(p1, p2, s);
  }

  /** The semantic action `(_, x) => x`, which keeps the second value. */
  function SecondOf<A, B>(a: A, b: B): B {
    b
  }

  /** `parens` runs left, middle and right in turn: it fails with the first
      failure among them, unchanged, and otherwise keeps only the middle
      value. */
  lemma ParensLaw<T, L, R>(p: Parser<T>, left: Parser<L>, right: Parser<R>, s: string)
    ensures left(s).Err? ==>
      Parens(p, left, right)(s) == Err(left(s).expected, left(s).rest)
    ensures left(s).Ok? && p(left(s).rest).Err? ==>
      Parens(p, left, right)(s) == Err(p(left(s).rest).expected, p(left(s).rest).rest)
    ensures left(s).Ok? && p(left(s).rest).Ok? && right(p(left(s).rest).rest).Err? ==>
      Parens(p, left, right)(s) ==
        Err(right(p(left(s).rest).rest).expected, right(p(left(s).rest).rest).rest)
    ensures left(s).Ok? && p(left(s).rest).Ok? && right(p(left(s).rest).rest).Ok? ==>
      Parens(p, left, right)(s) == Ok(p(left(s).rest).value, right(p(left(s).rest).rest).rest)
  {
  }

  /** `tag` replaces only a failure's expected set; the failure keeps its rest. */
  lemma TagLaw<T>(p: Parser<T>, names: seq<string>, s: string)
    ensures Tag(p, names)(s).Ok? == p(s).Ok? && Tag(p, names)(s).rest == p(s).rest
    ensures p(s).Ok? ==> Tag(p, names)(s) == p(s)
    ensures p(s).Err? ==> forall n :: n in Tag(p, names)(s).expected <==> n in names
  {
  }

  /** `optional(d)` never fails; when the inner parser fails it yields `d` and
      leaves the input as it was. */
  lemma OptionalLaw<T>(p: Parser<T>, d: T, s: string)
    ensures Optional(p, d)(s).Ok?
    ensures p(s).Err? ==> Optional(p, d)(s) == Ok(d, s)
    ensures p(s).Ok? ==> Optional(p, d)(s) == p(s)
  {
  }

  /** `eof` succeeds only when the inner success has consumed everything. */
  lemma EofLaw<T>(p: Parser<T>, s: string)
    ensures Eof(p)(s).Ok? <==> p(s).Ok? && p(s).rest == []
    ensures Eof(p)(s).Ok? ==> Eof(p)(s) == p(s)
    ensures p(s).Ok? && p(s).rest != [] ==> Eof(p)(s) == Err({"<eof>"}, p(s).rest)
  {
  }

  /** `space` drops exactly the `' '` characters that follow a success (no
      other white space), and returns failures unchanged. */
  lemma SpaceLaw<T>(p: Parser<T>, s: string)
    ensures Space(p)(s).Ok? == p(s).Ok?
    ensures p(s).Err? ==> Space(p)(s) == p(s)
    ensures p(s).Ok? ==>
      var r, q := p(s).rest, Space(p)(s).rest;
      && Space(p)(s).value == p(s).value
      && IsSuffix(q, r)
      && (forall k :: 0 <= k < |r| - |q| ==> r[k] == ' ')
      && (q == [] || q[0] != ' ')
  {
  }

  /** `or`: when an alternative succeeds and all before it fail, its result is
      returned unchanged. */
  lemma {:induction false} OrFirstSuccess<T>(ps: seq<Parser<T>>, s: string, i: nat)
    requires i < |ps| && ps[i](s).Ok?
    requires forall j :: 0 <= j < i ==> ps[j](s).Err?
    ensures Or(ps)(s) == ps[i](s)
  {
    OrFromFirstSuccess(s, ApplyAll(ps, s), {}, i);
  }

  lemma {:induction false} OrFromFirstSuccess<T>(s: string, rs: seq<PResult<T>>, e: set<string>, i: nat)
    requires i < |rs| && rs[i].Ok?
    requires forall j :: 0 <= j < i ==> rs[j].Err?
    ensures OrFrom(s, rs, e) == rs[i]
    decreases i
  {
    if i > 0 {
      OrFromFirstSuccess(s, rs[1..], e + rs[0].expected, i - 1);
    }
  }

  /** `or`: when every alternative fails, the failure is at the original input
      and expects the union of all the alternatives' expected sets. */
  lemma {:induction false} OrAllFail<T>(ps: seq<Parser<T>>, s: string)
    requires forall i :: 0 <= i < |ps| ==> ps[i](s).Err?
    ensures Or(ps)(s).Err? && Or(ps)(s).rest == s
    ensures forall x :: x in Or(ps)(s).expected <==>
      exists i :: 0 <= i < |ps| && x in ps[i](s).expected
  {
    var rs := ApplyAll(ps, s);
    OrFromAllFail(s, rs, {});
    forall x ensures x in Or(ps)(s).expected <==> exists i :: 0 <= i < |ps| && x in ps[i](s).expected {
      if x in Or(ps)(s).expected {
        var i :| 0 <= i < |rs| && x in rs[i].expected;
        assert x in ps[i](s).expected;
      }
    }
  }

  lemma {:induction false} OrFromAllFail<T>(s: string, rs: seq<PResult<T>>, e: set<string>)
    requires forall i :: 0 <= i < |rs| ==> rs[i].Err?
    ensures OrFrom(s, rs, e).Err? && OrFrom(s, rs, e).rest == s
    ensures forall x :: x in OrFrom(s, rs, e).expected <==>
      x in e || exists i :: 0 <= i < |rs| && x in rs[i].expected
    decreases |rs|
  {
    if rs != [] {
      OrFromAllFail(s, rs[1..], e + rs[0].expected);
      forall x | x in OrFrom(s, rs, e).expected && x !in e
        ensures exists i :: 0 <= i < |rs| && x in rs[i].expected
      {
        if x !in rs[0].expected {
          var i :| 0 <= i < |rs[1..]| && x in rs[1..][i].expected;
          assert x in rs[i + 1].expected;
        }
      }
      forall x, i | 0 <= i < |rs| && x in rs[i].expected
        ensures x in OrFrom(s, rs, e).expected
      {
        if i > 0 {
          assert x in rs[1..][i - 1].expected;
        }
      }
    }
  }

  /** `many` never fails; it stops only at the end of the input or at the
      first failure of `p`, and leaves a suffix of its input. */
  lemma {:induction false} ManyStops<T>(p: Parser<T>, s: string)
    requires Progressing(p)
    ensures Many(p)(s).Ok?
    ensures Many(p)(s).rest == [] || p(Many(p)(s).rest).Err?
    decreases |s|
  {
    if s != [] && p(s).Ok? {
      ManyStops(p, p(s).rest);
    }
  }

  /** `some` fails exactly when the first application of `p` fails, and
      otherwise yields at least one value, the first being `p`'s. */
  lemma Many1Law<T>(p: Parser<T>, s: string)
    requires Progressing(p)
    ensures Many1(p)(s).Ok? <==> p(s).Ok?
    ensures Many1(p)(s).Ok? ==> |Many1(p)(s).value| >= 1 && Many1(p)(s).value[0] == p(s).value
  {
  }

  /** `Symbol(lit)` succeeds iff the input starts with `lit`, consuming
      exactly it; otherwise it fails at the input expecting `'lit'`. */
  lemma SymbolLaw(literal: string, s: string)
    ensures Symbol(literal)(s).Ok? <==> StartsWith(s, literal)
    ensures Symbol(literal)(s).Ok? ==>
      Symbol(literal)(s).value == literal && s == literal + Symbol(literal)(s).rest
    ensures Symbol(literal)(s).Err? ==> Symbol(literal)(s) == Err({"'" + literal + "'"}, s)
  {
  }

  /** A one-character symbol consumes exactly that character. */
  lemma SymbolCharLaw(c: char, s: string)
    ensures Symbol([c])(s).Ok? <==> s != [] && s[0] == c
    ensures Symbol([c])(s).Ok? ==> Symbol([c])(s) == Ok([c], s[1..])
    ensures Symbol([c])(s).Err? ==> Symbol([c])(s).rest == s
  {
    SymbolLaw([c], s);
    if s != [] {
      assert s[..1] == [s[0]];
    }
  }

  /** A one-character symbol that is not there fails at the input, expecting
      that character in quotes. */
  lemma SymbolCharFails(c: char, s: string)
    requires s == [] || s[0] != c
    ensures Symbol([c])(s) == Err({['\'', c, '\'']}, s)
  {
    SymbolLaw([c], s);
    assert "'" + [c] + "'" == ['\'', c, '\''];
  }

  /** A spaced one-character symbol, spelled out. */
  lemma SpacedCharLaw(c: char, s: string)
    ensures Space(Symbol([c]))(s) ==
      if s != [] && s[0] == c then Ok([c], SkipSpaces(s[1..]))
      else Err({['\'', c, '\'']}, s)
  {
    SymbolCharLaw(c, s);
    if s == [] || s[0] != c {
      SymbolCharFails(c, s);
    }
  }

  /** What `space` returns, written out. */
  lemma SpaceOf<T>(p: Parser<T>, s: string)
    ensures Space(p)(s) == if p(s).Ok? then Ok(p(s).value, SkipSpaces(p(s).rest)) else p(s)
  {
  }

  /** A spaced body between a spaced `(` and a spaced `)`: what `parens`
      returns, step by step, for any body parser. */
  lemma SpacedParensLaw<T>(p: Parser<T>, s: string)
    ensures Parens(Space(p), Space(Symbol("(")), Space(Symbol(")")))(s) ==
      if s != [] && s[0] == '(' then
        var body := p(SkipSpaces(s[1..]));
        if body.Err? then Err(body.expected, body.rest)
        else
          var after := SkipSpaces(body.rest);
          if after != [] && after[0] == ')' then Ok(body.value, SkipSpaces(after[1..]))
          else Err({"')'"}, after)
      else Err({"'('"}, s)
  {
    ParensLaw(Space(p), Space(Symbol("(")), Space(Symbol(")")), s);
    SpacedCharLaw('(', s);
    if s != [] && s[0] == '(' {
      var open := SkipSpaces(s[1..]);
      SpaceOf(p, open);
      if p(open).Ok? {
        SpacedCharLaw(')', SkipSpaces(p(open).rest));
      }
    }
  }

  /** `int` fails, expecting "integer", iff the input holds no digit. When
      it succeeds it cuts as many characters off the front of the input as the
      first digit run is long, wherever that run is; on input that starts
      with digits this is exactly the number and its text. */
  lemma IntLaw(s: string)
    ensures Int(s).Err? <==> forall k :: 0 <= k < |s| ==> !IsDigit(s[k])
    ensures Int(s).Err? ==> Int(s) == Err({"integer"}, s)
    ensures Int(s).Ok? ==> |Int(s).rest| < |s|
    ensures s != [] && IsDigit(s[0]) ==>
      var n := DigitRun(s);
      Int(s) == Ok(DecimalValue(s[..n]), s[n..])
  {
  }

  /** The unanchored digit search: `x-1` yields the number 1 but only the
      `x` is cut off, leaving `-1`. */
  lemma IntFindsDigitsAnywhere()
    ensures Int("x-1") == Ok(1, "-1")
  {
    assert FirstDigit("x-1") == 2 by {
      assert !IsDigit("x-1"[0]) && !IsDigit("x-1"[1]);
      assert FirstDigit("x-1"[1..]) == 1 by {
        assert "x-1"[1..][1..] == "1";
      }
    }
    assert "x-1"[2..] == "1";
    assert DigitRun("1") == 1 by { assert "1"[1..] == []; }
    assert "1"[..1] == "1";
    assert DecimalValue("1") == 1 by { assert "1"[..0] == []; }
  }

  /** `float` fails, expecting "float", exactly when no float lexeme occurs. */
  lemma FloatLaw(s: string)
    ensures Float(s).Err? <==> FirstFloat(s).None?
    ensures Float(s).Err? ==> Float(s) == Err({"float"}, s)
    ensures Float(s).Ok? ==> |Float(s).rest| < |s|
  {
  }
}
