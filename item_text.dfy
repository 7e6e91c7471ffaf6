/** The parts of a template line that all three grammars share word for word
    (web/src/filterspec.ts, src/filterspec.ts and src/filter.ts each define
    them): the free-text description of an item or category and the `*N`
    replenishment cadence. */
module ItemText {
  import opened JsString
  import opened Parse

  /** The characters that end a description (the end of the input, the
      empty string of `charAt`, ends it too). */
  predicate IsDelimiter(c: char) {
    c == '[' || c == ']' || c == '{' || c == '}' || c == '\r' || c == '\n'
  }

  /** How far the description scan runs: up to the first delimiter or the end. */
  function DescLength(s: string): (n: nat)
    ensures n <= |s|
    ensures forall k :: 0 <= k < n ==> !IsDelimiter(s[k])
    ensures n < |s| ==> IsDelimiter(s[n])
  {
    if s != [] && !IsDelimiter(s[0]) then 1 + DescLength(s[1..]) else 0
  }

  /** The `textDesc` parser: the text up to the first delimiter with trailing
      white space trimmed; blank text fails with "item description". */
  function TextDesc(s: string): (r: PResult<string>)
    ensures IsSuffix(r.rest, s)
  {
    var m := TrimEnd(s[..DescLength(s)]);
    if m == "" then Err({"item description"}, s) else Ok(m, s[|m|..])
  }

  /** `textDesc` fails, at its input, exactly when the text before the
      first delimiter is blank. */
  lemma TextDescFails(s: string)
    ensures TextDesc(s).Err? <==> forall k :: 0 <= k < DescLength(s) ==> IsWhiteSpace(s[k])
    ensures TextDesc(s).Err? ==> TextDesc(s) == Err({"item description"}, s)
  {
    var t := s[..DescLength(s)];
    var m := TrimEnd(t);
    TrimEndRemovesWhiteSpace(t);
    assert forall k :: 0 <= k < |t| ==> t[k] == s[k];
    if m != "" {
      assert m[|m| - 1] == t[|m| - 1];
    }
  }

  /** A successful `textDesc` splits its input into a non-empty description
      free of delimiters and not ending in white space, and the rest, which
      holds only white space before the next delimiter. */
  lemma TextDescYields(s: string)
    requires TextDesc(s).Ok?
    ensures s == TextDesc(s).value + TextDesc(s).rest
    ensures TextDesc(s).value != []
    ensures !IsWhiteSpace(TextDesc(s).value[|TextDesc(s).value| - 1])
    ensures forall k :: 0 <= k < |TextDesc(s).value| ==> !IsDelimiter(TextDesc(s).value[k])
    ensures forall k :: |TextDesc(s).value| <= k < DescLength(s) ==> IsWhiteSpace(s[k])
  {
    var n := DescLength(s);
    var t := s[..n];
    var m := TrimEnd(t);
    assert TextDesc(s) == Ok(m, s[|m|..]);
    TrimEndRemovesWhiteSpace(t);
    PrefixOfPrefix(s, n, m);
    forall k | 0 <= k < |m| ensures !IsDelimiter(m[k]) {
      assert m[k] == s[k];
    }
    forall k | |m| <= k < n ensures IsWhiteSpace(s[k]) {
      assert s[k] == t[k];
    }
  }

  /** A prefix of a prefix is a prefix, and splits the whole there. */
  lemma PrefixOfPrefix<T>(s: seq<T>, n: nat, m: seq<T>)
    requires n <= |s| && |m| <= n && m == s[..n][..|m|]
    ensures m == s[..|m|] && s == m + s[|m|..]
    ensures forall k :: 0 <= k < |m| ==> m[k] == s[k]
  {
  }

  /** The `while` loop of `textDesc`, which counts `descLength` up to the
      first delimiter. */
  method RunTextDesc(input: string) returns (result: PResult<string>)
    ensures result == TextDesc(input)
  {
    var descLength := 0;
    while descLength < |input| && !IsDelimiter(input[descLength])
      invariant descLength <= DescLength(input)
    {
      descLength := descLength + 1;
    }
    var m := TrimEnd(input[..descLength]);
    if m == "" {
      result := Err({"item description"}, input);
    } else {
      result := Ok(m, input[|m|..]);
    }
  }

  /** The `everyNNights` parser: `*` directly followed by a float. */
  const EveryNNights: Parser<real> := AndMap(Symbol("*"), Float, SecondOf)

  lemma EveryNNightsSuffixing()
    ensures Suffixing(EveryNNights)
  {
    assert Suffixing(Float) by {
      forall s ensures IsSuffix(Float(s).rest, s) { }
    }
  }
}
