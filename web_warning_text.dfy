/** `warningToString` of web/src/filterspec.ts: the one-line message the
    editor shows for a warning of the duplicate checker. */
module WebWarningText {
  import opened Wrappers
  import opened JsString
  import opened WebWarnings

  const EnDash: char := '–'

  /** `pieces.join(sep)` for a separator of any length. */
  function JoinWith(pieces: seq<string>, sep: string): (r: string)
    ensures pieces == [] ==> r == ""
    ensures |pieces| == 1 ==> r == pieces[0]
    decreases |pieces|
  {
    if pieces == [] then ""
    else if |pieces| == 1 then pieces[0]
    else pieces[0] + sep + JoinWith(pieces[1..], sep)
  }

  /** Every piece occurs in the joined text: `at` is where piece `i`
      starts. */
  lemma {:induction false} JoinWithShows(pieces: seq<string>, sep: string, i: nat) returns (at: nat)
    requires i < |pieces|
    ensures at + |pieces[i]| <= |JoinWith(pieces, sep)|
    ensures JoinWith(pieces, sep)[at..at + |pieces[i]|] == pieces[i]
    decreases |pieces|
  {
    var r := JoinWith(pieces, sep);
    if |pieces| == 1 {
      at := 0;
      assert r[..|pieces[0]|] == pieces[0];
    } else {
      var rest := JoinWith(pieces[1..], sep);
      assert r == pieces[0] + sep + rest;
      if i == 0 {
        at := 0;
        assert r[..|pieces[0]|] == pieces[0];
      } else {
        var k := JoinWithShows(pieces[1..], sep, i - 1);
        at := |pieces[0]| + |sep| + k;
        SliceAfterPrefix(pieces[0] + sep, rest, k, |pieces[i]|);
      }
    }
  }

  /** Slicing behind a prefix is slicing the rest. */
  lemma SliceAfterPrefix(a: string, b: string, k: nat, n: nat)
    requires k + n <= |b|
    ensures (a + b)[|a| + k..|a| + k + n] == b[k..k + n]
  {
    assert (a + b)[|a|..] == b;
    assert (a + b)[|a| + k..|a| + k + n] == (a + b)[|a|..][k..k + n];
  }

  /** The nights part: a single number when the range is one value,
      otherwise `between lo–hi` with an en dash. */
  function NightsRangeText(lo: int, hi: int): string {
    if lo == hi then IntToDecimal(lo) else "between " + IntToDecimal(lo) + [EnDash] + IntToDecimal(hi)
  }

  /** The tags part, by how many tags were active. */
  function TagText(tags: seq<string>): string {
    if |tags| == 0 then "no tags are active"
    else if |tags| == 1 then "'" + tags[0] + "' tag is active"
    else "'" + JoinWith(tags, " & ") + "' tags are active"
  }

  function WarningToString(w: BLTWarning): (r: string)
    ensures w.DuplicateCategory? ==> StartsWith(r, "duplicate category: " + w.category + " when nights is ")
    ensures w.DuplicateItem? ==> StartsWith(r, "duplicate item: " + w.item + " when " + TagText(w.tags))
    ensures EndsWith(r, NightsRangeText(w.nightsLo, w.nightsHi))
  {
    match w
    case DuplicateCategory(category, _, lo, hi) =>
      var p := "duplicate category: " + category + " when nights is ";
      var r := p + NightsRangeText(lo, hi);
      assert r[..|p|] == p;
      r
    case DuplicateItem(item, tags, lo, hi) =>
      var p := "duplicate item: " + item + " when " + TagText(tags);
      var r := p + " and nights is " + NightsRangeText(lo, hi);
      assert r[..|p|] == p;
      r
  }

  predicate EndsWith(s: string, suffix: string) {
    |suffix| <= |s| && s[|s| - |suffix|..] == suffix
  }

  // ---------------------------------------------------------------------
  // Reading the message back

  predicate AllDigits(s: string) {
    |s| >= 1 && forall k :: 0 <= k < |s| ==> IsDigit(s[k])
  }

  /** The integer a decimal text (with an optional leading '-') denotes. */
  function ReadInt(s: string): Option<int> {
    if |s| >= 1 && s[0] == '-' && AllDigits(s[1..]) then Some(0 - DecimalValue(s[1..]))
    else if AllDigits(s) then Some(DecimalValue(s))
    else None
  }

  /** The nights range a nights part denotes. */
  function ReadNightsRange(s: string): Option<(int, int)> {
    var prefix := "between ";
    if StartsWith(s, prefix) then
      var bounds := Split(s[|prefix|..], EnDash);
      if |bounds| == 2 && ReadInt(bounds[0]).Some? && ReadInt(bounds[1]).Some? then
        Some((ReadInt(bounds[0]).value, ReadInt(bounds[1]).value))
      else None
    else if ReadInt(s).Some? then Some((ReadInt(s).value, ReadInt(s).value))
    else None
  }

  lemma IntToDecimalRoundTrip(i: int)
    ensures ReadInt(IntToDecimal(i)) == Some(i)
    ensures forall k :: 0 <= k < |IntToDecimal(i)| ==> IntToDecimal(i)[k] != EnDash && IntToDecimal(i)[k] != ' '
  {
    if i < 0 {
      var d := NatToDecimal(-i);
      NatToDecimalRoundTrip(-i);
      assert IntToDecimal(i)[1..] == d;
    } else {
      NatToDecimalRoundTrip(i);
    }
  }

  /** Splitting a text that holds no separator yields it whole. */
  lemma {:induction false} SplitNoSeparator(s: string, sep: char)
    requires sep !in s
    ensures Split(s, sep) == [s]
    decreases |s|
  {
    if s != [] {
      SplitNoSeparator(s[1..], sep);
      assert [s[0]] + s[1..] == s;
    }
  }

  /** Splitting at a separator after a piece free of it yields that piece
      first. */
  lemma {:induction false} SplitAfterPiece(a: string, sep: char, rest: string)
    requires sep !in a
    ensures Split(a + [sep] + rest, sep) == [a] + Split(rest, sep)
    decreases |a|
  {
    var s := a + [sep] + rest;
    if a != [] {
      SplitAfterPiece(a[1..], sep, rest);
      assert s[1..] == a[1..] + [sep] + rest;
      assert [a[0]] + a[1..] == a;
    } else {
      assert s[1..] == rest;
    }
  }

  /** The nights part of a message reads back as the range it was made
      from. */
  lemma NightsRangeTextRoundTrip(lo: int, hi: int)
    ensures ReadNightsRange(NightsRangeText(lo, hi)) == Some((lo, hi))
  {
    var a, b := IntToDecimal(lo), IntToDecimal(hi);
    IntToDecimalRoundTrip(lo);
    IntToDecimalRoundTrip(hi);
    var s := NightsRangeText(lo, hi);
    if lo == hi {
      assert |a| >= 1 && a[0] != ' ';
      assert !StartsWith(s, "between ");
    } else {
      var prefix := "between ";
      assert s[..|prefix|] == prefix;
      assert s[|prefix|..] == a + [EnDash] + b;
      assert EnDash !in a && EnDash !in b;
      SplitAfterPiece(a, EnDash, b);
      SplitNoSeparator(b, EnDash);
    }
  }

  /** The tags part says no tag is active exactly when none is, and names
      every active tag. */
  lemma TagTextShowsTags(tags: seq<string>, i: nat) returns (at: nat)
    requires i < |tags|
    ensures at + |tags[i]| <= |TagText(tags)| && TagText(tags)[at..at + |tags[i]|] == tags[i]
    ensures TagText(tags) != "no tags are active"
  {
    var r := TagText(tags);
    if |tags| == 1 {
      at := 1;
      assert r[1..1 + |tags[0]|] == tags[0];
      assert r[0] == '\'';
    } else {
      var k := JoinWithShows(tags, " & ", i);
      var j := JoinWith(tags, " & ");
      at := 1 + k;
      assert r[1..1 + |j|] == j;
      assert r[at..at + |tags[i]|] == j[k..k + |tags[i]|];
      assert r[0] == '\'';
    }
  }
}
