/** Compiling a whole template, line by line, into its ordered list of
    categories (`parseBLT` and `parseBLTChecked` of web/src/filterspec.ts). */
module WebCompile {
  import opened Wrappers
  import opened JsString
  import opened Parse
  import opened WebGrammar

  /** Why compilation stopped, with the 1-based number of the offending line:
      a line the grammar rejects (what it expected and the text it stopped
      at), or an item that comes before any category (the line's text). */
  datatype CompileError =
    | ParseError(line: nat, expected: set<string>, rest: string)
    | NoCategory(line: nat, text: string)

  /** Blank lines and `//` comments are not compiled. */
  predicate IsSkipped(line: string) {
    Trim(line) == "" || StartsWith(Trim(line), "//")
  }

  /** The lines `skip` does not reject, each with its 0-based index in the
      input. */
  function KeepLines(lines: seq<string>, skip: string -> bool): (r: seq<(nat, string)>)
    ensures |r| <= |lines|
    decreases |lines|
  {
    if lines == [] then []
    else
      var n := |lines| - 1;
      var init := KeepLines(lines[..n], skip);
      if skip(lines[n]) then init else init + [(n, lines[n])]
  }

  /** The lines that are compiled. */
  function NonEmptyLines(lines: seq<string>): seq<(nat, string)> {
    KeepLines(lines, IsSkipped)
  }

  /** Each kept line comes with its own index and is not skipped. */
  lemma {:induction false} KeepLinesSound(lines: seq<string>, skip: string -> bool, k: nat)
    requires k < |KeepLines(lines, skip)|
    ensures KeepLines(lines, skip)[k].0 < |lines|
    ensures lines[KeepLines(lines, skip)[k].0] == KeepLines(lines, skip)[k].1
    ensures !skip(KeepLines(lines, skip)[k].1)
    decreases |lines|
  {
    var n := |lines| - 1;
    var init := KeepLines(lines[..n], skip);
    if k < |init| {
      KeepLinesSound(lines[..n], skip, k);
      assert KeepLines(lines, skip)[k] == init[k];
    }
  }

  /** The kept lines are in input order. */
  lemma {:induction false} KeepLinesOrdered(lines: seq<string>, skip: string -> bool, k: nat, l: nat)
    requires k < l < |KeepLines(lines, skip)|
    ensures KeepLines(lines, skip)[k].0 < KeepLines(lines, skip)[l].0
    decreases |lines|
  {
    var n := |lines| - 1;
    var init := KeepLines(lines[..n], skip);
    KeepLinesSound(lines[..n], skip, k);
    assert KeepLines(lines, skip)[k] == init[k];
    if l < |init| {
      KeepLinesOrdered(lines[..n], skip, k, l);
      assert KeepLines(lines, skip)[l] == init[l];
    }
  }

  /** Every line that `skip` does not reject is kept. */
  lemma {:induction false} KeepLinesComplete(lines: seq<string>, skip: string -> bool, i: nat)
    requires i < |lines| && !skip(lines[i])
    ensures exists k :: 0 <= k < |KeepLines(lines, skip)| && KeepLines(lines, skip)[k].0 == i
    decreases |lines|
  {
    var n := |lines| - 1;
    var init := KeepLines(lines[..n], skip);
    var r := KeepLines(lines, skip);
    if i == n {
      assert r[|r| - 1].0 == i;
    } else {
      assert lines[..n][i] == lines[i];
      KeepLinesComplete(lines[..n], skip, i);
      var k :| 0 <= k < |init| && init[k].0 == i;
      assert r[k] == init[k];
    }
  }

  /** The list so far with the open category, if any, closed. */
  function Close(db: BringList, current: Option<BringListCategory>): BringList {
    if current.Some? then db + [current.value] else db
  }

  /** The compilation loop from a given state, with `parse` reading each
      line: `current` is the open category and `db` the categories already
      closed. */
  function CompileFrom(parse: Parser<FilterLine>, entries: seq<(nat, string)>,
                       current: Option<BringListCategory>, db: BringList): Result<BringList, CompileError>
    decreases |entries|
  {
    if entries == [] then Success(Close(db, current))
    else
      var idx, line := entries[0].0, entries[0].1;
      match parse(line)
      case Err(expected, rest) => Failure(ParseError(idx + 1, expected, rest))
      case Ok(CategoryLine(name, tags), _) =>
        CompileFrom(parse, entries[1..], Some(BringListCategory(name, tags, [])), Close(db, current))
      case Ok(ItemLine(item), _) =>
        if current.None? then Failure(NoCategory(idx + 1, line))
        else CompileFrom(parse, entries[1..], Some(current.value.(items := current.value.items + [item])), db)
  }

  /** `parseBLTChecked`: the compiled list, or the error `parseBLT` throws. */
  function ParseBLTChecked(input: string): Result<BringList, CompileError> {
    CompileFrom(FilterLineParser, NonEmptyLines(Split(input, '\n')), None, [])
  }

  /** The loop of `parseBLT` over the compiled lines, with `parse` reading
      each line and a mutable current category; a thrown error is returned
      as a `Failure`. */
  method CompileLines(parse: Parser<FilterLine>, nonEmptyLines: seq<(nat, string)>)
    returns (result: Result<BringList, CompileError>)
    ensures result == CompileFrom(parse, nonEmptyLines, None, [])
  {
    var database: BringList := [];
    var currentCategory: Option<BringListCategory> := None;
    for k := 0 to |nonEmptyLines|
      invariant CompileFrom(parse, nonEmptyLines[k..], currentCategory, database) ==
        CompileFrom(parse, nonEmptyLines, None, [])
    {
      assert nonEmptyLines[k..][1..] == nonEmptyLines[k + 1..];
      var idx, line := nonEmptyLines[k].0, nonEmptyLines[k].1;
      var flResult := parse(line);
      if flResult.Err? {
        return Failure(ParseError(idx + 1, flResult.expected, flResult.rest));
      }
      match flResult.value
      case CategoryLine(name, tags) =>
        if currentCategory.Some? {
          database := database + [currentCategory.value];
        }
        currentCategory := Some(BringListCategory(name, tags, []));
      case ItemLine(item) =>
        if currentCategory.None? {
          return Failure(NoCategory(idx + 1, line));
        }
        currentCategory := Some(currentCategory.value.(items := currentCategory.value.items + [item]));
    }
    if currentCategory.Some? {
      database := database + [currentCategory.value];
    }
    result := Success(database);
  }

  /** `parseBLT`: split the input into lines, drop the skipped ones and
      compile the rest with the `filterLine` parser. */
  method ParseBLT(input: string) returns (result: Result<BringList, CompileError>)
    ensures result == ParseBLTChecked(input)
  {
    var lines := Split(input, '\n');
    var nonEmptyLines := NonEmptyLines(lines);
    result := CompileLines(FilterLineParser, nonEmptyLines);
  }

  // ---------------------------------------------------------------------
  // What compilation promises

  predicate AllParse(parse: Parser<FilterLine>, entries: seq<(nat, string)>) {
    forall k :: 0 <= k < |entries| ==> parse(entries[k].1).Ok?
  }

  /** The parsed lines, in order. */
  function Parsed(parse: Parser<FilterLine>, entries: seq<(nat, string)>): seq<FilterLine>
    requires AllParse(parse, entries)
    decreases |entries|
  {
    if entries == [] then []
    else
      assert forall k :: 0 <= k < |entries| - 1 ==> entries[1..][k] == entries[k + 1];
      [parse(entries[0].1).value] + Parsed(parse, entries[1..])
  }

  function ItemLines(items: seq<Item>): seq<FilterLine>
    decreases |items|
  {
    if items == [] then [] else ItemLines(items[..|items| - 1]) + [ItemLine(items[|items| - 1])]
  }

  /** A category read back as the lines that made it: its heading, then
      its items. */
  function CategoryLines(c: BringListCategory): seq<FilterLine> {
    [CategoryLine(c.category, c.tags)] + ItemLines(c.items)
  }

  /** The whole list read back as lines. */
  function Flatten(db: BringList): seq<FilterLine>
    decreases |db|
  {
    if db == [] then [] else Flatten(db[..|db| - 1]) + CategoryLines(db[|db| - 1])
  }

  function OpenLines(current: Option<BringListCategory>): seq<FilterLine> {
    if current.Some? then CategoryLines(current.value) else []
  }

  lemma FlattenClose(db: BringList, current: Option<BringListCategory>)
    ensures Flatten(Close(db, current)) == Flatten(db) + OpenLines(current)
  {
    if current.Some? {
      assert Close(db, current)[..|db|] == db;
    }
  }

  lemma AllParseTail(parse: Parser<FilterLine>, entries: seq<(nat, string)>)
    requires entries != []
    ensures AllParse(parse, entries) <==> parse(entries[0].1).Ok? && AllParse(parse, entries[1..])
  {
    if parse(entries[0].1).Ok? && AllParse(parse, entries[1..]) {
      forall k | 0 <= k < |entries| ensures parse(entries[k].1).Ok? {
        if k > 0 {
          assert entries[k] == entries[1..][k - 1];
        }
      }
    }
  }

  lemma OpenLinesGrow(c: BringListCategory, item: Item)
    ensures OpenLines(Some(c.(items := c.items + [item]))) == OpenLines(Some(c)) + [ItemLine(item)]
  {
    assert (c.items + [item])[..|c.items|] == c.items;
  }

  /** Compilation from any state succeeds exactly when every remaining
      line parses and no item is left without a category. */
  lemma {:induction false} CompileFromSucceeds(parse: Parser<FilterLine>, entries: seq<(nat, string)>,
                                               current: Option<BringListCategory>, db: BringList)
    ensures CompileFrom(parse, entries, current, db).Success? <==>
      AllParse(parse, entries) &&
      (current.Some? || Parsed(parse, entries) == [] || Parsed(parse, entries)[0].CategoryLine?)
    decreases |entries|
  {
    if entries != [] {
      var r := parse(entries[0].1);
      AllParseTail(parse, entries);
      if r.Ok? {
        var rest := entries[1..];
        if r.value.CategoryLine? {
          CompileFromSucceeds(parse, rest, Some(BringListCategory(r.value.name, r.value.tags, [])),
                              Close(db, current));
        } else if current.Some? {
          var c := current.value;
          CompileFromSucceeds(parse, rest, Some(c.(items := c.items + [r.value.item])), db);
        }
      }
    }
  }

  /** The list compilation returns reads back as the closed categories,
      the open one and the remaining lines, in order. */
  lemma {:induction false} CompileFromFlattens(parse: Parser<FilterLine>, entries: seq<(nat, string)>,
                                               current: Option<BringListCategory>, db: BringList)
    requires AllParse(parse, entries)
    requires CompileFrom(parse, entries, current, db).Success?
    ensures Flatten(CompileFrom(parse, entries, current, db).value) ==
      Flatten(db) + OpenLines(current) + Parsed(parse, entries)
    decreases |entries|
  {
    if entries == [] {
      FlattenClose(db, current);
    } else {
      var r := parse(entries[0].1);
      var rest := entries[1..];
      AllParseTail(parse, entries);
      assert Parsed(parse, entries) == [r.value] + Parsed(parse, rest);
      if r.value.CategoryLine? {
        var started := Some(BringListCategory(r.value.name, r.value.tags, []));
        assert CompileFrom(parse, entries, current, db) == CompileFrom(parse, rest, started, Close(db, current));
        CompileFromFlattens(parse, rest, started, Close(db, current));
        FlattenClose(db, current);
        assert OpenLines(started) == [r.value];
        ShiftOne(Flatten(db), OpenLines(current), r.value, Parsed(parse, rest));
      } else {
        var c := current.value;
        var grown := Some(c.(items := c.items + [r.value.item]));
        assert CompileFrom(parse, entries, current, db) == CompileFrom(parse, rest, grown, db);
        CompileFromFlattens(parse, rest, grown, db);
        OpenLinesGrow(c, r.value.item);
        ShiftOneIn(Flatten(db), OpenLines(current), r.value, Parsed(parse, rest));
      }
    }
  }

  lemma ShiftOne<T>(a: seq<T>, b: seq<T>, x: T, p: seq<T>)
    ensures a + b + [x] + p == a + b + ([x] + p)
  {
  }

  lemma ShiftOneIn<T>(a: seq<T>, b: seq<T>, x: T, p: seq<T>)
    ensures a + (b + [x]) + p == a + b + ([x] + p)
  {
  }

  /** A parse error is reported for a line that does not parse, after
      every line before it parsed. */
  lemma {:induction false} CompileFromParseError(parse: Parser<FilterLine>, entries: seq<(nat, string)>,
                                                 current: Option<BringListCategory>, db: BringList)
      returns (k: nat)
    requires CompileFrom(parse, entries, current, db).Failure?
    requires CompileFrom(parse, entries, current, db).error.ParseError?
    ensures k < |entries|
    ensures CompileFrom(parse, entries, current, db).error.line == entries[k].0 + 1
    ensures parse(entries[k].1) == Err(CompileFrom(parse, entries, current, db).error.expected,
                                       CompileFrom(parse, entries, current, db).error.rest)
    ensures forall j :: 0 <= j < k ==> parse(entries[j].1).Ok?
    decreases |entries|
  {
    var r := parse(entries[0].1);
    var rest := entries[1..];
    if r.Err? {
      k := 0;
    } else {
      var next := if r.value.CategoryLine? then Some(BringListCategory(r.value.name, r.value.tags, []))
                  else Some(current.value.(items := current.value.items + [r.value.item]));
      var db' := if r.value.CategoryLine? then Close(db, current) else db;
      assert CompileFrom(parse, entries, current, db) == CompileFrom(parse, rest, next, db');
      var k' := CompileFromParseError(parse, rest, next, db');
      k := k' + 1;
      forall j | 0 <= j < k ensures parse(entries[j].1).Ok? {
        if j > 0 {
          assert entries[j] == rest[j - 1];
        }
      }
    }
  }

  /** An item without a category can only be the first compiled line, and
      only while no category is open. */
  lemma {:induction false} CompileFromNoCategory(parse: Parser<FilterLine>, entries: seq<(nat, string)>,
                                                 current: Option<BringListCategory>, db: BringList)
    requires CompileFrom(parse, entries, current, db).Failure?
    requires CompileFrom(parse, entries, current, db).error.NoCategory?
    ensures current.None? && entries != []
    ensures CompileFrom(parse, entries, current, db).error ==
      NoCategory(entries[0].0 + 1, entries[0].1)
    ensures parse(entries[0].1).Ok? && parse(entries[0].1).value.ItemLine?
    decreases |entries|
  {
    var r := parse(entries[0].1);
    var rest := entries[1..];
    if r.Ok? && (r.value.CategoryLine? || current.Some?) {
      var next := if r.value.CategoryLine? then Some(BringListCategory(r.value.name, r.value.tags, []))
                  else Some(current.value.(items := current.value.items + [r.value.item]));
      var db' := if r.value.CategoryLine? then Close(db, current) else db;
      assert CompileFrom(parse, entries, current, db) == CompileFrom(parse, rest, next, db');
      CompileFromNoCategory(parse, rest, next, db');
    }
  }

  /** No line that is not skipped comes before the first compiled one. */
  lemma FirstKeptLine(lines: seq<string>, skip: string -> bool, i: nat)
    requires KeepLines(lines, skip) != []
    requires i < KeepLines(lines, skip)[0].0
    ensures i < |lines| && skip(lines[i])
  {
    var r := KeepLines(lines, skip);
    KeepLinesSound(lines, skip, 0);
    if !skip(lines[i]) {
      KeepLinesComplete(lines, skip, i);
      var k :| 0 <= k < |r| && r[k].0 == i;
      if k > 0 {
        KeepLinesOrdered(lines, skip, 0, k);
      }
    }
  }

  // ---------------------------------------------------------------------
  // The same promises for a whole template

  /** A template compiles exactly when every line that is not skipped
      parses and the first of them is a category; the categories it yields,
      read back as lines, are those lines in input order. */
  lemma ParseBLTSucceeds(input: string)
    ensures ParseBLTChecked(input).Success? <==>
      var entries := NonEmptyLines(Split(input, '\n'));
      AllParse(FilterLineParser, entries) &&
      (Parsed(FilterLineParser, entries) == [] || Parsed(FilterLineParser, entries)[0].CategoryLine?)
    ensures ParseBLTChecked(input).Success? ==>
      Flatten(ParseBLTChecked(input).value) == Parsed(FilterLineParser, NonEmptyLines(Split(input, '\n')))
  {
    CompileSucceeds(FilterLineParser, NonEmptyLines(Split(input, '\n')));
  }

  /** Compilation from the start, for any line parser: it succeeds exactly
      when every line parses and the first is a category, and then yields
      the parsed lines. */
  lemma CompileSucceeds(parse: Parser<FilterLine>, entries: seq<(nat, string)>)
    ensures CompileFrom(parse, entries, None, []).Success? <==>
      AllParse(parse, entries) && (Parsed(parse, entries) == [] || Parsed(parse, entries)[0].CategoryLine?)
    ensures CompileFrom(parse, entries, None, []).Success? ==>
      Flatten(CompileFrom(parse, entries, None, []).value) == Parsed(parse, entries)
  {
    CompileFromSucceeds(parse, entries, None, []);
    if CompileFrom(parse, entries, None, []).Success? {
      CompileFromFlattens(parse, entries, None, []);
      assert Flatten([]) + OpenLines(None) + Parsed(parse, entries) == Parsed(parse, entries);
    }
  }

  /** For `parseBLTChecked` (`parse` the `filterLine` grammar, `skip` the
      blank-or-comment test), a parse error names, 1-based, a line that is
      not skipped and that `parse` rejects with exactly the reported expectation and remaining
      text; every compiled line before it parsed. */
  lemma LinesParseError(parse: Parser<FilterLine>, skip: string -> bool, lines: seq<string>)
    requires CompileFrom(parse, KeepLines(lines, skip), None, []).Failure?
    requires CompileFrom(parse, KeepLines(lines, skip), None, []).error.ParseError?
    ensures var e := CompileFrom(parse, KeepLines(lines, skip), None, []).error;
      1 <= e.line <= |lines| && !skip(lines[e.line - 1]) && parse(lines[e.line - 1]) == Err(e.expected, e.rest)
    ensures var e := CompileFrom(parse, KeepLines(lines, skip), None, []).error;
      forall i :: 0 <= i < e.line - 1 && !skip(lines[i]) ==> parse(lines[i]).Ok?
  {
    var entries := KeepLines(lines, skip);
    var k := CompileFromParseError(parse, entries, None, []);
    KeepLinesSound(lines, skip, k);
    forall i | 0 <= i < entries[k].0 && !skip(lines[i]) ensures parse(lines[i]).Ok? {
      EarlierKeptLineParses(parse, skip, lines, k, i);
    }
  }

  /** A line before the `k`-th kept line that is not skipped is kept
      earlier, so it parses when the first `k` kept lines do. */
  lemma EarlierKeptLineParses(parse: Parser<FilterLine>, skip: string -> bool, lines: seq<string>, k: nat, i: nat)
    requires k < |KeepLines(lines, skip)|
    requires forall j :: 0 <= j < k ==> parse(KeepLines(lines, skip)[j].1).Ok?
    requires i < KeepLines(lines, skip)[k].0 && i < |lines| && !skip(lines[i])
    ensures parse(lines[i]).Ok?
  {
    var entries := KeepLines(lines, skip);
    KeepLinesComplete(lines, skip, i);
    var j :| 0 <= j < |entries| && entries[j].0 == i;
    KeepLinesSound(lines, skip, j);
    assert j < k by {
      if k < j {
        KeepLinesOrdered(lines, skip, k, j);
      }
    }
  }

  /** For `parseBLTChecked` as above, an item before any category is
      reported on the first line that is not skipped, which parses as an
      item. */
  lemma LinesNoCategory(parse: Parser<FilterLine>, skip: string -> bool, lines: seq<string>)
    requires CompileFrom(parse, KeepLines(lines, skip), None, []).Failure?
    requires CompileFrom(parse, KeepLines(lines, skip), None, []).error.NoCategory?
    ensures var e := CompileFrom(parse, KeepLines(lines, skip), None, []).error;
      1 <= e.line <= |lines| && lines[e.line - 1] == e.text && !skip(e.text)
    ensures var e := CompileFrom(parse, KeepLines(lines, skip), None, []).error;
      forall i :: 0 <= i < e.line - 1 ==> skip(lines[i])
    ensures var e := CompileFrom(parse, KeepLines(lines, skip), None, []).error;
      parse(e.text).Ok? && parse(e.text).value.ItemLine?
  {
    var entries := KeepLines(lines, skip);
    CompileFromNoCategory(parse, entries, None, []);
    KeepLinesSound(lines, skip, 0);
    forall i | 0 <= i < entries[0].0 ensures skip(lines[i]) {
      FirstKeptLine(lines, skip, i);
    }
  }
}
