/** Evaluating tag expressions against a filter, and gathering the tags and
    nights bounds they mention (web/src/filterspec.ts). */
module WebEval {
  import opened Wrappers
  import opened JsSet
  import opened WebGrammar

  /** The active tags and the number of nights. */
  datatype Filter = Filter(tags: set<string>, nights: int)

  /** A verdict with the tags that explain it: those found active and those
      found inactive. */
  datatype MatchResult = MatchResult(isMatch: bool, isTrue: seq<string>, isFalse: seq<string>)

  const NoMatch: MatchResult := MatchResult(false, [], [])

  /** `nightsRangeIsMatch`: both bounds are inclusive; an absent bound does
      not constrain. */
  predicate NightsRangeIsMatch(nights: int, lo: Option<int>, hi: Option<int>) {
    !(lo.Some? && nights < lo.value) && !(hi.Some? && nights > hi.value)
  }

  /** What a range operator means, as a comparison of the nights with its
      number. */
  predicate Compares(op: string, nights: int, num: int) {
    if op == "==" then nights == num
    else if op == "<" then nights < num
    else if op == "<=" then nights <= num
    else if op == ">" then nights > num
    else nights >= num
  }

  /** Every single-ended range accepts exactly the nights its operator
      names, and `A-B` exactly the nights from A to B. */
  lemma RangeAcceptsWhatItNames(op: string, num: nat, nights: int)
    requires op in RangeOps
    ensures var r := MakeRangeSingle(op, num);
      NightsRangeIsMatch(nights, r.lo, r.hi) <==> Compares(op, nights, num)
  {
  }

  lemma DoubleRangeAccepts(lo: nat, hi: nat, nights: int)
    ensures var r := MakeRangeDouble(lo, hi);
      NightsRangeIsMatch(nights, r.lo, r.hi) <==> lo <= nights <= hi
  {
  }

  /** The intended meaning of a tag expression: `&` and `|` are conjunction
      and disjunction, `^` holds when both sides agree, `!` negates, a tag
      holds when active, a range when the nights fall in it, and the empty
      expression always. */
  predicate Holds(f: Filter, e: TagExpr) {
    match e
    case BinOpExpr(l, op, r) =>
      (match op
       case AndOp => Holds(f, l) && Holds(f, r)
       case OrOp => Holds(f, l) || Holds(f, r)
       case XorOp => Holds(f, l) == Holds(f, r))
    case NotExpr(inner) => !Holds(f, inner)
    case TagIdent(ident) => ident in f.tags
    case NightsRange(lo, hi) => NightsRangeIsMatch(f.nights, lo, hi)
    case Empty => true
  }

  /** `e` names the tag `t` somewhere. */
  predicate Mentions(e: TagExpr, t: string) {
    match e
    case BinOpExpr(l, _, r) => Mentions(l, t) || Mentions(r, t)
    case NotExpr(inner) => Mentions(inner, t)
    case TagIdent(ident) => ident == t
    case _ => false
  }

  /** `exprIsMatch`. Its verdict is `Holds`; every tag it lists as active is
      an active tag of the expression, every tag it lists as inactive an
      inactive one. */
  function ExprIsMatch(f: Filter, e: TagExpr): (r: MatchResult)
    ensures r.isMatch == Holds(f, e)
    ensures forall t :: t in r.isTrue ==> t in f.tags && Mentions(e, t)
    ensures forall t :: t in r.isFalse ==> t !in f.tags && Mentions(e, t)
  {
    match e
    case BinOpExpr(l, op, r) =>
      var left, right := ExprIsMatch(f, l), ExprIsMatch(f, r);
      var allTrue, allFalse := left.isTrue + right.isTrue, left.isFalse + right.isFalse;
      if op == AndOp && !left.isMatch then left
      else if op == AndOp then MatchResult(right.isMatch, allTrue, allFalse)
      else if op == OrOp && left.isMatch then left
      else if op == OrOp then MatchResult(right.isMatch, right.isTrue, right.isFalse)
      else if op == XorOp && left.isMatch != !right.isMatch then MatchResult(true, allTrue, allFalse)
      else NoMatch
    case NightsRange(lo, hi) =>
      if NightsRangeIsMatch(f.nights, lo, hi) then MatchResult(true, [], []) else NoMatch
    case NotExpr(inner) =>
      var i := ExprIsMatch(f, inner);
      if i.isMatch then NoMatch else MatchResult(true, i.isTrue, i.isFalse)
    case TagIdent(ident) =>
      if ident !in f.tags then MatchResult(false, [], [ident]) else MatchResult(true, [ident], [])
    case Empty => MatchResult(true, [], [])
  }

  /** A tag names itself as the reason of its verdict. */
  lemma TagExplainsItself(f: Filter, ident: string)
    ensures ident in f.tags ==> ExprIsMatch(f, TagIdent(ident)) == MatchResult(true, [ident], [])
    ensures ident !in f.tags ==> ExprIsMatch(f, TagIdent(ident)) == MatchResult(false, [], [ident])
  {
  }

  /** The explanation rules of the operators: a failing left side of `&`
      and a matching left side of `|` are returned as they are; a matching
      `&` lists both sides; a `|` decided by its right side lists only that
      side; a matching negation keeps its operand's lists, and a failing
      negation, like ranges and the empty expression, lists nothing. */
  lemma ExplanationRules(f: Filter, l: TagExpr, r: TagExpr, inner: TagExpr)
    ensures !Holds(f, l) ==> ExprIsMatch(f, BinOpExpr(l, AndOp, r)) == ExprIsMatch(f, l)
    ensures Holds(f, l) && Holds(f, r) ==>
      ExprIsMatch(f, BinOpExpr(l, AndOp, r)).isTrue == ExprIsMatch(f, l).isTrue + ExprIsMatch(f, r).isTrue
    ensures Holds(f, l) ==> ExprIsMatch(f, BinOpExpr(l, OrOp, r)) == ExprIsMatch(f, l)
    ensures !Holds(f, l) ==> ExprIsMatch(f, BinOpExpr(l, OrOp, r)) == ExprIsMatch(f, r)
    ensures Holds(f, NotExpr(inner)) ==>
      ExprIsMatch(f, NotExpr(inner)) == MatchResult(true, ExprIsMatch(f, inner).isTrue, ExprIsMatch(f, inner).isFalse)
    ensures !Holds(f, NotExpr(inner)) ==> ExprIsMatch(f, NotExpr(inner)) == NoMatch
    ensures !Holds(f, BinOpExpr(l, XorOp, r)) ==> ExprIsMatch(f, BinOpExpr(l, XorOp, r)) == NoMatch
  {
    AndExplanation(f, l, r);
    OrExplanation(f, l, r);
    NotExplanation(f, inner);
    XorExplanation(f, l, r);
  }

  lemma AndExplanation(f: Filter, l: TagExpr, r: TagExpr)
    ensures !Holds(f, l) ==> ExprIsMatch(f, BinOpExpr(l, AndOp, r)) == ExprIsMatch(f, l)
    ensures Holds(f, l) && Holds(f, r) ==>
      ExprIsMatch(f, BinOpExpr(l, AndOp, r)).isTrue == ExprIsMatch(f, l).isTrue + ExprIsMatch(f, r).isTrue
  {
  }

  lemma OrExplanation(f: Filter, l: TagExpr, r: TagExpr)
    ensures Holds(f, l) ==> ExprIsMatch(f, BinOpExpr(l, OrOp, r)) == ExprIsMatch(f, l)
    ensures !Holds(f, l) ==> ExprIsMatch(f, BinOpExpr(l, OrOp, r)) == ExprIsMatch(f, r)
  {
  }

  lemma NotExplanation(f: Filter, inner: TagExpr)
    ensures Holds(f, NotExpr(inner)) ==>
      ExprIsMatch(f, NotExpr(inner)) == MatchResult(true, ExprIsMatch(f, inner).isTrue, ExprIsMatch(f, inner).isFalse)
    ensures !Holds(f, NotExpr(inner)) ==> ExprIsMatch(f, NotExpr(inner)) == NoMatch
  {
  }

  lemma XorExplanation(f: Filter, l: TagExpr, r: TagExpr)
    ensures !Holds(f, BinOpExpr(l, XorOp, r)) ==> ExprIsMatch(f, BinOpExpr(l, XorOp, r)) == NoMatch
  {
  }

  /** `^` matches exactly when both operands give the same verdict: it is
      equivalence, not exclusive or. */
  lemma CaretIsEquivalence(f: Filter, l: TagExpr, r: TagExpr)
    ensures ExprIsMatch(f, BinOpExpr(l, XorOp, r)).isMatch <==>
      ExprIsMatch(f, l).isMatch == ExprIsMatch(f, r).isMatch
  {
  }

  /** `collectTagsFromExpr`: the tags of the expression, each once, in the
      order a left-to-right walk first meets them. */
  function CollectTagsFromExpr(e: TagExpr): (r: seq<string>)
    ensures Distinct(r)
    ensures forall t :: t in r <==> Mentions(e, t)
  {
    match e
    case BinOpExpr(l, _, r) => Dedup(CollectTagsFromExpr(l) + CollectTagsFromExpr(r))
    case NotExpr(inner) => CollectTagsFromExpr(inner)
    case TagIdent(ident) => [ident]
    case _ => []
  }

  /** The verdict only depends on the collected tags: two filters with the
      same nights that agree on them give the same verdict. */
  lemma {:induction false} VerdictDependsOnlyOnCollectedTags(f1: Filter, f2: Filter, e: TagExpr)
    requires f1.nights == f2.nights
    requires forall t :: t in CollectTagsFromExpr(e) ==> (t in f1.tags <==> t in f2.tags)
    ensures ExprIsMatch(f1, e).isMatch == ExprIsMatch(f2, e).isMatch
  {
    match e
    case BinOpExpr(l, _, r) =>
      VerdictDependsOnlyOnCollectedTags(f1, f2, l);
      VerdictDependsOnlyOnCollectedTags(f1, f2, r);
    case NotExpr(inner) =>
      VerdictDependsOnlyOnCollectedTags(f1, f2, inner);
    case _ =>
  }

  /** `getAllNightBoundsInExpr`: the bounds of every range, left to right,
      the lower bound of a range before its upper one. */
  function GetAllNightBoundsInExpr(e: TagExpr): seq<int> {
    match e
    case BinOpExpr(l, _, r) => GetAllNightBoundsInExpr(l) + GetAllNightBoundsInExpr(r)
    case NotExpr(inner) => GetAllNightBoundsInExpr(inner)
    case NightsRange(lo, hi) =>
      (if lo.Some? then [lo.value] else []) + (if hi.Some? then [hi.value] else [])
    case _ => []
  }

  /** Between two neighbouring numbers of nights that are not bounds of the
      expression, its verdict cannot change: it only changes where a range
      starts or ends. */
  lemma {:induction false} VerdictStableAwayFromBounds(tags: set<string>, n: int, e: TagExpr)
    requires n !in GetAllNightBoundsInExpr(e) && n + 1 !in GetAllNightBoundsInExpr(e)
    ensures ExprIsMatch(Filter(tags, n), e).isMatch == ExprIsMatch(Filter(tags, n + 1), e).isMatch
  {
    match e
    case BinOpExpr(l, _, r) =>
      VerdictStableAwayFromBounds(tags, n, l);
      VerdictStableAwayFromBounds(tags, n, r);
    case NotExpr(inner) =>
      VerdictStableAwayFromBounds(tags, n, inner);
    case _ =>
  }

  // ---------------------------------------------------------------------
  // Whole templates

  /** The tags of `items`' expressions added, one item after another, to
      the tags gathered so far (the inner loop of `collectTagsFromDB`). */
  function AddItemTags(acc: seq<string>, items: seq<Item>): seq<string>
    decreases |items|
  {
    if items == [] then acc
    else AddItemTags(Dedup(acc + CollectTagsFromExpr(items[0].tags)), items[1..])
  }

  /** The tags of the categories of `bl` and of their items, added in
      template order to the tags gathered so far. */
  function AddCategoryTags(acc: seq<string>, bl: BringList): seq<string>
    decreases |bl|
  {
    if bl == [] then acc
    else
      var withCategory := Dedup(acc + CollectTagsFromExpr(bl[0].tags));
      AddCategoryTags(AddItemTags(withCategory, bl[0].items), bl[1..])
  }

  /** `t` is named by the expression of some category of `bl` or of one of
      its items. */
  predicate MentionedIn(bl: BringList, t: string) {
    exists i :: 0 <= i < |bl| &&
      (Mentions(bl[i].tags, t) || exists j :: 0 <= j < |bl[i].items| && Mentions(bl[i].items[j].tags, t))
  }

  predicate MentionedInItems(items: seq<Item>, t: string) {
    exists j :: 0 <= j < |items| && Mentions(items[j].tags, t)
  }

  lemma {:induction false} AddItemTagsElems(acc: seq<string>, items: seq<Item>, t: string)
    ensures t in AddItemTags(acc, items) <==> t in acc || MentionedInItems(items, t)
    decreases |items|
  {
    if items != [] {
      AddItemTagsElems(Dedup(acc + CollectTagsFromExpr(items[0].tags)), items[1..], t);
      if MentionedInItems(items, t) && !Mentions(items[0].tags, t) {
        var j :| 0 <= j < |items| && Mentions(items[j].tags, t);
        assert items[1..][j - 1] == items[j];
      }
      if MentionedInItems(items[1..], t) {
        var j :| 0 <= j < |items[1..]| && Mentions(items[1..][j].tags, t);
        assert items[j + 1] == items[1..][j];
      }
    }
  }

  lemma {:induction false} AddCategoryTagsElems(acc: seq<string>, bl: BringList, t: string)
    ensures t in AddCategoryTags(acc, bl) <==> t in acc || MentionedIn(bl, t)
    decreases |bl|
  {
    if bl != [] {
      var withCategory := Dedup(acc + CollectTagsFromExpr(bl[0].tags));
      AddItemTagsElems(withCategory, bl[0].items, t);
      AddCategoryTagsElems(AddItemTags(withCategory, bl[0].items), bl[1..], t);
      assert MentionedInItems(bl[0].items, t) ==> MentionedIn(bl, t);
      if MentionedIn(bl, t) {
        var i :| 0 <= i < |bl| &&
          (Mentions(bl[i].tags, t) || exists j :: 0 <= j < |bl[i].items| && Mentions(bl[i].items[j].tags, t));
        if i > 0 {
          assert bl[1..][i - 1] == bl[i];
        }
      }
      if MentionedIn(bl[1..], t) {
        var i :| 0 <= i < |bl[1..]| &&
          (Mentions(bl[1..][i].tags, t) || exists j :: 0 <= j < |bl[1..][i].items| && Mentions(bl[1..][i].items[j].tags, t));
        assert bl[i + 1] == bl[1..][i];
      }
    }
  }

  /** The tags of a whole template, each once: exactly the tags some
      category or item expression names. */
  lemma TagsOfDBAreTheMentionedTags(bl: BringList, t: string)
    ensures t in AddCategoryTags([], bl) <==> MentionedIn(bl, t)
    ensures Distinct(AddCategoryTags([], bl))
  {
    AddCategoryTagsElems([], bl, t);
    AddCategoryTagsDistinct([], bl);
  }

  lemma {:induction false} AddCategoryTagsDistinct(acc: seq<string>, bl: BringList)
    requires Distinct(acc)
    ensures Distinct(AddCategoryTags(acc, bl))
    decreases |bl|
  {
    if bl != [] {
      var withCategory := Dedup(acc + CollectTagsFromExpr(bl[0].tags));
      AddItemTagsDistinct(withCategory, bl[0].items);
      AddCategoryTagsDistinct(AddItemTags(withCategory, bl[0].items), bl[1..]);
    }
  }

  lemma {:induction false} AddItemTagsDistinct(acc: seq<string>, items: seq<Item>)
    requires Distinct(acc)
    ensures Distinct(AddItemTags(acc, items))
    decreases |items|
  {
    if items != [] {
      AddItemTagsDistinct(Dedup(acc + CollectTagsFromExpr(items[0].tags)), items[1..]);
    }
  }

  /** `collectTagsFromDB`: the loops that grow `tags` category by category
      and item by item. */
  method CollectTagsFromDB(bl: BringList) returns (tags: seq<string>)
    ensures tags == AddCategoryTags([], bl)
  {
    tags := [];
    for i := 0 to |bl|
      invariant AddCategoryTags(tags, bl[i..]) == AddCategoryTags([], bl)
    {
      assert bl[i..][1..] == bl[i + 1..];
      var cat := bl[i];
      tags := Dedup(tags + CollectTagsFromExpr(cat.tags));
      for j := 0 to |cat.items|
        invariant AddCategoryTags(AddItemTags(tags, cat.items[j..]), bl[i + 1..]) == AddCategoryTags([], bl)
      {
        assert cat.items[j..][1..] == cat.items[j + 1..];
        tags := Dedup(tags + CollectTagsFromExpr(cat.items[j].tags));
      }
    }
  }

  /** The smallest number of nights the bounds always include. */
  const LowestPossibleNights: int := 1

  function AddItemBounds(acc: seq<int>, items: seq<Item>): seq<int>
    decreases |items|
  {
    if items == [] then acc
    else AddItemBounds(Dedup(acc + GetAllNightBoundsInExpr(items[0].tags)), items[1..])
  }

  function AddCategoryBounds(acc: seq<int>, bl: BringList): seq<int>
    decreases |bl|
  {
    if bl == [] then acc
    else
      var withCategory := Dedup(acc + GetAllNightBoundsInExpr(bl[0].tags));
      AddCategoryBounds(AddItemBounds(withCategory, bl[0].items), bl[1..])
  }

  /** `b` is a bound of a range in some category or item expression of `bl`. */
  predicate BoundIn(bl: BringList, b: int) {
    exists i :: 0 <= i < |bl| &&
      (b in GetAllNightBoundsInExpr(bl[i].tags) ||
       exists j :: 0 <= j < |bl[i].items| && b in GetAllNightBoundsInExpr(bl[i].items[j].tags))
  }

  predicate BoundInItems(items: seq<Item>, b: int) {
    exists j :: 0 <= j < |items| && b in GetAllNightBoundsInExpr(items[j].tags)
  }

  lemma {:induction false} AddItemBoundsElems(acc: seq<int>, items: seq<Item>, b: int)
    ensures b in AddItemBounds(acc, items) <==> b in acc || BoundInItems(items, b)
    ensures Distinct(acc) ==> Distinct(AddItemBounds(acc, items))
    decreases |items|
  {
    if items != [] {
      AddItemBoundsElems(Dedup(acc + GetAllNightBoundsInExpr(items[0].tags)), items[1..], b);
      if BoundInItems(items, b) && b !in GetAllNightBoundsInExpr(items[0].tags) {
        var j :| 0 <= j < |items| && b in GetAllNightBoundsInExpr(items[j].tags);
        assert items[1..][j - 1] == items[j];
      }
      if BoundInItems(items[1..], b) {
        var j :| 0 <= j < |items[1..]| && b in GetAllNightBoundsInExpr(items[1..][j].tags);
        assert items[j + 1] == items[1..][j];
      }
    }
  }

  lemma {:induction false} AddCategoryBoundsElems(acc: seq<int>, bl: BringList, b: int)
    ensures b in AddCategoryBounds(acc, bl) <==> b in acc || BoundIn(bl, b)
    ensures Distinct(acc) ==> Distinct(AddCategoryBounds(acc, bl))
    decreases |bl|
  {
    if bl != [] {
      var withCategory := Dedup(acc + GetAllNightBoundsInExpr(bl[0].tags));
      AddItemBoundsElems(withCategory, bl[0].items, b);
      AddCategoryBoundsElems(AddItemBounds(withCategory, bl[0].items), bl[1..], b);
      assert BoundInItems(bl[0].items, b) ==> BoundIn(bl, b);
      if BoundIn(bl, b) {
        var i :| 0 <= i < |bl| &&
          (b in GetAllNightBoundsInExpr(bl[i].tags) ||
           exists j :: 0 <= j < |bl[i].items| && b in GetAllNightBoundsInExpr(bl[i].items[j].tags));
        if i > 0 {
          assert bl[1..][i - 1] == bl[i];
        }
      }
      if BoundIn(bl[1..], b) {
        var i :| 0 <= i < |bl[1..]| &&
          (b in GetAllNightBoundsInExpr(bl[1..][i].tags) ||
           exists j :: 0 <= j < |bl[1..][i].items| && b in GetAllNightBoundsInExpr(bl[1..][i].items[j].tags));
        assert bl[i + 1] == bl[1..][i];
      }
    }
  }

  predicate StrictlyAscending(xs: seq<int>) {
    forall i, j :: 0 <= i < j < |xs| ==> xs[i] < xs[j]
  }

  /** One step of sorting: `x` put in its place in an ascending sequence. */
  function Insert(sorted: seq<int>, x: int): (r: seq<int>)
    requires StrictlyAscending(sorted) && x !in sorted
    ensures StrictlyAscending(r)
    ensures forall y :: y in r <==> y in sorted || y == x
    ensures |r| == |sorted| + 1
  {
    if sorted == [] || x < sorted[0] then
      assert forall i :: 0 <= i < |sorted| ==> x < sorted[i];
      [x] + sorted
    else
      assert sorted[0] < x;
      var tail := Insert(sorted[1..], x);
      forall i | 0 <= i < |tail|
        ensures sorted[0] < tail[i]
      {
        assert tail[i] in tail;
        if tail[i] != x {
          var k :| 0 <= k < |sorted| - 1 && sorted[1..][k] == tail[i];
          assert sorted[k + 1] == tail[i];
        }
      }
      assert sorted == [sorted[0]] + sorted[1..];
      [sorted[0]] + tail
  }

  /** The numeric `sort` (comparator `(a, b) => a - b`) of the distinct
      elements of a set: the same elements, ascending. */
  function SortAscending(xs: seq<int>): (r: seq<int>)
    requires Distinct(xs)
    ensures StrictlyAscending(r)
    ensures forall y :: y in r <==> y in xs
    ensures |r| == |xs|
    decreases |xs|
  {
    if xs == [] then []
    else
      var init := xs[..|xs| - 1];
      assert forall y :: y in xs <==> y in init || y == xs[|xs| - 1];
      Insert(SortAscending(init), xs[|xs| - 1])
  }

  /** `getAllNightBounds`: the loops that grow the set from
      `LOWEST_POSSIBLE_NIGHTS`, then the numeric sort. */
  method GetAllNightBounds(bl: BringList) returns (bounds: seq<int>)
    ensures Distinct(AddCategoryBounds([LowestPossibleNights], bl))
    ensures bounds == SortAscending(AddCategoryBounds([LowestPossibleNights], bl))
  {
    var found := [LowestPossibleNights];
    for i := 0 to |bl|
      invariant AddCategoryBounds(found, bl[i..]) == AddCategoryBounds([LowestPossibleNights], bl)
      invariant Distinct(found)
    {
      assert bl[i..][1..] == bl[i + 1..];
      var cat := bl[i];
      found := Dedup(found + GetAllNightBoundsInExpr(cat.tags));
      for j := 0 to |cat.items|
        invariant AddCategoryBounds(AddItemBounds(found, cat.items[j..]), bl[i + 1..]) ==
          AddCategoryBounds([LowestPossibleNights], bl)
        invariant Distinct(found)
      {
        assert cat.items[j..][1..] == cat.items[j + 1..];
        found := Dedup(found + GetAllNightBoundsInExpr(cat.items[j].tags));
      }
    }
    bounds := SortAscending(found);
  }

  /** The night bounds of a template are ascending without repetition,
      include 1, and are otherwise exactly the bounds of its ranges. */
  lemma AllNightBoundsLaw(bl: BringList, b: int)
    ensures Distinct(AddCategoryBounds([LowestPossibleNights], bl))
    ensures StrictlyAscending(SortAscending(AddCategoryBounds([LowestPossibleNights], bl)))
    ensures b in SortAscending(AddCategoryBounds([LowestPossibleNights], bl)) <==>
      b == LowestPossibleNights || BoundIn(bl, b)
  {
    AddCategoryBoundsElems([LowestPossibleNights], bl, b);
  }
}
