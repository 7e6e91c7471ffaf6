/** The duplicate checker of web/src/filterspec.ts (`getBLTWarnings`) and
    the rendering of its warnings (`warningToString`). Two items of the
    same name are duplicates when, for some choice of active tags and some
    nights value where a range starts or ends, both match their own
    expression and their category's. */
module WebWarnings {
  import opened Wrappers
  import opened JsString
  import opened JsSet
  import opened WebGrammar
  import opened WebEval
  import opened Combinatorics
  import opened JsObject

  /** An item of the template with its category's name and expression
      (the records of `allItems`). */
  datatype FlatItem = FlatItem(cat: string, catTags: TagExpr, name: string, everyNNights: Option<real>, tags: TagExpr)

  /** What `getBLTWarnings` throws: `itemDuplicateCandidates[name] ?? []`
      found a member inherited from `Object.prototype`, which has no
      `push` (a TypeError). */
  datatype Thrown = PushNotAFunction(name: string)

  datatype BLTWarning =
    | DuplicateCategory(category: string, tags: seq<string>, nightsLo: int, nightsHi: int)
    | DuplicateItem(item: string, tags: seq<string>, nightsLo: int, nightsHi: int)

  /** An entry of `duplicateItems`: the name, the tag combination that
      first collided, and the least and greatest colliding nights. */
  datatype Dup = Dup(item: string, tags: seq<string>, nightsLo: int, nightsHi: int)

  // ---------------------------------------------------------------------
  // Grouping the items by name

  function FlattenCategory(c: BringListCategory, items: seq<Item>): (r: seq<FlatItem>)
    ensures |r| == |items|
    decreases |items|
  {
    if items == [] then []
    else
      var it := items[0];
      [FlatItem(c.category, c.tags, it.name, it.everyNNights, it.tags)] + FlattenCategory(c, items[1..])
  }

  /** `allItems`: every item of the template in order, with its category. */
  function AllItems(bl: BringList): seq<FlatItem>
    decreases |bl|
  {
    if bl == [] then [] else FlattenCategory(bl[0], bl[0].items) + AllItems(bl[1..])
  }

  /** How many of `xs` are called `name`. */
  function Count(xs: seq<FlatItem>, name: string): nat
    decreases |xs|
  {
    if xs == [] then 0
    else Count(xs[..|xs| - 1], name) + (if xs[|xs| - 1].name == name then 1 else 0)
  }

  /** The items of `xs` called `name`, in order. */
  function ItemsNamed(xs: seq<FlatItem>, name: string): (r: seq<FlatItem>)
    ensures |r| == Count(xs, name)
    ensures forall k :: 0 <= k < |r| ==> r[k].name == name
    decreases |xs|
  {
    if xs == [] then []
    else
      var init := ItemsNamed(xs[..|xs| - 1], name);
      if xs[|xs| - 1].name == name then init + [xs[|xs| - 1]] else init
  }

  /** The numeric entries of `itemCounts` after counting the items of
      `xs`. For a name inherited from `Object.prototype`,
      `itemCounts[name] ?? 0` reads the inherited member, so the sum stored
      is a string (for `__proto__` nothing is stored at all); such a name
      never has a numeric entry, and `=== 1` fails for it as for a name
      with no entry. */
  function CountsOf(xs: seq<FlatItem>): map<string, nat>
    decreases |xs|
  {
    if xs == [] then map[]
    else
      var m := CountsOf(xs[..|xs| - 1]);
      var name := xs[|xs| - 1].name;
      if Inherited(name) then m
      else m[name := (if name in m then m[name] else 0) + 1]
  }

  /** `itemCounts` maps exactly the names that occur, other than inherited
      ones, to their number of occurrences. */
  lemma {:induction false} CountsOfLaw(xs: seq<FlatItem>, name: string)
    ensures name in CountsOf(xs) <==> Count(xs, name) > 0 && !Inherited(name)
    ensures name in CountsOf(xs) ==> CountsOf(xs)[name] == Count(xs, name)
    decreases |xs|
  {
    if xs != [] {
      CountsOfLaw(xs[..|xs| - 1], name);
    }
  }

  /** The counting loop of `getBLTWarnings`. */
  method CountItems(allItems: seq<FlatItem>) returns (itemCounts: map<string, nat>)
    ensures itemCounts == CountsOf(allItems)
  {
    itemCounts := map[];
    for i := 0 to |allItems|
      invariant itemCounts == CountsOf(allItems[..i])
    {
      assert allItems[..i + 1][..i] == allItems[..i];
      var name := allItems[i].name;
      if !Inherited(name) {
        itemCounts := itemCounts[name := (if name in itemCounts then itemCounts[name] else 0) + 1];
      }
    }
    assert allItems[..|allItems|] == allItems;
  }

  /** An item whose name `counts` gives exactly 1 is not a candidate. */
  predicate Single(counts: map<string, nat>, name: string) {
    name in counts && counts[name] == 1
  }

  /** `itemDuplicateCandidates` after the items of `xs`: every item that is
      not single, appended to the list of its name. */
  function GroupOf(xs: seq<FlatItem>, counts: map<string, nat>): map<string, seq<FlatItem>>
    decreases |xs|
  {
    if xs == [] then map[]
    else
      var m := GroupOf(xs[..|xs| - 1], counts);
      var item := xs[|xs| - 1];
      if Single(counts, item.name) then m
      else m[item.name := (if item.name in m then m[item.name] else []) + [item]]
  }

  /** The keys of `itemDuplicateCandidates` in the order they were added,
      which is the order `Object.entries` lists them. */
  function KeyOrder(xs: seq<FlatItem>, counts: map<string, nat>): seq<string>
    decreases |xs|
  {
    if xs == [] then []
    else
      var order := KeyOrder(xs[..|xs| - 1], counts);
      var item := xs[|xs| - 1];
      if Single(counts, item.name) || item.name in GroupOf(xs[..|xs| - 1], counts) then order
      else order + [item.name]
  }

  /** A name counted at least once is the name of some item. */
  lemma {:induction false} CountWitness(xs: seq<FlatItem>, name: string) returns (i: nat)
    requires Count(xs, name) > 0
    ensures i < |xs| && xs[i].name == name
    decreases |xs|
  {
    if xs[|xs| - 1].name == name {
      i := |xs| - 1;
    } else {
      i := CountWitness(xs[..|xs| - 1], name);
    }
  }

  /** The candidates of a name are all its items, in order, unless the
      name is single; the key order lists each candidate name once. */
  lemma {:induction false} GroupOfLaw(xs: seq<FlatItem>, counts: map<string, nat>, name: string)
    ensures name in GroupOf(xs, counts) <==> Count(xs, name) > 0 && !Single(counts, name)
    ensures name in GroupOf(xs, counts) ==> GroupOf(xs, counts)[name] == ItemsNamed(xs, name)
    ensures name in KeyOrder(xs, counts) <==> name in GroupOf(xs, counts)
    decreases |xs|
  {
    if xs != [] {
      GroupOfLaw(xs[..|xs| - 1], counts, name);
      GroupOfLaw(xs[..|xs| - 1], counts, xs[|xs| - 1].name);
    }
  }

  lemma {:induction false} KeyOrderDistinct(xs: seq<FlatItem>, counts: map<string, nat>)
    ensures Distinct(KeyOrder(xs, counts))
    decreases |xs|
  {
    if xs != [] {
      KeyOrderDistinct(xs[..|xs| - 1], counts);
      GroupOfLaw(xs[..|xs| - 1], counts, xs[|xs| - 1].name);
    }
  }

  /** Item `i` of `xs` is not single and its name is inherited: the
      lookup in `itemDuplicateCandidates` finds the inherited member, and
      calling its `push` throws. */
  predicate PushThrowsAt(xs: seq<FlatItem>, counts: map<string, nat>, i: int) {
    0 <= i < |xs| && !Single(counts, xs[i].name) && Inherited(xs[i].name)
  }

  /** The grouping loop reaches an item at which it throws. */
  predicate GroupThrows(xs: seq<FlatItem>, counts: map<string, nat>) {
    exists i :: 0 <= i < |xs| && PushThrowsAt(xs, counts, i)
  }

  /** The first item at which the grouping loop throws. */
  function FirstThrowing(xs: seq<FlatItem>, counts: map<string, nat>): (i: nat)
    requires GroupThrows(xs, counts)
    ensures PushThrowsAt(xs, counts, i)
    ensures forall j :: 0 <= j < i ==> !PushThrowsAt(xs, counts, j)
  {
    FirstThrowingFrom(xs, counts, 0)
  }

  /** The first item from `k` on at which the grouping loop throws, when
      it throws at none before `k`. */
  function FirstThrowingFrom(xs: seq<FlatItem>, counts: map<string, nat>, k: nat): (i: nat)
    requires k <= |xs| && exists i :: k <= i < |xs| && PushThrowsAt(xs, counts, i)
    requires forall j :: 0 <= j < k ==> !PushThrowsAt(xs, counts, j)
    ensures PushThrowsAt(xs, counts, i)
    ensures forall j :: 0 <= j < i ==> !PushThrowsAt(xs, counts, j)
    decreases |xs| - k
  {
    if PushThrowsAt(xs, counts, k) then k else FirstThrowingFrom(xs, counts, k + 1)
  }

  /** The grouping loop of `getBLTWarnings`, with the keys in insertion
      order beside the dictionary. It throws at the first item that is not
      single and is named after an inherited member, and otherwise groups
      every item that is not single under its name. */
  method GroupCandidates(allItems: seq<FlatItem>, itemCounts: map<string, nat>)
    returns (r: Result<(map<string, seq<FlatItem>>, seq<string>), Thrown>)
    ensures r.Failure? <==> GroupThrows(allItems, itemCounts)
    ensures r.Failure? ==> r.error == PushNotAFunction(allItems[FirstThrowing(allItems, itemCounts)].name)
    ensures r.Success? ==> r.value == (GroupOf(allItems, itemCounts), KeyOrder(allItems, itemCounts))
  {
    var candidates: map<string, seq<FlatItem>> := map[];
    var names: seq<string> := [];
    for i := 0 to |allItems|
      invariant candidates == GroupOf(allItems[..i], itemCounts)
      invariant names == KeyOrder(allItems[..i], itemCounts)
      invariant NoThrowBefore(allItems, itemCounts, i)
    {
      GroupStep(allItems, itemCounts, i);
      var item := allItems[i];
      if Single(itemCounts, item.name) {
        continue;
      }
      if Inherited(item.name) {
        ThrowsHere(allItems, itemCounts, i);
        return Failure(PushNotAFunction(item.name));
      }
      var itemList := if item.name in candidates then candidates[item.name] else [];
      if item.name !in candidates {
        names := names + [item.name];
      }
      candidates := candidates[item.name := itemList + [item]];
    }
    NoThrowAtAll(allItems, itemCounts);
    r := Success((candidates, names));
  }

  /** The grouping loop does not throw at any item before `i`. */
  predicate NoThrowBefore(xs: seq<FlatItem>, counts: map<string, nat>, i: int) {
    forall j :: 0 <= j < i ==> !PushThrowsAt(xs, counts, j)
  }

  /** One more item extends the grouping as the loop body does. */
  lemma GroupStep(xs: seq<FlatItem>, counts: map<string, nat>, i: nat)
    requires i < |xs|
    ensures GroupOf(xs[..i + 1], counts) ==
      (var m, item := GroupOf(xs[..i], counts), xs[i];
       if Single(counts, item.name) then m
       else m[item.name := (if item.name in m then m[item.name] else []) + [item]])
    ensures KeyOrder(xs[..i + 1], counts) ==
      (var item := xs[i];
       if Single(counts, item.name) || item.name in GroupOf(xs[..i], counts) then KeyOrder(xs[..i], counts)
       else KeyOrder(xs[..i], counts) + [item.name])
  {
    assert xs[..i + 1][..i] == xs[..i];
  }

  /** The first item at which the loop can throw is where it throws. */
  lemma ThrowsHere(xs: seq<FlatItem>, counts: map<string, nat>, i: nat)
    requires NoThrowBefore(xs, counts, i) && PushThrowsAt(xs, counts, i)
    ensures GroupThrows(xs, counts) && FirstThrowing(xs, counts) == i
  {
    var k := FirstThrowing(xs, counts);
    assert !(k < i);
    assert !(i < k);
  }

  /** A loop that threw at no item does not throw. */
  lemma NoThrowAtAll(xs: seq<FlatItem>, counts: map<string, nat>)
    requires NoThrowBefore(xs, counts, |xs|)
    ensures !GroupThrows(xs, counts)
    ensures xs[..|xs|] == xs
  {
  }

  /** The names that are candidates for a duplicate, in `Object.entries`
      order: those of at least two items. */
  function CandidateNames(all: seq<FlatItem>): seq<string> {
    KeyOrder(all, CountsOf(all))
  }

  /** A name is a candidate when two or more items have it, or when it is
      inherited and some item has it (its count is never a number). */
  lemma CandidateNamesLaw(all: seq<FlatItem>, name: string)
    ensures name in CandidateNames(all) <==> Count(all, name) >= 2 || (Count(all, name) >= 1 && Inherited(name))
    ensures name in GroupOf(all, CountsOf(all)) <==> Count(all, name) >= 2 || (Count(all, name) >= 1 && Inherited(name))
    ensures name in GroupOf(all, CountsOf(all)) ==> GroupOf(all, CountsOf(all))[name] == ItemsNamed(all, name)
    ensures Distinct(CandidateNames(all))
  {
    GroupOfLaw(all, CountsOf(all), name);
    CountsOfLaw(all, name);
    KeyOrderDistinct(all, CountsOf(all));
  }

  // ---------------------------------------------------------------------
  // The tags and nights tried for one name

  /** `itemTags`: the union, item after item, of the tags of the items'
      own expressions. */
  function ItemTagUnion(items: seq<FlatItem>): seq<string>
    decreases |items|
  {
    if items == [] then []
    else Dedup(ItemTagUnion(items[..|items| - 1]) + CollectTagsFromExpr(items[|items| - 1].tags))
  }

  /** `catTags`: the same for the expressions of their categories. */
  function CatTagUnion(items: seq<FlatItem>): seq<string>
    decreases |items|
  {
    if items == [] then []
    else Dedup(CatTagUnion(items[..|items| - 1]) + CollectTagsFromExpr(items[|items| - 1].catTags))
  }

  /** `tagSet`, the tags whose combinations are tried. */
  function TagSetOf(items: seq<FlatItem>): seq<string> {
    Dedup(ItemTagUnion(items) + CatTagUnion(items))
  }

  /** The bounds of the ranges in the items' own expressions, item after
      item. */
  function ItemBoundList(items: seq<FlatItem>): seq<int>
    decreases |items|
  {
    if items == [] then []
    else ItemBoundList(items[..|items| - 1]) + GetAllNightBoundsInExpr(items[|items| - 1].tags)
  }

  function CatBoundList(items: seq<FlatItem>): seq<int>
    decreases |items|
  {
    if items == [] then []
    else CatBoundList(items[..|items| - 1]) + GetAllNightBoundsInExpr(items[|items| - 1].catTags)
  }

  /** `nightBounds`, the nights values that are tried: the bounds of the
      items' expressions, then of their categories', each once. */
  function BoundsOf(items: seq<FlatItem>): seq<int> {
    Dedup(Dedup(ItemBoundList(items)) + Dedup(CatBoundList(items)))
  }

  /** Some item of `items`, or its category, names tag `t`. */
  predicate TagOfItems(items: seq<FlatItem>, t: string) {
    exists k :: 0 <= k < |items| && (Mentions(items[k].tags, t) || Mentions(items[k].catTags, t))
  }

  /** `n` bounds a range of some item of `items` or of its category. */
  predicate BoundOfItems(items: seq<FlatItem>, n: int) {
    exists k :: 0 <= k < |items| &&
      (n in GetAllNightBoundsInExpr(items[k].tags) || n in GetAllNightBoundsInExpr(items[k].catTags))
  }

  lemma {:induction false} ItemTagUnionHas(items: seq<FlatItem>, t: string, k: nat)
    requires k < |items| && Mentions(items[k].tags, t)
    ensures t in ItemTagUnion(items)
    decreases |items|
  {
    var init := items[..|items| - 1];
    if k < |init| {
      assert init[k] == items[k];
      ItemTagUnionHas(init, t, k);
    }
  }

  lemma {:induction false} ItemTagUnionFrom(items: seq<FlatItem>, t: string) returns (k: nat)
    requires t in ItemTagUnion(items)
    ensures k < |items| && Mentions(items[k].tags, t)
    decreases |items|
  {
    var init := items[..|items| - 1];
    if Mentions(items[|items| - 1].tags, t) {
      k := |items| - 1;
    } else {
      k := ItemTagUnionFrom(init, t);
      assert init[k] == items[k];
    }
  }

  lemma {:induction false} CatTagUnionHas(items: seq<FlatItem>, t: string, k: nat)
    requires k < |items| && Mentions(items[k].catTags, t)
    ensures t in CatTagUnion(items)
    decreases |items|
  {
    var init := items[..|items| - 1];
    if k < |init| {
      assert init[k] == items[k];
      CatTagUnionHas(init, t, k);
    }
  }

  lemma {:induction false} CatTagUnionFrom(items: seq<FlatItem>, t: string) returns (k: nat)
    requires t in CatTagUnion(items)
    ensures k < |items| && Mentions(items[k].catTags, t)
    decreases |items|
  {
    var init := items[..|items| - 1];
    if Mentions(items[|items| - 1].catTags, t) {
      k := |items| - 1;
    } else {
      k := CatTagUnionFrom(init, t);
      assert init[k] == items[k];
    }
  }

  lemma {:induction false} ItemBoundListHas(items: seq<FlatItem>, n: int, k: nat)
    requires k < |items| && n in GetAllNightBoundsInExpr(items[k].tags)
    ensures n in ItemBoundList(items)
    decreases |items|
  {
    var init := items[..|items| - 1];
    if k < |init| {
      assert init[k] == items[k];
      ItemBoundListHas(init, n, k);
    }
  }

  lemma {:induction false} ItemBoundListFrom(items: seq<FlatItem>, n: int) returns (k: nat)
    requires n in ItemBoundList(items)
    ensures k < |items| && n in GetAllNightBoundsInExpr(items[k].tags)
    decreases |items|
  {
    var init := items[..|items| - 1];
    if n in GetAllNightBoundsInExpr(items[|items| - 1].tags) {
      k := |items| - 1;
    } else {
      k := ItemBoundListFrom(init, n);
      assert init[k] == items[k];
    }
  }

  lemma {:induction false} CatBoundListHas(items: seq<FlatItem>, n: int, k: nat)
    requires k < |items| && n in GetAllNightBoundsInExpr(items[k].catTags)
    ensures n in CatBoundList(items)
    decreases |items|
  {
    var init := items[..|items| - 1];
    if k < |init| {
      assert init[k] == items[k];
      CatBoundListHas(init, n, k);
    }
  }

  lemma {:induction false} CatBoundListFrom(items: seq<FlatItem>, n: int) returns (k: nat)
    requires n in CatBoundList(items)
    ensures k < |items| && n in GetAllNightBoundsInExpr(items[k].catTags)
    decreases |items|
  {
    var init := items[..|items| - 1];
    if n in GetAllNightBoundsInExpr(items[|items| - 1].catTags) {
      k := |items| - 1;
    } else {
      k := CatBoundListFrom(init, n);
      assert init[k] == items[k];
    }
  }

  /** The tags tried are exactly those the items and their categories
      name, and the nights tried exactly the bounds of their ranges. */
  lemma TriedValues(items: seq<FlatItem>, t: string, n: int)
    ensures t in TagSetOf(items) <==> TagOfItems(items, t)
    ensures n in BoundsOf(items) <==> BoundOfItems(items, n)
  {
    if t in ItemTagUnion(items) {
      var k := ItemTagUnionFrom(items, t);
    }
    if t in CatTagUnion(items) {
      var k := CatTagUnionFrom(items, t);
    }
    if TagOfItems(items, t) {
      var k :| 0 <= k < |items| && (Mentions(items[k].tags, t) || Mentions(items[k].catTags, t));
      if Mentions(items[k].tags, t) {
        ItemTagUnionHas(items, t, k);
      } else {
        CatTagUnionHas(items, t, k);
      }
    }
    if n in ItemBoundList(items) {
      var k := ItemBoundListFrom(items, n);
    }
    if n in CatBoundList(items) {
      var k := CatBoundListFrom(items, n);
    }
    if BoundOfItems(items, n) {
      var k :| 0 <= k < |items| &&
        (n in GetAllNightBoundsInExpr(items[k].tags) || n in GetAllNightBoundsInExpr(items[k].catTags));
      if n in GetAllNightBoundsInExpr(items[k].tags) {
        ItemBoundListHas(items, n, k);
      } else {
        CatBoundListHas(items, n, k);
      }
    }
  }

  // ---------------------------------------------------------------------
  // Looking for a collision

  /** `itemMatches`: the items that match, by their own expression and by
      their category's. */
  function Matching(items: seq<FlatItem>, f: Filter): (r: seq<FlatItem>)
    ensures |r| <= |items|
    decreases |items|
  {
    if items == [] then []
    else
      var init := Matching(items[..|items| - 1], f);
      var item := items[|items| - 1];
      if ExprIsMatch(f, item.tags).isMatch && ExprIsMatch(f, item.catTags).isMatch then init + [item] else init
  }

  /** With the tags of `comb` active and `nights` nights, more than one of
      `items` matches. */
  predicate Collision(items: seq<FlatItem>, comb: seq<string>, nights: int) {
    |Matching(items, Filter(Elems(comb), nights))| > 1
  }

  /** One round of the loop over the tried pairs: on a collision, the entry
      for the name is made if there is none, and its nights range widened
      to the pair's nights. */
  function Step(name: string, items: seq<FlatItem>, acc: Option<Dup>, p: (seq<string>, int)): Option<Dup> {
    if !Collision(items, p.0, p.1) then acc
    else
      var d := if acc.Some? then acc.value else Dup(name, p.0, p.1, p.1);
      var lo := if p.1 < d.nightsLo then p.1 else d.nightsLo;
      var hi := if p.1 > d.nightsHi then p.1 else d.nightsHi;
      Some(d.(nightsLo := lo, nightsHi := hi))
  }

  /** The entry for the name after the pairs `pairs`, starting from `acc`. */
  function FoldDup(name: string, items: seq<FlatItem>, acc: Option<Dup>, pairs: seq<(seq<string>, int)>): Option<Dup>
    decreases |pairs|
  {
    if pairs == [] then acc
    else Step(name, items, FoldDup(name, items, acc, pairs[..|pairs| - 1]), pairs[|pairs| - 1])
  }

  /** The `duplicateItems` entry `getBLTWarnings` makes for a name whose
      candidates are `items`, if any. */
  function DupFor(name: string, items: seq<FlatItem>): Option<Dup> {
    FoldDup(name, items, None, Product(Combinations(TagSetOf(items)), BoundsOf(items)))
  }

  /** The loop over the tried pairs for one name, which makes and widens
      the name's `duplicateItems` entry on every collision. */
  method TryPairs(name: string, items: seq<FlatItem>, pairs: seq<(seq<string>, int)>) returns (dup: Option<Dup>)
    ensures dup == FoldDup(name, items, None, pairs)
  {
    dup := None;
    for p := 0 to |pairs|
      invariant dup == FoldDup(name, items, None, pairs[..p])
    {
      assert pairs[..p + 1][..p] == pairs[..p];
      var tagComb, nights := pairs[p].0, pairs[p].1;
      var filter := Filter(Elems(tagComb), nights);
      var itemMatches := Matching(items, filter);
      if |itemMatches| > 1 {
        var d := if dup.Some? then dup.value else Dup(name, tagComb, nights, nights);
        if nights < d.nightsLo {
          d := d.(nightsLo := nights);
        }
        if nights > d.nightsHi {
          d := d.(nightsHi := nights);
        }
        dup := Some(d);
      }
    }
    assert pairs[..|pairs|] == pairs;
  }

  /** The body of the loop over `Object.entries(itemDuplicateCandidates)`
      for one name: the tags and nights to try, then the loop over their
      product. */
  method FindDuplicate(name: string, items: seq<FlatItem>) returns (dup: Option<Dup>)
    ensures dup == DupFor(name, items)
  {
    var itemTags := ItemTagUnion(items);
    var catTags := CatTagUnion(items);
    var tagSet := Dedup(itemTags + catTags);
    var tagCombs := Combinations(tagSet);
    var itemNightBounds := Dedup(ItemBoundList(items));
    var catNightBounds := Dedup(CatBoundList(items));
    var nightBounds := Dedup(itemNightBounds + catNightBounds);
    var pairs := ProductLoop(tagCombs, nightBounds);
    dup := TryPairs(name, items, pairs);
  }

  // ---------------------------------------------------------------------
  // What the loop over the pairs finds

  /** The loop keeps an entry it was given: same name and tags, a nights
      range that only widens. */
  lemma {:induction false} FoldDupKeeps(name: string, items: seq<FlatItem>, acc: Option<Dup>,
                                        pairs: seq<(seq<string>, int)>)
    requires acc.Some?
    ensures var r := FoldDup(name, items, acc, pairs);
      r.Some? && r.value.item == acc.value.item && r.value.tags == acc.value.tags &&
      r.value.nightsLo <= acc.value.nightsLo && acc.value.nightsHi <= r.value.nightsHi
    decreases |pairs|
  {
    if pairs != [] {
      FoldDupKeeps(name, items, acc, pairs[..|pairs| - 1]);
    }
  }

  /** Any collision among the pairs makes an entry. */
  lemma {:induction false} FoldDupFindsCollision(name: string, items: seq<FlatItem>, acc: Option<Dup>,
                                                 pairs: seq<(seq<string>, int)>, k: nat)
    requires k < |pairs| && Collision(items, pairs[k].0, pairs[k].1)
    ensures FoldDup(name, items, acc, pairs).Some?
    decreases |pairs|
  {
    var init := pairs[..|pairs| - 1];
    if k < |init| {
      assert init[k] == pairs[k];
      FoldDupFindsCollision(name, items, acc, init, k);
      FoldDupKeeps(name, items, FoldDup(name, items, acc, init), [pairs[|pairs| - 1]]);
      assert [pairs[|pairs| - 1]][..0] == [];
    }
  }

  /** An entry the loop makes itself carries the name and the tags of the
      first colliding pair. */
  lemma {:induction false} FoldDupFirst(name: string, items: seq<FlatItem>, pairs: seq<(seq<string>, int)>)
      returns (k: nat)
    requires FoldDup(name, items, None, pairs).Some?
    ensures k < |pairs| && Collision(items, pairs[k].0, pairs[k].1)
    ensures FoldDup(name, items, None, pairs).value.item == name
    ensures FoldDup(name, items, None, pairs).value.tags == pairs[k].0
    ensures forall j :: 0 <= j < k ==> !Collision(items, pairs[j].0, pairs[j].1)
    decreases |pairs|
  {
    var init := pairs[..|pairs| - 1];
    var before := FoldDup(name, items, None, init);
    if before.Some? {
      k := FoldDupFirst(name, items, init);
      assert init[k] == pairs[k];
      assert forall j :: 0 <= j < k ==> init[j] == pairs[j];
    } else {
      k := |pairs| - 1;
      forall j | 0 <= j < k ensures !Collision(items, pairs[j].0, pairs[j].1) {
        assert init[j] == pairs[j];
        if Collision(items, pairs[j].0, pairs[j].1) {
          FoldDupFindsCollision(name, items, None, init, j);
        }
      }
    }
  }

  /** Every colliding pair's nights lie in the entry's range. */
  lemma {:induction false} FoldDupCovers(name: string, items: seq<FlatItem>, acc: Option<Dup>,
                                         pairs: seq<(seq<string>, int)>, k: nat)
    requires k < |pairs| && Collision(items, pairs[k].0, pairs[k].1)
    ensures FoldDup(name, items, acc, pairs).Some?
    ensures FoldDup(name, items, acc, pairs).value.nightsLo <= pairs[k].1 <= FoldDup(name, items, acc, pairs).value.nightsHi
    decreases |pairs|
  {
    var init := pairs[..|pairs| - 1];
    if k < |init| {
      assert init[k] == pairs[k];
      FoldDupCovers(name, items, acc, init, k);
    }
  }

  /** The ends of the entry's range are nights of colliding pairs, unless
      they come from the entry the loop was given. */
  lemma {:induction false} FoldDupAttained(name: string, items: seq<FlatItem>, acc: Option<Dup>,
                                           pairs: seq<(seq<string>, int)>)
      returns (fromAccLo: bool, kLo: nat, fromAccHi: bool, kHi: nat)
    requires FoldDup(name, items, acc, pairs).Some?
    ensures var r := FoldDup(name, items, acc, pairs).value;
      if fromAccLo then acc.Some? && r.nightsLo == acc.value.nightsLo
      else kLo < |pairs| && Collision(items, pairs[kLo].0, pairs[kLo].1) && pairs[kLo].1 == r.nightsLo
    ensures var r := FoldDup(name, items, acc, pairs).value;
      if fromAccHi then acc.Some? && r.nightsHi == acc.value.nightsHi
      else kHi < |pairs| && Collision(items, pairs[kHi].0, pairs[kHi].1) && pairs[kHi].1 == r.nightsHi
    decreases |pairs|
  {
    if pairs == [] {
      fromAccLo, kLo, fromAccHi, kHi := true, 0, true, 0;
    } else {
      var init := pairs[..|pairs| - 1];
      var last := pairs[|pairs| - 1];
      var before := FoldDup(name, items, acc, init);
      var r := FoldDup(name, items, acc, pairs).value;
      if before.Some? {
        fromAccLo, kLo, fromAccHi, kHi := FoldDupAttained(name, items, acc, init);
        if !fromAccLo {
          assert init[kLo] == pairs[kLo];
        }
        if !fromAccHi {
          assert init[kHi] == pairs[kHi];
        }
      } else {
        fromAccLo, fromAccHi := false, false;
      }
      if Collision(items, last.0, last.1) {
        if last.1 == r.nightsLo {
          fromAccLo, kLo := false, |pairs| - 1;
        }
        if last.1 == r.nightsHi {
          fromAccHi, kHi := false, |pairs| - 1;
        }
      }
    }
  }

  lemma {:induction false} FoldDupConcat(name: string, items: seq<FlatItem>, acc: Option<Dup>,
                                         p1: seq<(seq<string>, int)>, p2: seq<(seq<string>, int)>)
    ensures FoldDup(name, items, acc, p1 + p2) == FoldDup(name, items, FoldDup(name, items, acc, p1), p2)
    decreases |p2|
  {
    if p2 == [] {
      assert p1 + p2 == p1;
    } else {
      FoldDupConcat(name, items, acc, p1, p2[..|p2| - 1]);
      assert (p1 + p2)[..|p1 + p2| - 1] == p1 + p2[..|p2| - 1];
    }
  }

  /** Tag combination `comb` collides at one of the nights `bounds`. */
  predicate CombCollides(items: seq<FlatItem>, comb: seq<string>, bounds: seq<int>) {
    exists n :: n in bounds && Collision(items, comb, n)
  }

  /** Over a product, the loop makes an entry exactly when some tag
      combination collides at some of the nights. */
  lemma FoldProductSome(name: string, items: seq<FlatItem>, combs: seq<seq<string>>, bounds: seq<int>)
    ensures FoldDup(name, items, None, Product(combs, bounds)).Some? <==>
      exists c, n :: c in combs && n in bounds && Collision(items, c, n)
  {
    var pairs := Product(combs, bounds);
    if FoldDup(name, items, None, pairs).Some? {
      var k := FoldDupFirst(name, items, pairs);
      ProductMembers(combs, bounds, pairs[k]);
    }
    if exists c, n :: c in combs && n in bounds && Collision(items, c, n) {
      var c, n :| c in combs && n in bounds && Collision(items, c, n);
      ProductMembers(combs, bounds, (c, n));
      var k :| 0 <= k < |pairs| && pairs[k] == (c, n);
      FoldDupFindsCollision(name, items, None, pairs, k);
    }
  }

  /** Over a product, the entry's range runs from the least to the
      greatest nights at which some tag combination collides. */
  lemma FoldProductRange(name: string, items: seq<FlatItem>, combs: seq<seq<string>>, bounds: seq<int>)
    requires FoldDup(name, items, None, Product(combs, bounds)).Some?
    ensures var d := FoldDup(name, items, None, Product(combs, bounds)).value;
      d.nightsLo <= d.nightsHi && d.nightsLo in bounds && d.nightsHi in bounds
    ensures var d := FoldDup(name, items, None, Product(combs, bounds)).value;
      (exists c :: c in combs && Collision(items, c, d.nightsLo)) &&
      (exists c :: c in combs && Collision(items, c, d.nightsHi))
    ensures var d := FoldDup(name, items, None, Product(combs, bounds)).value;
      forall c, n :: c in combs && n in bounds && Collision(items, c, n) ==> d.nightsLo <= n <= d.nightsHi
  {
    var pairs := Product(combs, bounds);
    var d := FoldDup(name, items, None, pairs).value;
    var fromLo, kLo, fromHi, kHi := FoldDupAttained(name, items, None, pairs);
    ProductMembers(combs, bounds, pairs[kLo]);
    ProductMembers(combs, bounds, pairs[kHi]);
    FoldDupCovers(name, items, None, pairs, kLo);
    forall c, n | c in combs && n in bounds && Collision(items, c, n) ensures d.nightsLo <= n <= d.nightsHi {
      ProductMembers(combs, bounds, (c, n));
      var k :| 0 <= k < |pairs| && pairs[k] == (c, n);
      FoldDupCovers(name, items, None, pairs, k);
    }
  }

  /** Over a product, the entry's tags are the first tag combination that
      collides at any of the nights. */
  lemma {:induction false} FoldProductTags(name: string, items: seq<FlatItem>, combs: seq<seq<string>>, bounds: seq<int>)
      returns (i: nat)
    requires FoldDup(name, items, None, Product(combs, bounds)).Some?
    ensures i < |combs| && FoldDup(name, items, None, Product(combs, bounds)).value.tags == combs[i]
    ensures CombCollides(items, combs[i], bounds)
    ensures forall j :: 0 <= j < i ==> !CombCollides(items, combs[j], bounds)
    decreases |combs|
  {
    var init := combs[..|combs| - 1];
    var last := combs[|combs| - 1];
    var tail := Pairs(last, bounds);
    var before := FoldDup(name, items, None, Product(init, bounds));
    FoldDupConcat(name, items, None, Product(init, bounds), tail);
    if before.Some? {
      i := FoldProductTags(name, items, init, bounds);
      FoldDupKeeps(name, items, before, tail);
      assert init[i] == combs[i];
      forall j | 0 <= j < i ensures !CombCollides(items, combs[j], bounds) {
        assert combs[j] == init[j];
      }
    } else {
      i := LastCombFirst(name, items, combs, bounds);
    }
  }

  /** When no earlier combination collides, the last one makes the entry. */
  lemma LastCombFirst(name: string, items: seq<FlatItem>, combs: seq<seq<string>>, bounds: seq<int>)
      returns (i: nat)
    requires combs != []
    requires FoldDup(name, items, None, Product(combs[..|combs| - 1], bounds)).None?
    requires FoldDup(name, items, None, Product(combs, bounds)).Some?
    ensures i < |combs| && FoldDup(name, items, None, Product(combs, bounds)).value.tags == combs[i]
    ensures CombCollides(items, combs[i], bounds)
    ensures forall j :: 0 <= j < i ==> !CombCollides(items, combs[j], bounds)
  {
    i := |combs| - 1;
    FoldAfterNone(name, items, combs, bounds);
    LastCollides(name, items, combs[i], bounds);
    NoEarlierComb(name, items, combs, bounds);
  }

  lemma FoldAfterNone(name: string, items: seq<FlatItem>, combs: seq<seq<string>>, bounds: seq<int>)
    requires combs != []
    requires FoldDup(name, items, None, Product(combs[..|combs| - 1], bounds)).None?
    ensures FoldDup(name, items, None, Product(combs, bounds)) ==
      FoldDup(name, items, None, Pairs(combs[|combs| - 1], bounds))
  {
    var init := combs[..|combs| - 1];
    var tail := Pairs(combs[|combs| - 1], bounds);
    assert Product(combs, bounds) == Product(init, bounds) + tail;
    FoldDupConcat(name, items, None, Product(init, bounds), tail);
  }

  lemma LastCollides(name: string, items: seq<FlatItem>, last: seq<string>, bounds: seq<int>)
    requires FoldDup(name, items, None, Pairs(last, bounds)).Some?
    ensures FoldDup(name, items, None, Pairs(last, bounds)).value.tags == last
    ensures CombCollides(items, last, bounds)
  {
    var tail := Pairs(last, bounds);
    var k := FoldDupFirst(name, items, tail);
    PairsMembers(last, bounds, tail[k]);
    assert tail[k] in tail;
    var n := tail[k].1;
    assert n in bounds && Collision(items, last, n);
  }

  lemma NoEarlierComb(name: string, items: seq<FlatItem>, combs: seq<seq<string>>, bounds: seq<int>)
    requires combs != []
    requires FoldDup(name, items, None, Product(combs[..|combs| - 1], bounds)).None?
    ensures forall j :: 0 <= j < |combs| - 1 ==> !CombCollides(items, combs[j], bounds)
  {
    var init := combs[..|combs| - 1];
    FoldProductSome(name, items, init, bounds);
    forall j | 0 <= j < |combs| - 1 ensures !CombCollides(items, combs[j], bounds) {
      assert combs[j] == init[j];
      assert combs[j] in init;
    }
  }

  // ---------------------------------------------------------------------
  // The whole check

  /** The `duplicateItems` entry of a name of the template. */
  function DupOf(all: seq<FlatItem>, name: string): Option<Dup> {
    DupFor(name, ItemsNamed(all, name))
  }

  function WarningOf(d: Dup): BLTWarning {
    DuplicateItem(d.item, d.tags, d.nightsLo, d.nightsHi)
  }

  /** The warnings for the candidate names `names`, in their order. */
  function WarningsFor(all: seq<FlatItem>, names: seq<string>): seq<BLTWarning>
    decreases |names|
  {
    if names == [] then []
    else
      var last := names[|names| - 1];
      WarningsFor(all, names[..|names| - 1]) +
        (if DupOf(all, last).Some? then [WarningOf(DupOf(all, last).value)] else [])
  }

  /** The warnings `getBLTWarnings` returns when it does not throw: one
      `DuplicateItem` warning per name, in the order the names were first
      met, for every name whose entry was made. */
  function DuplicateWarnings(bl: BringList): seq<BLTWarning> {
    var all := AllItems(bl);
    WarningsFor(all, CandidateNames(all))
  }

  /** `getBLTWarnings`: the TypeError it throws at the first item named
      after an inherited member, or its warnings. */
  function GetBLTWarnings(bl: BringList): Result<seq<BLTWarning>, Thrown> {
    var all := AllItems(bl);
    var counts := CountsOf(all);
    if GroupThrows(all, counts) then Failure(PushNotAFunction(all[FirstThrowing(all, counts)].name))
    else Success(DuplicateWarnings(bl))
  }

  /** `getBLTWarnings` throws exactly when some item of the template is
      named after a member of `Object.prototype`, and names the first such
      item; otherwise it returns the duplicate warnings. */
  lemma ThrowsOnInheritedName(bl: BringList)
    ensures GetBLTWarnings(bl).Failure? <==>
      exists i :: 0 <= i < |AllItems(bl)| && Inherited(AllItems(bl)[i].name)
    ensures GetBLTWarnings(bl).Failure? ==>
      var all := AllItems(bl); var name := GetBLTWarnings(bl).error.name;
      Inherited(name) &&
      exists i :: 0 <= i < |all| && all[i].name == name && (forall j :: 0 <= j < i ==> !Inherited(all[j].name))
    ensures GetBLTWarnings(bl).Success? ==> GetBLTWarnings(bl).value == DuplicateWarnings(bl)
  {
    var all := AllItems(bl);
    var counts := CountsOf(all);
    forall i | 0 <= i < |all| && Inherited(all[i].name) ensures PushThrowsAt(all, counts, i) {
      CountsOfLaw(all, all[i].name);
    }
    if GroupThrows(all, counts) {
      var i := FirstThrowing(all, counts);
      assert GetBLTWarnings(bl).Failure?;
      assert 0 <= i < |AllItems(bl)| && Inherited(AllItems(bl)[i].name);
      forall j | 0 <= j < i ensures !Inherited(all[j].name) {
        assert !PushThrowsAt(all, counts, j);
      }
      assert all[i].name == GetBLTWarnings(bl).error.name;
    } else {
      assert GetBLTWarnings(bl).Success?;
    }
  }

  /** A template with one item called `constructor` throws instead of
      returning its (empty) list of warnings. */
  lemma ConstructorItemThrows()
    ensures var bl := [BringListCategory("c", Empty, [Item("constructor", None, Empty)])];
      GetBLTWarnings(bl) == Failure(PushNotAFunction("constructor"))
  {
    var bl := [BringListCategory("c", Empty, [Item("constructor", None, Empty)])];
    OneItemTemplate(bl, "c", "constructor");
    assert Inherited("constructor");
    ThrowsOnInheritedName(bl);
  }

  lemma OneItemTemplate(bl: BringList, cat: string, name: string)
    requires bl == [BringListCategory(cat, Empty, [Item(name, None, Empty)])]
    ensures AllItems(bl) == [FlatItem(cat, Empty, name, None, Empty)]
  {
    assert FlattenCategory(bl[0], bl[0].items) == [FlatItem(cat, Empty, name, None, Empty)];
    assert AllItems(bl[1..]) == [];
  }

  /** When `getBLTWarnings` does not throw, no name of the template is
      inherited, so the candidates are the names of two or more items. */
  lemma NoInheritedWhenSucceeds(bl: BringList, name: string)
    requires GetBLTWarnings(bl).Success? && Count(AllItems(bl), name) > 0
    ensures !Inherited(name)
    ensures name in CandidateNames(AllItems(bl)) <==> Count(AllItems(bl), name) >= 2
  {
    var all := AllItems(bl);
    var i := CountWitness(all, name);
    ThrowsOnInheritedName(bl);
    CandidateNamesLaw(all, name);
  }

  /** `Object.values(duplicateItems)` mapped to warnings, with the keys in
      insertion order. */
  function Collate(duplicateItems: map<string, Dup>, keys: seq<string>): seq<BLTWarning>
    requires forall n :: n in keys ==> n in duplicateItems
    decreases |keys|
  {
    if keys == [] then []
    else Collate(duplicateItems, keys[..|keys| - 1]) + [WarningOf(duplicateItems[keys[|keys| - 1]])]
  }

  lemma {:induction false} CollateIgnoresOtherKeys(duplicateItems: map<string, Dup>, keys: seq<string>, name: string, d: Dup)
    requires forall n :: n in keys ==> n in duplicateItems
    requires name !in keys
    ensures Collate(duplicateItems[name := d], keys) == Collate(duplicateItems, keys)
    decreases |keys|
  {
    if keys != [] {
      CollateIgnoresOtherKeys(duplicateItems, keys[..|keys| - 1], name, d);
    }
  }

  /** The loop over the candidate names, filling `duplicateItems`; the
      keys it adds, in order, are returned beside it. */
  method CheckCandidates(allItems: seq<FlatItem>, candidates: map<string, seq<FlatItem>>, names: seq<string>)
      returns (duplicateItems: map<string, Dup>, duplicateNames: seq<string>)
    requires Distinct(names)
    requires forall n :: n in names ==> n in candidates && candidates[n] == ItemsNamed(allItems, n)
    ensures forall n :: n in duplicateNames ==> n in duplicateItems
    ensures Collate(duplicateItems, duplicateNames) == WarningsFor(allItems, names)
  {
    duplicateItems := map[];
    duplicateNames := [];
    for k := 0 to |names|
      invariant KeysAmong(duplicateItems, duplicateNames, names[..k])
      invariant Collate(duplicateItems, duplicateNames) == WarningsFor(allItems, names[..k])
    {
      var name := names[k];
      assert candidates[name] == ItemsNamed(allItems, name);
      var dup := FindDuplicate(name, candidates[name]);
      if dup.Some? {
        CheckStepFound(allItems, names, k, duplicateItems, duplicateNames, dup.value);
        duplicateItems := duplicateItems[name := dup.value];
        duplicateNames := duplicateNames + [name];
      } else {
        CheckStepNone(allItems, names, k, duplicateItems, duplicateNames);
      }
    }
    assert names[..|names|] == names;
  }

  /** Every collated key has an entry and is one of the names checked so far. */
  predicate KeysAmong(duplicateItems: map<string, Dup>, keys: seq<string>, seen: seq<string>) {
    forall n :: n in keys ==> n in duplicateItems && n in seen
  }

  /** A name with an entry adds its warning at the end. */
  lemma CheckStepFound(all: seq<FlatItem>, names: seq<string>, k: nat,
                       duplicateItems: map<string, Dup>, keys: seq<string>, d: Dup)
    requires Distinct(names) && k < |names| && DupOf(all, names[k]) == Some(d)
    requires KeysAmong(duplicateItems, keys, names[..k])
    requires Collate(duplicateItems, keys) == WarningsFor(all, names[..k])
    ensures KeysAmong(duplicateItems[names[k] := d], keys + [names[k]], names[..k + 1])
    ensures Collate(duplicateItems[names[k] := d], keys + [names[k]]) == WarningsFor(all, names[..k + 1])
  {
    WarningsForStep(all, names, k);
    NextNameIsNew(names, k);
    CollateAppend(duplicateItems, keys, names[k], d);
  }

  /** A name without an entry adds nothing. */
  lemma CheckStepNone(all: seq<FlatItem>, names: seq<string>, k: nat,
                      duplicateItems: map<string, Dup>, keys: seq<string>)
    requires k < |names| && DupOf(all, names[k]).None?
    requires KeysAmong(duplicateItems, keys, names[..k])
    requires Collate(duplicateItems, keys) == WarningsFor(all, names[..k])
    ensures KeysAmong(duplicateItems, keys, names[..k + 1])
    ensures Collate(duplicateItems, keys) == WarningsFor(all, names[..k + 1])
  {
    WarningsForStep(all, names, k);
    assert names[..k + 1] == names[..k] + [names[k]];
  }

  lemma WarningsForStep(all: seq<FlatItem>, names: seq<string>, k: nat)
    requires k < |names|
    ensures WarningsFor(all, names[..k + 1]) == WarningsFor(all, names[..k]) +
      (if DupOf(all, names[k]).Some? then [WarningOf(DupOf(all, names[k]).value)] else [])
  {
    assert names[..k + 1][..k] == names[..k];
  }

  lemma NextNameIsNew(names: seq<string>, k: nat)
    requires Distinct(names) && k < |names|
    ensures names[k] !in names[..k]
    ensures forall n :: n in names[..k + 1] <==> n in names[..k] || n == names[k]
  {
    assert names[..k + 1] == names[..k] + [names[k]];
  }

  /** Adding the entry of a new key at the end adds its warning at the end. */
  lemma CollateAppend(duplicateItems: map<string, Dup>, keys: seq<string>, name: string, d: Dup)
    requires forall n :: n in keys ==> n in duplicateItems
    requires name !in keys
    ensures Collate(duplicateItems[name := d], keys + [name]) == Collate(duplicateItems, keys) + [WarningOf(d)]
  {
    CollateIgnoresOtherKeys(duplicateItems, keys, name, d);
    assert (keys + [name])[..|keys|] == keys;
  }

  /** The final loop over `Object.values(duplicateItems)`. */
  method CollateLoop(duplicateItems: map<string, Dup>, duplicateNames: seq<string>) returns (warnings: seq<BLTWarning>)
    requires forall n :: n in duplicateNames ==> n in duplicateItems
    ensures warnings == Collate(duplicateItems, duplicateNames)
  {
    warnings := [];
    for k := 0 to |duplicateNames|
      invariant warnings == Collate(duplicateItems, duplicateNames[..k])
    {
      assert duplicateNames[..k + 1][..k] == duplicateNames[..k];
      warnings := warnings + [WarningOf(duplicateItems[duplicateNames[k]])];
    }
    assert duplicateNames[..|duplicateNames|] == duplicateNames;
  }

  /** `getBLTWarnings`: count the names, group the candidates, look for a
      collision name by name, then collate the entries into warnings. */
  method GetBLTWarningsLoop(bl: BringList) returns (r: Result<seq<BLTWarning>, Thrown>)
    ensures r == GetBLTWarnings(bl)
  {
    var allItems := AllItems(bl);
    var itemCounts := CountItems(allItems);
    var grouped := GroupCandidates(allItems, itemCounts);
    if grouped.Failure? {
      return Failure(grouped.error);
    }
    var candidates, names := grouped.value.0, grouped.value.1;
    KeyOrderDistinct(allItems, itemCounts);
    forall n | n in names ensures n in candidates && candidates[n] == ItemsNamed(allItems, n) {
      CandidateNamesLaw(allItems, n);
    }
    var duplicateItems, duplicateNames := CheckCandidates(allItems, candidates, names);
    var warnings := CollateLoop(duplicateItems, duplicateNames);
    r := Success(warnings);
  }

  // ---------------------------------------------------------------------
  // What the check promises

  /** A name gets an entry exactly when, for some combination of the tags
      its items mention and some bound of their ranges, two or more of its
      items match. */
  lemma DupForSome(name: string, items: seq<FlatItem>)
    ensures DupFor(name, items).Some? <==>
      exists c, n :: c in Combinations(TagSetOf(items)) && n in BoundsOf(items) && Collision(items, c, n)
  {
    FoldProductSome(name, items, Combinations(TagSetOf(items)), BoundsOf(items));
  }

  /** An entry carries the name and the least and greatest bounds at which
      some combination collides. */
  lemma DupForEntry(name: string, items: seq<FlatItem>)
    requires DupFor(name, items).Some?
    ensures var d, combs, bounds := DupFor(name, items).value, Combinations(TagSetOf(items)), BoundsOf(items);
      d.item == name && d.nightsLo <= d.nightsHi && d.nightsLo in bounds && d.nightsHi in bounds &&
      (exists c :: c in combs && Collision(items, c, d.nightsLo)) &&
      (exists c :: c in combs && Collision(items, c, d.nightsHi))
  {
    var k := FoldDupFirst(name, items, Product(Combinations(TagSetOf(items)), BoundsOf(items)));
    FoldProductRange(name, items, Combinations(TagSetOf(items)), BoundsOf(items));
  }

  /** Every bound at which some combination collides lies within the
      entry's nights range. */
  lemma DupForCovers(name: string, items: seq<FlatItem>, c: seq<string>, n: int)
    requires DupFor(name, items).Some?
    requires c in Combinations(TagSetOf(items)) && n in BoundsOf(items) && Collision(items, c, n)
    ensures DupFor(name, items).value.nightsLo <= n <= DupFor(name, items).value.nightsHi
  {
    FoldProductRange(name, items, Combinations(TagSetOf(items)), BoundsOf(items));
  }

  /** The entry's tags are the first combination, in the order tried, that
      collides at some bound. */
  lemma DupForTags(name: string, items: seq<FlatItem>) returns (i: nat)
    requires DupFor(name, items).Some?
    ensures var combs, bounds := Combinations(TagSetOf(items)), BoundsOf(items);
      i < |combs| && DupFor(name, items).value.tags == combs[i] && CombCollides(items, combs[i], bounds) &&
      forall j :: 0 <= j < i ==> !CombCollides(items, combs[j], bounds)
  {
    i := FoldProductTags(name, items, Combinations(TagSetOf(items)), BoundsOf(items));
  }

  /** Items none of which, nor their categories, has a range never get an
      entry: no nights value is tried for them. */
  lemma NoRangeNoDuplicate(name: string, items: seq<FlatItem>)
    requires forall n :: !BoundOfItems(items, n)
    ensures DupFor(name, items).None?
  {
    DupForSome(name, items);
    if DupFor(name, items).Some? {
      var c, n :| c in Combinations(TagSetOf(items)) && n in BoundsOf(items) && Collision(items, c, n);
      TriedValues(items, "", n);
    }
  }

  /** `itemMatches` holds exactly the items that match both their own and
      their category's expression. */
  lemma {:induction false} MatchingLaw(items: seq<FlatItem>, f: Filter, x: FlatItem)
    ensures x in Matching(items, f) <==>
      x in items && ExprIsMatch(f, x.tags).isMatch && ExprIsMatch(f, x.catTags).isMatch
    decreases |items|
  {
    if items != [] {
      MatchingLaw(items[..|items| - 1], f, x);
      assert forall y :: y in items <==> y in items[..|items| - 1] || y == items[|items| - 1];
    }
  }

  lemma {:induction false} WarningsForMembers(all: seq<FlatItem>, names: seq<string>, w: BLTWarning)
    ensures w in WarningsFor(all, names) <==>
      exists name :: name in names && DupOf(all, name).Some? && w == WarningOf(DupOf(all, name).value)
    decreases |names|
  {
    if names != [] {
      WarningsForMembers(all, names[..|names| - 1], w);
      assert forall n :: n in names <==> n in names[..|names| - 1] || n == names[|names| - 1];
    }
  }

  lemma DupOfItem(all: seq<FlatItem>, name: string)
    requires DupOf(all, name).Some?
    ensures DupOf(all, name).value.item == name
  {
    DupForEntry(name, ItemsNamed(all, name));
  }

  /** Each warning is about one of the names. */
  lemma {:induction false} WarningsForAbout(all: seq<FlatItem>, names: seq<string>)
    ensures forall w :: w in WarningsFor(all, names) ==> w.DuplicateItem? && w.item in names
    decreases |names|
  {
    if names != [] {
      var init, last := names[..|names| - 1], names[|names| - 1];
      WarningsForAbout(all, init);
      if DupOf(all, last).Some? {
        DupOfItem(all, last);
      }
      assert forall n :: n in init ==> n in names;
    }
  }

  /** Every warning is about a duplicate item, and no two are about the
      same one. */
  predicate OnePerItem(ws: seq<BLTWarning>) {
    forall i, j :: 0 <= i < j < |ws| ==> ws[i].DuplicateItem? && ws[j].DuplicateItem? && ws[i].item != ws[j].item
  }

  /** Distinct names give warnings about distinct items. */
  lemma {:induction false} WarningsForDistinct(all: seq<FlatItem>, names: seq<string>)
    requires Distinct(names)
    ensures OnePerItem(WarningsFor(all, names))
    decreases |names|
  {
    if names != [] {
      var init, last := names[..|names| - 1], names[|names| - 1];
      var w0 := WarningsFor(all, init);
      var w := WarningsFor(all, names);
      assert Distinct(init);
      WarningsForDistinct(all, init);
      WarningsForAbout(all, init);
      if DupOf(all, last).Some? {
        DupOfItem(all, last);
        assert w == w0 + [WarningOf(DupOf(all, last).value)];
        forall i, j | 0 <= i < j < |w|
          ensures w[i].DuplicateItem? && w[j].DuplicateItem? && w[i].item != w[j].item
        {
          if j == |w0| {
            assert w[i] in w0;
            assert w[j].item == last;
            assert last !in init;
          } else {
            assert w[i] == w0[i] && w[j] == w0[j];
          }
        }
      } else {
        assert w == w0;
      }
    } else {
      assert WarningsFor(all, names) == [];
    }
  }

  /** Every warning is a duplicate item: a name shared by at least two
      items, its entry as the check made it, and a combination of their
      tags (a sub-sequence of the tags tried) under which two or more of
      those items match at one of the bounds tried. */
  lemma WarningIsDuplicate(bl: BringList, w: BLTWarning)
    requires GetBLTWarnings(bl).Success? && w in GetBLTWarnings(bl).value
    ensures w.DuplicateItem?
    ensures var all := AllItems(bl); var items := ItemsNamed(all, w.item);
      Count(all, w.item) >= 2 && DupOf(all, w.item) == Some(Dup(w.item, w.tags, w.nightsLo, w.nightsHi)) &&
      w.nightsLo <= w.nightsHi && w.tags in Combinations(TagSetOf(items)) &&
      exists n :: n in BoundsOf(items) && Collision(items, w.tags, n)
  {
    var all := AllItems(bl);
    ThrowsOnInheritedName(bl);
    WarningsForMembers(all, CandidateNames(all), w);
    var name :| name in CandidateNames(all) && DupOf(all, name).Some? && w == WarningOf(DupOf(all, name).value);
    var items := ItemsNamed(all, name);
    CandidateNamesLaw(all, name);
    NoInheritedWhenSucceeds(bl, name);
    DupOfItem(all, name);
    assert w.item == name;
    DupForEntry(name, items);
    var i := DupForTags(name, items);
    assert w.tags == Combinations(TagSetOf(items))[i];
  }

  /** At most one warning per name. */
  lemma OneWarningPerName(bl: BringList)
    ensures GetBLTWarnings(bl).Success? ==> OnePerItem(GetBLTWarnings(bl).value)
  {
    var all := AllItems(bl);
    ThrowsOnInheritedName(bl);
    CandidateNamesLaw(all, "");
    WarningsForDistinct(all, CandidateNames(all));
  }

  /** Every collision is reported: unless the check throws, a name shared
      by two or more items that collide under some combination of their
      tags at some bound gets a warning whose nights range covers that
      bound. */
  lemma CollisionIsReported(bl: BringList, name: string, c: seq<string>, n: int)
    requires var all := AllItems(bl); var items := ItemsNamed(all, name);
      Count(all, name) >= 2 && c in Combinations(TagSetOf(items)) && n in BoundsOf(items) && Collision(items, c, n)
    ensures GetBLTWarnings(bl).Failure? ||
      exists w :: w in GetBLTWarnings(bl).value && w.DuplicateItem? && w.item == name && w.nightsLo <= n <= w.nightsHi
  {
    var w := CollisionWarning(bl, name, c, n);
    assert GetBLTWarnings(bl).Success? ==> GetBLTWarnings(bl).value == DuplicateWarnings(bl);
  }

  /** The warning that reports a collision, among the duplicate warnings. */
  lemma CollisionWarning(bl: BringList, name: string, c: seq<string>, n: int) returns (w: BLTWarning)
    requires var all := AllItems(bl); var items := ItemsNamed(all, name);
      Count(all, name) >= 2 && c in Combinations(TagSetOf(items)) && n in BoundsOf(items) && Collision(items, c, n)
    ensures w in DuplicateWarnings(bl) && w.DuplicateItem? && w.item == name && w.nightsLo <= n <= w.nightsHi
  {
    var all := AllItems(bl);
    var items := ItemsNamed(all, name);
    CandidateNamesLaw(all, name);
    DupForSome(name, items);
    assert DupOf(all, name).Some?;
    DupOfItem(all, name);
    DupForCovers(name, items, c, n);
    w := WarningOf(DupOf(all, name).value);
    WarningsForMembers(all, CandidateNames(all), w);
  }

  /** A name none of whose items, nor their categories, has a range gets no
      warning, even when its items are otherwise identical. */
  lemma NoRangeNoWarning(bl: BringList, name: string)
    requires forall n :: !BoundOfItems(ItemsNamed(AllItems(bl), name), n)
    ensures GetBLTWarnings(bl).Success? ==>
      forall w :: w in GetBLTWarnings(bl).value ==> !(w.DuplicateItem? && w.item == name)
  {
    var all := AllItems(bl);
    NoRangeNoDuplicate(name, ItemsNamed(all, name));
    forall w | GetBLTWarnings(bl).Success? && w in GetBLTWarnings(bl).value
      ensures !(w.DuplicateItem? && w.item == name)
    {
      WarningIsDuplicate(bl, w);
    }
  }
}
