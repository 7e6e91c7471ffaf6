/** The application state of client/store.ts and its reducer: the bring
    list (template, active tags, checked items, nights, header) and the
    greeting fetched from the server. Each reducer case is a method that
    updates the store in place. */
module ClientStore {
  import opened Wrappers
  import opened StringSort

  /** The number of nights a fresh bring list starts with. */
  const StartingNights := 3

  /** `tags.push(x); tags.sort()` when `on`, `tags.filter(t => t !== x)`
      otherwise; the checked list is updated the same way. */
  function Switched(list: seq<string>, x: string, on: bool): (r: seq<string>)
    ensures on ==> Sorted(r) && multiset(r) == multiset(list) + multiset{x}
    ensures !on ==> multiset(r) == multiset(list)[x := 0]
    ensures x in r <==> on
  {
    if on then
      assert x in multiset(Sort(list + [x]));
      Sort(list + [x])
    else
      WithoutCounts(list, x);
      Without(list, x)
  }

  /** The lists stay sorted whatever is switched, so a list that starts
      sorted is sorted after any sequence of reducer calls. */
  lemma SwitchedKeepsSorted(list: seq<string>, x: string, on: bool)
    requires Sorted(list)
    ensures Sorted(Switched(list, x, on))
  {
    if !on {
      WithoutSorted(list, x);
    }
  }

  /** Switching on puts exactly one more copy in the list, wherever the
      sort places it. */
  lemma SwitchOnAddsOneCopy(list: seq<string>, x: string)
    ensures multiset(Switched(list, x, true))[x] == multiset(list)[x] + 1
    ensures |Switched(list, x, true)| == |list| + 1
  {
    var r := Switched(list, x, true);
    assert |r| == |multiset(r)| == |multiset(list)| + 1;
  }

  /** On a sorted list, switching on and then off is switching off; on a
      sorted list without the entry, it restores the list. */
  lemma SwitchOnThenOffSorted(list: seq<string>, x: string)
    requires Sorted(list)
    ensures Switched(Switched(list, x, true), x, false) == Switched(list, x, false)
    ensures x !in list ==> Switched(Switched(list, x, true), x, false) == list
  {
    AddThenRemove(list, x);
    WithoutSorted(list, x);
    SortOfSorted(Without(list, x));
    if x !in list {
      AddThenRemoveRestores(list, x);
    }
  }

  class Store {
    var bringListTemplate: string
    var tags: seq<string>
    var checked: seq<string>
    var nights: int
    var header: string
    var helloMessage: Option<string>

    /** Both lists are in sorted order. */
    predicate Valid()
      reads this
    {
      Sorted(tags) && Sorted(checked)
    }

    /** `startingState()`, with the default template as a parameter. */
    constructor(defaultTemplate: string)
      ensures bringListTemplate == defaultTemplate
      ensures tags == [] && checked == [] && nights == StartingNights && header == ""
      ensures helloMessage == None
      ensures Valid()
    {
      bringListTemplate := defaultTemplate;
      tags := [];
      checked := [];
      nights := StartingNights;
      header := "";
      helloMessage := None;
    }

    method SetBringListTemplate(template: string)
      modifies this
      ensures bringListTemplate == template
      ensures tags == old(tags) && checked == old(checked) && nights == old(nights)
      ensures header == old(header) && helloMessage == old(helloMessage)
    {
      bringListTemplate := template;
    }

    method SetTagEnabled(tag: string, enabled: bool)
      modifies this
      ensures tags == Switched(old(tags), tag, enabled)
      ensures enabled ==> Sorted(tags) && multiset(tags) == multiset(old(tags)) + multiset{tag}
      ensures !enabled ==> tags == Without(old(tags), tag)
      ensures old(Valid()) ==> Valid()
      ensures bringListTemplate == old(bringListTemplate) && checked == old(checked)
      ensures nights == old(nights) && header == old(header) && helloMessage == old(helloMessage)
    {
      if enabled {
        tags := tags + [tag];
        tags := Sort(tags);
      } else {
        tags := Without(tags, tag);
      }
      if old(Valid()) {
        SwitchedKeepsSorted(old(tags), tag, enabled);
      }
    }

    method SetChecked(item: string, isChecked: bool)
      modifies this
      ensures checked == Switched(old(checked), item, isChecked)
      ensures isChecked ==> Sorted(checked) && multiset(checked) == multiset(old(checked)) + multiset{item}
      ensures !isChecked ==> checked == Without(old(checked), item)
      ensures old(Valid()) ==> Valid()
      ensures bringListTemplate == old(bringListTemplate) && tags == old(tags)
      ensures nights == old(nights) && header == old(header) && helloMessage == old(helloMessage)
    {
      if isChecked {
        checked := checked + [item];
        checked := Sort(checked);
      } else {
        checked := Without(checked, item);
      }
      if old(Valid()) {
        SwitchedKeepsSorted(old(checked), item, isChecked);
      }
    }

    method SetNights(n: int)
      modifies this
      ensures nights == n
      ensures bringListTemplate == old(bringListTemplate) && tags == old(tags) && checked == old(checked)
      ensures header == old(header) && helloMessage == old(helloMessage)
    {
      nights := n;
    }

    method SetHeader(h: string)
      modifies this
      ensures header == h
      ensures bringListTemplate == old(bringListTemplate) && tags == old(tags) && checked == old(checked)
      ensures nights == old(nights) && helloMessage == old(helloMessage)
    {
      header := h;
    }

    /** Back to the starting bring list, keeping the template. */
    method ResetAllExceptTemplate()
      modifies this
      ensures tags == [] && checked == [] && nights == StartingNights && header == ""
      ensures bringListTemplate == old(bringListTemplate) && helloMessage == old(helloMessage)
      ensures Valid()
    {
      var template := bringListTemplate;
      tags := [];
      checked := [];
      nights := StartingNights;
      header := "";
      bringListTemplate := template;
    }

    method SetHelloMessage(message: string)
      modifies this
      ensures helloMessage == Some(message)
      ensures bringListTemplate == old(bringListTemplate) && tags == old(tags) && checked == old(checked)
      ensures nights == old(nights) && header == old(header)
    {
      helloMessage := Some(message);
    }
  }
}
