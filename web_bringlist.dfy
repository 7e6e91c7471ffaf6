/** The bring-list slice of web/src/bringlistSlice.ts: the template, the
    active tags, the checked and the struck-through items, nights, header,
    and a revision counter with the time of the last change. The reducers
    only ever store the value `true` in the tag and item dictionaries, so
    each is kept as the set of its own keys; being plain objects, they also
    answer lookups at the names of `Object.prototype`'s members. Every
    reducer is a method that updates the state in place, bumps the
    revision by one and records the time it is given. */
module WebBringlist {
  import opened JsObject

  /** The number of nights of the default state. */
  const DefaultNights := 3

  /** `toggleTag`: the key is deleted when the lookup finds something and
      set otherwise. A tag named after a member of `Object.prototype` is
      always found, and deleting it removes at most an own key, so such a
      tag is never switched on. */
  function Toggled(keys: set<string>, k: string): (r: set<string>)
    ensures k in r <==> k !in keys && !Inherited(k)
    ensures forall other :: other != k ==> (other in r <==> other in keys)
  {
    if Found(keys, k) then keys - {k} else Assigned(keys, k)
  }

  /** `setCheckedBLItem` and `setStrikedBLItem`: set the key when `on`,
      delete it when `in` finds it otherwise. Setting `__proto__` adds no
      key. */
  function Marked(keys: set<string>, k: string, on: bool): (r: set<string>)
    ensures k in r <==> on && (k != ProtoKey || k in keys)
    ensures forall other :: other != k ==> (other in r <==> other in keys)
  {
    if on then Assigned(keys, k)
    else if Found(keys, k) then keys - {k}
    else keys
  }

  /** Toggling twice restores the key set, except that a tag named after
      an inherited member ends up off. */
  lemma ToggleTwice(keys: set<string>, k: string)
    ensures Toggled(Toggled(keys, k), k) == if Inherited(k) then keys - {k} else keys
  {
    var once, twice := Toggled(keys, k), Toggled(Toggled(keys, k), k);
    var expected := if Inherited(k) then keys - {k} else keys;
    assert forall other :: other in twice <==> other in expected;
  }

  /** A toggle is a mark that switches the key on exactly when it is off
      and is not an inherited name. */
  lemma ToggleIsMarkOfAbsence(keys: set<string>, k: string)
    ensures Toggled(keys, k) == Marked(keys, k, k !in keys && !Inherited(k))
  {
    var r, s := Toggled(keys, k), Marked(keys, k, k !in keys && !Inherited(k));
    assert forall other :: other in r <==> other in s;
  }

  /** The last mark of a key wins, so marking twice the same way is
      marking once; only `__proto__`, which marking on cannot add, stays
      off after it was marked off. */
  lemma LastMarkWins(keys: set<string>, k: string, first: bool, second: bool)
    ensures Marked(Marked(keys, k, first), k, second) == Marked(keys, k, second && (first || k != ProtoKey))
  {
    var r, s := Marked(Marked(keys, k, first), k, second), Marked(keys, k, second && (first || k != ProtoKey));
    assert forall other :: other in r <==> other in s;
  }

  class Bringlist {
    var bringListTemplate: string
    var tags: set<string>
    var checkedItems: set<string>
    var strikedItems: set<string>
    var nights: int
    var header: string
    var revision: int
    var updatedAt: string

    /** `defaultState`: the default template and the time of creation are
        parameters. */
    constructor(defaultTemplate: string, now: string)
      ensures bringListTemplate == defaultTemplate
      ensures tags == {} && checkedItems == {} && strikedItems == {}
      ensures nights == DefaultNights && header == ""
      ensures revision == 0 && updatedAt == now
    {
      bringListTemplate := defaultTemplate;
      tags := {};
      checkedItems := {};
      strikedItems := {};
      nights := DefaultNights;
      header := "";
      revision := 0;
      updatedAt := now;
    }

    /** Records a change made at `now`. */
    method Touch(now: string)
      modifies this
      ensures revision == old(revision) + 1 && updatedAt == now
      ensures bringListTemplate == old(bringListTemplate) && tags == old(tags)
      ensures checkedItems == old(checkedItems) && strikedItems == old(strikedItems)
      ensures nights == old(nights) && header == old(header)
    {
      updatedAt := now;
      revision := revision + 1;
    }

    method SetHeader(h: string, now: string)
      modifies this
      ensures header == h
      ensures revision == old(revision) + 1 && updatedAt == now
      ensures bringListTemplate == old(bringListTemplate) && tags == old(tags)
      ensures checkedItems == old(checkedItems) && strikedItems == old(strikedItems)
      ensures nights == old(nights)
    {
      header := h;
      Touch(now);
    }

    method SetNights(n: int, now: string)
      modifies this
      ensures nights == n
      ensures revision == old(revision) + 1 && updatedAt == now
      ensures bringListTemplate == old(bringListTemplate) && tags == old(tags)
      ensures checkedItems == old(checkedItems) && strikedItems == old(strikedItems)
      ensures header == old(header)
    {
      nights := n;
      Touch(now);
    }

    method ToggleTag(tag: string, now: string)
      modifies this
      ensures tags == Toggled(old(tags), tag)
      ensures tag in tags <==> tag !in old(tags) && !Inherited(tag)
      ensures revision == old(revision) + 1 && updatedAt == now
      ensures bringListTemplate == old(bringListTemplate)
      ensures checkedItems == old(checkedItems) && strikedItems == old(strikedItems)
      ensures nights == old(nights) && header == old(header)
    {
      if Found(tags, tag) {
        tags := tags - {tag};
      } else {
        tags := Assigned(tags, tag);
      }
      Touch(now);
    }

    method SetCheckedBLItem(item: string, checked: bool, now: string)
      modifies this
      ensures checkedItems == Marked(old(checkedItems), item, checked)
      ensures item in checkedItems <==> checked && (item != ProtoKey || item in old(checkedItems))
      ensures revision == old(revision) + 1 && updatedAt == now
      ensures bringListTemplate == old(bringListTemplate) && tags == old(tags)
      ensures strikedItems == old(strikedItems)
      ensures nights == old(nights) && header == old(header)
    {
      if checked {
        checkedItems := Assigned(checkedItems, item);
      } else if Found(checkedItems, item) {
        checkedItems := checkedItems - {item};
      }
      Touch(now);
    }

    method SetStrikedBLItem(item: string, striked: bool, now: string)
      modifies this
      ensures strikedItems == Marked(old(strikedItems), item, striked)
      ensures item in strikedItems <==> striked && (item != ProtoKey || item in old(strikedItems))
      ensures revision == old(revision) + 1 && updatedAt == now
      ensures bringListTemplate == old(bringListTemplate) && tags == old(tags)
      ensures checkedItems == old(checkedItems)
      ensures nights == old(nights) && header == old(header)
    {
      if striked {
        strikedItems := Assigned(strikedItems, item);
      } else if Found(strikedItems, item) {
        strikedItems := strikedItems - {item};
      }
      Touch(now);
    }

    method SetBLT(template: string, now: string)
      modifies this
      ensures bringListTemplate == template
      ensures revision == old(revision) + 1 && updatedAt == now
      ensures tags == old(tags)
      ensures checkedItems == old(checkedItems) && strikedItems == old(strikedItems)
      ensures nights == old(nights) && header == old(header)
    {
      bringListTemplate := template;
      Touch(now);
    }

    /** Everything back to the defaults except the template; the revision
        still counts up. */
    method ResetAll(now: string)
      modifies this
      ensures tags == {} && checkedItems == {} && strikedItems == {}
      ensures nights == DefaultNights && header == ""
      ensures revision == old(revision) + 1 && updatedAt == now
      ensures bringListTemplate == old(bringListTemplate)
    {
      tags := {};
      checkedItems := {};
      strikedItems := {};
      nights := DefaultNights;
      header := "";
      Touch(now);
    }
  }
}
