/** Plain JavaScript objects (`{}`) used as dictionaries keyed by strings.
    Such an object inherits the members of `Object.prototype`, so reading
    it at one of their names finds the inherited member even where the
    object has no key of that name; `in` reports the name as present;
    `delete` of a name that is not an own key changes nothing; and
    assigning to `__proto__` goes through the prototype accessor instead of
    adding a key. The model keeps such a dictionary as the set (or map) of
    its own keys and tells the inherited names apart with `Inherited`. */
module JsObject {

  /** The accessor through which an object's prototype is read and
      replaced; assigning it a value that is not an object is ignored. */
  const ProtoKey: string := "__proto__"

  /** The members of `Object.prototype`: the standard ones and the legacy
      accessors of ECMAScript's annex B. Each is a function, except
      `__proto__`, which reads as `Object.prototype` itself. */
  const PrototypeKeys: set<string> := {
    "constructor", "hasOwnProperty", "isPrototypeOf", "propertyIsEnumerable",
    "toLocaleString", "toString", "valueOf",
    ProtoKey, "__defineGetter__", "__defineSetter__", "__lookupGetter__", "__lookupSetter__"
  }

  /** A read of `obj[k]` that misses the own keys finds an inherited member. */
  predicate Inherited(k: string) {
    k in PrototypeKeys
  }

  /** `k in obj` holds, and `obj[k]` is truthy for an object whose own
      keys `own` all hold `true`: the key is its own, or it names an
      inherited member (a function or an object, never falsy). */
  predicate Found(own: set<string>, k: string) {
    k in own || Inherited(k)
  }

  /** The own keys after `obj[k] = true`: every name becomes an own key
      except `__proto__`, which stays as it was. */
  function Assigned(own: set<string>, k: string): (r: set<string>)
    ensures k in r <==> k != ProtoKey || k in own
    ensures forall other :: other != k ==> (other in r <==> other in own)
  {
    if k == ProtoKey then own else own + {k}
  }
}
