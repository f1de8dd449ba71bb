/**
  `G9CDynamicObject`: a string-keyed bag of values with null-on-missing lookup. The private
  dictionary is the field `properties`, a table in insertion order with distinct keys.
 */
module DynamicObjects {
  import opened Wrappers
  import opened Text
  import opened Values

  class DynamicObject {
    var properties: Table

    ghost predicate Valid()
      reads this
    {
      DistinctKeys(properties)
    }

    constructor()
      ensures properties == [] && Valid()
    {
      properties := [];
    }

    /** The indexer's getter: the stored value, or null when the key is missing. */
    function Get(key: Str): (r: Value)
      reads this
      ensures key !in Keys(properties) ==> r == Null
      ensures key in Keys(properties) ==> Lookup(properties, key) == Some(r)
    {
      match Lookup(properties, key)
      case Some(v) => v
      case None => Null
    }

    /** The indexer's setter: inserts or overwrites `key` and leaves every other key as it was. */
    method Set(key: Str, value: Value)
      requires Valid()
      modifies this
      ensures Valid()
      ensures properties == Put(old(properties), key, value)
      ensures Get(key) == value
      ensures forall k :: k != key ==> Lookup(properties, k) == Lookup(old(properties), k)
      ensures forall k :: k in Keys(properties) <==> k == key || k in Keys(old(properties))
    {
      PutKeys(properties, key, value);
      forall k | true
        ensures Lookup(Put(properties, key, value), key) == Some(value)
        ensures k != key ==> Lookup(Put(properties, key, value), k) == Lookup(properties, k)
      {
        PutLookup(properties, key, value, k);
      }
      properties := Put(properties, key, value);
    }

    /** `TryGetMember`: whether the member exists, and its value when it does. */
    method TryGetMember(name: Str) returns (found: bool, result: Value)
      ensures found <==> name in Keys(properties)
      ensures found ==> Lookup(properties, name) == Some(result)
      ensures !found ==> result == Null
    {
      match Lookup(properties, name)
      case Some(v) =>
        found, result := true, v;
      case None =>
        found, result := false, Null;
    }

    /** `TrySetMember`: the setter's effect, and always `true`. */
    method TrySetMember(name: Str, value: Value) returns (ok: bool)
      requires Valid()
      modifies this
      ensures ok
      ensures Valid()
      ensures properties == Put(old(properties), name, value)
      ensures Get(name) == value
      ensures forall k :: k != name ==> Lookup(properties, k) == Lookup(old(properties), k)
    {
      Set(name, value);
      ok := true;
    }

    /** `GetDynamicMemberNames`: every key once, in insertion order. */
    method GetDynamicMemberNames() returns (names: seq<Str>)
      requires Valid()
      ensures forall k :: k in names <==> Lookup(properties, k).Some?
      ensures forall i, j :: 0 <= i < j < |names| ==> names[i] != names[j]
    {
      names := Keys(properties);
    }

    /** The enumerator: the key-value pairs, one per key, each with the value `Get` returns. */
    method Enumerate() returns (pairs: Table)
      requires Valid()
      ensures |pairs| == |Keys(properties)|
      ensures forall i :: 0 <= i < |pairs| ==> Lookup(properties, pairs[i].0) == Some(pairs[i].1)
      ensures forall k :: k in Keys(pairs) <==> Lookup(properties, k).Some?
    {
      pairs := properties;
      forall i | 0 <= i < |pairs|
        ensures Lookup(properties, pairs[i].0) == Some(pairs[i].1)
      {
        LookupDistinct(properties, i);
      }
    }
  }

  /** In a table with distinct keys, looking up the `i`th key finds the `i`th value. */
  lemma {:induction false} LookupDistinct(t: Table, i: nat)
    requires DistinctKeys(t) && i < |t|
    ensures Lookup(t, t[i].0) == Some(t[i].1)
  {
    if i > 0 {
      NotInTail(t);
      LookupDistinct(t[1..], i - 1);
    }
  }
}
