/** Decoded JSON as the WordPress REST API returns it, with the few Python behaviours of
    dictionaries and values that autoStattic.py relies on: truthiness, `dict.get`, hashing,
    iteration and `str()`. A dictionary keeps its insertion order, as Python's does. */
module Values {

  import opened Base
  import opened Text

  datatype Value =
    | Null
    | Bool(b: bool)
    | Int(i: int)
    | Str(s: string)
    | List(elems: seq<Value>)
      /** A dictionary decoded from JSON has DistinctKeys: `json.loads` keeps only the last
          of a repeated key. */
    | Dict(entries: seq<(string, Value)>)

  /** Python's `bool(v)`: None, False, 0 and empty strings, lists and dictionaries are false. */
  predicate Truthy(v: Value) {
    match v
    case Null => false
    case Bool(b) => b
    case Int(i) => i != 0
    case Str(s) => s != ""
    case List(elems) => elems != []
    case Dict(entries) => entries != []
  }

  /** Lists and dictionaries cannot be dictionary keys; using one raises TypeError. */
  predicate Hashable(v: Value) {
    !v.List? && !v.Dict?
  }

  /** The keys of an ordered dictionary, in insertion order. */
  function Keys(entries: seq<(string, Value)>): (ks: seq<string>)
    ensures |ks| == |entries|
    ensures forall i :: 0 <= i < |entries| ==> ks[i] == entries[i].0
  {
    if entries == [] then [] else [entries[0].0] + Keys(entries[1..])
  }

  /** The invariant of a Python dictionary: no key occurs twice. */
  predicate DistinctKeys(entries: seq<(string, Value)>) {
    forall i, j :: 0 <= i < j < |entries| ==> entries[i].0 != entries[j].0
  }

  /** The value stored under key, if any (`key in d` and `d[key]`). */
  function Lookup(entries: seq<(string, Value)>, key: string): Option<Value> {
    if entries == [] then None
    else if entries[0].0 == key then Some(entries[0].1)
    else Lookup(entries[1..], key)
  }

  /** A key is found exactly when it is one of the keys; in a dictionary without repeated
      keys, what is found is the value stored beside it. */
  lemma {:induction false} LookupFinds(entries: seq<(string, Value)>, key: string)
    ensures Lookup(entries, key).Some? <==> key in Keys(entries)
    ensures DistinctKeys(entries) ==>
              forall i :: 0 <= i < |entries| && entries[i].0 == key ==> Lookup(entries, key) == Some(entries[i].1)
  {
    if entries != [] {
      LookupFinds(entries[1..], key);
      assert Keys(entries) == [entries[0].0] + Keys(entries[1..]);
    }
  }

  /** The position of a key known to be present. */
  function Index(ks: seq<string>, key: string): (i: nat)
    requires key in ks
    ensures i < |ks| && ks[i] == key
    ensures forall j :: 0 <= j < i ==> ks[j] != key
  {
    if ks[0] == key then 0 else 1 + Index(ks[1..], key)
  }

  /** `d.get(key, default)` on a dictionary d: the default for a missing key, otherwise the
      value stored beside the key. */
  function Get(entries: seq<(string, Value)>, key: string, default: Value): (r: Value)
    ensures key !in Keys(entries) ==> r == default
    ensures DistinctKeys(entries) ==>
              forall i :: 0 <= i < |entries| && entries[i].0 == key ==> r == entries[i].1
  {
    LookupFinds(entries, key);
    match Lookup(entries, key)
    case Some(v) => v
    case None => default
  }

  /** `v.get(key, default)`: only a dictionary has a `get` method. */
  function GetOn(v: Value, key: string, default: Value): (r: Result<Value>)
    ensures r.Ok? <==> v.Dict?
    ensures r.Ok? ==> r.value == Get(v.entries, key, default)
  {
    if v.Dict? then Ok(Get(v.entries, key, default)) else Err(AttributeError)
  }

  /** What a `for` loop over v visits: the items of a list, the one-character strings of a
      string, the keys of a dictionary; iterating anything else raises TypeError. */
  function Iterate(v: Value): (r: Result<seq<Value>>)
    ensures r.Ok? <==> v.List? || v.Str? || v.Dict?
    ensures v.List? ==> r == Ok(v.elems)
    ensures v.Str? ==> r.Ok? && |r.value| == |v.s| && forall i :: 0 <= i < |v.s| ==> r.value[i] == Str([v.s[i]])
    ensures v.Dict? ==>
              && r.Ok? && |r.value| == |v.entries|
              && forall i :: 0 <= i < |v.entries| ==> r.value[i] == Str(Keys(v.entries)[i])
  {
    match v
    case List(elems) => Ok(elems)
    case Str(s) => Ok(seq(|s|, i requires 0 <= i < |s| => Str([s[i]])))
    case Dict(entries) => Ok(seq(|entries|, i requires 0 <= i < |entries| => Str(entries[i].0)))
    case _ => Err(TypeError)
  }

  /** Python's `str(v)`, as an f-string renders v. */
  function PyStr(v: Value): string {
    if v.Str? then v.s else Repr(v)
  }

  /** Python's `repr(v)`. Strings are shown between single quotes without escaping. */
  function Repr(v: Value): string {
    match v
    case Null => "None"
    case Bool(b) => if b then "True" else "False"
    case Int(i) => Decimal(i)
    case Str(s) => "'" + s + "'"
    case List(elems) =>
      "[" + Join(", ", seq(|elems|, i requires 0 <= i < |elems| => Repr(elems[i]))) + "]"
    case Dict(entries) =>
      "{" + Join(", ", seq(|entries|, i requires 0 <= i < |entries| =>
                                 "'" + entries[i].0 + "': " + Repr(entries[i].1))) + "}"
  }
}
