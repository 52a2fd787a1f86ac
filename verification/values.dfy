/**
 JSON/YAML documents as the code base sees them after parsing: null, booleans,
 integers, strings, lists and insertion-ordered mappings. Parsing and dumping
 the text form are left to the libraries and do not appear here.
 */
module Values {
  import opened Wrappers
  import opened Dicts

  datatype Value =
    | Null
    | Bool(b: bool)
    | Int(i: int)
    | Str(s: string)
    | List(items: seq<Value>)
    | Map(fields: Dict<string, Value>)
  {
    ghost predicate Valid()
      decreases this
    {
      match this
      case List(xs) => forall i :: 0 <= i < |xs| ==> xs[i].Valid()
      case Map(d) => d.Valid() && forall k :: k in d.entries ==> d.entries[k].Valid()
      case _ => true
    }

    predicate IsMap() { Map? }

    /** `v.get(key)` on a mapping; `None` for a missing key or a non-mapping. */
    function Field(key: string): (r: Option<Value>)
      ensures r.Some? ==> Map? && key in fields.entries && r.value == fields.entries[key]
      ensures Valid() && r.Some? ==> r.value.Valid()
      ensures r.None? ==> !Map? || key !in fields.entries
    {
      if Map? then fields.Get(key) else None
    }

    /** Python truthiness of a parsed value. */
    predicate Truthy()
    {
      match this
      case Null => false
      case Bool(b) => b
      case Int(i) => i != 0
      case Str(s) => |s| > 0
      case List(xs) => |xs| > 0
      case Map(d) => |d.keys| > 0
    }
  }

  /** A mapping whose values are all strings, as `Dict[str, str]` accepts it. */
  function StrMap(v: Value): (r: Option<Dict<string, string>>)
    requires v.Valid()
    ensures r.Some? <==> v.Map? && forall k :: k in v.fields.entries ==> v.fields.entries[k].Str?
    ensures r.Some? ==> r.value.Valid() && r.value.keys == v.fields.keys
    ensures r.Some? ==> forall k :: k in v.fields.entries ==> r.value.Get(k) == Some(v.fields.entries[k].s)
  {
    if v.Map? && forall k :: k in v.fields.entries ==> v.fields.entries[k].Str? then
      Some(MapValues(v.fields, (x: Value) => if x.Str? then x.s else ""))
    else None
  }

  /** A `Dict[str, str]` as a document. */
  function FromStrMap(d: Dict<string, string>): (v: Value)
    requires d.Valid()
    ensures v.Valid() && v.Map? && v.fields.keys == d.keys
    ensures forall k :: k in d.entries ==> k in v.fields.entries && v.fields.entries[k] == Str(d.entries[k])
  {
    Map(MapValues(d, (s: string) => Str(s)))
  }

  lemma StrMapRoundTrip(d: Dict<string, string>)
    requires d.Valid()
    ensures StrMap(FromStrMap(d)) == Some(d)
  {
    var r := StrMap(FromStrMap(d));
    assert r.value.entries == d.entries;
  }

  /** A mapping built from key/value pairs in the given order. */
  function Object(pairs: seq<(string, Value)>): (v: Value)
    requires forall i :: 0 <= i < |pairs| ==> pairs[i].1.Valid()
    ensures v.Valid() && v.Map?
  {
    Map(FromPairs(pairs))
  }

  /** With distinct keys, each field of an object is the value it was built with. */
  lemma ObjectField(pairs: seq<(string, Value)>, i: nat)
    requires forall j :: 0 <= j < |pairs| ==> pairs[j].1.Valid()
    requires forall j, k :: 0 <= j < k < |pairs| ==> pairs[j].0 != pairs[k].0
    requires i < |pairs|
    ensures Object(pairs).Field(pairs[i].0) == Some(pairs[i].1)
  {
  }
}
