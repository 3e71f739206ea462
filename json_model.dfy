/**
 * Parsed JSON documents and the few JavaScript property operations the
 * scripts and pages perform on them. Objects keep their keys in insertion
 * order, as JavaScript objects with non-numeric keys do.
 */
module JsonModel {
  import opened Wrappers

  datatype Json =
    | JNull
    | JBool(b: bool)
    | JNumber(n: real)
    | JString(s: string)
    | JArray(items: seq<Json>)
    | JObject(fields: seq<(string, Json)>)

  /** What JavaScript throws on `null.key` or on assigning a property of a primitive in strict mode. */
  datatype TypeError = TypeError

  function Keys(fields: seq<(string, Json)>): (ks: seq<string>)
    ensures |ks| == |fields|
    ensures forall i :: 0 <= i < |fields| ==> ks[i] == fields[i].0
  {
    seq(|fields|, i requires 0 <= i < |fields| => fields[i].0)
  }

  predicate KeysUnique(fields: seq<(string, Json)>) {
    forall i, j :: 0 <= i < j < |fields| ==> fields[i].0 != fields[j].0
  }

  /** The value stored under `key`: the first entry with that key. */
  function Lookup(fields: seq<(string, Json)>, key: string): (r: Option<Json>)
    ensures r.None? <==> key !in Keys(fields)
  {
    if fields == [] then None
    else if fields[0].0 == key then Some(fields[0].1)
    else
      assert Keys(fields) == [fields[0].0] + Keys(fields[1..]);
      Lookup(fields[1..], key)
  }

  /** A value read under `key` is stored under `key`. */
  lemma {:induction false} LookupFound(fields: seq<(string, Json)>, key: string)
    requires Lookup(fields, key).Some?
    ensures exists i :: 0 <= i < |fields| && fields[i] == (key, Lookup(fields, key).value)
  {
    if fields[0].0 != key {
      LookupFound(fields[1..], key);
      var i :| 0 <= i < |fields[1..]| && fields[1..][i] == (key, Lookup(fields, key).value);
      assert fields[i + 1] == fields[1..][i];
    }
  }

  /** `obj[key] = value`: an existing key keeps its place, a new key is appended. */
  function SetField(fields: seq<(string, Json)>, key: string, value: Json): (r: seq<(string, Json)>)
  {
    if fields == [] then [(key, value)]
    else if fields[0].0 == key then [(key, value)] + fields[1..]
    else [fields[0]] + SetField(fields[1..], key, value)
  }

  /** Reading a field right after assigning it gives the assigned value; other fields are untouched. */
  lemma {:induction false} SetFieldLookup(fields: seq<(string, Json)>, key: string, value: Json, other: string)
    ensures Lookup(SetField(fields, key, value), key) == Some(value)
    ensures other != key ==> Lookup(SetField(fields, key, value), other) == Lookup(fields, other)
  {
    if fields != [] && fields[0].0 != key {
      SetFieldLookup(fields[1..], key, value, other);
      var r := SetField(fields, key, value);
      assert r[1..] == SetField(fields[1..], key, value);
    }
  }

  /** Assigning a field keeps the key order, appending a key that was absent. */
  lemma SetFieldKeys(fields: seq<(string, Json)>, key: string, value: Json)
    ensures Keys(SetField(fields, key, value))
      == if key in Keys(fields) then Keys(fields) else Keys(fields) + [key]
    ensures KeysUnique(fields) ==> KeysUnique(SetField(fields, key, value))
  {
    SetFieldOrder(fields, key, value);
    if KeysUnique(fields) {
      SetFieldUnique(fields, key, value);
    }
  }

  lemma {:induction false} SetFieldOrder(fields: seq<(string, Json)>, key: string, value: Json)
    ensures Keys(SetField(fields, key, value))
      == if key in Keys(fields) then Keys(fields) else Keys(fields) + [key]
  {
    if fields != [] {
      assert Keys(fields) == [fields[0].0] + Keys(fields[1..]);
      var r := SetField(fields, key, value);
      if fields[0].0 != key {
        SetFieldOrder(fields[1..], key, value);
        assert Keys(r) == [fields[0].0] + Keys(SetField(fields[1..], key, value));
      } else {
        assert Keys(r) == [key] + Keys(fields[1..]);
      }
    }
  }

  /** Assigning a field never duplicates a key. */
  lemma SetFieldUnique(fields: seq<(string, Json)>, key: string, value: Json)
    requires KeysUnique(fields)
    ensures KeysUnique(SetField(fields, key, value))
  {
    var r := SetField(fields, key, value);
    SetFieldOrder(fields, key, value);
    forall i, j | 0 <= i < j < |r| ensures r[i].0 != r[j].0 {
      assert Keys(r)[i] == r[i].0 && Keys(r)[j] == r[j].0;
      if j < |fields| {
        assert Keys(r)[i] == fields[i].0 && Keys(r)[j] == fields[j].0;
      } else {
        assert Keys(r)[i] == Keys(fields)[i];
      }
    }
  }

  /** `delete obj.key`: the entry goes, every other entry keeps its place. */
  function RemoveField(fields: seq<(string, Json)>, key: string): (r: seq<(string, Json)>)
    ensures |r| <= |fields|
  {
    if fields == [] then []
    else if fields[0].0 == key then RemoveField(fields[1..], key)
    else [fields[0]] + RemoveField(fields[1..], key)
  }

  /** After a delete the key reads as `undefined`; other fields are untouched. */
  lemma {:induction false} RemoveFieldLookup(fields: seq<(string, Json)>, key: string, other: string)
    ensures Lookup(RemoveField(fields, key), key) == None
    ensures other != key ==> Lookup(RemoveField(fields, key), other) == Lookup(fields, other)
  {
    if fields != [] {
      RemoveFieldLookup(fields[1..], key, other);
      if fields[0].0 != key {
        var r := RemoveField(fields, key);
        assert r[1..] == RemoveField(fields[1..], key);
      }
    }
  }

  /** JavaScript truthiness of a value that may be `undefined` (`None`). */
  predicate Truthy(v: Option<Json>) {
    match v
    case None => false
    case Some(JNull) => false
    case Some(JBool(b)) => b
    case Some(JNumber(n)) => n != 0.0
    case Some(JString(s)) => s != ""
    case Some(_) => true
  }

  /** `v.key`: throws on `null`, is `undefined` on a value that has no such own property. */
  function Member(v: Json, key: string): (r: Result<Option<Json>, TypeError>)
    ensures r.Err? <==> v == JNull
    ensures v.JObject? ==> r == Ok(Lookup(v.fields, key))
  {
    match v
    case JNull => Err(TypeError)
    case JObject(fields) => Ok(Lookup(fields, key))
    case _ => Ok(None)
  }

  /** `v?.key`: optional chaining stops at `null` and `undefined`. */
  function OptionalMember(v: Option<Json>, key: string): (r: Option<Json>)
    ensures v.None? || v == Some(JNull) ==> r.None?
    ensures v.Some? && v.value.JObject? ==> r == Lookup(v.value.fields, key)
  {
    match v
    case None => None
    case Some(JNull) => None
    case Some(JObject(fields)) => Lookup(fields, key)
    case Some(_) => None
  }

  /**
   * `target.key = value` in strict mode, as seen through `JSON.stringify`:
   * objects take the field, arrays keep it as a non-index property that is
   * never serialised, and `null` or a primitive throws.
   */
  function Assign(target: Json, key: string, value: Json): (r: Result<Json, TypeError>)
    ensures r.Ok? <==> target.JObject? || target.JArray?
    ensures target.JObject? ==> r == Ok(JObject(SetField(target.fields, key, value)))
    ensures target.JArray? ==> r == Ok(target)
  {
    match target
    case JObject(fields) => Ok(JObject(SetField(fields, key, value)))
    case JArray(_) => Ok(target)
    case _ => Err(TypeError)
  }

  /** `v || {}`: a falsy value is replaced by an empty object. */
  function OrEmptyObject(v: Option<Json>): (r: Json)
    ensures Truthy(v) ==> r == v.value
    ensures !Truthy(v) ==> r == JObject([])
  {
    if Truthy(v) then v.value else JObject([])
  }
}
