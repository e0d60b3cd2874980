/**
 * The JSON values that the record classes exchange through their
 * `to_dict` / `from_dict` methods.  Objects are finite maps from keys to
 * values; the key order of a Python dict plays no role in the round trips.
 */
module JsonValue {
  import opened Wrappers

  datatype Json =
    | JNull
    | JBool(b: bool)
    | JInt(i: int)
    | JStr(s: string)
    | JArr(a: seq<Json>)
    | JObj(o: map<string, Json>)

  /** `data[key]` for a required string field: absent or non-string means failure. */
  function ReqStr(o: map<string, Json>, key: string): (r: Option<string>)
    ensures r.Some? <==> key in o && o[key].JStr?
    ensures r.Some? ==> o[key] == JStr(r.value)
  {
    if key in o && o[key].JStr? then Some(o[key].s) else None
  }

  /** `data[key]` for a required integer field. */
  function ReqInt(o: map<string, Json>, key: string): (r: Option<int>)
    ensures r.Some? <==> key in o && o[key].JInt?
    ensures r.Some? ==> o[key] == JInt(r.value)
  {
    if key in o && o[key].JInt? then Some(o[key].i) else None
  }

  /** `data.get(key, default)` for a string field; a present non-string value is a failure. */
  function OptStr(o: map<string, Json>, key: string, default: string): (r: Option<string>)
    ensures key !in o ==> r == Some(default)
    ensures key in o ==> (r.Some? <==> o[key].JStr?)
    ensures key in o && r.Some? ==> o[key] == JStr(r.value)
  {
    if key !in o then Some(default) else if o[key].JStr? then Some(o[key].s) else None
  }

  /** `data.get(key, default)` for an integer field. */
  function OptInt(o: map<string, Json>, key: string, default: int): (r: Option<int>)
    ensures key !in o ==> r == Some(default)
    ensures key in o ==> (r.Some? <==> o[key].JInt?)
    ensures key in o && r.Some? ==> o[key] == JInt(r.value)
  {
    if key !in o then Some(default) else if o[key].JInt? then Some(o[key].i) else None
  }

  /** `data.get(key, default)` for a boolean field. */
  function OptBool(o: map<string, Json>, key: string, default: bool): (r: Option<bool>)
    ensures key !in o ==> r == Some(default)
    ensures key in o ==> (r.Some? <==> o[key].JBool?)
    ensures key in o && r.Some? ==> o[key] == JBool(r.value)
  {
    if key !in o then Some(default) else if o[key].JBool? then Some(o[key].b) else None
  }

  /** An optional string encoded as a string or `null`. */
  function EncodeOptStr(v: Option<string>): (r: Json)
    ensures v.None? <==> r == JNull
    ensures v.Some? ==> r == JStr(v.value)
  {
    match v
    case None => JNull
    case Some(s) => JStr(s)
  }

  /** An optional integer encoded as an integer or `null`. */
  function EncodeOptInt(v: Option<int>): (r: Json)
    ensures v.None? <==> r == JNull
    ensures v.Some? ==> r == JInt(v.value)
  {
    match v
    case None => JNull
    case Some(n) => JInt(n)
  }

  /**
   * `data.get(key)` for an optional string: absent or `null` gives `None`;
   * the outer option is a decoding failure (a value of the wrong JSON type).
   */
  function GetOptStr(o: map<string, Json>, key: string): (r: Option<Option<string>>)
    ensures key !in o ==> r == Some(None)
    ensures r.Some? && key in o ==> o[key] == EncodeOptStr(r.value)
  {
    if key !in o || o[key].JNull? then Some(None)
    else if o[key].JStr? then Some(Some(o[key].s))
    else None
  }

  /** `data.get(key)` for an optional integer. */
  function GetOptInt(o: map<string, Json>, key: string): (r: Option<Option<int>>)
    ensures key !in o ==> r == Some(None)
    ensures r.Some? && key in o ==> o[key] == EncodeOptInt(r.value)
  {
    if key !in o || o[key].JNull? then Some(None)
    else if o[key].JInt? then Some(Some(o[key].i))
    else None
  }

  /** A list of strings as a JSON array. */
  function EncodeStrs(xs: seq<string>): (r: Json)
    ensures r.JArr? && |r.a| == |xs|
    ensures forall i :: 0 <= i < |xs| ==> r.a[i] == JStr(xs[i])
  {
    JArr(seq(|xs|, i requires 0 <= i < |xs| => JStr(xs[i])))
  }

  /** Decodes an array of strings; any non-string element is a failure. */
  function DecodeStrs(j: Json): (r: Option<seq<string>>)
    ensures r.Some? ==> j == EncodeStrs(r.value)
  {
    if j.JArr? && forall i :: 0 <= i < |j.a| ==> j.a[i].JStr? then
      Some(seq(|j.a|, i requires 0 <= i < |j.a| => j.a[i].s))
    else None
  }

  lemma DecodeEncodeStrs(xs: seq<string>)
    ensures DecodeStrs(EncodeStrs(xs)) == Some(xs)
  {
    var j := EncodeStrs(xs);
    assert forall i :: 0 <= i < |j.a| ==> j.a[i].JStr?;
    var ys := seq(|j.a|, i requires 0 <= i < |j.a| => j.a[i].s);
    assert ys == xs;
  }

  /** `data.get(key, [])` for a list of strings. */
  function OptStrs(o: map<string, Json>, key: string): (r: Option<seq<string>>)
    ensures key !in o ==> r == Some([])
    ensures key in o && r.Some? ==> o[key] == EncodeStrs(r.value)
  {
    if key !in o then Some([]) else DecodeStrs(o[key])
  }

  /** `data.get(key, [])` for a list of any values. */
  function OptArr(o: map<string, Json>, key: string): (r: Option<seq<Json>>)
    ensures key !in o ==> r == Some([])
    ensures key in o ==> (r.Some? <==> o[key].JArr?)
    ensures key in o && r.Some? ==> o[key] == JArr(r.value)
  {
    if key !in o then Some([]) else if o[key].JArr? then Some(o[key].a) else None
  }
}
