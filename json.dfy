/**
  The values `JSON.parse` can produce, as far as the chart extraction looks at
  them: JavaScript truthiness and property access. Parsing itself is not
  modelled; the parser is a parameter wherever it is used.
 */
module Json {
  import opened Wrappers

  datatype JsonValue =
    | JNull
    | JBool(b: bool)
    | JNumber(n: real)
    | JString(s: string)
    | JArray(items: seq<JsonValue>)
    | JObject(members: seq<(string, JsonValue)>)

  /** JavaScript truthiness of a parsed value (`undefined` is `None` and is falsy too). */
  predicate Truthy(v: Option<JsonValue>) {
    match v
    case None => false
    case Some(JNull) => false
    case Some(JBool(b)) => b
    case Some(JNumber(n)) => n != 0.0
    case Some(JString(s)) => s != ""
    case Some(_) => true
  }

  /** The value of `key` among `members`; `JSON.parse` keeps the last of duplicate keys. */
  function LastBinding(members: seq<(string, JsonValue)>, key: string): Option<JsonValue>
    decreases |members|
  {
    if members == [] then None
    else if members[|members| - 1].0 == key then Some(members[|members| - 1].1)
    else LastBinding(members[..|members| - 1], key)
  }

  /** `LastBinding` finds a binding of `key` exactly when there is one, and no later one follows it. */
  lemma {:induction false} LastBindingSpec(members: seq<(string, JsonValue)>, key: string)
    ensures LastBinding(members, key).None? <==> forall k :: 0 <= k < |members| ==> members[k].0 != key
    ensures LastBinding(members, key).Some? ==>
              exists k :: 0 <= k < |members| && members[k] == (key, LastBinding(members, key).value)
                          && forall k' :: k < k' < |members| ==> members[k'].0 != key
    decreases |members|
  {
    if members != [] && members[|members| - 1].0 != key {
      var init := members[..|members| - 1];
      LastBindingSpec(init, key);
      if LastBinding(init, key).Some? {
        var k :| 0 <= k < |init| && init[k] == (key, LastBinding(init, key).value)
                 && forall k' :: k < k' < |init| ==> init[k'].0 != key;
        assert members[k] == init[k];
      }
    }
  }

  /** `v[key]` on a parsed value: `undefined` on anything but an object that has the key.
      On `null` the access throws; every caller catches that and treats it as `undefined`. */
  function Member(v: JsonValue, key: string): Option<JsonValue> {
    if v.JObject? then LastBinding(v.members, key) else None
  }
}
