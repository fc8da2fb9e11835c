/**
 * JSON values as `JSON.parse` produces them, and the JavaScript readings of
 * them the core performs: truthiness, property access and the own
 * properties `Object.assign` copies.
 */
module Json {
  import opened Wrappers

  datatype Json =
    | JNull
    | JBool(b: bool)
    | JNumber(n: int)
    | JString(s: string)
    | JArray(items: seq<Json>)
    | JObject(fields: map<string, Json>)

  /** JavaScript truthiness: `null`, `false`, `0` and `""` are falsy. */
  predicate Truthy(j: Json)
  {
    match j
    case JNull => false
    case JBool(b) => b
    case JNumber(n) => n != 0
    case JString(s) => s != ""
    case _ => true
  }

  /** `j?.key` on a parsed value: only an object has named properties. */
  function Property(j: Json, key: string): Option<Json>
  {
    if j.JObject? && key in j.fields then Some(j.fields[key]) else None
  }

  /** The own enumerable properties `Object.assign` copies from a parsed object. */
  function OwnProperties(j: Json): map<string, Json>
  {
    if j.JObject? then j.fields else map[]
  }

  /** JavaScript truthiness of a value that may be `undefined`. */
  predicate IsTruthy(o: Option<Json>)
  {
    o.Some? && Truthy(o.value)
  }

  /**
   * `Object.assign(target, ...sources)` on own properties, copied source by
   * source: no key of the target is lost, and every key of the last source
   * is present.
   */
  function ObjectAssign(target: map<string, Json>, sources: seq<map<string, Json>>): (r: map<string, Json>)
    ensures forall k | k in target :: k in r
    ensures |sources| > 0 ==> forall k | k in sources[|sources| - 1] :: k in r
    decreases |sources|
  {
    if |sources| == 0 then target
    else
      var n := |sources| - 1;
      ObjectAssign(target, sources[..n]) + sources[n]
  }

  /** The keys of the result are exactly those of the target and of the sources. */
  lemma {:induction false} AssignDomain(target: map<string, Json>, sources: seq<map<string, Json>>, k: string)
    ensures k in ObjectAssign(target, sources) <==> k in target || exists i | 0 <= i < |sources| :: k in sources[i]
    decreases |sources|
  {
    if |sources| > 0 {
      var n := |sources| - 1;
      AssignDomain(target, sources[..n], k);
      assert forall i | 0 <= i < n :: sources[..n][i] == sources[i];
      if k in ObjectAssign(target, sources[..n]) && k !in target {
        var i :| 0 <= i < n && k in sources[..n][i];
        assert k in sources[i];
      }
    }
  }

  /** `sources[i]` is the last of `sources` that has `k`. */
  predicate LastWith(sources: seq<map<string, Json>>, k: string, i: int)
    requires 0 <= i < |sources|
  {
    k in sources[i] && forall j | i < j < |sources| :: k !in sources[j]
  }

  /** The last source that has a key gives its value: later sources override earlier ones. */
  lemma {:induction false} AssignLastWins(target: map<string, Json>, sources: seq<map<string, Json>>, k: string, i: int)
    requires 0 <= i < |sources| && LastWith(sources, k, i)
    ensures k in ObjectAssign(target, sources) && ObjectAssign(target, sources)[k] == sources[i][k]
    decreases |sources|
  {
    var n := |sources| - 1;
    if i < n {
      assert LastWith(sources[..n], k, i);
      AssignLastWins(target, sources[..n], k, i);
    }
  }

  /** A key no source has keeps the target's value. */
  lemma {:induction false} AssignKeepsUntouched(target: map<string, Json>, sources: seq<map<string, Json>>, k: string)
    requires k in target && forall i | 0 <= i < |sources| :: k !in sources[i]
    ensures ObjectAssign(target, sources)[k] == target[k]
    decreases |sources|
  {
    if |sources| > 0 {
      var n := |sources| - 1;
      AssignKeepsUntouched(target, sources[..n], k);
    }
  }
}
