/**
 * `JsonEnvProvider` (src/environments/jsonEnvProvider.ts): an environment
 * provider backed by an in-memory table from environment names to variables.
 */
module JsonEnvProviders {
  import opened Wrappers
  import opened JsArrays
  import opened Models

  /** The first variables the table lists under `env`, or undefined. */
  function Lookup(entries: seq<(string, Variables)>, env: string): (r: Option<Variables>)
    ensures r.None? <==> forall i | 0 <= i < |entries| :: entries[i].0 != env
    ensures r.Some? ==> exists i | 0 <= i < |entries| ::
                          entries[i] == (env, r.value) && forall j | 0 <= j < i :: entries[j].0 != env
    decreases |entries|
  {
    if |entries| == 0 then None
    else if entries[0].0 == env then Some(entries[0].1)
    else
      var r := Lookup(entries[1..], env);
      assert forall i | 0 < i < |entries| :: entries[i] == entries[1..][i - 1];
      assert r.Some? ==> exists i | 0 <= i < |entries| ::
                           entries[i] == (env, r.value) && forall j | 0 <= j < i :: entries[j].0 != env by {
        if r.Some? {
          var i :| 0 <= i < |entries[1..]| && entries[1..][i] == (env, r.value)
                   && forall j | 0 <= j < i :: entries[1..][j].0 != env;
          assert forall j | 0 <= j < i + 1 :: entries[j].0 != env by {
            forall j | 0 <= j < i + 1 ensures entries[j].0 != env {
              if j > 0 {
                assert entries[j] == entries[1..][j - 1];
              }
            }
          }
        }
      }
      r
  }

  /**
   * The provider over its `cache`, held as the entries of the record in
   * `Object.entries` order.
   */
  datatype JsonEnvProvider = JsonEnvProvider(cache: seq<(string, Variables)>)
  {
    /** The names are distinct, as the keys of a record are. */
    predicate Valid()
    {
      forall i, j | 0 <= i < j < |cache| :: cache[i].0 != cache[j].0
    }

    /** `getEnvironments`: `Object.entries(this.cache).map(obj => obj[0])`. */
    function GetEnvironments(): (environments: seq<string>)
      ensures |environments| == |cache| && forall i | 0 <= i < |cache| :: environments[i] == cache[i].0
      ensures forall env :: env in environments <==> exists v :: (env, v) in cache
    {
      seq(|cache|, i requires 0 <= i < |cache| => cache[i].0)
    }

    /** `getVariables(env)`: `this.cache[env]`, undefined for a name the table lacks. */
    function GetVariables(env: string): (variables: Option<Variables>)
      ensures variables.None? <==> forall v :: (env, v) !in cache
      ensures Valid() ==> forall v :: variables == Some(v) <==> (env, v) in cache
    {
      var r := Lookup(cache, env);
      assert forall v :: (env, v) in cache ==> r.Some? && (Valid() ==> r.value == v) by {
        forall v | (env, v) in cache ensures r.Some? && (Valid() ==> r.value == v) {
          var k :| 0 <= k < |cache| && cache[k] == (env, v);
          var i :| 0 <= i < |cache| && cache[i] == (env, r.value) && forall j | 0 <= j < i :: cache[j].0 != env;
          if Valid() {
            assert i == k;
          }
        }
      }
      r
    }

    /** The provider as an entry of a file's provider chain. */
    function AsVariableProvider(): VariableProvider
    {
      VariableProvider(Some(GetEnvironments()))
    }
  }

  /**
   * The environments listed are exactly the names `getVariables` answers for:
   * a name outside the list gives undefined, not an empty table.
   */
  lemma ListedExactlyWhenDefined(provider: JsonEnvProvider, env: string)
    ensures env in provider.GetEnvironments() <==> provider.GetVariables(env).Some?
  {
    var names := provider.GetEnvironments();
    if env in names {
      var i :| 0 <= i < |names| && names[i] == env;
      assert provider.cache[i].0 == env;
    }
    if provider.GetVariables(env).Some? {
      var i :| 0 <= i < |provider.cache| && provider.cache[i].0 == env;
      assert names[i] == env;
    }
  }

  /** Every entry of a well-formed table is answered with its own variables, and no name is listed twice. */
  lemma TableRoundTrip(provider: JsonEnvProvider)
    requires provider.Valid()
    ensures forall i | 0 <= i < |provider.cache| :: provider.GetVariables(provider.cache[i].0) == Some(provider.cache[i].1)
    ensures Distinct(provider.GetEnvironments())
  {
    forall i | 0 <= i < |provider.cache| ensures provider.GetVariables(provider.cache[i].0) == Some(provider.cache[i].1) {
      var r := provider.GetVariables(provider.cache[i].0);
      var k :| 0 <= k < |provider.cache| && provider.cache[k] == (provider.cache[i].0, r.value)
               && forall j | 0 <= j < k :: provider.cache[j].0 != provider.cache[i].0;
      assert k == i;
    }
  }
}
