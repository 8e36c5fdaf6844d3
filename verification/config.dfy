/** Project configuration: a value is looked up first in the environment under the
    key as given, then under the key upper-cased, then as a dot-separated path into
    the YAML data. The environment is passed in as a map, and the YAML document as
    its parsed value. */
module Config {
  import opened Wrappers
  import Assoc
  import Text
  import opened Json

  type Env = Assoc.Record<string>

  /** `yaml.safe_load(f) or {}`, or `{}` when there is no file (`doc` is None). A
      document whose value is false to Python, an empty one included, becomes `{}`. */
  function LoadData(doc: Option<Json>): (d: Json)
    ensures doc.Some? && Truthy(doc.value) ==> d == doc.value
    ensures doc.None? || !Truthy(doc.value) ==> d == JObj([])
    ensures d != JNull
  {
    if doc.Some? && Truthy(doc.value) then doc.value else JObj([])
  }

  /** One step of the walk: into a dict's entry, None to give up (not a dict, a
      missing entry, or an entry that is `None`). */
  function Step(current: Json, part: string): (r: Option<Json>)
    ensures r.Some? ==> current.JObj? && Assoc.Get(current.fields, part) == r && r.value != JNull
    ensures r.None? ==> !current.JObj? || Assoc.Get(current.fields, part) in {None, Some(JNull)}
  {
    if !current.JObj? then None
    else
      var v := Assoc.Get(current.fields, part);
      if v.None? || v.value == JNull then None else v
  }

  /** The value at a path of keys: the reference the walk is measured against. */
  function Lookup(data: Json, parts: seq<string>): (r: Option<Json>)
    ensures |parts| > 0 && r.Some? ==> r.value != JNull
  {
    if |parts| == 0 then Some(data)
    else
      var prefix := Lookup(data, parts[..|parts| - 1]);
      if prefix.None? then None else Step(prefix.value, parts[|parts| - 1])
  }

  /** Once the walk gives up it stays given up. */
  lemma {:induction false} LookupStops(data: Json, parts: seq<string>, i: nat)
    requires i <= |parts| && Lookup(data, parts[..i]).None?
    ensures Lookup(data, parts).None?
    decreases |parts| - i
  {
    if i < |parts| {
      assert parts[..i + 1][..i] == parts[..i];
      LookupStops(data, parts, i + 1);
    } else {
      assert parts[..i] == parts;
    }
  }

  lemma LookupStep(data: Json, parts: seq<string>, i: nat)
    requires i < |parts| && Lookup(data, parts[..i]).Some?
    ensures Lookup(data, parts[..i + 1]) == Step(Lookup(data, parts[..i]).value, parts[i])
  {
    assert parts[..i + 1][..i] == parts[..i];
  }

  /** The answer `get` gives before falling back on its default: the environment under
      the key, then under the upper-cased key, then the path into the data. */
  function Resolve(env: Env, data: Json, key: string): Option<Json> {
    var e := Assoc.Get(env, key);
    if e.Some? then Some(JStr(e.value))
    else
      var u := Assoc.Get(env, Text.Upper(key));
      if u.Some? then Some(JStr(u.value))
      else Lookup(data, Text.Split(key, '.'))
  }

  /** `ProjectConfig.get`, as its loop walks the path. */
  method Get(env: Env, data: Json, key: string, default: Json) returns (v: Json)
    ensures Assoc.Get(env, key).Some? ==> v == JStr(Assoc.Get(env, key).value)
    ensures Assoc.Get(env, key).None? && Assoc.Get(env, Text.Upper(key)).Some? ==>
      v == JStr(Assoc.Get(env, Text.Upper(key)).value)
    ensures v == Resolve(env, data, key).GetOr(default)
  {
    var e := Assoc.Get(env, key);
    if e.Some? {
      return JStr(e.value);
    }
    e := Assoc.Get(env, Text.Upper(key));
    if e.Some? {
      return JStr(e.value);
    }
    var parts := Text.Split(key, '.');
    var current := data;
    for i := 0 to |parts|
      invariant Lookup(data, parts[..i]) == Some(current)
    {
      LookupStep(data, parts, i);
      var next := Step(current, parts[i]);
      if next.None? {
        LookupStops(data, parts, i + 1);
        return default;
      }
      current := next.value;
    }
    assert parts[..|parts|] == parts;
    return current;
  }

  /** `require`: the value, or a ConfigError exactly when `get` would give `None`. */
  method Require(env: Env, data: Json, key: string) returns (r: Result<Json, string>)
    ensures r.Err? <==> Resolve(env, data, key).None?
    ensures r.Ok? ==> Resolve(env, data, key) == Some(r.value) && r.value != JNull
  {
    var v := Get(env, data, key, JNull);
    ResolveNotNull(env, data, key);
    if v == JNull {
      return Err("ConfigError");
    }
    return Ok(v);
  }

  /** A resolved value is never `None`: the environment holds strings and the walk gives
      up on `None`. */
  lemma ResolveNotNull(env: Env, data: Json, key: string)
    ensures Resolve(env, data, key).Some? ==> Resolve(env, data, key).value != JNull
  {
    assert |Text.Split(key, '.')| >= 1;
  }

  /** A key without dots is a single step into the data. */
  lemma PlainKey(key: string)
    requires '.' !in key
    ensures Text.Split(key, '.') == [key]
  {
    assert Text.FindFrom(key, '.', 0).None?;
  }

  /** A value present in the data is returned even when Python reads it as false:
      `0`, `False` and `""` are not replaced by the default. */
  lemma FalsyValueKept(env: Env, fields: Assoc.Record<Json>, key: string, v: Json, default: Json)
    requires '.' !in key && !Assoc.HasKey(env, key) && !Assoc.HasKey(env, Text.Upper(key))
    requires Assoc.Get(fields, key) == Some(v) && v != JNull
    ensures Resolve(env, JObj(fields), key).GetOr(default) == v
  {
    PlainKey(key);
    assert [key][..0] == [];
    assert Lookup(JObj(fields), [key]) == Step(JObj(fields), key);
  }

  /** The environment wins over the data, whatever the data holds. */
  lemma EnvironmentWins(env: Env, data: Json, data': Json, key: string)
    requires Assoc.HasKey(env, key)
    ensures Resolve(env, data, key) == Resolve(env, data', key) == Some(JStr(Assoc.Get(env, key).value))
  {
  }

  /** A path that runs into a value that is not a dict gives the default. */
  lemma NonDictStops(data: Json, parts: seq<string>, i: nat)
    requires i < |parts| && Lookup(data, parts[..i]).Some? && !Lookup(data, parts[..i]).value.JObj?
    ensures Lookup(data, parts).None?
  {
    assert parts[..i + 1][..i] == parts[..i];
    LookupStops(data, parts, i + 1);
  }
}
