/** The values `yaml.safe_load` produces, as far as the configuration files use them. */
module Yaml {
  import opened Wrappers

  datatype Value =
    | Null
    | Bool(b: bool)
    | Int(i: int)
    | Str(s: string)
    | List(items: seq<Value>)
    | Mapping(entries: seq<(string, Value)>)

  /** `key in d` for a mapping. */
  predicate HasKey(entries: seq<(string, Value)>, key: string) {
    exists i :: 0 <= i < |entries| && entries[i].0 == key
  }

  /** `d.get(key)`: the value stored under `key`, if any. */
  function Get(entries: seq<(string, Value)>, key: string): (r: Option<Value>)
    ensures r.Some? <==> HasKey(entries, key)
    ensures r.Some? ==> exists i :: 0 <= i < |entries| && entries[i] == (key, r.value)
  {
    if entries == [] then None
    else if entries[0].0 == key then
      assert entries[0] == (key, entries[0].1);
      Some(entries[0].1)
    else
      var r := Get(entries[1..], key);
      assert forall i :: 0 <= i < |entries[1..]| ==> entries[1..][i] == entries[i + 1];
      r
  }

  /** `d.get(key, default)`. */
  function GetOr(entries: seq<(string, Value)>, key: string, default: Value): Value {
    Get(entries, key).GetOr(default)
  }

  /** `[f for f in fields if f not in d]`: the fields a mapping lacks, in order. */
  function Missing(entries: seq<(string, Value)>, fields: seq<string>): (r: seq<string>)
    ensures forall f :: f in r <==> f in fields && !HasKey(entries, f)
  {
    if fields == [] then []
    else (if HasKey(entries, fields[0]) then [] else [fields[0]]) + Missing(entries, fields[1..])
  }

  /** Python truth value of a loaded value. */
  predicate Truthy(v: Value) {
    match v
    case Null => false
    case Bool(b) => b
    case Int(i) => i != 0
    case Str(s) => s != []
    case List(items) => items != []
    case Mapping(entries) => entries != []
  }
}
