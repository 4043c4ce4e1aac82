/** Parsed documents and Python's notion of truthiness.

    The YAML, JSON and TOML loaders of the system are not modelled: a loader is a function from
    text to an optional document (None when it raises), and a dumper is a function from a
    document to text.  Documents are the values those libraries produce. */
module Values {

  datatype Option<+T> = None | Some(value: T)

  /** A value produced by `yaml.safe_load`, `json.loads` or `tomllib.loads`. */
  datatype Value =
    | VNone
    | VBool(b: bool)
    | VInt(i: int)
    | VReal(r: real)
    | VStr(s: string)
    | VList(items: seq<Value>)
    | VMap(fields: map<string, Value>)

  /** The document loaders and the YAML dumper, supplied from outside the model. */
  datatype Parsers = Parsers(
    json: string -> Option<Value>,
    toml: string -> Option<Value>,
    yaml: string -> Option<Value>,
    dumpYaml: Value -> string)

  /** Python's `bool(v)`: empty containers, zero, "", None and False are falsy. */
  predicate Truthy(v: Value) {
    match v
    case VNone => false
    case VBool(b) => b
    case VInt(i) => i != 0
    case VReal(r) => r != 0.0
    case VStr(s) => s != ""
    case VList(xs) => xs != []
    case VMap(m) => m != map[]
  }

  /** `d.get(key, default)` on a mapping. */
  function Get(m: map<string, Value>, key: string, default: Value): Value {
    if key in m then m[key] else default
  }

  /** `d.get(key)` tested for truth: a missing key reads as None, which is falsy. */
  predicate TruthyField(m: map<string, Value>, key: string) {
    key in m && Truthy(m[key])
  }

  const EmptyMap: Value := VMap(map[])
}
