/** Scraped attraction records: dictionaries from field names to dynamically typed values, with
  * the runtime's truthiness, and a mutable record object whose entries are updated in place. */
module Records {
  /** The values a scraped or oracle-supplied field can hold. */
  datatype Value = Null | Bool(b: bool) | Int(i: int) | Num(r: real) | Str(s: string) | List(items: seq<Value>)

  type Dict = map<string, Value>

  /** The runtime's truthiness: null, false, zero, the empty string and the empty list are false. */
  predicate Truthy(v: Value)
  {
    match v
    case Null => false
    case Bool(b) => b
    case Int(i) => i != 0
    case Num(r) => r != 0.0
    case Str(s) => s != []
    case List(items) => items != []
  }

  /** `d.get(key)`: the stored value, or null when the key is absent. */
  function Get(d: Dict, key: string): Value
  {
    if key in d then d[key] else Null
  }

  /** `d.setdefault(key, v)` on a dictionary value: `v` is stored only when the key is absent. */
  function Defaulted(d: Dict, key: string, v: Value): (r: Dict)
    ensures r.Keys == d.Keys + {key}
    ensures key in d ==> r == d
    ensures key !in d ==> r[key] == v && forall k :: k in d ==> r[k] == d[k]
  {
    if key in d then d else d[key := v]
  }

  /** A dictionary that is updated in place. */
  class Record {
    var items: Dict

    constructor (initial: Dict)
      ensures items == initial
    {
      items := initial;
    }

    /** `setdefault`: store `v` under `key` unless the key is already present. */
    method SetDefault(key: string, v: Value)
      modifies this
      ensures items == Defaulted(old(items), key, v)
    {
      if key !in items {
        items := items[key := v];
      }
    }

    /** Item assignment. */
    method Set(key: string, v: Value)
      modifies this
      ensures items == old(items)[key := v]
    {
      items := items[key := v];
    }
  }
}
