/** The JavaScript values that travel in socket payloads and settings
    objects, with JavaScript truthiness and object-spread updates. */
module Values {

  /** A JavaScript value. Every number is a double; it is modelled as an
      exact `real` (all constants of the components are exact there). */
  datatype Value =
    | Undefined
    | Null
    | Bool(b: bool)
    | Num(x: real)
    | NaN
    | Str(s: string)
    | Obj(fields: map<string, Value>)

  /** JavaScript truthiness: `if (v)`. */
  predicate Truthy(v: Value)
  {
    match v
    case Undefined => false
    case Null => false
    case Bool(b) => b
    case Num(x) => x != 0.0
    case NaN => false
    case Str(s) => s != ""
    case Obj(_) => true
  }

  /** The `if (currentIndex)` guards on `update_index`: a numeric index
      passes exactly when it is not 0, so a switch to the first model is
      never taken up; a missing or null index never passes. */
  lemma IndexGuardSkipsZero(i: int)
    ensures Truthy(Num(i as real)) <==> i != 0
    ensures !Truthy(Undefined) && !Truthy(Null) && !Truthy(NaN)
  {
  }

  /** Property read `m.k` on a plain object: a missing key reads as undefined. */
  function Lookup(m: map<string, Value>, k: string): Value
  {
    if k in m then m[k] else Undefined
  }

  /** The state-update idiom `prev => ({ ...prev, [key]: value })`:
      key `k` now reads `v`, every other key reads what it read before. */
  function Merge(m: map<string, Value>, k: string, v: Value): (r: map<string, Value>)
    ensures Lookup(r, k) == v
    ensures forall j :: j != k ==> Lookup(r, j) == Lookup(m, j)
    ensures r.Keys == m.Keys + {k}
  {
    m[k := v]
  }

  /** Writing the same key twice keeps only the later value. */
  lemma MergeLastWins(m: map<string, Value>, k: string, v1: Value, v2: Value)
    ensures Merge(Merge(m, k, v1), k, v2) == Merge(m, k, v2)
  {
  }

  /** Updates of two different keys commute. */
  lemma MergeCommutes(m: map<string, Value>, k1: string, v1: Value, k2: string, v2: Value)
    requires k1 != k2
    ensures Merge(Merge(m, k1, v1), k2, v2) == Merge(Merge(m, k2, v2), k1, v1)
  {
  }
}
