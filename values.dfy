/**
 The dynamically typed values (`interface{}`) that rules and contexts carry,
 modelled as a closed sum type, and the nil-able attribute maps of a context.
 */
module Values {

  datatype Option<+T> = None | Some(value: T)

  /** The shapes an `interface{}` value takes in this library.
      VInt is a Go `int` put there by host code; VNumber is the `float64` the
      JSON decoder produces for a number (only integral numbers are modelled);
      VList is a `[]interface{}` and VMap a `map[string]interface{}`. */
  datatype Value =
    | VNil
    | VStr(s: string)
    | VStrList(xs: seq<string>)
    | VBool(b: bool)
    | VInt(i: int)
    | VNumber(n: int)
    | VList(items: seq<Value>)
    | VMap(entries: map<string, Value>)

  /** Every integer of magnitude at most 2^53 is exactly a float64 (the
      largest such range of consecutive integers). */
  const MaxExactFloatInt: int := 0x20_0000_0000_0000

  predicate FloatExact(n: int) {
    -MaxExactFloatInt <= n <= MaxExactFloatInt
  }

  /** A Go `map[string]interface{}` that may be nil (None). */
  type Attrs = Option<map<string, Value>>

  /** Indexing a Go map: a nil map behaves as an empty one. */
  function Lookup(a: Attrs, key: string): (r: Option<Value>)
    ensures r.Some? <==> a.Some? && key in a.value
    ensures r.Some? ==> r.value == a.value[key]
  {
    match a
    case None => None
    case Some(m) => if key in m then Some(m[key]) else None
  }

  /** Go's `a == b` on two interface values does not panic. It panics only
      when both hold the same dynamic type and that type is a slice or a map. */
  predicate Comparable(a: Value, b: Value) {
    !(a.VStrList? && b.VStrList?) && !(a.VList? && b.VList?) && !(a.VMap? && b.VMap?)
  }
}
