/**
 Enumerated tags, the Condition record, its structural check, and its JSON
 form: encoding writes the tags as strings, and decoding tries the `value`
 field as a list of strings, then as a string, then as a generic value.
 JSON is modelled as a tree (Json) rather than as bytes.
 */
module Types {
  import opened Values
  import opened Errors

  /** Tags are Go string types, so any string (including "" and "invalid")
      is representable; the constants are the named ones. */
  type Effect = string
  const Allow: Effect := "allow"
  const Deny: Effect := "deny"

  type RuleType = string
  const KubernetesRule: RuleType := "kubernetes"
  const NetworkRule: RuleType := "network"
  const ResourceRule: RuleType := "resource"
  const CustomRule: RuleType := "custom"

  type Severity = string
  const Critical: Severity := "CRITICAL"
  const High: Severity := "HIGH"
  const Medium: Severity := "MEDIUM"
  const Low: Severity := "LOW"

  type ConditionOperator = string
  const Equals: ConditionOperator := "equals"
  const NotEquals: ConditionOperator := "notEquals"
  const In: ConditionOperator := "in"
  const NotIn: ConditionOperator := "notIn"
  const Contains: ConditionOperator := "contains"
  const Matches: ConditionOperator := "matches"

  type ConditionType = string
  const BasicCondition: ConditionType := "basic"
  const RoleCondition: ConditionType := "role"
  const K8sCondition: ConditionType := "k8s"
  const RegexCondition: ConditionType := "regex"
  const CustomCondition: ConditionType := "custom"

  datatype Condition = Condition(
    ctype: ConditionType,
    operation: ConditionOperator,
    value: Value,
    message: string)

  /** `ValidateCondition`: type, then operation, then value; the first
      missing one is reported. */
  function ValidateCondition(c: Condition): (r: Option<ErrorValue>)
    ensures r.None? <==> c.ctype != "" && c.operation != "" && c.value != VNil
    ensures r.Some? ==> r.value.ByPointer? && r.value.inner.InvalidCondition? && r.value.inner.field == ""
                        && r.value.inner.errorCode == "" && r.value.inner.Code() == ErrCodeInvalidCondition
    ensures c.ctype == "" ==> r.value.inner.message == "condition type is required"
    ensures c.ctype != "" && c.operation == "" ==> r.value.inner.message == "condition operation is required"
    ensures c.ctype != "" && c.operation != "" && c.value == VNil ==>
              r.value.inner.message == "condition value is required"
  {
    if c.ctype == "" then Some(ByPointer(InvalidCondition("", "condition type is required", "")))
    else if c.operation == "" then Some(ByPointer(InvalidCondition("", "condition operation is required", "")))
    else if c.value == VNil then Some(ByPointer(InvalidCondition("", "condition value is required", "")))
    else None
  }

  // ---------------------------------------------------------------- JSON

  /** A parsed JSON document. Numbers are limited to integers. */
  datatype Json =
    | JNull
    | JBool(b: bool)
    | JNum(n: int)
    | JStr(s: string)
    | JArr(items: seq<Json>)
    | JObj(fields: map<string, Json>)

  /** How `encoding/json` writes a Go value. */
  function EncodeValue(v: Value): Json {
    match v
    case VNil => JNull
    case VStr(s) => JStr(s)
    case VStrList(xs) => JArr(seq(|xs|, i requires 0 <= i < |xs| => JStr(xs[i])))
    case VBool(b) => JBool(b)
    case VInt(i) => JNum(i)
    case VNumber(n) => JNum(n)
    case VList(items) => JArr(seq(|items|, i requires 0 <= i < |items| => EncodeValue(items[i])))
    case VMap(entries) => JObj(map k | k in entries :: EncodeValue(entries[k]))
  }

  /** `MarshalJSON`: the four fields, with type and operation as plain strings. */
  function MarshalCondition(c: Condition): (j: Json)
    ensures j.JObj? && j.fields.Keys == {"type", "operation", "value", "message"}
    ensures j.fields["type"] == JStr(c.ctype) && j.fields["operation"] == JStr(c.operation)
    ensures j.fields["message"] == JStr(c.message)
  {
    JObj(map["type" := JStr(c.ctype), "operation" := JStr(c.operation),
             "value" := EncodeValue(c.value), "message" := JStr(c.message)])
  }

  /** A JSON value that decodes into a Go `string` without error: a string,
      or null, which leaves the string as it was (here: empty). */
  predicate StringLike(j: Json) {
    j.JStr? || j.JNull?
  }

  /** The Go string that a `StringLike` value decodes into. */
  function StringOf(j: Json): string {
    if j.JStr? then j.s else ""
  }

  /** First attempt: decode into `[]string`. It succeeds on an array whose
      elements are strings or nulls (a null element stays ""), and on a
      null document, which yields a nil slice (here: the empty list). */
  function AsStringList(j: Json): (r: Option<seq<string>>)
    ensures r.Some? <==> j.JNull? || (j.JArr? && forall i :: 0 <= i < |j.items| ==> StringLike(j.items[i]))
    ensures j.JNull? ==> r == Some([])
    ensures r.Some? && j.JArr? ==>
              |r.value| == |j.items|
              && (forall i :: 0 <= i < |j.items| && j.items[i].JStr? ==> r.value[i] == j.items[i].s)
              && (forall i :: 0 <= i < |j.items| && j.items[i].JNull? ==> r.value[i] == "")
  {
    if j.JNull? then Some([])
    else if j.JArr? && forall i :: 0 <= i < |j.items| ==> StringLike(j.items[i]) then
      Some(seq(|j.items|, i requires 0 <= i < |j.items| => StringOf(j.items[i])))
    else None
  }

  /** Second attempt: decode into `string`. */
  function AsString(j: Json): Option<string> {
    if j.JStr? then Some(j.s) else None
  }

  /** Third attempt: decode into `interface{}`; nested arrays become
      `[]interface{}` and numbers `float64`, never `[]string` or `int`. */
  function DecodeGeneric(j: Json): Value {
    match j
    case JNull => VNil
    case JBool(b) => VBool(b)
    case JNum(n) => VNumber(n)
    case JStr(s) => VStr(s)
    case JArr(items) => VList(seq(|items|, i requires 0 <= i < |items| => DecodeGeneric(items[i])))
    case JObj(fields) => VMap(map k | k in fields :: DecodeGeneric(fields[k]))
  }

  /** The value field's decoding order: string list, string, generic. */
  function DecodeValue(j: Json): (v: Value)
    ensures AsStringList(j).Some? ==> v == VStrList(AsStringList(j).value)
    ensures AsStringList(j).None? && j.JStr? ==> v == VStr(j.s)
    ensures AsStringList(j).None? && !j.JStr? ==> v == DecodeGeneric(j)
  {
    match AsStringList(j)
    case Some(xs) => VStrList(xs)
    case None =>
      match AsString(j)
      case Some(s) => VStr(s)
      case None => DecodeGeneric(j)
  }

  /** Why decoding a Condition failed. */
  datatype DecodeError =
    | NotAnObject      // the document is an array, string, number or bool
    | FieldTypeError   // type, operation or message holds a non-string
    | MissingValue     // no value to decode: every attempt fails

  /** A decoded string field: absent or null reads as "", a non-string fails. */
  function ReadString(fields: map<string, Json>, key: string): (r: Option<string>)
    ensures key !in fields ==> r == Some("")
    ensures key in fields && fields[key].JStr? ==> r == Some(fields[key].s)
    ensures key in fields && fields[key].JNull? ==> r == Some("")
    ensures key in fields && !fields[key].JStr? && !fields[key].JNull? ==> r.None?
  {
    if key !in fields then Some("")
    else match fields[key]
      case JNull => Some("")
      case JStr(s) => Some(s)
      case _ => None
  }

  /** The receiver after `UnmarshalJSON`, with the error it returned. */
  datatype Decoded = Decoded(cond: Condition, err: Option<DecodeError>)

  /** `UnmarshalJSON` on receiver `c`. The receiver keeps its old contents
      when the document does not parse into the helper struct; otherwise
      type, operation and message are assigned before the value is tried,
      so they stay assigned when the value fails. A null document parses
      into an all-empty helper struct. */
  function UnmarshalCondition(c: Condition, data: Json): (r: Decoded)
    ensures r.err.None? ==> data.JObj? && "value" in data.fields
    ensures r.err.None? ==> r.cond.value == DecodeValue(data.fields["value"])
    ensures data.JObj? && r.err != Some(FieldTypeError) ==>
              ReadString(data.fields, "type") == Some(r.cond.ctype)
              && ReadString(data.fields, "operation") == Some(r.cond.operation)
              && ReadString(data.fields, "message") == Some(r.cond.message)
    ensures r.err == Some(MissingValue) ==> r.cond.value == c.value
    ensures r.err == Some(NotAnObject) || r.err == Some(FieldTypeError) ==> r.cond == c
    ensures (data.JObj? && "value" !in data.fields
             && ReadString(data.fields, "type").Some? && ReadString(data.fields, "operation").Some?
             && ReadString(data.fields, "message").Some?) ==>
              r == Decoded(Condition(ReadString(data.fields, "type").value, ReadString(data.fields, "operation").value,
                                     c.value, ReadString(data.fields, "message").value),
                           Some(MissingValue))
    ensures (data.JObj? && (ReadString(data.fields, "type").None? || ReadString(data.fields, "operation").None?
                            || ReadString(data.fields, "message").None?)) ==>
              r == Decoded(c, Some(FieldTypeError))
    ensures (data.JObj? && "value" in data.fields
             && ReadString(data.fields, "type").Some? && ReadString(data.fields, "operation").Some?
             && ReadString(data.fields, "message").Some?) ==> r.err.None?
    ensures data.JNull? ==> r == Decoded(Condition("", "", c.value, ""), Some(MissingValue))
    ensures !data.JObj? && !data.JNull? ==> r == Decoded(c, Some(NotAnObject))
  {
    match data
    case JNull =>
      Decoded(c.(ctype := "", operation := "", message := ""), Some(MissingValue))
    case JObj(fields) =>
      var t := ReadString(fields, "type");
      var o := ReadString(fields, "operation");
      var m := ReadString(fields, "message");
      if t.None? || o.None? || m.None? then Decoded(c, Some(FieldTypeError))
      else
        var tagged := c.(ctype := t.value, operation := o.value, message := m.value);
        if "value" !in fields then Decoded(tagged, Some(MissingValue))
        else Decoded(tagged.(value := DecodeValue(fields["value"])), None)
    case _ => Decoded(c, Some(NotAnObject))
  }

  // ------------------------------------------------------------ properties

  /** The shapes generic decoding produces. */
  predicate IsGeneric(v: Value) {
    match v
    case VNil => true
    case VBool(_) => true
    case VNumber(n) => FloatExact(n)
    case VStr(_) => true
    case VStrList(_) => false
    case VInt(_) => false
    case VList(items) => forall i :: 0 <= i < |items| ==> IsGeneric(items[i])
    case VMap(entries) => forall k :: k in entries ==> IsGeneric(entries[k])
  }

  /** Generic decoding inverts encoding on the shapes it produces. */
  lemma {:induction false} GenericRoundTrip(v: Value)
    requires IsGeneric(v)
    ensures DecodeGeneric(EncodeValue(v)) == v
  {
    match v
    case VNil =>
    case VBool(_) =>
    case VNumber(_) =>
    case VStr(_) =>
    case VList(items) =>
      forall i | 0 <= i < |items| ensures DecodeGeneric(EncodeValue(items[i])) == items[i] {
        GenericRoundTrip(items[i]);
      }
    case VMap(entries) =>
      forall k | k in entries ensures DecodeGeneric(EncodeValue(entries[k])) == entries[k] {
        GenericRoundTrip(entries[k]);
      }
      assert (map k | k in entries :: DecodeGeneric(EncodeValue(entries[k]))) == entries;
  }

  /** The values that survive encoding then decoding unchanged: a string,
      a string list, a bool, an exactly representable number, and any
      generic map or list except a list of only strings and nils (which the
      first attempt claims) and nil itself (which decodes as a nil slice). */
  predicate RoundTrips(v: Value) {
    v.VStr? || v.VStrList? || v.VBool? || (v.VNumber? && FloatExact(v.n))
    || (v.VMap? && IsGeneric(v))
    || (v.VList? && IsGeneric(v) && exists i :: 0 <= i < |v.items| && !v.items[i].VStr? && !v.items[i].VNil?)
  }

  lemma ValueRoundTrip(v: Value)
    requires RoundTrips(v)
    ensures DecodeValue(EncodeValue(v)) == v
  {
    var j := EncodeValue(v);
    match v
    case VStrList(xs) =>
      assert AsStringList(j).value == xs;
    case VNumber(_) =>
    case VList(items) =>
      var i :| 0 <= i < |items| && !items[i].VStr? && !items[i].VNil?;
      assert j.items[i] == EncodeValue(items[i]);
      assert !StringLike(j.items[i]);
      GenericRoundTrip(v);
    case VMap(_) =>
      GenericRoundTrip(v);
    case _ =>
  }

  /** Encoding a condition and decoding it into any receiver yields the
      original condition, without error, for every value that round-trips
      (in particular a string, a string list and a bool). */
  lemma ConditionRoundTrip(receiver: Condition, c: Condition)
    requires RoundTrips(c.value)
    ensures UnmarshalCondition(receiver, MarshalCondition(c)) == Decoded(c, None)
  {
    ValueRoundTrip(c.value);
  }

  /** An array of strings always decodes as a string list, never generically. */
  lemma StringArrayDecodesAsList(xs: seq<string>)
    ensures DecodeValue(JArr(seq(|xs|, i requires 0 <= i < |xs| => JStr(xs[i])))) == VStrList(xs)
  {
    var j := JArr(seq(|xs|, i requires 0 <= i < |xs| => JStr(xs[i])));
    assert AsStringList(j).value == xs;
  }

  /** An array holding anything other than strings and nulls decodes as a
      generic list, nulls included as nil. */
  lemma MixedArrayDecodesGenerically(items: seq<Json>, i: nat)
    requires i < |items| && !StringLike(items[i])
    ensures DecodeValue(JArr(items)).VList?
    ensures forall k :: 0 <= k < |items| && items[k].JNull? ==> DecodeValue(JArr(items)).items[k] == VNil
  {
    assert AsStringList(JArr(items)).None?;
    var v := DecodeValue(JArr(items));
    assert v == DecodeGeneric(JArr(items));
    forall k | 0 <= k < |items| && items[k].JNull? ensures v.items[k] == VNil {
      assert v.items[k] == DecodeGeneric(items[k]);
    }
  }

  /** An array of strings and nulls decodes as a string list in which each
      null became "". */
  lemma NullElementsBecomeEmptyStrings(s: string)
    ensures DecodeValue(JArr([JStr(s), JNull])) == VStrList([s, ""])
    ensures DecodeValue(EncodeValue(VList([VStr(s), VNil]))) == VStrList([s, ""])
  {
  }

  /** A nil value encodes as null, which the first attempt decodes as a nil
      `[]string`. That is a non-nil interface value, so the decoded
      condition passes `ValidateCondition` although the original did not. */
  lemma NilValueComesBackNonNil(c: Condition)
    requires c.ctype != "" && c.operation != "" && c.value == VNil
    ensures ValidateCondition(c).Some?
    ensures var d := UnmarshalCondition(c, MarshalCondition(c));
      d.err.None? && d.cond.value == VStrList([]) && ValidateCondition(d.cond).None?
  {
  }

  /** A Go int does not round-trip: it comes back as a float64 number,
      which holds it exactly within the float64 integer range. */
  lemma IntComesBackAsNumber(n: int)
    requires FloatExact(n)
    ensures DecodeValue(EncodeValue(VInt(n))) == VNumber(n)
  {
  }

  /** A missing value is an error, yet the string fields were already read. */
  lemma MissingValueKeepsTags(c: Condition, t: string, o: string, m: string)
    ensures UnmarshalCondition(c, JObj(map["type" := JStr(t), "operation" := JStr(o), "message" := JStr(m)]))
            == Decoded(Condition(t, o, c.value, m), Some(MissingValue))
  {
  }
}
