/** JSON arguments, their protobuf form, and the trip from one service to the other. */
module Json {
  import opened Options
  import opened Floats

  /** serde_json keeps integers and floats apart; its floats are finite. */
  datatype Json =
    | JNull | JBool(flag: bool) | JInt(n: int) | JFloat(r: real) | JString(text: string)
    | JArray(items: seq<Json>) | JObject(fields: map<string, Json>)

  /** prost_types::Value; NoKind is a value whose oneof is unset. */
  datatype ProtoValue =
    | NoKind | NullValue | BoolValue(flag: bool) | NumberValue(number: Float) | StringValue(text: string)
    | ListValue(values: seq<ProtoValue>) | StructValue(fields: map<string, ProtoValue>)

  type ProtoStruct = map<string, ProtoValue>

  function JsonToValue(v: Json): ProtoValue {
    match v
    case JNull => NullValue
    case JBool(b) => BoolValue(b)
    case JInt(n) => NumberValue(Finite(n as real))
    case JFloat(r) => NumberValue(Finite(r))
    case JString(t) => StringValue(t)
    case JArray(items) => ListValue(seq(|items|, i requires 0 <= i < |items| => JsonToValue(items[i])))
    case JObject(fields) => StructValue(map k | k in fields :: JsonToValue(fields[k]))
  }

  /** Only an object has fields to send. */
  function JsonToStruct(v: Json): ProtoStruct {
    match v
    case JObject(fields) => map k | k in fields :: JsonToValue(fields[k])
    case _ => map[]
  }

  /** Infinities and NaN have no JSON number and become null. */
  function ValueToJson(v: ProtoValue): Json {
    match v
    case NoKind => JNull
    case NullValue => JNull
    case BoolValue(b) => JBool(b)
    case NumberValue(n) => if n.Finite? then JFloat(n.r) else JNull
    case StringValue(t) => JString(t)
    case ListValue(values) => JArray(seq(|values|, i requires 0 <= i < |values| => ValueToJson(values[i])))
    case StructValue(fields) => JObject(map k | k in fields :: ValueToJson(fields[k]))
  }

  function StructToJson(s: Option<ProtoStruct>): Json {
    match s
    case None => JObject(map[])
    case Some(fields) => JObject(map k | k in fields :: ValueToJson(fields[k]))
  }

  /** The same value with every integer written as a float. */
  function Floated(v: Json): Json {
    match v
    case JInt(n) => JFloat(n as real)
    case JArray(items) => JArray(seq(|items|, i requires 0 <= i < |items| => Floated(items[i])))
    case JObject(fields) => JObject(map k | k in fields :: Floated(fields[k]))
    case _ => v
  }

  predicate NoIntegers(v: Json) {
    match v
    case JInt(_) => false
    case JArray(items) => forall i :: 0 <= i < |items| ==> NoIntegers(items[i])
    case JObject(fields) => forall k :: k in fields ==> NoIntegers(fields[k])
    case _ => true
  }

  /** Arbitrarily nested values come back with nothing but their integers rewritten. */
  lemma {:induction false} ValueRoundTrip(v: Json)
    ensures ValueToJson(JsonToValue(v)) == Floated(v)
  {
    match v
    case JArray(items) =>
      forall i | 0 <= i < |items| { ValueRoundTrip(items[i]); }
    case JObject(fields) =>
      forall k | k in fields { ValueRoundTrip(fields[k]); }
    case _ =>
  }

  lemma {:induction false} FloatedExactly(v: Json)
    ensures Floated(v) == v <==> NoIntegers(v)
  {
    match v
    case JArray(items) =>
      forall i | 0 <= i < |items| ensures Floated(items[i]) == items[i] <==> NoIntegers(items[i]) { FloatedExactly(items[i]); }
      var r := Floated(v).items;
      assert forall i :: 0 <= i < |items| ==> r[i] == Floated(items[i]);
      if NoIntegers(v) { assert r == items; }
    case JObject(fields) =>
      forall k | k in fields ensures Floated(fields[k]) == fields[k] <==> NoIntegers(fields[k]) { FloatedExactly(fields[k]); }
      var r := Floated(v).fields;
      assert forall k :: k in fields ==> r[k] == Floated(fields[k]);
      if NoIntegers(v) { assert r == fields; }
    case _ =>
  }

  /** Arguments sent by the proxy and read by the graph service: an object comes
      back with floats for integers, and so unchanged exactly when it has no
      integer; anything else arrives as the empty object. */
  lemma ArgumentsRoundTrip(v: Json)
    ensures v.JObject? ==> StructToJson(Some(JsonToStruct(v))) == Floated(v)
    ensures v.JObject? ==> (StructToJson(Some(JsonToStruct(v))) == v <==> NoIntegers(v))
    ensures !v.JObject? ==> StructToJson(Some(JsonToStruct(v))) == JObject(map[])
  {
    if v.JObject? {
      forall k | k in v.fields { ValueRoundTrip(v.fields[k]); }
      FloatedExactly(v);
    }
  }

  /** The same wire value with an unset kind, and a number JSON cannot hold, as null. */
  function Nulled(v: ProtoValue): ProtoValue {
    match v
    case NoKind => NullValue
    case NumberValue(n) => if n == PosInf || n == NegInf || n == NaN then NullValue else v
    case ListValue(values) => ListValue(seq(|values|, i requires 0 <= i < |values| => Nulled(values[i])))
    case StructValue(fields) => StructValue(map k | k in fields :: Nulled(fields[k]))
    case _ => v
  }

  /** The other way round: a wire value read and sent again comes back so nulled. */
  lemma {:induction false} WireRoundTrip(v: ProtoValue)
    ensures JsonToValue(ValueToJson(v)) == Nulled(v)
  {
    match v
    case ListValue(values) =>
      forall i | 0 <= i < |values| { WireRoundTrip(values[i]); }
    case StructValue(fields) =>
      forall k | k in fields { WireRoundTrip(fields[k]); }
    case _ =>
  }

  lemma StructRoundTrip(s: Option<ProtoStruct>)
    ensures StructToJson(s).JObject?
    ensures s.None? ==> StructToJson(s) == JObject(map[])
    ensures s.Some? ==> StructValue(JsonToStruct(StructToJson(s))) == Nulled(StructValue(s.value))
  {
    if s.Some? { FieldsRoundTrip(s.value); }
  }

  lemma FieldsRoundTrip(s: ProtoStruct)
    ensures JsonToStruct(StructToJson(Some(s))) == map k | k in s :: Nulled(s[k])
  {
    forall k | k in s ensures JsonToValue(ValueToJson(s[k])) == Nulled(s[k]) { WireRoundTrip(s[k]); }
  }
}
