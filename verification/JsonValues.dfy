/**
 The JSON form of values in log payloads and snapshots.

 Text rendering of uuids, timestamps and dates, and the widening of a 32-bit float,
 are foreign: `Foreign` carries them as functions.
 */
module JsonValues {
  import opened Types

  datatype Foreign = Foreign(render: Value -> Text, widen: U32 -> JsonBits)

  /** Exponent bits of a 32-bit float are all ones. */
  predicate NonFinite32(bits: U32) { (bits / 0x80_0000) % 0x100 == 0xFF }

  function ValueToJson(f: Foreign, v: Value): Json {
    match v
    case Null => JNull
    case Boolean(b) => JBool(b)
    case Int8(n) => JInt(n)
    case Int16(n) => JInt(n)
    case Int32(n) => JInt(n)
    case Int64(n) => JInt(n)
    case UInt8(n) => JInt(n)
    case UInt16(n) => JInt(n)
    case UInt32(n) => JInt(n)
    case UInt64(n) => JInt(n)
    case Float32(bits) => if NonFinite32(bits) then JNull else JFloat(f.widen(bits))
    case Float64(bits) => if FiniteBits(bits) then JFloat(bits) else JNull
    case Decimal(s) => JStr(s)
    case String(s) => JStr(s)
    case Bytes(raw) => JArr(seq(|raw|, i requires 0 <= i < |raw| => JInt(raw[i] as int)))
    case Uuid(_) => JStr(f.render(v))
    case Timestamp(_) => JStr(f.render(v))
    case Date(_) => JStr(f.render(v))
    case JsonV(j) => j
    case Array(items) => JArr(ValuesToJson(f, items))
  }

  function ValuesToJson(f: Foreign, vs: seq<Value>): seq<Json> {
    if vs == [] then [] else [ValueToJson(f, vs[0])] + ValuesToJson(f, vs[1..])
  }

  function JsonToValue(j: Json): Value {
    match j
    case JNull => Null
    case JBool(b) => Boolean(b)
    case JInt(n) => if n < 0x8000_0000_0000_0000 then Int64(n) else UInt64(n)
    case JFloat(bits) => Float64(bits)
    case JStr(s) => String(s)
    case JArr(_) => JsonV(j)
    case JObj(_) => JsonV(j)
  }

  /** What a stored value is after one trip through a log or a snapshot. */
  function Norm(f: Foreign, v: Value): Value { JsonToValue(ValueToJson(f, v)) }

  /** JSON survives the trip through values unchanged. */
  lemma JsonIsFixed(f: Foreign, j: Json)
    ensures ValueToJson(f, JsonToValue(j)) == j
  {
  }

  /** A second trip changes nothing more. */
  lemma NormIsIdempotent(f: Foreign, v: Value)
    ensures Norm(f, Norm(f, v)) == Norm(f, v)
  {
    JsonIsFixed(f, ValueToJson(f, v));
  }

  type Values = map<Text, Value>
  type JsonRow = map<Text, Json>

  function RowToJson(f: Foreign, row: Values): JsonRow { map k | k in row :: ValueToJson(f, row[k]) }
  function JsonToRow(row: JsonRow): Values { map k | k in row :: JsonToValue(row[k]) }
  function NormRow(f: Foreign, row: Values): Values { JsonToRow(RowToJson(f, row)) }

  lemma JsonRowIsFixed(f: Foreign, row: JsonRow)
    ensures RowToJson(f, JsonToRow(row)) == row
  {
    forall k | k in row { JsonIsFixed(f, row[k]); }
  }
}
