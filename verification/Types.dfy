/**
 Values of the database, with the integer widths of the source written out as
 subset types. Floats are their raw bit patterns; text is its UTF-8 bytes.
 */
module Types {
  import opened Calendar

  datatype Option<+T> = None | Some(value: T) {
    predicate IsFailure() { None? }

    function PropagateFailure<U>(): Option<U>
      requires None?
    { None }

    function Extract(): T
      requires Some?
    { value }
  }

  newtype byte = n: int | 0 <= n < 0x100
  type Text = seq<byte>

  type I8 = n: int | -0x80 <= n < 0x80
  type I16 = n: int | -0x8000 <= n < 0x8000
  type I32 = n: int | -0x8000_0000 <= n < 0x8000_0000
  type I64 = n: int | -0x8000_0000_0000_0000 <= n < 0x8000_0000_0000_0000
  type U8 = n: int | 0 <= n < 0x100
  type U16 = n: int | 0 <= n < 0x1_0000
  type U32 = n: int | 0 <= n < 0x1_0000_0000
  type U64 = n: int | 0 <= n < 0x1_0000_0000_0000_0000

  /** The exponent bits of a double are not all ones: neither infinite nor NaN. */
  predicate FiniteBits(bits: int) {
    0 <= bits < 0x1_0000_0000_0000_0000 && (bits / 0x10_0000_0000_0000) % 0x800 != 0x7FF
  }

  /** JSON numbers: an integer in i64 or u64 range, or a finite double. */
  type JsonInt = n: int | -0x8000_0000_0000_0000 <= n < 0x1_0000_0000_0000_0000
  type JsonBits = n: int | FiniteBits(n)

  datatype Json =
    | JNull
    | JBool(b: bool)
    | JInt(n: JsonInt)
    | JFloat(bits: JsonBits)
    | JStr(s: Text)
    | JArr(items: seq<Json>)
    | JObj(fields: map<Text, Json>)

  datatype Value =
    | Boolean(b: bool)
    | Int8(i8: I8)
    | Int16(i16: I16)
    | Int32(i32: I32)
    | Int64(i64: I64)
    | UInt8(u8: U8)
    | UInt16(u16: U16)
    | UInt32(u32: U32)
    | UInt64(u64: U64)
    | Float32(f32: U32)
    | Float64(f64: U64)
    | Decimal(dec: Text)
    | String(s: Text)
    | Bytes(raw: seq<byte>)
    | Uuid(uuid: seq<byte>)
    | Timestamp(micros: I64)
    | Date(date: Civil)
    | JsonV(j: Json)
    | Array(items: seq<Value>)
    | Null
}
