/**
 What is left of a cell after a trip through a log or a snapshot, said of the values
 themselves and not of the JSON in between.
 */
module CellContents {
  import opened Types
  import opened JsonValues
  import opened Recovery
  import opened Durable
  import opened EngineHistory

  /** An integer cell of any width that holds `n`. */
  predicate IsInteger(v: Value, n: int) {
    || (v.Int8? && v.i8 == n) || (v.Int16? && v.i16 == n) || (v.Int32? && v.i32 == n) || (v.Int64? && v.i64 == n)
    || (v.UInt8? && v.u8 == n) || (v.UInt16? && v.u16 == n) || (v.UInt32? && v.u32 == n) || (v.UInt64? && v.u64 == n)
  }

  /**
   `back` is what is left of `v`: integers keep their number and only lose their width,
   text stays text, lists keep their length and what is in them.
   */
  ghost predicate ComesBackAs(f: Foreign, v: Value, back: Value)
    decreases v
  {
    && (v == Null ==> back == Null)
    && (v.Boolean? || v.Int64? || v.String? ==> back == v)
    && (forall n: int :: IsInteger(v, n) ==>
          (if n < 0x8000_0000_0000_0000 then back.Int64? && back.i64 == n else back.UInt64? && back.u64 == n))
    && (v.Float64? ==> back == if FiniteBits(v.f64) then v else Null)
    && (v.Float32? ==> if NonFinite32(v.f32) then back == Null else back.Float64? && back.f64 == f.widen(v.f32))
    && (v.Decimal? ==> back == String(v.dec))
    && (v.Uuid? || v.Timestamp? || v.Date? ==> back == String(f.render(v)))
    && (v.Bytes? ==>
          && back.JsonV? && back.j.JArr? && |back.j.items| == |v.raw|
          && forall i :: 0 <= i < |v.raw| ==> back.j.items[i] == JInt(v.raw[i] as int))
    && (v.Array? ==>
          && back.JsonV? && back.j.JArr? && |back.j.items| == |v.items|
          && forall i :: 0 <= i < |v.items| ==> ComesBackAs(f, v.items[i], JsonToValue(back.j.items[i])))
    && (v.JsonV? ==> ReadsAs(v.j, back))
  }

  /** JSON lists and objects come back as JSON, anything else as the plain value it says. */
  predicate ReadsAs(j: Json, back: Value) {
    match j
    case JNull => back == Null
    case JBool(b) => back == Boolean(b)
    case JInt(n) => IsInteger(back, n) && (back.Int64? || (back.UInt64? && n >= 0x8000_0000_0000_0000))
    case JFloat(bits) => back.Float64? && back.f64 == bits
    case JStr(s) => back == String(s)
    case JArr(_) => back == JsonV(j)
    case JObj(_) => back == JsonV(j)
  }

  lemma {:induction false} ItemsToJson(f: Foreign, vs: seq<Value>)
    ensures |ValuesToJson(f, vs)| == |vs|
    ensures forall i :: 0 <= i < |vs| ==> ValuesToJson(f, vs)[i] == ValueToJson(f, vs[i])
  {
    hide ValueToJson;
    if vs != [] { ItemsToJson(f, vs[1..]); }
  }

  /** What every cell comes back as, whatever its type. */
  lemma {:induction false} CellComesBack(f: Foreign, v: Value)
    ensures ComesBackAs(f, v, Norm(f, v))
    decreases v
  {
    hide FiniteBits, NonFinite32, ValuesToJson;
    if v.Array? {
      ItemsToJson(f, v.items);
      forall i | 0 <= i < |v.items| ensures ComesBackAs(f, v.items[i], Norm(f, v.items[i])) {
        CellComesBack(f, v.items[i]);
      }
    }
  }

  /** A cell comes back as it was exactly when JSON has a place for its type and its number. */
  lemma UnchangedIff(f: Foreign, v: Value)
    ensures Norm(f, v) == v <==>
            || v == Null || v.Boolean? || v.Int64? || v.String?
            || (v.UInt64? && v.u64 >= 0x8000_0000_0000_0000)
            || (v.Float64? && FiniteBits(v.f64))
            || (v.JsonV? && (v.j.JArr? || v.j.JObj?))
  {
    hide FiniteBits, NonFinite32, ValuesToJson;
  }

  /** A double is finite unless its exponent is all ones, whatever its sign and mantissa. */
  lemma FiniteIff(sign: int, exponent: int, mantissa: int)
    requires 0 <= sign < 2 && 0 <= exponent < 0x800 && 0 <= mantissa < 0x10_0000_0000_0000
    ensures FiniteBits(sign * 0x8000_0000_0000_0000 + exponent * 0x10_0000_0000_0000 + mantissa) <==> exponent != 0x7FF
  {
    var bits := sign * 0x8000_0000_0000_0000 + exponent * 0x10_0000_0000_0000 + mantissa;
    assert bits == (sign * 0x800 + exponent) * 0x10_0000_0000_0000 + mantissa;
    assert bits / 0x10_0000_0000_0000 == sign * 0x800 + exponent;
  }

  /** The same for a 32-bit float. */
  lemma NonFinite32Iff(sign: int, exponent: int, mantissa: int)
    requires 0 <= sign < 2 && 0 <= exponent < 0x100 && 0 <= mantissa < 0x80_0000
    ensures NonFinite32(sign * 0x8000_0000 + exponent * 0x80_0000 + mantissa) <==> exponent == 0xFF
  {
    var bits := sign * 0x8000_0000 + exponent * 0x80_0000 + mantissa;
    assert bits == (sign * 0x100 + exponent) * 0x80_0000 + mantissa;
    assert bits / 0x80_0000 == sign * 0x100 + exponent;
  }

  // ------------------------------------------------------------- whole rows

  /** The same columns, each come back as its cell does; a missing row stays missing. */
  ghost predicate RowComesBack(f: Foreign, x: Option<Values>, back: Option<Values>) {
    && (x.None? <==> back.None?)
    && (x.Some? ==>
          && back.value.Keys == x.value.Keys
          && forall c :: c in x.value ==> ComesBackAs(f, x.value[c], back.value[c]))
  }

  lemma StateComesBack(f: Foreign, x: Option<Values>)
    ensures RowComesBack(f, x, NormState(f, x))
  {
    hide ComesBackAs, Norm;
    if x.Some? {
      forall c | c in x.value ensures ComesBackAs(f, x.value[c], NormRow(f, x.value)[c]) {
        CellComesBack(f, x.value[c]);
        CellOfRow(f, x.value, c);
      }
    }
  }

  lemma CellOfRow(f: Foreign, row: Values, c: Text)
    requires c in row
    ensures c in NormRow(f, row) && NormRow(f, row)[c] == Norm(f, row[c])
  {
    hide ValueToJson, JsonToValue;
  }

  /**
   Recovery of the engine, cell by cell: the recovered row has exactly the columns that
   the engine's row had at `b`, with what comes back of each.
   */
  lemma EngineCellsRecover(f: Foreign, sc: Schemas, e: EngineState, ops: seq<EngineOp>, log: seq<Entry>,
                           m: nat, a: nat, b: nat, dir: Dir, seen: LiveState, name: Text, id: nat)
    requires AllSound(sc, e) && a <= b <= |ops| && LogOf(f, History(sc, e, ops), log)
    requires m <= |History(sc, e, ops[..a])|
    requires dir.snapshot.Some? && IsSnapshotOf(f, dir.snapshot.value, seen)
    requires LiveRow(seen, name, id) == RowAt(EngineRun(sc, e, ops[..a]), name, id)
    requires m <= |History(sc, e, ops[..b])| <= |log|
    requires Project(AllLogs(dir.files), 0, name, id) == Project(log[m..|History(sc, e, ops[..b])|], 0, name, id)
    ensures RowComesBack(f, RowAt(EngineRun(sc, e, ops[..b]), name, id), RowAt(Recovered(map[], dir), name, id))
  {
    hide *;
    EngineRecovers(f, sc, e, ops, log, m, a, b, dir, seen, name, id);
    StateComesBack(f, RowAt(EngineRun(sc, e, ops[..b]), name, id));
  }

  /** So an integer cell that holds `n` before is an integer cell that holds `n` after. */
  lemma IntegersRecover(f: Foreign, x: Option<Values>, back: Option<Values>, c: Text, n: int)
    requires RowComesBack(f, x, back) && x.Some? && c in x.value && IsInteger(x.value[c], n)
    ensures back.Some? && c in back.value && IsInteger(back.value[c], n)
  {
    hide FiniteBits, NonFinite32, Norm, JsonToValue, ReadsAs;
    assert ComesBackAs(f, x.value[c], back.value[c]);
  }
}
