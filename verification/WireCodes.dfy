/**
 The numbers of the wire format, pinned against the Python client's own codec: its table of
 operations, the tags its reader branches on, and the byte order of its `struct` formats.
 */
module WireCodes {
  import opened Types
  import opened Calendar
  import opened Wire
  import opened WireLaws
  import opened Framing

  // ------------------------------------------------------------- operations

  /** The operations in the order of their codes in the Python client's table. */
  const OPERATIONS: seq<Op> := [
    Ping, Insert, Get, Update, Delete, Scan, Subscribe, Find, Search, Call,
    JobSubmit, JobPoll, ProcDeploy, ProcList, ProcDrop, Version, TableCreate]

  /** Both codecs number the operations from 0 to 16 in this order, and no other code is an operation. */
  lemma OperationCodes(op: Op, t: byte)
    ensures OpTag(op) as int < |OPERATIONS| && OPERATIONS[OpTag(op)] == op
    ensures OpFromTag(t) == if t as int < |OPERATIONS| then Some(OPERATIONS[t]) else None
  {
  }

  // ------------------------------------------------- the Python value reader

  /** Values as Python has them. Integers have lost their width; doubles and singles are their bits. */
  datatype Py =
    | PyNone | PyBool(b: bool) | PyInt(n: int) | PyFloat(bits: U64) | PySingle(single: U32)
    | PyStr(s: Text) | PyDecimal(dec: Text) | PyBytes(raw: seq<byte>) | PyUuid(uuid: seq<byte>)

  /** What a plain value is in Python; instants go through a double there and dates are apart. */
  function Shown(v: Value): Option<Py> {
    match v
    case Null => Some(PyNone)
    case Boolean(b) => Some(PyBool(b))
    case Int8(n) => Some(PyInt(n))
    case Int16(n) => Some(PyInt(n))
    case Int32(n) => Some(PyInt(n))
    case Int64(n) => Some(PyInt(n))
    case UInt8(n) => Some(PyInt(n))
    case UInt16(n) => Some(PyInt(n))
    case UInt32(n) => Some(PyInt(n))
    case UInt64(n) => Some(PyInt(n))
    case Float32(bits) => Some(PySingle(bits))
    case Float64(bits) => Some(PyFloat(bits))
    case Decimal(s) => Some(PyDecimal(s))
    case String(s) => Some(PyStr(s))
    case Bytes(b) => Some(PyBytes(b))
    case Uuid(u) => Some(PyUuid(u))
    case _ => None
  }

  /** Little-endian, the first byte the least significant. */
  function Unsigned(b: seq<byte>): int
    requires |b| == 1 || |b| == 2 || |b| == 4 || |b| == 8
  {
    if |b| == 1 then b[0] as int
    else if |b| == 2 then b[0] as int + 0x100 * b[1] as int
    else if |b| == 4 then Unsigned(b[..2]) + 0x1_0000 * Unsigned(b[2..])
    else Unsigned(b[..4]) + 0x1_0000_0000 * Unsigned(b[4..])
  }

  /** Two's complement: half of the numbers stand for negative ones. */
  function Signed(b: seq<byte>): int
    requires |b| == 1 || |b| == 2 || |b| == 4 || |b| == 8
  {
    var n := Unsigned(b);
    match |b|
    case 1 => if n > 0x7F then n - 0x100 else n
    case 2 => if n > 0x7FFF then n - 0x1_0000 else n
    case 4 => if n > 0x7FFF_FFFF then n - 0x1_0000_0000 else n
    case _ => if n > 0x7FFF_FFFF_FFFF_FFFF then n - 0x1_0000_0000_0000_0000 else n
  }

  /** A fixed number of bytes, and what `of` makes of them. */
  function PyFixed(k: nat, s: seq<byte>, of: seq<byte> -> Option<Py>): Option<(Py, seq<byte>)> {
    if k > |s| then None else
    match of(s[..k]) case Some(p) => Some((p, s[k..])) case None => None
  }

  /** A 32-bit length and that many bytes. */
  function PyCounted(s: seq<byte>, of: seq<byte> -> Option<Py>): Option<(Py, seq<byte>)> {
    if |s| < 4 then None else PyFixed(Unsigned4(s[..4]), s[4..], of)
  }

  function Unsigned4(b: seq<byte>): nat
    requires |b| == 4
  {
    Sizes(b);
    Unsigned(b)
  }

  function AsInt(k: nat, signed: bool): seq<byte> -> Option<Py> {
    b => if |b| == k && (k == 1 || k == 2 || k == 4 || k == 8)
         then Some(PyInt(if signed then Signed(b) else Unsigned(b))) else None
  }

  function AsText(make: Text -> Py): seq<byte> -> Option<Py> { b => if ValidUtf8(b) then Some(make(b)) else None }

  function AsFlag(): seq<byte> -> Option<Py> { b => if |b| == 1 then Some(PyBool(b[0] != 0)) else None }

  function AsSingle(): seq<byte> -> Option<Py> {
    b => if |b| == 4 then Sizes(b); Some(PySingle(Unsigned(b))) else None
  }

  function AsDouble(): seq<byte> -> Option<Py> {
    b => if |b| == 8 then Sizes(b); Some(PyFloat(Unsigned(b))) else None
  }

  function AsBytes(make: seq<byte> -> Py): seq<byte> -> Option<Py> { b => Some(make(b)) }

  /** The reader's branches on the tag of a value without parts. */
  function PyScalar(s: seq<byte>): Option<(Py, seq<byte>)> {
    if s == [] then None else
    var body := s[1..];
    match s[0]
    case 0x00 => Some((PyNone, body))
    case 0x01 => PyFixed(1, body, AsFlag())
    case 0x02 => PyFixed(1, body, AsInt(1, true))
    case 0x03 => PyFixed(2, body, AsInt(2, true))
    case 0x04 => PyFixed(4, body, AsInt(4, true))
    case 0x05 => PyFixed(8, body, AsInt(8, true))
    case 0x06 => PyFixed(1, body, AsInt(1, false))
    case 0x07 => PyFixed(2, body, AsInt(2, false))
    case 0x08 => PyFixed(4, body, AsInt(4, false))
    case 0x09 => PyFixed(8, body, AsInt(8, false))
    case 0x0A => PyFixed(4, body, AsSingle())
    case 0x0B => PyFixed(8, body, AsDouble())
    case 0x0C => PyCounted(body, AsText((t: Text) => PyDecimal(t)))
    case 0x0D => PyCounted(body, AsText((t: Text) => PyStr(t)))
    case 0x0E => PyCounted(body, AsBytes((raw: seq<byte>) => PyBytes(raw)))
    case 0x0F => PyFixed(16, body, AsBytes((raw: seq<byte>) => PyUuid(raw)))
    case _ => None
  }

  lemma Sizes(b: seq<byte>)
    requires |b| == 1 || |b| == 2 || |b| == 4 || |b| == 8
    ensures Unsigned(b) == FromLE(b) && 0 <= Unsigned(b) < Bound(|b|)
  {
    FromLEBound(b);
    if |b| == 2 {
      assert b[1..][1..] == [];
    } else if |b| == 4 {
      Sizes(b[..2]);
      Sizes(b[2..]);
      FromLESplits(b, 2);
    } else if |b| == 8 {
      Sizes(b[..4]);
      Sizes(b[4..]);
      FromLESplits(b, 4);
    }
  }

  /** The low half, and the high half behind it. */
  lemma {:induction false} FromLESplits(b: seq<byte>, k: nat)
    requires k <= |b| && k <= 4
    ensures FromLE(b) == FromLE(b[..k]) + Bound(k) * FromLE(b[k..])
  {
    if k > 0 {
      FromLESplits(b[1..], k - 1);
      assert b[..k][1..] == b[1..][..k - 1] && b[k..] == b[1..][k - 1..];
      assert Bound(k) == 0x100 * Bound(k - 1);
      Distribute(Bound(k - 1), FromLE(b[k..]));
    }
  }

  lemma Distribute(x: int, y: int)
    ensures 0x100 * (x * y) == (0x100 * x) * y
  {
  }

  lemma IntegerShown(n: int, k: nat)
    requires k == 1 || k == 2 || k == 4 || k == 8
    ensures 0 <= n < Bound(k) ==> Unsigned(LE(n, k)) == n
    ensures -(Bound(k) / 2) <= n < Bound(k) / 2 ==> Signed(SignedLE(n, k)) == n
  {
    hide LE, FromLE;
    if 0 <= n < Bound(k) {
      LERoundTrip(n, k);
      Sizes(LE(n, k));
    }
    if -(Bound(k) / 2) <= n < Bound(k) / 2 {
      TwosComplement(n, k);
      var m := if n < 0 then n + Bound(k) else n;
      LERoundTrip(m, k);
      Sizes(LE(m, k));
    }
  }

  lemma FixedShown(k: nat, b: seq<byte>, rest: seq<byte>, of: seq<byte> -> Option<Py>)
    requires |b| == k && of(b).Some?
    ensures PyFixed(k, b + rest, of) == Some((of(b).value, rest))
  {
    assert (b + rest)[..k] == b && (b + rest)[k..] == rest;
  }

  lemma CountedShown(b: seq<byte>, rest: seq<byte>, of: seq<byte> -> Option<Py>)
    requires |b| < 0x1_0000_0000 && of(b).Some?
    ensures PyCounted(LE(|b|, 4) + b + rest, of) == Some((of(b).value, rest))
  {
    var s := LE(|b|, 4) + b + rest;
    IntegerShown(|b|, 4);
    assert s[..4] == LE(|b|, 4) && s[4..] == b + rest;
    FixedShown(|b|, b, rest, of);
  }

  lemma BytesShown(v: Value, rest: seq<byte>)
    requires ScalarFits(v) && (v.Decimal? || v.String? || v.Bytes? || v.Uuid?)
    ensures PyScalar(EncScalar(v) + rest) == Some((Shown(v).value, rest))
  {
    hide LE, SignedLE, FromLE, Bound, ValidUtf8, Unsigned, Signed, PyCounted, PyFixed;
    var s, body := EncScalar(v) + rest, ScalarBody(v);
    assert s[0] == ScalarTag(v) && s[1..] == body + rest;
    match v
    case Decimal(t) => CountedShown(t, rest, AsText((t: Text) => PyDecimal(t)));
    case String(t) => CountedShown(t, rest, AsText((t: Text) => PyStr(t)));
    case Bytes(b) => CountedShown(b, rest, AsBytes((raw: seq<byte>) => PyBytes(raw)));
    case Uuid(u) => FixedShown(16, u, rest, AsBytes((raw: seq<byte>) => PyUuid(raw)));
  }

  lemma NumbersShown(v: Value, rest: seq<byte>)
    requires !v.Decimal? && !v.String? && !v.Bytes? && !v.Uuid? && Shown(v).Some?
    ensures PyScalar(EncScalar(v) + rest) == Some((Shown(v).value, rest))
  {
    hide LE, SignedLE, FromLE, ValidUtf8, Unsigned, Signed, PyCounted, PyFixed;
    var s, body := EncScalar(v) + rest, ScalarBody(v);
    assert s[0] == ScalarTag(v) && s[1..] == body + rest;
    match v
    case Null => assert body + rest == rest;
    case Boolean(b) => FixedShown(1, body, rest, AsFlag());
    case Int8(n) => IntegerReads(n, 1, true, rest);
    case Int16(n) => IntegerReads(n, 2, true, rest);
    case Int32(n) => IntegerReads(n, 4, true, rest);
    case Int64(n) => IntegerReads(n, 8, true, rest);
    case UInt8(n) => IntegerReads(n, 1, false, rest);
    case UInt16(n) => IntegerReads(n, 2, false, rest);
    case UInt32(n) => IntegerReads(n, 4, false, rest);
    case UInt64(n) => IntegerReads(n, 8, false, rest);
    case Float32(bits) =>
      IntegerShown(bits, 4);
      FixedShown(4, LE(bits, 4), rest, AsSingle());
    case Float64(bits) =>
      IntegerShown(bits, 8);
      FixedShown(8, LE(bits, 8), rest, AsDouble());
  }

  /**
   The Python client reads every value that the Rust writer puts on the wire, of every type
   without parts but instants and dates: the same number, text or bytes, and leaves what follows.
   */
  lemma PythonReadsRustValues(v: Value, rest: seq<byte>)
    requires ScalarFits(v) && Shown(v).Some?
    ensures PyScalar(EncScalar(v) + rest) == Some((Shown(v).value, rest))
  {
    hide PyScalar, EncScalar, ScalarFits;
    if v.Decimal? || v.String? || v.Bytes? || v.Uuid? { BytesShown(v, rest); } else { NumbersShown(v, rest); }
  }

  lemma IntegerReads(n: int, k: nat, signed: bool, rest: seq<byte>)
    requires k == 1 || k == 2 || k == 4 || k == 8
    requires if signed then -(Bound(k) / 2) <= n < Bound(k) / 2 else 0 <= n < Bound(k)
    ensures PyFixed(k, (if signed then SignedLE(n, k) else LE(n, k)) + rest, AsInt(k, signed)) == Some((PyInt(n), rest))
  {
    hide LE, FromLE, Unsigned, Signed;
    IntegerShown(n, k);
    var b := if signed then SignedLE(n, k) else LE(n, k);
    FixedShown(k, b, rest, AsInt(k, signed));
  }

  // ------------------------------------------------------------ layouts

  /** The tags of values with parts, and the count behind them. */
  lemma PartsLayout(j: ListedJson, items: seq<ListedValue>, fields: seq<Field>, js: seq<ListedJson>)
    requires |items| < 0x1_0000_0000 && |fields| < 0x1_0000_0000 && |js| < 0x1_0000_0000
    ensures EncValue(Js(j)) == [0x12] + EncJson(j)
    ensures var b := EncValue(Items(items)); |b| >= 5 && b[0] == 0x13 && Unsigned(b[1..5]) == |items|
    ensures var b := EncJson(JItems(js)); |b| >= 5 && b[0] == 0x13 && Unsigned(b[1..5]) == |js|
    ensures var b := EncJson(JFields(fields)); |b| >= 5 && b[0] == 0x12 && Unsigned(b[1..5]) == |fields|
  {
    hide LE, Unsigned;
    IntegerShown(|items|, 4);
    IntegerShown(|fields|, 4);
    IntegerShown(|js|, 4);
    assert EncValue(Items(items))[1..5] == LE(|items|, 4);
    assert EncJson(JItems(js))[1..5] == LE(|js|, 4);
    assert EncJson(JFields(fields))[1..5] == LE(|fields|, 4);
  }

  /** JSON without parts uses the tags and bodies of plain values. */
  lemma JsonLayout(j: Json)
    ensures j.JNull? ==> EncJsonScalar(j) == EncScalar(Null)
    ensures j.JBool? ==> EncJsonScalar(j) == EncScalar(Boolean(j.b))
    ensures j.JInt? && j.n < 0x8000_0000_0000_0000 ==> EncJsonScalar(j) == EncScalar(Int64(j.n))
    ensures j.JInt? && j.n >= 0x8000_0000_0000_0000 ==> EncJsonScalar(j) == EncScalar(UInt64(j.n))
    ensures j.JFloat? ==> EncJsonScalar(j) == EncScalar(Float64(j.bits))
    ensures j.JStr? ==> EncJsonScalar(j) == EncScalar(String(j.s))
  {
  }

  /** Kind, id, verdict and number of rows stand at the front of every response. */
  lemma ResponseLayout(w: ListedResponse)
    requires |w.rows| < 0x1_0000_0000
    ensures var p := ResponsePayload(w);
      && |p| >= 15 && p[0] == 0x11 && Unsigned(p[1..9]) == w.id
      && p[9] == (if w.ok then 1 else 0) && Unsigned(p[10..14]) == |w.rows|
      && (w.rows == [] ==> p[14] == if w.error.Some? then 1 else 0)
  {
    hide LE, Unsigned, EncRows;
    IntegerShown(w.id, 8);
    IntegerShown(|w.rows|, 4);
    var p, tail := ResponsePayload(w), EncRows(w.rows) + EncOptText(w.error);
    assert p == [0x11] + LE(w.id, 8) + [Flag(w.ok)] + LE(|w.rows|, 4) + tail;
    assert p[1..9] == LE(w.id, 8) && p[10..14] == LE(|w.rows|, 4) && p[14..] == tail;
    NoRows();
  }

  lemma NoRows()
    ensures EncRows([]) == []
  {
  }

  /** Kind, id and number of parts stand at the front of batches; an atomic batch differs in its kind only. */
  lemma BatchLayout(id: U64, ops: seq<ListedRequest>, rs: seq<ListedResponse>)
    requires |ops| < 0x1_0000_0000 && |rs| < 0x1_0000_0000
    ensures forall kind: byte :: var p := BatchPayload(kind, id, ops);
      |p| >= 13 && p[0] == kind && Unsigned(p[1..9]) == id && Unsigned(p[9..13]) == |ops|
    ensures KIND_REQUEST == 0x01 && KIND_BATCH_REQUEST == 0x02 && KIND_ATOMIC_BATCH_REQUEST == 0x03
    ensures var p := BatchResponsePayload(id, rs);
      |p| >= 13 && p[0] == 0x12 && Unsigned(p[1..9]) == id && Unsigned(p[9..13]) == |rs|
  {
    hide LE, Unsigned, EncRequests, EncResponses;
    IntegerShown(id, 8);
    IntegerShown(|ops|, 4);
    IntegerShown(|rs|, 4);
    forall kind: byte
      ensures var p := BatchPayload(kind, id, ops);
        |p| >= 13 && p[0] == kind && Unsigned(p[1..9]) == id && Unsigned(p[9..13]) == |ops|
    {
      var p := BatchPayload(kind, id, ops);
      assert p[1..9] == LE(id, 8) && p[9..13] == LE(|ops|, 4);
    }
    var p := BatchResponsePayload(id, rs);
    assert p[1..9] == LE(id, 8) && p[9..13] == LE(|rs|, 4);
  }

  /** A frame is the version, a 32-bit length and the payload. */
  lemma FrameLayout(payload: seq<byte>)
    requires |payload| < 0x1_0000_0000
    ensures var f := Framed(payload);
      |f| == 5 + |payload| && f[0] == 2 && Unsigned(f[1..5]) == |payload| && f[5..] == payload
  {
    hide LE, Unsigned;
    IntegerShown(|payload|, 4);
    assert Framed(payload)[1..5] == LE(|payload|, 4);
  }

  /** A frame is refused exactly when its header is there and names another version or too long a payload. */
  lemma RefusedIff(maxFrame: nat, buf: seq<byte>)
    ensures FeedOne(maxFrame, buf).BadFrame? <==> |buf| >= 5 && (buf[0] != 2 || Unsigned(buf[1..5]) > maxFrame)
    ensures FeedOne(maxFrame, buf).NeedMore? <==>
            |buf| < 5 || (buf[0] == 2 && Unsigned(buf[1..5]) <= maxFrame && |buf| < 5 + Unsigned(buf[1..5]))
  {
    hide Unsigned;
    if |buf| >= 5 { Sizes(buf[1..5]); }
  }

  /** A double in JSON reads as it is when it is finite, and as null when it is not. */
  lemma JsonDoubleReads(bits: U64, rest: seq<byte>)
    ensures DecJson([0x0B] + LE(bits, 8) + rest) == Got(if FiniteBits(bits) then JFloat(bits) else JNull, rest)
  {
    hide LE, DecUint, Bound, FiniteBits;
    EightBytes(bits);
    UintReadsBack(bits, 8, rest);
    var s := [0x0B] + LE(bits, 8) + rest;
    assert s[1..] == LE(bits, 8) + rest;
  }

  lemma EightBytes(n: U64)
    ensures n < Bound(8)
  {
  }

  /** Every date of the years -262143 to 262142 can be sent. */
  lemma DatesFit(d: Civil)
    requires ValidDate(d) && -262143 <= d.y <= 262142
    ensures ScalarFits(Date(d))
  {
    hide DaysBeforeYear, DaysBeforeMonth, IsLeap;
    YearsBounded(d.y);
    StartsNotBelow(d.y, d.m);
    MonthsMakeYear(d.y);
    if d.m < 12 { MonthsGrow(d.y, d.m, 12); }
    MonthHasDays(d.y, d.m);
  }

  // ------------------------------------------------------ what is refused

  /** Payloads of any other kind are refused by all four decoders. */
  lemma KindsAreStrict(s: seq<byte>)
    ensures DecodeRequest(s).Some? ==> s != [] && s[0] == 0x01
    ensures DecodeIncoming(s).Some? ==> s != [] && s[0] in {0x01, 0x02, 0x03}
    ensures DecodeIncoming(s).Some? ==> match DecodeIncoming(s).value
                                        case Single(_) => s[0] == 0x01
                                        case Batch(_, _) => s[0] == 0x02
                                        case AtomicBatch(_, _) => s[0] == 0x03
    ensures DecodeResponse(s).Some? ==> s != [] && s[0] == 0x11
    ensures DecodeBatchResponse(s).Some? ==> s != [] && s[0] == 0x12
  {
    hide DecRequest, DecBatch, DecResponse, DecBatchHead, DecResponses;
  }

  /** A 32-bit count at the front, no larger than `cap`. */
  predicate CountedUpTo(s: seq<byte>, cap: int) { |s| >= 4 && Unsigned(s[..4]) <= cap }

  lemma CountOf(s: seq<byte>)
    ensures DecUint(4, s).Got? <==> |s| >= 4
    ensures |s| >= 4 ==> DecUint(4, s).val == Unsigned(s[..4])
  {
    hide Unsigned;
    if |s| >= 4 { Sizes(s[..4]); }
  }

  /** Flags are 0 or 1, and 0 means that nothing follows. */
  lemma FlagsAreStrict(s: seq<byte>)
    ensures DecRowId(s).Got? ==> s[0] <= 1 && (s[0] == 0 <==> DecRowId(s).val.None?)
    ensures DecOptMap(s).Got? ==> s[0] <= 1 && (s[0] == 0 <==> DecOptMap(s).val.None?)
    ensures DecOptText(s).Got? ==> s[0] <= 1 && (s[0] == 0 <==> DecOptText(s).val.None?)
  {
    hide DecUint, DecMap, DecText;
  }

  /** Values have one of twenty tags, and arrays at most 65536 items. */
  lemma ValuesRefuse(s: seq<byte>)
    ensures DecValue(s).Got? ==> s[0] <= 0x13 && (s[0] == 0x13 ==> CountedUpTo(s[1..], 65536))
  {
    hide Unsigned, DecUint, DecValues, DecDate, DecText, DecInt, DecJson, Take;
    if s != [] { CountOf(s[1..]); }
  }

  /** JSON has one of eight tags, objects at most 4096 members and arrays at most 65536 items. */
  lemma JsonRefuses(s: seq<byte>)
    ensures DecJson(s).Got? ==> s[0] in {0x00, 0x01, 0x05, 0x09, 0x0B, 0x0D, 0x12, 0x13}
    ensures DecJson(s).Got? && s[0] == 0x12 ==> CountedUpTo(s[1..], 4096)
    ensures DecJson(s).Got? && s[0] == 0x13 ==> CountedUpTo(s[1..], 65536)
  {
    hide Unsigned, DecUint, DecFields, DecJsons, DecText, DecInt;
    if s != [] { CountOf(s[1..]); }
  }

  /** Maps have at most 4096 entries, responses a million rows, batches 4096 parts. */
  lemma MapsRefuse(s: seq<byte>)
    ensures DecMap(s).Got? ==> CountedUpTo(s, 4096)
  {
    hide Unsigned, DecUint, DecEntries;
    CountOf(s);
  }

  lemma HeadCounts(s: seq<byte>)
    ensures DecResponseHead(s).Got? ==> |s| >= 9 && CountedUpTo(s[9..], 1_000_000)
    ensures DecBatchHead(s).Got? ==> |s| >= 8 && CountedUpTo(s[8..], 4096)
  {
    hide Unsigned, FromLE;
    if |s| >= 8 { CountOf(s[8..]); }
    if |s| >= 9 { CountOf(s[9..]); assert s[8..][1..] == s[9..]; }
  }

  /** And the caps are no smaller than that: as many parts are let through, if each fits. */
  lemma CapsAllow(es: ListedMap, items: seq<ListedValue>, js: seq<ListedJson>, fs: seq<Field>, r: ListedResponse)
    ensures |es| <= 4096 && EntriesFit(es) ==> MapFits(es)
    ensures |items| <= 65536 && ValuesFit(items) ==> ValueFits(Items(items))
    ensures |js| <= 65536 && JsonsFit(js) ==> JsonFits(JItems(js))
    ensures |fs| <= 4096 && FieldsFit(fs) ==> JsonFits(JFields(fs))
    ensures |r.rows| <= 1_000_000 && RowsFit(r.rows) && (r.error.Some? ==> TextFits(r.error.value)) ==> ResponseFits(r)
    ensures MAX_BATCH >= 4096
  {
  }
}
