/**
 The wire format: what the writer emits and what the reader accepts.

 A map travels in whatever order its iterator visits it, so the writer works on
 listings: trees in which every map is a sequence of entries. `Denote…` gives the
 value a listing stands for. The reader works on arbitrary bytes and returns the
 value read together with the bytes left over.
 */
module Wire {
  import opened Types
  import opened Calendar

  const PROTOCOL_VERSION: byte := 2
  const HEADER_LEN := 5
  const KIND_REQUEST: byte := 0x01
  const KIND_BATCH_REQUEST: byte := 0x02
  const KIND_ATOMIC_BATCH_REQUEST: byte := 0x03
  const KIND_RESPONSE: byte := 0x11
  const KIND_BATCH_RESPONSE: byte := 0x12

  const MAX_ARRAY := 65536
  const MAX_MAP := 4096
  const MAX_BATCH := 4096
  const MAX_ROWS := 1_000_000

  // ---------------------------------------------------------------- integers

  /** Little-endian bytes of `n`, cut to `k` bytes. */
  function LE(n: nat, k: nat): (b: seq<byte>)
    ensures |b| == k
  {
    if k == 0 then [] else [(n % 0x100) as byte] + LE(n / 0x100, k - 1)
  }

  function FromLE(b: seq<byte>): nat {
    if b == [] then 0 else b[0] as int + 0x100 * FromLE(b[1..])
  }

  /** One past the largest unsigned integer of `k` bytes. */
  function Bound(k: nat): (r: nat)
    ensures r > 0
    ensures k == 1 ==> r == 0x100
    ensures k == 2 ==> r == 0x1_0000
    ensures k == 4 ==> r == 0x1_0000_0000
    ensures k == 8 ==> r == 0x1_0000_0000_0000_0000
  {
    if k == 0 then 1
    else if k == 8 then 0x1_0000_0000_0000_0000
    else 0x100 * Bound(k - 1)
  }

  /** Two's complement of `n` in `k` bytes. */
  function SignedLE(n: int, k: nat): seq<byte> {
    LE(n % Bound(k), k)
  }

  // -------------------------------------------------------------------- UTF-8

  predicate Tail(b: byte) { 0x80 <= b <= 0xBF }

  /** Length of the well-formed UTF-8 sequence at the front of `s`, 0 if there is none (RFC 3629, section 4). */
  function CharLen(s: seq<byte>): (n: nat)
    ensures n <= |s|
  {
    if s == [] then 0
    else if s[0] <= 0x7F then 1
    else if 0xC2 <= s[0] <= 0xDF && |s| >= 2 && Tail(s[1]) then 2
    else if |s| >= 3 && Tail(s[2]) && (
              || (s[0] == 0xE0 && 0xA0 <= s[1] <= 0xBF)
              || (0xE1 <= s[0] <= 0xEC && Tail(s[1]))
              || (s[0] == 0xED && 0x80 <= s[1] <= 0x9F)
              || (0xEE <= s[0] <= 0xEF && Tail(s[1]))) then 3
    else if |s| >= 4 && Tail(s[2]) && Tail(s[3]) && (
              || (s[0] == 0xF0 && 0x90 <= s[1] <= 0xBF)
              || (0xF1 <= s[0] <= 0xF3 && Tail(s[1]))
              || (s[0] == 0xF4 && 0x80 <= s[1] <= 0x8F)) then 4
    else 0
  }

  predicate ValidUtf8(s: seq<byte>) {
    s == [] || (CharLen(s) > 0 && ValidUtf8(s[CharLen(s)..]))
  }

  // ----------------------------------------------------------------- messages

  datatype Op =
    | Ping | Insert | Get | Update | Delete | Scan | Subscribe | Find | Search | Call
    | JobSubmit | JobPoll | ProcDeploy | ProcList | ProcDrop | Version | TableCreate

  function OpTag(op: Op): byte {
    match op
    case Ping => 0 case Insert => 1 case Get => 2 case Update => 3 case Delete => 4
    case Scan => 5 case Subscribe => 6 case Find => 7 case Search => 8 case Call => 9
    case JobSubmit => 10 case JobPoll => 11 case ProcDeploy => 12 case ProcList => 13
    case ProcDrop => 14 case Version => 15 case TableCreate => 16
  }

  function OpFromTag(t: byte): Option<Op> {
    match t
    case 0 => Some(Ping) case 1 => Some(Insert) case 2 => Some(Get) case 3 => Some(Update)
    case 4 => Some(Delete) case 5 => Some(Scan) case 6 => Some(Subscribe) case 7 => Some(Find)
    case 8 => Some(Search) case 9 => Some(Call) case 10 => Some(JobSubmit) case 11 => Some(JobPoll)
    case 12 => Some(ProcDeploy) case 13 => Some(ProcList) case 14 => Some(ProcDrop)
    case 15 => Some(Version) case 16 => Some(TableCreate)
    case _ => None
  }

  datatype Request = Request(id: U64, op: Op, table: Text, rowId: Option<U64>, values: Option<map<Text, Value>>)
  datatype RowView = RowView(id: U64, values: map<Text, Value>)
  datatype Response = Response(id: U64, ok: bool, rows: seq<RowView>, error: Option<Text>)
  datatype Incoming = Single(req: Request) | Batch(id: U64, ops: seq<Request>) | AtomicBatch(id: U64, ops: seq<Request>)
  datatype BatchResponse = BatchResponse(id: U64, results: seq<Response>)

  // ----------------------------------------------------------------- listings

  datatype ListedJson = JLeaf(j: Json) | JItems(items: seq<ListedJson>) | JFields(fields: seq<Field>)
  datatype Field = Field(key: Text, val: ListedJson)
  datatype ListedValue = Leaf(v: Value) | Js(j: ListedJson) | Items(items: seq<ListedValue>)
  datatype Entry = Entry(key: Text, val: ListedValue)
  type ListedMap = seq<Entry>
  datatype ListedRequest = LRequest(id: U64, op: Op, table: Text, rowId: Option<U64>, values: Option<ListedMap>)
  datatype ListedRow = LRow(id: U64, values: ListedMap)
  datatype ListedResponse = LResponse(id: U64, ok: bool, rows: seq<ListedRow>, error: Option<Text>)

  function DenoteJson(w: ListedJson): Json {
    match w
    case JLeaf(j) => j
    case JItems(items) => JArr(DenoteJsons(items))
    case JFields(fields) => JObj(DenoteFields(fields))
  }

  function DenoteJsons(ws: seq<ListedJson>): seq<Json> {
    if ws == [] then [] else [DenoteJson(ws[0])] + DenoteJsons(ws[1..])
  }

  function DenoteFields(fs: seq<Field>): map<Text, Json> {
    if fs == [] then map[] else map[fs[0].key := DenoteJson(fs[0].val)] + DenoteFields(fs[1..])
  }

  function DenoteValue(w: ListedValue): Value {
    match w
    case Leaf(v) => v
    case Js(j) => JsonV(DenoteJson(j))
    case Items(items) => Array(DenoteValues(items))
  }

  function DenoteValues(ws: seq<ListedValue>): seq<Value> {
    if ws == [] then [] else [DenoteValue(ws[0])] + DenoteValues(ws[1..])
  }

  function DenoteMap(es: ListedMap): map<Text, Value> {
    if es == [] then map[] else map[es[0].key := DenoteValue(es[0].val)] + DenoteMap(es[1..])
  }

  function DenoteRequest(w: ListedRequest): Request {
    Request(w.id, w.op, w.table, w.rowId, if w.values.Some? then Some(DenoteMap(w.values.value)) else None)
  }

  function DenoteRequests(ws: seq<ListedRequest>): seq<Request> {
    if ws == [] then [] else [DenoteRequest(ws[0])] + DenoteRequests(ws[1..])
  }

  function DenoteRow(w: ListedRow): RowView { RowView(w.id, DenoteMap(w.values)) }

  function DenoteRows(ws: seq<ListedRow>): seq<RowView> {
    if ws == [] then [] else [DenoteRow(ws[0])] + DenoteRows(ws[1..])
  }

  function DenoteResponse(w: ListedResponse): Response {
    Response(w.id, w.ok, DenoteRows(w.rows), w.error)
  }

  function DenoteResponses(ws: seq<ListedResponse>): seq<Response> {
    if ws == [] then [] else [DenoteResponse(ws[0])] + DenoteResponses(ws[1..])
  }

  // ------------------------------------------------------------------- writer

  function EncText(s: Text): seq<byte> { LE(|s|, 4) + s }

  function Flag(b: bool): byte { if b then 1 else 0 }

  /** Dates that chrono can represent. */
  predicate ChronoDate(c: Civil) { ValidDate(c) && -262143 <= c.y <= 262142 }

  /** Instants, in microseconds since 1970-01-01, whose date chrono can represent. */
  predicate ChronoMicros(t: int) { ChronoDate(CivilFromDays(t / 86_400_000_000 + 719162)) }

  predicate FitsI32(n: int) { -0x8000_0000 <= n < 0x8000_0000 }

  function ScalarTag(v: Value): byte
  {
    match v
    case Null => 0x00 case Boolean(_) => 0x01
    case Int8(_) => 0x02 case Int16(_) => 0x03 case Int32(_) => 0x04 case Int64(_) => 0x05
    case UInt8(_) => 0x06 case UInt16(_) => 0x07 case UInt32(_) => 0x08 case UInt64(_) => 0x09
    case Float32(_) => 0x0A case Float64(_) => 0x0B
    case Decimal(_) => 0x0C case String(_) => 0x0D case Bytes(_) => 0x0E
    case Uuid(_) => 0x0F case Timestamp(_) => 0x10 case Date(_) => 0x11
    case JsonV(_) => 0x12 case Array(_) => 0x13
  }

  function ScalarBody(v: Value): seq<byte>
  {
    match v
    case Null => []
    case Boolean(b) => [Flag(b)]
    case Int8(n) => SignedLE(n, 1)
    case Int16(n) => SignedLE(n, 2)
    case Int32(n) => SignedLE(n, 4)
    case Int64(n) => SignedLE(n, 8)
    case UInt8(n) => LE(n, 1)
    case UInt16(n) => LE(n, 2)
    case UInt32(n) => LE(n, 4)
    case UInt64(n) => LE(n, 8)
    case Float32(n) => LE(n, 4)
    case Float64(n) => LE(n, 8)
    case Decimal(s) => EncText(s)
    case String(s) => EncText(s)
    case Bytes(b) => LE(|b|, 4) + b
    case Uuid(u) => u
    case Timestamp(t) => SignedLE(t, 8)
    case Date(d) => SignedLE(NumDaysFromCe(d), 4) + SignedLE(d.m, 4) + SignedLE(d.d, 4)
    case _ => []
  }

  /** The writer's output for a value that is neither JSON nor an array. */
  function EncScalar(v: Value): seq<byte> {
    [ScalarTag(v)] + ScalarBody(v)
  }

  /** The writer's output for JSON that is neither an array nor an object. */
  function EncJsonScalar(j: Json): seq<byte> {
    match j
    case JNull => [0x00]
    case JBool(b) => [0x01, Flag(b)]
    case JInt(n) => if n < 0x8000_0000_0000_0000 then [0x05] + SignedLE(n, 8) else [0x09] + LE(n, 8)
    case JFloat(bits) => [0x0B] + LE(bits, 8)
    case JStr(s) => [0x0D] + EncText(s)
    case _ => []
  }

  predicate TextFits(s: Text) { |s| < 0x1_0000_0000 && ValidUtf8(s) }

  /** A leaf value as the source's types hold it, with lengths that fit the wire's u32. */
  predicate ScalarFits(v: Value) {
    match v
    case JsonV(_) => false
    case Array(_) => false
    case Decimal(s) => TextFits(s)
    case String(s) => TextFits(s)
    case Bytes(b) => |b| < 0x1_0000_0000
    case Uuid(u) => |u| == 16
    case Timestamp(t) => ChronoMicros(t)
    case Date(d) => ChronoDate(d) && FitsI32(NumDaysFromCe(d))
    case _ => true
  }

  /** Within the caps that the reader applies to JSON. */
  predicate JsonFits(w: ListedJson) {
    match w
    case JLeaf(j) => !j.JArr? && !j.JObj? && (j.JStr? ==> TextFits(j.s))
    case JItems(items) => |items| <= MAX_ARRAY && JsonsFit(items)
    case JFields(fields) => |fields| <= MAX_MAP && FieldsFit(fields)
  }

  predicate JsonsFit(ws: seq<ListedJson>) {
    ws == [] || (JsonFits(ws[0]) && JsonsFit(ws[1..]))
  }

  predicate FieldsFit(fs: seq<Field>) {
    fs == [] || (TextFits(fs[0].key) && JsonFits(fs[0].val) && FieldsFit(fs[1..]))
  }

  /** Within the caps that the reader applies to values. */
  predicate ValueFits(w: ListedValue) {
    match w
    case Leaf(v) => ScalarFits(v)
    case Js(j) => JsonFits(j)
    case Items(items) => |items| <= MAX_ARRAY && ValuesFit(items)
  }

  predicate ValuesFit(ws: seq<ListedValue>) {
    ws == [] || (ValueFits(ws[0]) && ValuesFit(ws[1..]))
  }

  predicate EntriesFit(es: ListedMap) {
    es == [] || (TextFits(es[0].key) && ValueFits(es[0].val) && EntriesFit(es[1..]))
  }

  predicate MapFits(es: ListedMap) { |es| <= MAX_MAP && EntriesFit(es) }

  predicate RequestFits(w: ListedRequest) {
    TextFits(w.table) && (w.values.Some? ==> MapFits(w.values.value))
  }

  predicate RowsFit(ws: seq<ListedRow>) {
    ws == [] || (MapFits(ws[0].values) && RowsFit(ws[1..]))
  }

  predicate ResponseFits(w: ListedResponse) {
    |w.rows| <= MAX_ROWS && RowsFit(w.rows) && (w.error.Some? ==> TextFits(w.error.value))
  }

  predicate RequestsFit(ws: seq<ListedRequest>) {
    ws == [] || (RequestFits(ws[0]) && RequestsFit(ws[1..]))
  }

  predicate ResponsesFit(ws: seq<ListedResponse>) {
    ws == [] || (ResponseFits(ws[0]) && ResponsesFit(ws[1..]))
  }

  function EncJson(w: ListedJson): seq<byte> {
    match w
    case JLeaf(j) => EncJsonScalar(j)
    case JItems(items) => [0x13] + LE(|items|, 4) + EncJsons(items)
    case JFields(fields) => [0x12] + LE(|fields|, 4) + EncFields(fields)
  }

  function EncJsons(ws: seq<ListedJson>): seq<byte> {
    if ws == [] then [] else EncJson(ws[0]) + EncJsons(ws[1..])
  }

  function EncFields(fs: seq<Field>): seq<byte> {
    if fs == [] then [] else EncText(fs[0].key) + EncJson(fs[0].val) + EncFields(fs[1..])
  }

  function EncValue(w: ListedValue): seq<byte> {
    match w
    case Leaf(v) => EncScalar(v)
    case Js(j) => [0x12] + EncJson(j)
    case Items(items) => [0x13] + LE(|items|, 4) + EncValues(items)
  }

  function EncValues(ws: seq<ListedValue>): seq<byte> {
    if ws == [] then [] else EncValue(ws[0]) + EncValues(ws[1..])
  }

  function EncEntries(es: ListedMap): seq<byte> {
    if es == [] then [] else EncText(es[0].key) + EncValue(es[0].val) + EncEntries(es[1..])
  }

  function EncMap(es: ListedMap): seq<byte> {
    LE(|es|, 4) + EncEntries(es)
  }

  function EncRowId(rowId: Option<U64>): seq<byte> {
    match rowId case Some(id) => [1] + LE(id, 8) case None => [0]
  }

  function EncOptMap(values: Option<ListedMap>): seq<byte> {
    match values case Some(es) => [1] + EncMap(es) case None => [0]
  }

  function EncOptText(msg: Option<Text>): seq<byte> {
    match msg case Some(t) => [1] + EncText(t) case None => [0]
  }

  function EncRequest(w: ListedRequest): seq<byte> {
    LE(w.id, 8) + [OpTag(w.op)] + EncText(w.table) + EncRowId(w.rowId) + EncOptMap(w.values)
  }

  function EncRequests(ws: seq<ListedRequest>): seq<byte> {
    if ws == [] then [] else EncRequest(ws[0]) + EncRequests(ws[1..])
  }

  function EncRows(ws: seq<ListedRow>): seq<byte> {
    if ws == [] then [] else LE(ws[0].id, 8) + EncMap(ws[0].values) + EncRows(ws[1..])
  }

  function EncResponse(w: ListedResponse): seq<byte> {
    LE(w.id, 8) + [Flag(w.ok)] + LE(|w.rows|, 4) + EncRows(w.rows) + EncOptText(w.error)
  }

  function EncResponses(ws: seq<ListedResponse>): seq<byte> {
    if ws == [] then [] else EncResponse(ws[0]) + EncResponses(ws[1..])
  }

  // ------------------------------------------------------------------- reader

  datatype Parsed<+T> = Bad | Got(val: T, rest: seq<byte>)

  /** The bytes left over are the end of the input. */
  predicate IsTail(rest: seq<byte>, s: seq<byte>) { |rest| <= |s| && rest == s[|s| - |rest|..] }

  /** A successful read leaves fewer bytes than it was given. */
  predicate Consumed<T>(p: Parsed<T>, s: seq<byte>) {
    p.Got? ==> |p.rest| < |s| && IsTail(p.rest, s)
  }

  predicate ConsumedOrEmpty<T>(p: Parsed<T>, s: seq<byte>) {
    p.Got? ==> |p.rest| <= |s| && IsTail(p.rest, s)
  }

  function Take(n: nat, s: seq<byte>): (p: Parsed<seq<byte>>)
    ensures ConsumedOrEmpty(p, s) && (n > 0 ==> Consumed(p, s)) && (p.Got? ==> |p.val| == n)
  {
    if n > |s| then Bad else Got(s[..n], s[n..])
  }

  lemma FromLEBound(b: seq<byte>)
    requires |b| <= 8
    ensures FromLE(b) < Bound(|b|)
  {
    if b != [] { FromLEBound(b[1..]); }
    assert |b| == 8 ==> Bound(7) == 0x100_0000_0000_0000;
  }

  function DecUint(k: nat, s: seq<byte>): (p: Parsed<nat>)
    requires 0 < k <= 8
    ensures Consumed(p, s) && (p.Got? ==> p.val < Bound(k))
  {
    match Take(k, s)
    case Bad => Bad
    case Got(b, rest) => FromLEBound(b); Got(FromLE(b), rest)
  }

  function DecInt(k: nat, s: seq<byte>): (p: Parsed<int>)
    requires k == 1 || k == 2 || k == 4 || k == 8
    ensures Consumed(p, s) && (p.Got? ==> -(Bound(k) / 2) <= p.val < Bound(k) / 2)
  {
    match DecUint(k, s)
    case Bad => Bad
    case Got(n, rest) => Got(if n >= Bound(k) / 2 then n - Bound(k) else n, rest)
  }

  function DecText(s: seq<byte>): (p: Parsed<Text>)
    ensures Consumed(p, s)
  {
    match DecUint(4, s)
    case Bad => Bad
    case Got(n, s1) =>
      match Take(n, s1)
      case Bad => Bad
      case Got(b, s2) => if ValidUtf8(b) then Got(b, s2) else Bad
  }

  /** The date of a day of the Common Era is the one that `Calendar.CountOfNumber` shows to have that count. */
  function DecDate(s: seq<byte>): (p: Parsed<Value>)
    ensures Consumed(p, s)
  {
    match DecInt(4, s)
    case Bad => Bad
    case Got(days, s1) =>
      match DecUint(4, s1)
      case Bad => Bad
      case Got(month, s2) =>
        match DecUint(4, s2)
        case Bad => Bad
        case Got(day, s3) =>
          var c := CivilFromDays(days - 1);
          if ChronoDate(c) && c.m == month && c.d == day then Got(Date(c), s3) else Bad
  }

  function MapParsed<S, T>(p: Parsed<S>, f: S -> T): Parsed<T> {
    match p case Bad => Bad case Got(v, rest) => Got(f(v), rest)
  }

  /** The body of a value whose tag is neither JSON (0x12) nor array (0x13). */
  function DecScalar(tag: byte, s: seq<byte>): (p: Parsed<Value>)
    ensures ConsumedOrEmpty(p, s)
  {
    match tag
    case 0x00 => Got(Null, s)
    case 0x01 => MapParsed(DecUint(1, s), n => Boolean(n != 0))
    case 0x02 => (match DecInt(1, s) case Bad => Bad case Got(n, r) => Got(Int8(n), r))
    case 0x03 => (match DecInt(2, s) case Bad => Bad case Got(n, r) => Got(Int16(n), r))
    case 0x04 => (match DecInt(4, s) case Bad => Bad case Got(n, r) => Got(Int32(n), r))
    case 0x05 => (match DecInt(8, s) case Bad => Bad case Got(n, r) => Got(Int64(n), r))
    case 0x06 => (match DecUint(1, s) case Bad => Bad case Got(n, r) => Got(UInt8(n), r))
    case 0x07 => (match DecUint(2, s) case Bad => Bad case Got(n, r) => Got(UInt16(n), r))
    case 0x08 => (match DecUint(4, s) case Bad => Bad case Got(n, r) => Got(UInt32(n), r))
    case 0x09 => (match DecUint(8, s) case Bad => Bad case Got(n, r) => Got(UInt64(n), r))
    case 0x0A => (match DecUint(4, s) case Bad => Bad case Got(n, r) => Got(Float32(n), r))
    case 0x0B => (match DecUint(8, s) case Bad => Bad case Got(n, r) => Got(Float64(n), r))
    case 0x0C => MapParsed(DecText(s), t => Decimal(t))
    case 0x0D => MapParsed(DecText(s), t => String(t))
    case 0x0E =>
      (match DecUint(4, s) case Bad => Bad case Got(n, s1) => MapParsed(Take(n, s1), b => Bytes(b)))
    case 0x0F => MapParsed(Take(16, s), b => Uuid(b))
    case 0x10 =>
      (match DecInt(8, s) case Bad => Bad case Got(t, r) => if ChronoMicros(t) then Got(Timestamp(t), r) else Bad)
    case 0x11 => DecDate(s)
    case _ => Bad
  }

  /** `json!` of a double: a number when finite, null otherwise. */
  function JsonOfBits(bits: U64): Json {
    if FiniteBits(bits) then JFloat(bits) else JNull
  }

  function DecJsonScalar(tag: byte, s: seq<byte>): (p: Parsed<Json>)
    ensures ConsumedOrEmpty(p, s)
  {
    match tag
    case 0x00 => Got(JNull, s)
    case 0x01 => MapParsed(DecUint(1, s), n => JBool(n != 0))
    case 0x05 => (match DecInt(8, s) case Bad => Bad case Got(n, r) => Got(JInt(n), r))
    case 0x09 => (match DecUint(8, s) case Bad => Bad case Got(n, r) => Got(JInt(n), r))
    case 0x0B => (match DecUint(8, s) case Bad => Bad case Got(n, r) => Got(JsonOfBits(n), r))
    case 0x0D => MapParsed(DecText(s), t => JStr(t))
    case _ => Bad
  }

  function DecJson(s: seq<byte>): (p: Parsed<Json>)
    ensures Consumed(p, s)
    decreases |s|, 0
  {
    if s == [] then Bad
    else if s[0] == 0x12 then
      match DecUint(4, s[1..])
      case Bad => Bad
      case Got(n, s1) => if n > MAX_MAP then Bad else
        (match DecFields(n, s1, map[]) case Bad => Bad case Got(m, r) => Got(JObj(m), r))
    else if s[0] == 0x13 then
      match DecUint(4, s[1..])
      case Bad => Bad
      case Got(n, s1) => if n > MAX_ARRAY then Bad else
        (match DecJsons(n, s1, []) case Bad => Bad case Got(js, r) => Got(JArr(js), r))
    else DecJsonScalar(s[0], s[1..])
  }

  function DecJsons(n: nat, s: seq<byte>, acc: seq<Json>): (p: Parsed<seq<Json>>)
    ensures ConsumedOrEmpty(p, s)
    decreases |s|, n + 1
  {
    if n == 0 then Got(acc, s) else
    match DecJson(s)
    case Bad => Bad
    case Got(j, s1) => DecJsons(n - 1, s1, acc + [j])
  }

  function DecField(s: seq<byte>): (p: Parsed<(Text, Json)>)
    ensures Consumed(p, s)
    decreases |s|, 0
  {
    match DecText(s)
    case Bad => Bad
    case Got(k, s1) =>
      match DecJson(s1)
      case Bad => Bad
      case Got(j, s2) => Got((k, j), s2)
  }

  function DecFields(n: nat, s: seq<byte>, acc: map<Text, Json>): (p: Parsed<map<Text, Json>>)
    ensures ConsumedOrEmpty(p, s)
    decreases |s|, n + 1
  {
    if n == 0 then Got(acc, s) else
    match DecField(s)
    case Bad => Bad
    case Got(f, s1) => DecFields(n - 1, s1, acc[f.0 := f.1])
  }

  function DecValue(s: seq<byte>): (p: Parsed<Value>)
    ensures Consumed(p, s)
    decreases |s|, 0
  {
    if s == [] then Bad
    else if s[0] == 0x12 then
      match DecJson(s[1..])
      case Bad => Bad
      case Got(j, r) => Got(JsonV(j), r)
    else if s[0] == 0x13 then
      match DecUint(4, s[1..])
      case Bad => Bad
      case Got(n, s1) => if n > MAX_ARRAY then Bad else
        (match DecValues(n, s1, []) case Bad => Bad case Got(vs, r) => Got(Array(vs), r))
    else DecScalar(s[0], s[1..])
  }

  function DecValues(n: nat, s: seq<byte>, acc: seq<Value>): (p: Parsed<seq<Value>>)
    ensures ConsumedOrEmpty(p, s)
    decreases |s|, n + 1
  {
    if n == 0 then Got(acc, s) else
    match DecValue(s)
    case Bad => Bad
    case Got(v, s1) => DecValues(n - 1, s1, acc + [v])
  }

  function DecEntry(s: seq<byte>): (p: Parsed<(Text, Value)>)
    ensures Consumed(p, s)
  {
    match DecText(s)
    case Bad => Bad
    case Got(k, s1) =>
      match DecValue(s1)
      case Bad => Bad
      case Got(v, s2) => Got((k, v), s2)
  }

  function DecEntries(n: nat, s: seq<byte>, acc: map<Text, Value>): (p: Parsed<map<Text, Value>>)
    ensures ConsumedOrEmpty(p, s)
    decreases n
  {
    if n == 0 then Got(acc, s) else
    match DecEntry(s)
    case Bad => Bad
    case Got(e, s1) => DecEntries(n - 1, s1, acc[e.0 := e.1])
  }

  function DecMap(s: seq<byte>): (p: Parsed<map<Text, Value>>)
    ensures Consumed(p, s)
  {
    match DecUint(4, s)
    case Bad => Bad
    case Got(n, s1) => if n > MAX_MAP then Bad else DecEntries(n, s1, map[])
  }

  function DecRowId(s: seq<byte>): (p: Parsed<Option<U64>>)
    ensures Consumed(p, s)
  {
    if s == [] then Bad
    else if s[0] == 0 then Got(None, s[1..])
    else if s[0] == 1 then
      match DecUint(8, s[1..]) case Bad => Bad case Got(n, r) => Got(Some(n), r)
    else Bad
  }

  function DecOptMap(s: seq<byte>): (p: Parsed<Option<map<Text, Value>>>)
    ensures Consumed(p, s)
  {
    if s == [] then Bad
    else if s[0] == 0 then Got(None, s[1..])
    else if s[0] == 1 then
      match DecMap(s[1..]) case Bad => Bad case Got(m, r) => Got(Some(m), r)
    else Bad
  }

  function DecOptText(s: seq<byte>): (p: Parsed<Option<Text>>)
    ensures Consumed(p, s)
  {
    if s == [] then Bad
    else if s[0] == 0 then Got(None, s[1..])
    else if s[0] == 1 then
      match DecText(s[1..]) case Bad => Bad case Got(t, r) => Got(Some(t), r)
    else Bad
  }

  function DecRequestHead(s: seq<byte>): (p: Parsed<(U64, Op)>)
    ensures Consumed(p, s)
  {
    match DecUint(8, s)
    case Bad => Bad
    case Got(id, s1) =>
      match DecUint(1, s1)
      case Bad => Bad
      case Got(t, s2) =>
        match OpFromTag(t as byte)
        case None => Bad
        case Some(op) => Got((id, op), s2)
  }

  function DecTarget(s: seq<byte>): (p: Parsed<(Text, Option<U64>)>)
    ensures Consumed(p, s)
  {
    match DecText(s)
    case Bad => Bad
    case Got(table, s1) =>
      match DecRowId(s1)
      case Bad => Bad
      case Got(rowId, s2) => Got((table, rowId), s2)
  }

  function DecRequest(s: seq<byte>): (p: Parsed<Request>)
    ensures Consumed(p, s)
  {
    match DecRequestHead(s)
    case Bad => Bad
    case Got(head, s1) =>
      match DecTarget(s1)
      case Bad => Bad
      case Got(target, s2) =>
        match DecOptMap(s2)
        case Bad => Bad
        case Got(values, s3) => Got(Request(head.0, head.1, target.0, target.1, values), s3)
  }

  function DecRequests(n: nat, s: seq<byte>, acc: seq<Request>): (p: Parsed<seq<Request>>)
    ensures ConsumedOrEmpty(p, s)
    decreases n
  {
    if n == 0 then Got(acc, s) else
    match DecRequest(s)
    case Bad => Bad
    case Got(q, s1) => DecRequests(n - 1, s1, acc + [q])
  }

  function DecRow(s: seq<byte>): (p: Parsed<RowView>)
    ensures Consumed(p, s)
  {
    match DecUint(8, s)
    case Bad => Bad
    case Got(id, s1) =>
      match DecMap(s1)
      case Bad => Bad
      case Got(m, s2) => Got(RowView(id, m), s2)
  }

  function DecRows(n: nat, s: seq<byte>, acc: seq<RowView>): (p: Parsed<seq<RowView>>)
    ensures ConsumedOrEmpty(p, s)
    decreases n
  {
    if n == 0 then Got(acc, s) else
    match DecRow(s)
    case Bad => Bad
    case Got(row, s1) => DecRows(n - 1, s1, acc + [row])
  }

  function DecResponseHead(s: seq<byte>): (p: Parsed<(U64, bool, nat)>)
    ensures Consumed(p, s)
  {
    match DecUint(8, s)
    case Bad => Bad
    case Got(id, s1) =>
      match DecUint(1, s1)
      case Bad => Bad
      case Got(ok, s2) =>
        match DecUint(4, s2)
        case Bad => Bad
        case Got(n, s3) => if n > MAX_ROWS then Bad else Got((id, ok != 0, n), s3)
  }

  function DecResponse(s: seq<byte>): (p: Parsed<Response>)
    ensures Consumed(p, s)
  {
    match DecResponseHead(s)
    case Bad => Bad
    case Got(head, s1) =>
      match DecRows(head.2, s1, [])
      case Bad => Bad
      case Got(rows, s2) =>
        match DecOptText(s2)
        case Bad => Bad
        case Got(error, s3) => Got(Response(head.0, head.1, rows, error), s3)
  }

  function DecResponses(n: nat, s: seq<byte>, acc: seq<Response>): (p: Parsed<seq<Response>>)
    ensures ConsumedOrEmpty(p, s)
    decreases n
  {
    if n == 0 then Got(acc, s) else
    match DecResponse(s)
    case Bad => Bad
    case Got(q, s1) => DecResponses(n - 1, s1, acc + [q])
  }

  /** A count of at most MAX_BATCH after a batch id. */
  function DecBatchHead(s: seq<byte>): (p: Parsed<(U64, nat)>)
    ensures Consumed(p, s)
  {
    match DecUint(8, s)
    case Bad => Bad
    case Got(id, s1) =>
      match DecUint(4, s1)
      case Bad => Bad
      case Got(n, s2) => if n > MAX_BATCH then Bad else Got((id, n), s2)
  }

  // ----------------------------------------------------------- whole payloads

  /** A message is accepted only when it uses up the payload. */
  function Whole<T>(p: Parsed<T>): Option<T> {
    if p.Got? && p.rest == [] then Some(p.val) else None
  }

  function DecBatch(s: seq<byte>): Parsed<(U64, seq<Request>)> {
    match DecBatchHead(s)
    case Bad => Bad
    case Got(head, s1) =>
      (match DecRequests(head.1, s1, []) case Bad => Bad case Got(ops, r) => Got((head.0, ops), r))
  }

  function IncomingBody(s: seq<byte>): Parsed<Incoming> {
    if s == [] then Bad
    else if s[0] == KIND_REQUEST then
      (match DecRequest(s[1..]) case Bad => Bad case Got(q, r) => Got(Single(q), r))
    else if s[0] == KIND_BATCH_REQUEST then
      (match DecBatch(s[1..]) case Bad => Bad case Got(b, r) => Got(Batch(b.0, b.1), r))
    else if s[0] == KIND_ATOMIC_BATCH_REQUEST then
      (match DecBatch(s[1..]) case Bad => Bad case Got(b, r) => Got(AtomicBatch(b.0, b.1), r))
    else Bad
  }

  function RequestBody(s: seq<byte>): Parsed<Request> {
    if s == [] || s[0] != KIND_REQUEST then Bad else DecRequest(s[1..])
  }

  function ResponseBody(s: seq<byte>): Parsed<Response> {
    if s == [] || s[0] != KIND_RESPONSE then Bad else DecResponse(s[1..])
  }

  function BatchResponseBody(s: seq<byte>): Parsed<BatchResponse> {
    if s == [] || s[0] != KIND_BATCH_RESPONSE then Bad else
    match DecBatchHead(s[1..])
    case Bad => Bad
    case Got(head, s1) =>
      (match DecResponses(head.1, s1, [])
       case Bad => Bad
       case Got(rs, r) => Got(BatchResponse(head.0, rs), r))
  }

  function DecodeIncoming(s: seq<byte>): Option<Incoming> { Whole(IncomingBody(s)) }
  function DecodeRequest(s: seq<byte>): Option<Request> { Whole(RequestBody(s)) }
  function DecodeResponse(s: seq<byte>): Option<Response> { Whole(ResponseBody(s)) }
  function DecodeBatchResponse(s: seq<byte>): Option<BatchResponse> { Whole(BatchResponseBody(s)) }

  function RequestPayload(w: ListedRequest): seq<byte> { [KIND_REQUEST] + EncRequest(w) }

  function BatchPayload(kind: byte, id: U64, ops: seq<ListedRequest>): seq<byte> {
    [kind] + LE(id, 8) + LE(|ops|, 4) + EncRequests(ops)
  }

  function ResponsePayload(w: ListedResponse): seq<byte> { [KIND_RESPONSE] + EncResponse(w) }

  function BatchResponsePayload(id: U64, rs: seq<ListedResponse>): seq<byte> {
    [KIND_BATCH_RESPONSE] + LE(id, 8) + LE(|rs|, 4) + EncResponses(rs)
  }
}
