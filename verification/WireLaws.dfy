/**
 Laws of the wire format: every message within the reader's caps reads back as
 itself, and what a reader accepts is never a strict prefix of anything else it accepts.
 */
module WireLaws {
  import opened Types
  import opened Calendar
  import opened Wire

  // ---------------------------------------------------- reading ahead of more

  /** Bytes appended to the input only show up in what is left over. */
  predicate Extends<T(==)>(p: Parsed<T>, q: Parsed<T>, t: seq<byte>) {
    p.Got? ==> q == Got(p.val, p.rest + t)
  }

  lemma TakeExtends(n: nat, s: seq<byte>, t: seq<byte>)
    ensures Extends(Take(n, s), Take(n, s + t), t)
  {
    if n <= |s| {
      assert (s + t)[..n] == s[..n];
      assert (s + t)[n..] == s[n..] + t;
    }
  }

  lemma UintExtends(k: nat, s: seq<byte>, t: seq<byte>)
    requires 0 < k <= 8
    ensures Extends(DecUint(k, s), DecUint(k, s + t), t)
  {
    TakeExtends(k, s, t);
  }

  lemma IntExtends(k: nat, s: seq<byte>, t: seq<byte>)
    requires k == 1 || k == 2 || k == 4 || k == 8
    ensures Extends(DecInt(k, s), DecInt(k, s + t), t)
  {
    UintExtends(k, s, t);
  }

  lemma TextExtends(s: seq<byte>, t: seq<byte>)
    ensures Extends(DecText(s), DecText(s + t), t)
  {
    UintExtends(4, s, t);
    match DecUint(4, s)
    case Bad =>
    case Got(n, s1) => TakeExtends(n, s1, t);
  }

  lemma DateExtends(s: seq<byte>, t: seq<byte>)
    ensures Extends(DecDate(s), DecDate(s + t), t)
  {
    hide IsTail, DecUint, DecInt, ChronoDate, CivilFromDays;
    IntExtends(4, s, t);
    match DecInt(4, s)
    case Bad =>
    case Got(_, s1) =>
      UintExtends(4, s1, t);
      match DecUint(4, s1)
      case Bad =>
      case Got(_, s2) => UintExtends(4, s2, t);
  }

  lemma ScalarExtends(tag: byte, s: seq<byte>, t: seq<byte>)
    ensures Extends(DecScalar(tag, s), DecScalar(tag, s + t), t)
  {
    hide IsTail, DecUint, DecInt, DecText, DecDate, Take, ChronoMicros;
    match tag
    case 0x00 =>
    case 0x01 => UintExtends(1, s, t);
    case 0x02 => IntExtends(1, s, t);
    case 0x03 => IntExtends(2, s, t);
    case 0x04 => IntExtends(4, s, t);
    case 0x05 => IntExtends(8, s, t);
    case 0x06 => UintExtends(1, s, t);
    case 0x07 => UintExtends(2, s, t);
    case 0x08 => UintExtends(4, s, t);
    case 0x09 => UintExtends(8, s, t);
    case 0x0A => UintExtends(4, s, t);
    case 0x0B => UintExtends(8, s, t);
    case 0x0C => TextExtends(s, t);
    case 0x0D => TextExtends(s, t);
    case 0x0E =>
      UintExtends(4, s, t);
      var n := DecUint(4, s);
      if n.Got? { TakeExtends(n.val, n.rest, t); }
    case 0x0F => TakeExtends(16, s, t);
    case 0x10 => IntExtends(8, s, t);
    case 0x11 => DateExtends(s, t);
    case _ =>
  }

  lemma JsonScalarExtends(tag: byte, s: seq<byte>, t: seq<byte>)
    ensures Extends(DecJsonScalar(tag, s), DecJsonScalar(tag, s + t), t)
  {
    hide IsTail, DecUint, DecInt, DecText;
    if tag == 0x01 { UintExtends(1, s, t); }
    if tag == 0x05 { IntExtends(8, s, t); }
    if tag == 0x09 || tag == 0x0B { UintExtends(8, s, t); }
    if tag == 0x0D { TextExtends(s, t); }
  }

  lemma {:induction false} JsonExtends(s: seq<byte>, t: seq<byte>)
    ensures Extends(DecJson(s), DecJson(s + t), t)
    decreases |s|, 0
  {
    if s != [] {
      assert (s + t)[1..] == s[1..] + t;
      if s[0] == 0x12 || s[0] == 0x13 {
        UintExtends(4, s[1..], t);
        var n := DecUint(4, s[1..]);
        if n.Got? {
          if s[0] == 0x12 { FieldsExtends(n.val, n.rest, map[], t); } else { JsonsExtends(n.val, n.rest, [], t); }
        }
      } else {
        JsonScalarExtends(s[0], s[1..], t);
      }
    }
  }

  lemma {:induction false} JsonsExtends(n: nat, s: seq<byte>, acc: seq<Json>, t: seq<byte>)
    ensures Extends(DecJsons(n, s, acc), DecJsons(n, s + t, acc), t)
    decreases |s|, n + 1
  {
    hide IsTail, DecJson;
    if n > 0 {
      JsonExtends(s, t);
      var j := DecJson(s);
      if j.Got? { JsonsExtends(n - 1, j.rest, acc + [j.val], t); }
    }
  }

  lemma {:induction false} FieldExtends(s: seq<byte>, t: seq<byte>)
    ensures Extends(DecField(s), DecField(s + t), t)
    decreases |s|, 0
  {
    TextExtends(s, t);
    var k := DecText(s);
    if k.Got? { JsonExtends(k.rest, t); }
  }

  lemma {:induction false} FieldsExtends(n: nat, s: seq<byte>, acc: map<Text, Json>, t: seq<byte>)
    ensures Extends(DecFields(n, s, acc), DecFields(n, s + t, acc), t)
    decreases |s|, n + 1
  {
    hide IsTail, DecField;
    if n > 0 {
      FieldExtends(s, t);
      var f := DecField(s);
      if f.Got? { FieldsExtends(n - 1, f.rest, acc[f.val.0 := f.val.1], t); }
    }
  }

  lemma {:induction false} ValueExtends(s: seq<byte>, t: seq<byte>)
    ensures Extends(DecValue(s), DecValue(s + t), t)
    decreases |s|, 0
  {
    if s != [] {
      assert (s + t)[1..] == s[1..] + t;
      if s[0] == 0x12 {
        JsonExtends(s[1..], t);
      } else if s[0] == 0x13 {
        UintExtends(4, s[1..], t);
        var n := DecUint(4, s[1..]);
        if n.Got? { ValuesExtends(n.val, n.rest, [], t); }
      } else {
        ScalarExtends(s[0], s[1..], t);
      }
    }
  }

  lemma {:induction false} ValuesExtends(n: nat, s: seq<byte>, acc: seq<Value>, t: seq<byte>)
    ensures Extends(DecValues(n, s, acc), DecValues(n, s + t, acc), t)
    decreases |s|, n + 1
  {
    hide IsTail, DecValue;
    if n > 0 {
      ValueExtends(s, t);
      var v := DecValue(s);
      if v.Got? { ValuesExtends(n - 1, v.rest, acc + [v.val], t); }
    }
  }

  lemma EntryExtends(s: seq<byte>, t: seq<byte>)
    ensures Extends(DecEntry(s), DecEntry(s + t), t)
  {
    TextExtends(s, t);
    var k := DecText(s);
    if k.Got? { ValueExtends(k.rest, t); }
  }

  lemma {:induction false} EntriesExtends(n: nat, s: seq<byte>, acc: map<Text, Value>, t: seq<byte>)
    ensures Extends(DecEntries(n, s, acc), DecEntries(n, s + t, acc), t)
    decreases n
  {
    hide IsTail, DecEntry;
    if n > 0 {
      EntryExtends(s, t);
      var e := DecEntry(s);
      if e.Got? { EntriesExtends(n - 1, e.rest, acc[e.val.0 := e.val.1], t); }
    }
  }

  lemma MapExtends(s: seq<byte>, t: seq<byte>)
    ensures Extends(DecMap(s), DecMap(s + t), t)
  {
    UintExtends(4, s, t);
    var n := DecUint(4, s);
    if n.Got? { EntriesExtends(n.val, n.rest, map[], t); }
  }

  lemma OptionsExtend(s: seq<byte>, t: seq<byte>)
    ensures Extends(DecRowId(s), DecRowId(s + t), t)
    ensures Extends(DecOptMap(s), DecOptMap(s + t), t)
    ensures Extends(DecOptText(s), DecOptText(s + t), t)
  {
    hide IsTail, DecUint, DecMap, DecText;
    if s != [] {
      assert (s + t)[1..] == s[1..] + t;
      UintExtends(8, s[1..], t);
      MapExtends(s[1..], t);
      TextExtends(s[1..], t);
    }
  }

  lemma RequestHeadExtends(s: seq<byte>, t: seq<byte>)
    ensures Extends(DecRequestHead(s), DecRequestHead(s + t), t)
  {
    UintExtends(8, s, t);
    var id := DecUint(8, s);
    if id.Got? { UintExtends(1, id.rest, t); }
  }

  lemma TargetExtends(s: seq<byte>, t: seq<byte>)
    ensures Extends(DecTarget(s), DecTarget(s + t), t)
  {
    hide IsTail, DecText, DecRowId;
    TextExtends(s, t);
    var table := DecText(s);
    if table.Got? { OptionsExtend(table.rest, t); }
  }

  lemma RequestExtends(s: seq<byte>, t: seq<byte>)
    ensures Extends(DecRequest(s), DecRequest(s + t), t)
  {
    hide IsTail, DecRequestHead, DecTarget, DecOptMap;
    RequestHeadExtends(s, t);
    var head := DecRequestHead(s);
    if head.Got? {
      TargetExtends(head.rest, t);
      var target := DecTarget(head.rest);
      if target.Got? { OptionsExtend(target.rest, t); }
    }
  }

  lemma {:induction false} RequestsExtend(n: nat, s: seq<byte>, acc: seq<Request>, t: seq<byte>)
    ensures Extends(DecRequests(n, s, acc), DecRequests(n, s + t, acc), t)
    decreases n
  {
    hide IsTail, DecRequest;
    if n > 0 {
      RequestExtends(s, t);
      var q := DecRequest(s);
      if q.Got? { RequestsExtend(n - 1, q.rest, acc + [q.val], t); }
    }
  }

  lemma RowExtends(s: seq<byte>, t: seq<byte>)
    ensures Extends(DecRow(s), DecRow(s + t), t)
  {
    UintExtends(8, s, t);
    var id := DecUint(8, s);
    if id.Got? { MapExtends(id.rest, t); }
  }

  lemma {:induction false} RowsExtend(n: nat, s: seq<byte>, acc: seq<RowView>, t: seq<byte>)
    ensures Extends(DecRows(n, s, acc), DecRows(n, s + t, acc), t)
    decreases n
  {
    hide IsTail, DecRow;
    if n > 0 {
      RowExtends(s, t);
      var row := DecRow(s);
      if row.Got? { RowsExtend(n - 1, row.rest, acc + [row.val], t); }
    }
  }

  lemma ResponseHeadExtends(s: seq<byte>, t: seq<byte>)
    ensures Extends(DecResponseHead(s), DecResponseHead(s + t), t)
  {
    UintExtends(8, s, t);
    var id := DecUint(8, s);
    if id.Got? {
      UintExtends(1, id.rest, t);
      var ok := DecUint(1, id.rest);
      if ok.Got? { UintExtends(4, ok.rest, t); }
    }
  }

  lemma ResponseExtends(s: seq<byte>, t: seq<byte>)
    ensures Extends(DecResponse(s), DecResponse(s + t), t)
  {
    hide IsTail, DecResponseHead, DecRows, DecOptText;
    ResponseHeadExtends(s, t);
    var head := DecResponseHead(s);
    if head.Got? {
      RowsExtend(head.val.2, head.rest, [], t);
      var rows := DecRows(head.val.2, head.rest, []);
      if rows.Got? { OptionsExtend(rows.rest, t); }
    }
  }

  lemma {:induction false} ResponsesExtend(n: nat, s: seq<byte>, acc: seq<Response>, t: seq<byte>)
    ensures Extends(DecResponses(n, s, acc), DecResponses(n, s + t, acc), t)
    decreases n
  {
    hide IsTail, DecResponse;
    if n > 0 {
      ResponseExtends(s, t);
      var q := DecResponse(s);
      if q.Got? { ResponsesExtend(n - 1, q.rest, acc + [q.val], t); }
    }
  }

  lemma BatchHeadExtends(s: seq<byte>, t: seq<byte>)
    ensures Extends(DecBatchHead(s), DecBatchHead(s + t), t)
  {
    UintExtends(8, s, t);
    var id := DecUint(8, s);
    if id.Got? { UintExtends(4, id.rest, t); }
  }

  lemma BatchExtends(s: seq<byte>, t: seq<byte>)
    ensures Extends(DecBatch(s), DecBatch(s + t), t)
  {
    hide IsTail, DecRequests, DecBatchHead;
    BatchHeadExtends(s, t);
    var head := DecBatchHead(s);
    if head.Got? { RequestsExtend(head.val.1, head.rest, [], t); }
  }

  lemma IncomingExtends(s: seq<byte>, t: seq<byte>)
    ensures Extends(IncomingBody(s), IncomingBody(s + t), t)
  {
    hide IsTail, DecRequest, DecBatch;
    if s != [] {
      assert (s + t)[1..] == s[1..] + t;
      RequestExtends(s[1..], t);
      BatchExtends(s[1..], t);
    }
  }

  lemma BatchResponseExtends(s: seq<byte>, t: seq<byte>)
    ensures Extends(BatchResponseBody(s), BatchResponseBody(s + t), t)
  {
    hide IsTail, DecResponses, DecBatchHead;
    if s != [] {
      assert (s + t)[1..] == s[1..] + t;
      BatchHeadExtends(s[1..], t);
      var head := DecBatchHead(s[1..]);
      if head.Got? { ResponsesExtend(head.val.1, head.rest, [], t); }
    }
  }

  /**
   Whatever payload a decoder accepts, it accepts no strict prefix of it: a
   truncated message is always an error, never a different message.
   */
  lemma TruncationRejected(payload: seq<byte>, n: nat)
    requires n < |payload|
    ensures DecodeIncoming(payload).Some? ==> DecodeIncoming(payload[..n]).None?
    ensures DecodeRequest(payload).Some? ==> DecodeRequest(payload[..n]).None?
    ensures DecodeResponse(payload).Some? ==> DecodeResponse(payload[..n]).None?
    ensures DecodeBatchResponse(payload).Some? ==> DecodeBatchResponse(payload[..n]).None?
  {
    hide IsTail, IncomingBody, BatchResponseBody, DecRequest, DecResponse;
    var s, t := payload[..n], payload[n..];
    assert payload == s + t;
    IncomingExtends(s, t);
    BatchResponseExtends(s, t);
    if s != [] {
      assert payload[1..] == s[1..] + t;
      RequestExtends(s[1..], t);
      ResponseExtends(s[1..], t);
    }
  }

  // -------------------------------------------------------------- round trips

  lemma Assoc<T>(a: seq<T>, b: seq<T>, c: seq<T>)
    ensures a + b + c == a + (b + c)
  {
  }

  lemma Assoc4<T>(a: seq<T>, b: seq<T>, c: seq<T>, d: seq<T>)
    ensures a + b + c + d == a + (b + (c + d))
  {
  }

  lemma Assoc5<T>(a: seq<T>, b: seq<T>, c: seq<T>, d: seq<T>, e: seq<T>)
    ensures a + b + c + d + e == a + (b + (c + (d + e)))
  {
    Assoc4(a, b, c, d);
    Assoc4(b, c, d, e);
  }

  lemma Assoc6<T>(a: seq<T>, b: seq<T>, c: seq<T>, d: seq<T>, e: seq<T>, f: seq<T>)
    ensures a + b + c + d + e + f == a + (b + (c + (d + (e + f))))
  {
    Assoc5(a, b, c, d, e);
    Assoc5(b, c, d, e, f);
  }

  /** Inserting first or last into a pile of later entries makes no difference. */
  lemma InsertThenLater<K, V>(acc: map<K, V>, k: K, v: V, later: map<K, V>)
    ensures acc[k := v] + later == acc + (map[k := v] + later)
  {
  }

  lemma UnderTag(tag: byte, body: seq<byte>, rest: seq<byte>)
    ensures var s := [tag] + body + rest; s != [] && s[0] == tag && s[1..] == body + rest
  {
  }

  lemma UnderTag3(tag: byte, a: seq<byte>, b: seq<byte>, c: seq<byte>)
    ensures var s := [tag] + a + b + c; s != [] && s[0] == tag && s[1..] == a + (b + c)
  {
  }

  lemma UnderTag2(tag: byte, a: seq<byte>, b: seq<byte>, rest: seq<byte>)
    ensures var s := [tag] + a + b + rest; s != [] && s[0] == tag && s[1..] == a + (b + rest)
  {
  }

  lemma {:induction false} LERoundTrip(n: nat, k: nat)
    requires k <= 8 && n < Bound(k)
    ensures FromLE(LE(n, k)) == n
  {
    if k > 0 {
      assert k == 8 ==> Bound(7) == 0x100_0000_0000_0000;
      LERoundTrip(n / 0x100, k - 1);
      assert LE(n, k)[1..] == LE(n / 0x100, k - 1);
    }
  }

  lemma UintReadsBack(n: nat, k: nat, rest: seq<byte>)
    requires 0 < k <= 8 && n < Bound(k)
    ensures DecUint(k, LE(n, k) + rest) == Got(n, rest)
  {
    LERoundTrip(n, k);
    assert (LE(n, k) + rest)[..k] == LE(n, k);
    assert (LE(n, k) + rest)[k..] == rest;
  }

  lemma TwosComplement(n: int, k: nat)
    requires k == 1 || k == 2 || k == 4 || k == 8
    requires 0 <= n + Bound(k) && n < Bound(k)
    ensures n % Bound(k) == (if n < 0 then n + Bound(k) else n)
  {
    if k == 1 {
      assert Bound(k) == 0x100;
    } else if k == 2 {
      assert Bound(k) == 0x1_0000;
    } else if k == 4 {
      assert Bound(k) == 0x1_0000_0000;
    } else {
      assert Bound(k) == 0x1_0000_0000_0000_0000;
    }
  }

  lemma IntReadsBack(n: int, k: nat, rest: seq<byte>)
    requires k == 1 || k == 2 || k == 4 || k == 8
    requires -(Bound(k) / 2) <= n < Bound(k) / 2
    ensures DecInt(k, SignedLE(n, k) + rest) == Got(n, rest)
  {
    TwosComplement(n, k);
    UintReadsBack(if n < 0 then n + Bound(k) else n, k, rest);
  }

  lemma TextReadsBack(s: Text, rest: seq<byte>)
    requires TextFits(s)
    ensures DecText(EncText(s) + rest) == Got(s, rest)
  {
    hide IsTail, LE;
    assert EncText(s) + rest == LE(|s|, 4) + (s + rest);
    UintReadsBack(|s|, 4, s + rest);
    assert (s + rest)[..|s|] == s && (s + rest)[|s|..] == rest;
  }

  /** Reading a date relies on the calendar formulas being inverse to each other. */
  lemma DateReadsBack(d: Civil, rest: seq<byte>)
    requires ScalarFits(Date(d))
    ensures DecDate(SignedLE(NumDaysFromCe(d), 4) + (SignedLE(d.m, 4) + (SignedLE(d.d, 4) + rest)))
            == Got(Date(d), rest)
  {
    hide IsTail, DecUint, DecInt, LE, CivilFromDays, Bound, NumDaysFromCe;
    OneBelowCommonEra(d);
    IntReadsBack(NumDaysFromCe(d), 4, SignedLE(d.m, 4) + (SignedLE(d.d, 4) + rest));
    TwosComplement(d.m, 4);
    TwosComplement(d.d, 4);
    UintReadsBack(d.m, 4, SignedLE(d.d, 4) + rest);
    UintReadsBack(d.d, 4, rest);
    CivilRoundTrip(d);
  }

  predicate FixedWidth(v: Value) {
    v.Int8? || v.Int16? || v.Int32? || v.Int64? || v.UInt8? || v.UInt16? || v.UInt32? || v.UInt64?
    || v.Float32? || v.Float64?
  }

  lemma FixedReadsBack(v: Value, rest: seq<byte>)
    requires FixedWidth(v)
    ensures DecScalar(ScalarTag(v), ScalarBody(v) + rest) == Got(v, rest)
  {
    hide IsTail, DecUint, DecInt, LE, SignedLE;
    match v
    case Int8(n) => IntReadsBack(n, 1, rest);
    case Int16(n) => IntReadsBack(n, 2, rest);
    case Int32(n) => IntReadsBack(n, 4, rest);
    case Int64(n) => IntReadsBack(n, 8, rest);
    case UInt8(n) => UintReadsBack(n, 1, rest);
    case UInt16(n) => UintReadsBack(n, 2, rest);
    case UInt32(n) => UintReadsBack(n, 4, rest);
    case UInt64(n) => UintReadsBack(n, 8, rest);
    case Float32(n) => UintReadsBack(n, 4, rest);
    case Float64(n) => UintReadsBack(n, 8, rest);
    case _ =>
  }

  lemma OtherScalarReadsBack(v: Value, rest: seq<byte>)
    requires ScalarFits(v) && !FixedWidth(v)
    ensures DecScalar(ScalarTag(v), ScalarBody(v) + rest) == Got(v, rest)
  {
    hide IsTail, DecUint, DecInt, DecText, DecDate, LE, SignedLE, EncText, ChronoMicros;
    match v
    case Null => assert [] + rest == rest;
    case Boolean(b) => ByteReadsBack(Flag(b), rest);
    case Decimal(s) => TextReadsBack(s, rest);
    case String(s) => TextReadsBack(s, rest);
    case Bytes(b) =>
      Assoc(LE(|b|, 4), b, rest);
      UintReadsBack(|b|, 4, b + rest);
      assert (b + rest)[..|b|] == b && (b + rest)[|b|..] == rest;
    case Uuid(u) => assert (u + rest)[..16] == u && (u + rest)[16..] == rest;
    case Timestamp(t) => IntReadsBack(t, 8, rest);
    case Date(d) =>
      Assoc4(SignedLE(NumDaysFromCe(d), 4), SignedLE(d.m, 4), SignedLE(d.d, 4), rest);
      DateReadsBack(d, rest);
    case _ =>
  }

  lemma ScalarReadsBack(v: Value, rest: seq<byte>)
    requires ScalarFits(v)
    ensures DecValue(EncScalar(v) + rest) == Got(v, rest)
  {
    hide IsTail, DecScalar, ScalarBody;
    if FixedWidth(v) { FixedReadsBack(v, rest); } else { OtherScalarReadsBack(v, rest); }
    UnderTag(ScalarTag(v), ScalarBody(v), rest);
  }

  lemma JsonIntReadsBack(j: Json, rest: seq<byte>)
    requires j.JInt?
    ensures DecJson(EncJsonScalar(j) + rest) == Got(j, rest)
  {
    hide IsTail, DecInt, DecText, SignedLE, EncText, LE, Bound;
    var n := j.n;
    if n < 0x8000_0000_0000_0000 {
      UnderTag(0x05, SignedLE(n, 8), rest);
      IntReadsBack(n, 8, rest);
    } else {
      UnderTag(0x09, LE(n, 8), rest);
      UintReadsBack(n, 8, rest);
    }
  }

  lemma JsonScalarReadsBack(j: Json, rest: seq<byte>)
    requires !j.JArr? && !j.JObj? && (j.JStr? ==> TextFits(j.s))
    ensures DecJson(EncJsonScalar(j) + rest) == Got(j, rest)
  {
    hide IsTail, DecInt, DecText, SignedLE, EncText, LE, Bound;
    match j
    case JNull => UnderTag(0x00, [], rest); assert [] + rest == rest;
    case JBool(b) => UnderTag(0x01, [Flag(b)], rest); ByteReadsBack(Flag(b), rest);
    case JInt(n) => JsonIntReadsBack(j, rest);
    case JFloat(bits) => UnderTag(0x0B, LE(bits, 8), rest); UintReadsBack(bits, 8, rest);
    case JStr(s) => UnderTag(0x0D, EncText(s), rest); TextReadsBack(s, rest);
  }

  lemma {:induction false} JsonReadsBack(w: ListedJson, rest: seq<byte>)
    requires JsonFits(w)
    ensures DecJson(EncJson(w) + rest) == Got(DenoteJson(w), rest)
  {
    hide IsTail, DecUint, LE, EncJsonScalar, DecJsonScalar;
    match w
    case JLeaf(j) => JsonScalarReadsBack(j, rest);
    case JItems(items) =>
      var tail := EncJsons(items) + rest;
      UnderTag2(0x13, LE(|items|, 4), EncJsons(items), rest);
      UintReadsBack(|items|, 4, tail);
      JsonsReadBack(items, [], rest);
      assert [] + DenoteJsons(items) == DenoteJsons(items);
    case JFields(fields) =>
      var tail := EncFields(fields) + rest;
      UnderTag2(0x12, LE(|fields|, 4), EncFields(fields), rest);
      UintReadsBack(|fields|, 4, tail);
      FieldsReadBack(fields, map[], rest);
      assert map[] + DenoteFields(fields) == DenoteFields(fields);
  }

  lemma {:induction false} JsonsReadBack(ws: seq<ListedJson>, acc: seq<Json>, rest: seq<byte>)
    requires JsonsFit(ws)
    ensures DecJsons(|ws|, EncJsons(ws) + rest, acc) == Got(acc + DenoteJsons(ws), rest)
  {
    if ws == [] {
      assert EncJsons(ws) + rest == rest && acc + DenoteJsons(ws) == acc;
    } else {
      var tail := EncJsons(ws[1..]) + rest;
      Assoc(EncJson(ws[0]), EncJsons(ws[1..]), rest);
      JsonReadsBack(ws[0], tail);
      var j := DenoteJson(ws[0]);
      JsonsReadBack(ws[1..], acc + [j], rest);
      assert acc + [j] + DenoteJsons(ws[1..]) == acc + DenoteJsons(ws);
    }
  }

  lemma {:induction false} FieldReadsBack(f: Field, rest: seq<byte>)
    requires TextFits(f.key) && JsonFits(f.val)
    ensures DecField(EncText(f.key) + (EncJson(f.val) + rest)) == Got((f.key, DenoteJson(f.val)), rest)
    decreases f, 0
  {
    hide IsTail, DecText, EncText;
    TextReadsBack(f.key, EncJson(f.val) + rest);
    JsonReadsBack(f.val, rest);
  }

  lemma {:induction false} FieldsReadBack(fs: seq<Field>, acc: map<Text, Json>, rest: seq<byte>)
    requires FieldsFit(fs)
    ensures DecFields(|fs|, EncFields(fs) + rest, acc) == Got(acc + DenoteFields(fs), rest)
  {
    hide IsTail, DecField, EncText;
    if fs == [] {
      assert EncFields(fs) + rest == rest && acc + DenoteFields(fs) == acc;
    } else {
      var tail := EncFields(fs[1..]) + rest;
      Assoc4(EncText(fs[0].key), EncJson(fs[0].val), EncFields(fs[1..]), rest);
      FieldReadsBack(fs[0], tail);
      var acc' := acc[fs[0].key := DenoteJson(fs[0].val)];
      FieldsReadBack(fs[1..], acc', rest);
      InsertThenLater(acc, fs[0].key, DenoteJson(fs[0].val), DenoteFields(fs[1..]));
    }
  }

  lemma {:induction false} ValueReadsBack(w: ListedValue, rest: seq<byte>)
    requires ValueFits(w)
    ensures DecValue(EncValue(w) + rest) == Got(DenoteValue(w), rest)
  {
    hide IsTail, DecUint, LE, EncScalar, DecScalar, DecJson, EncJson;
    match w
    case Leaf(v) => ScalarReadsBack(v, rest);
    case Js(j) =>
      UnderTag(0x12, EncJson(j), rest);
      JsonReadsBack(j, rest);
    case Items(items) =>
      var tail := EncValues(items) + rest;
      UnderTag2(0x13, LE(|items|, 4), EncValues(items), rest);
      UintReadsBack(|items|, 4, tail);
      ValuesReadBack(items, [], rest);
      assert [] + DenoteValues(items) == DenoteValues(items);
  }

  lemma {:induction false} ValuesReadBack(ws: seq<ListedValue>, acc: seq<Value>, rest: seq<byte>)
    requires ValuesFit(ws)
    ensures DecValues(|ws|, EncValues(ws) + rest, acc) == Got(acc + DenoteValues(ws), rest)
  {
    if ws == [] {
      assert EncValues(ws) + rest == rest && acc + DenoteValues(ws) == acc;
    } else {
      var tail := EncValues(ws[1..]) + rest;
      Assoc(EncValue(ws[0]), EncValues(ws[1..]), rest);
      ValueReadsBack(ws[0], tail);
      var v := DenoteValue(ws[0]);
      ValuesReadBack(ws[1..], acc + [v], rest);
      assert acc + [v] + DenoteValues(ws[1..]) == acc + DenoteValues(ws);
    }
  }

  lemma EntryReadsBack(e: Entry, rest: seq<byte>)
    requires TextFits(e.key) && ValueFits(e.val)
    ensures DecEntry(EncText(e.key) + (EncValue(e.val) + rest)) == Got((e.key, DenoteValue(e.val)), rest)
  {
    hide IsTail, DecText, EncText, DecValue, EncValue;
    TextReadsBack(e.key, EncValue(e.val) + rest);
    ValueReadsBack(e.val, rest);
  }

  lemma {:induction false} EntriesReadBack(es: ListedMap, acc: map<Text, Value>, rest: seq<byte>)
    requires EntriesFit(es)
    ensures DecEntries(|es|, EncEntries(es) + rest, acc) == Got(acc + DenoteMap(es), rest)
  {
    hide IsTail, DecEntry, EncText, EncValue;
    if es == [] {
      assert EncEntries(es) + rest == rest && acc + DenoteMap(es) == acc;
    } else {
      var tail := EncEntries(es[1..]) + rest;
      Assoc4(EncText(es[0].key), EncValue(es[0].val), EncEntries(es[1..]), rest);
      EntryReadsBack(es[0], tail);
      var acc' := acc[es[0].key := DenoteValue(es[0].val)];
      EntriesReadBack(es[1..], acc', rest);
      InsertThenLater(acc, es[0].key, DenoteValue(es[0].val), DenoteMap(es[1..]));
    }
  }

  lemma MapReadsBack(es: ListedMap, rest: seq<byte>)
    requires MapFits(es)
    ensures DecMap(EncMap(es) + rest) == Got(DenoteMap(es), rest)
  {
    hide IsTail, DecUint, LE, DecEntries, EncEntries;
    var tail := EncEntries(es) + rest;
    Assoc(LE(|es|, 4), EncEntries(es), rest);
    UintReadsBack(|es|, 4, tail);
    EntriesReadBack(es, map[], rest);
    assert map[] + DenoteMap(es) == DenoteMap(es);
  }

  lemma TargetReadsBack(table: Text, rowId: Option<U64>, rest: seq<byte>)
    requires TextFits(table)
    ensures DecTarget(EncText(table) + (EncRowId(rowId) + rest)) == Got((table, rowId), rest)
  {
    hide IsTail, DecText, EncText, DecUint, LE;
    TextReadsBack(table, EncRowId(rowId) + rest);
    if rowId.Some? {
      assert (EncRowId(rowId) + rest)[1..] == LE(rowId.value, 8) + rest;
      UintReadsBack(rowId.value, 8, rest);
    }
  }

  lemma OptMapReadsBack(values: Option<ListedMap>, rest: seq<byte>)
    requires values.Some? ==> MapFits(values.value)
    ensures DecOptMap(EncOptMap(values) + rest)
         == Got(if values.Some? then Some(DenoteMap(values.value)) else None, rest)
  {
    hide IsTail, DecMap, EncMap;
    if values.Some? {
      assert (EncOptMap(values) + rest)[1..] == EncMap(values.value) + rest;
      MapReadsBack(values.value, rest);
    }
  }

  lemma OptTextReadsBack(msg: Option<Text>, rest: seq<byte>)
    requires msg.Some? ==> TextFits(msg.value)
    ensures DecOptText(EncOptText(msg) + rest) == Got(msg, rest)
  {
    hide IsTail, DecText, EncText;
    if msg.Some? {
      assert (EncOptText(msg) + rest)[1..] == EncText(msg.value) + rest;
      TextReadsBack(msg.value, rest);
    }
  }

  lemma ByteReadsBack(b: byte, rest: seq<byte>)
    ensures DecUint(1, [b] + rest) == Got(b as int, rest)
  {
    assert LE(b as int, 1) == [b];
    UintReadsBack(b as int, 1, rest);
  }

  lemma RequestHeadReadsBack(id: U64, op: Op, rest: seq<byte>)
    ensures DecRequestHead(LE(id, 8) + ([OpTag(op)] + rest)) == Got((id, op), rest)
  {
    hide IsTail, DecUint, LE;
    UintReadsBack(id, 8, [OpTag(op)] + rest);
    ByteReadsBack(OpTag(op), rest);
    assert OpFromTag(OpTag(op)) == Some(op);
  }

  lemma RequestReadsBack(w: ListedRequest, rest: seq<byte>)
    requires RequestFits(w)
    ensures DecRequest(EncRequest(w) + rest) == Got(DenoteRequest(w), rest)
  {
    hide IsTail, DecRequestHead, DecTarget, DecOptMap, EncRowId, EncOptMap, EncText, LE;
    var tail2 := EncOptMap(w.values) + rest;
    var tail1 := EncText(w.table) + (EncRowId(w.rowId) + tail2);
    Assoc6(LE(w.id, 8), [OpTag(w.op)], EncText(w.table), EncRowId(w.rowId), EncOptMap(w.values), rest);
    RequestHeadReadsBack(w.id, w.op, tail1);
    TargetReadsBack(w.table, w.rowId, tail2);
    OptMapReadsBack(w.values, rest);
  }

  lemma {:induction false} RequestsReadBack(ws: seq<ListedRequest>, acc: seq<Request>, rest: seq<byte>)
    requires RequestsFit(ws)
    ensures DecRequests(|ws|, EncRequests(ws) + rest, acc) == Got(acc + DenoteRequests(ws), rest)
  {
    hide IsTail, DecRequest, EncRequest, DenoteRequest, RequestFits;
    if ws == [] {
      assert EncRequests(ws) + rest == rest && acc + DenoteRequests(ws) == acc;
    } else {
      var tail := EncRequests(ws[1..]) + rest;
      Assoc(EncRequest(ws[0]), EncRequests(ws[1..]), rest);
      RequestReadsBack(ws[0], tail);
      var q := DenoteRequest(ws[0]);
      RequestsReadBack(ws[1..], acc + [q], rest);
      assert acc + [q] + DenoteRequests(ws[1..]) == acc + DenoteRequests(ws);
    }
  }

  lemma {:induction false} RowsReadBack(ws: seq<ListedRow>, acc: seq<RowView>, rest: seq<byte>)
    requires RowsFit(ws)
    ensures DecRows(|ws|, EncRows(ws) + rest, acc) == Got(acc + DenoteRows(ws), rest)
  {
    hide IsTail, DecUint, DecMap, EncMap, LE;
    if ws == [] {
      assert EncRows(ws) + rest == rest && acc + DenoteRows(ws) == acc;
    } else {
      var tail := EncRows(ws[1..]) + rest;
      Assoc4(LE(ws[0].id, 8), EncMap(ws[0].values), EncRows(ws[1..]), rest);
      UintReadsBack(ws[0].id, 8, EncMap(ws[0].values) + tail);
      MapReadsBack(ws[0].values, tail);
      var row := DenoteRow(ws[0]);
      RowsReadBack(ws[1..], acc + [row], rest);
      assert acc + [row] + DenoteRows(ws[1..]) == acc + DenoteRows(ws);
    }
  }

  lemma ResponseHeadReadsBack(id: U64, ok: bool, n: nat, rest: seq<byte>)
    requires n <= MAX_ROWS
    ensures DecResponseHead(LE(id, 8) + ([Flag(ok)] + (LE(n, 4) + rest))) == Got((id, ok, n), rest)
  {
    hide IsTail, DecUint, LE;
    UintReadsBack(id, 8, [Flag(ok)] + (LE(n, 4) + rest));
    ByteReadsBack(Flag(ok), LE(n, 4) + rest);
    UintReadsBack(n, 4, rest);
  }

  lemma ResponseReadsBack(w: ListedResponse, rest: seq<byte>)
    requires ResponseFits(w)
    ensures DecResponse(EncResponse(w) + rest) == Got(DenoteResponse(w), rest)
  {
    hide IsTail, DecResponseHead, DecRows, DecOptText, EncRows, EncOptText, LE;
    var tail2 := EncOptText(w.error) + rest;
    var tail1 := EncRows(w.rows) + tail2;
    Assoc6(LE(w.id, 8), [Flag(w.ok)], LE(|w.rows|, 4), EncRows(w.rows), EncOptText(w.error), rest);
    ResponseHeadReadsBack(w.id, w.ok, |w.rows|, tail1);
    RowsReadBack(w.rows, [], tail2);
    OptTextReadsBack(w.error, rest);
    assert [] + DenoteRows(w.rows) == DenoteRows(w.rows);
  }

  lemma {:induction false} ResponsesReadBack(ws: seq<ListedResponse>, acc: seq<Response>, rest: seq<byte>)
    requires ResponsesFit(ws)
    ensures DecResponses(|ws|, EncResponses(ws) + rest, acc) == Got(acc + DenoteResponses(ws), rest)
  {
    hide IsTail, DecResponse, EncResponse, DenoteResponse, ResponseFits;
    if ws == [] {
      assert EncResponses(ws) + rest == rest && acc + DenoteResponses(ws) == acc;
    } else {
      var tail := EncResponses(ws[1..]) + rest;
      Assoc(EncResponse(ws[0]), EncResponses(ws[1..]), rest);
      ResponseReadsBack(ws[0], tail);
      var q := DenoteResponse(ws[0]);
      ResponsesReadBack(ws[1..], acc + [q], rest);
      assert acc + [q] + DenoteResponses(ws[1..]) == acc + DenoteResponses(ws);
    }
  }

  lemma BatchHeadReadsBack(id: U64, n: nat, rest: seq<byte>)
    requires n <= MAX_BATCH
    ensures DecBatchHead(LE(id, 8) + (LE(n, 4) + rest)) == Got((id, n), rest)
  {
    hide IsTail, DecUint, LE;
    UintReadsBack(id, 8, LE(n, 4) + rest);
    UintReadsBack(n, 4, rest);
  }

  /** A request within the caps decodes to itself, whichever order its maps were listed in. */
  lemma RequestRoundTrip(w: ListedRequest)
    requires RequestFits(w)
    ensures DecodeRequest(RequestPayload(w)) == Some(DenoteRequest(w))
    ensures DecodeIncoming(RequestPayload(w)) == Some(Single(DenoteRequest(w)))
  {
    hide IsTail, DecRequest, EncRequest;
    RequestReadsBack(w, []);
    assert RequestPayload(w)[1..] == EncRequest(w) + [];
  }

  lemma RequestsWhole(ops: seq<ListedRequest>)
    requires RequestsFit(ops)
    ensures DecRequests(|ops|, EncRequests(ops), []) == Got(DenoteRequests(ops), [])
  {
    hide IsTail, DecRequests, EncRequests, DenoteRequests;
    RequestsReadBack(ops, [], []);
    assert EncRequests(ops) + [] == EncRequests(ops);
    assert [] + DenoteRequests(ops) == DenoteRequests(ops);
  }

  lemma ResponsesWhole(rs: seq<ListedResponse>)
    requires ResponsesFit(rs)
    ensures DecResponses(|rs|, EncResponses(rs), []) == Got(DenoteResponses(rs), [])
  {
    hide IsTail, DecResponses, EncResponses, DenoteResponses;
    ResponsesReadBack(rs, [], []);
    assert EncResponses(rs) + [] == EncResponses(rs);
    assert [] + DenoteResponses(rs) == DenoteResponses(rs);
  }

  lemma BatchReadsBack(id: U64, ops: seq<ListedRequest>)
    requires |ops| <= MAX_BATCH && RequestsFit(ops)
    ensures DecBatch(LE(id, 8) + (LE(|ops|, 4) + EncRequests(ops))) == Got((id, DenoteRequests(ops)), [])
  {
    hide IsTail, DecBatchHead, DecRequests, EncRequests, LE;
    BatchHeadReadsBack(id, |ops|, EncRequests(ops));
    RequestsWhole(ops);
  }

  lemma BatchRoundTrip(kind: byte, id: U64, ops: seq<ListedRequest>)
    requires kind == KIND_BATCH_REQUEST || kind == KIND_ATOMIC_BATCH_REQUEST
    requires |ops| <= MAX_BATCH && RequestsFit(ops)
    ensures DecodeIncoming(BatchPayload(kind, id, ops))
         == Some(if kind == KIND_ATOMIC_BATCH_REQUEST then AtomicBatch(id, DenoteRequests(ops))
                 else Batch(id, DenoteRequests(ops)))
  {
    hide IsTail, DecBatch, DecRequest, EncRequests, DenoteRequests, RequestsFit, LE;
    UnderTag3(kind, LE(id, 8), LE(|ops|, 4), EncRequests(ops));
    BatchReadsBack(id, ops);
  }

  lemma ResponseRoundTrip(w: ListedResponse)
    requires ResponseFits(w)
    ensures DecodeResponse(ResponsePayload(w)) == Some(DenoteResponse(w))
  {
    hide IsTail, DecResponse, EncResponse;
    ResponseReadsBack(w, []);
    assert ResponsePayload(w)[1..] == EncResponse(w) + [];
  }

  lemma BatchResponseRoundTrip(id: U64, rs: seq<ListedResponse>)
    requires |rs| <= MAX_BATCH && ResponsesFit(rs)
    ensures DecodeBatchResponse(BatchResponsePayload(id, rs)) == Some(BatchResponse(id, DenoteResponses(rs)))
  {
    hide IsTail, DecBatchHead, DecResponses, EncResponses, DenoteResponses, ResponsesFit, LE;
    UnderTag3(KIND_BATCH_RESPONSE, LE(id, 8), LE(|rs|, 4), EncResponses(rs));
    BatchHeadReadsBack(id, |rs|, EncResponses(rs));
    ResponsesWhole(rs);
  }

  /** Where the parts of a request stand, for a reader that knows only the layout. */
  lemma RequestLayout(w: ListedRequest)
    requires |w.table| < 0x1_0000_0000
    ensures var p, t := RequestPayload(w), 14 + |w.table|;
      && |p| >= t + 2 && p[0] == KIND_REQUEST && p[9] == OpTag(w.op)
      && FromLE(p[1..9]) == w.id && FromLE(p[10..14]) == |w.table| && p[14..t] == w.table
      && p[t] == Flag(w.rowId.Some?)
      && (w.rowId.Some? ==>
        |p| >= t + 10 && FromLE(p[t + 1..t + 9]) == w.rowId.value && p[t + 9] == Flag(w.values.Some?))
      && (w.rowId.None? ==> p[t + 1] == Flag(w.values.Some?))
  {
    hide IsTail, LE, FromLE, EncMap;
    LERoundTrip(w.id, 8);
    LERoundTrip(|w.table|, 4);
    var tail := EncRowId(w.rowId) + EncOptMap(w.values);
    var p := RequestPayload(w);
    assert p == [KIND_REQUEST] + LE(w.id, 8) + [OpTag(w.op)] + LE(|w.table|, 4) + w.table + tail;
    assert p[1..9] == LE(w.id, 8) && p[10..14] == LE(|w.table|, 4) && p[14..14 + |w.table|] == w.table;
    assert p[14 + |w.table|..] == tail;
    if w.rowId.Some? {
      LERoundTrip(w.rowId.value, 8);
      var t := 14 + |w.table|;
      assert tail[1..9] == LE(w.rowId.value, 8) && tail[9] == Flag(w.values.Some?);
      assert p[t + 1..t + 9] == tail[1..9] && p[t + 9] == tail[9];
    } else {
      assert p[14 + |w.table| + 1] == tail[1];
    }
  }
}
