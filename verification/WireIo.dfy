/**
 The writer and the reader as the program runs them: a growing buffer, and a
 cursor over a fixed one. Each method is tied to the wire format in module Wire.
 */
module WireIo {
  import opened Types
  import opened Wire
  import opened WireLaws
  import opened Calendar

  lemma EncRowsStep(rows: seq<ListedRow>, i: nat)
    requires i < |rows|
    ensures EncRows(rows[i..]) == (LE(rows[i].id, 8) + EncMap(rows[i].values)) + EncRows(rows[i + 1..])
  {
    hide IsTail, LE, EncMap;
    assert rows[i..][1..] == rows[i + 1..];
  }

  lemma EncRowsEnds(rows: seq<ListedRow>)
    ensures rows[0..] == rows && EncRows(rows[|rows|..]) == []
    ensures forall b: seq<byte> :: b + EncRows(rows[|rows|..]) == b
  {
    assert rows[|rows|..] == [];
  }

  lemma EncEntriesStep(es: ListedMap, i: nat)
    requires i < |es|
    ensures EncEntries(es[i..]) == (EncText(es[i].key) + EncValue(es[i].val)) + EncEntries(es[i + 1..])
  {
    hide IsTail, EncText, EncValue;
    assert es[i..][1..] == es[i + 1..];
  }

  lemma EncEntriesEnds(es: ListedMap)
    ensures es[0..] == es && EncEntries(es[|es|..]) == []
    ensures forall b: seq<byte> :: b + EncEntries(es[|es|..]) == b
  {
    assert es[|es|..] == [];
  }

  class Writer {
    var buf: seq<byte>

    constructor ()
      ensures buf == []
    {
      buf := [];
    }

    method Raw(b: seq<byte>)
      modifies this
      ensures buf == old(buf) + b
    {
      buf := buf + b;
    }

    method Str(s: Text)
      modifies this
      ensures buf == old(buf) + EncText(s)
    {
      Raw(LE(|s|, 4));
      Raw(s);
    }

    method Value(w: ListedValue)
      modifies this
      ensures buf == old(buf) + EncValue(w)
      decreases w
    {
      match w
      case Leaf(v) => Raw(EncScalar(v));
      case Js(j) =>
        Raw([0x12]);
        Json(j);
      case Items(items) =>
        Raw([0x13]);
        Raw(LE(|items|, 4));
        Values(items);
        Assoc4(old(buf), [0x13], LE(|items|, 4), EncValues(items));
    }

    method Values(items: seq<ListedValue>)
      modifies this
      ensures buf == old(buf) + EncValues(items)
      decreases items
    {
      for i := 0 to |items|
        invariant buf + EncValues(items[i..]) == old(buf) + EncValues(items)
      {
        ghost var rest := EncValues(items[i + 1..]);
        assert EncValues(items[i..]) == EncValue(items[i]) + rest by { assert items[i..][1..] == items[i + 1..]; }
        hide *;
        Assoc(buf, EncValue(items[i]), rest);
        Value(items[i]);
      }
      assert items[|items|..] == [];
      assert EncValues([]) == [];
    }

    method Json(w: ListedJson)
      modifies this
      ensures buf == old(buf) + EncJson(w)
      decreases w
    {
      match w
      case JLeaf(j) => Raw(EncJsonScalar(j));
      case JItems(items) =>
        Raw([0x13]);
        Raw(LE(|items|, 4));
        Jsons(items);
        Assoc4(old(buf), [0x13], LE(|items|, 4), EncJsons(items));
      case JFields(fields) =>
        Raw([0x12]);
        Raw(LE(|fields|, 4));
        Fields(fields);
        Assoc4(old(buf), [0x12], LE(|fields|, 4), EncFields(fields));
    }

    method Jsons(items: seq<ListedJson>)
      modifies this
      ensures buf == old(buf) + EncJsons(items)
      decreases items
    {
      for i := 0 to |items|
        invariant buf + EncJsons(items[i..]) == old(buf) + EncJsons(items)
      {
        ghost var rest := EncJsons(items[i + 1..]);
        assert EncJsons(items[i..]) == EncJson(items[i]) + rest by { assert items[i..][1..] == items[i + 1..]; }
        hide *;
        Assoc(buf, EncJson(items[i]), rest);
        Json(items[i]);
      }
      assert items[|items|..] == [];
      assert EncJsons([]) == [];
    }

    method Fields(fields: seq<Field>)
      modifies this
      ensures buf == old(buf) + EncFields(fields)
      decreases fields
    {
      for i := 0 to |fields|
        invariant buf + EncFields(fields[i..]) == old(buf) + EncFields(fields)
      {
        ghost var rest := EncFields(fields[i + 1..]);
        assert EncFields(fields[i..]) == (EncText(fields[i].key) + EncJson(fields[i].val)) + rest
          by { assert fields[i..][1..] == fields[i + 1..]; }
        hide *;
        Assoc(buf, (EncText(fields[i].key) + EncJson(fields[i].val)), rest);
        OneField(fields[i]);
      }
      assert fields[|fields|..] == [];
      assert EncFields([]) == [];
    }

    method OneField(f: Field)
      modifies this
      ensures buf == old(buf) + (EncText(f.key) + EncJson(f.val))
      decreases f
    {
      Str(f.key);
      Json(f.val);
      Assoc(old(buf), EncText(f.key), EncJson(f.val));
    }

    method Entries(es: ListedMap)
      modifies this
      ensures buf == old(buf) + EncEntries(es)
      decreases es
    {
      hide *;
      EncEntriesEnds(es);
      for i := 0 to |es|
        invariant buf + EncEntries(es[i..]) == old(buf) + EncEntries(es)
      {
        EncEntriesStep(es, i);
        Assoc(buf, (EncText(es[i].key) + EncValue(es[i].val)), EncEntries(es[i + 1..]));
        Assoc(buf, EncText(es[i].key), EncValue(es[i].val));
        Str(es[i].key);
        Value(es[i].val);
      }
    }

    method Map(es: ListedMap)
      modifies this
      ensures buf == old(buf) + EncMap(es)
    {
      Raw(LE(|es|, 4));
      Entries(es);
    }

    method OptMap(values: Option<ListedMap>)
      modifies this
      ensures buf == old(buf) + EncOptMap(values)
    {
      hide IsTail, EncMap;
      match values
      case Some(es) =>
        Raw([1]);
        Map(es);
      case None => Raw([0]);
    }

    method RequestBody(w: ListedRequest)
      modifies this
      ensures buf == old(buf) + EncRequest(w)
    {
      hide IsTail, LE, EncText, EncRowId, EncOptMap;
      Raw(LE(w.id, 8));
      Raw([OpTag(w.op)]);
      Str(w.table);
      Raw(EncRowId(w.rowId));
      OptMap(w.values);
      Assoc6(old(buf), LE(w.id, 8), [OpTag(w.op)], EncText(w.table), EncRowId(w.rowId), EncOptMap(w.values));
      Assoc5(LE(w.id, 8), [OpTag(w.op)], EncText(w.table), EncRowId(w.rowId), EncOptMap(w.values));
    }

    method Rows(rows: seq<ListedRow>)
      modifies this
      ensures buf == old(buf) + EncRows(rows)
      decreases rows
    {
      hide *;
      EncRowsEnds(rows);
      for i := 0 to |rows|
        invariant buf + EncRows(rows[i..]) == old(buf) + EncRows(rows)
      {
        EncRowsStep(rows, i);
        Assoc(buf, (LE(rows[i].id, 8) + EncMap(rows[i].values)), EncRows(rows[i + 1..]));
        Assoc(buf, LE(rows[i].id, 8), EncMap(rows[i].values));
        Raw(LE(rows[i].id, 8));
        Map(rows[i].values);
      }
    }

    method OptStr(msg: Option<Text>)
      modifies this
      ensures buf == old(buf) + EncOptText(msg)
    {
      match msg
      case Some(t) =>
        Raw([1]);
        Str(t);
      case None => Raw([0]);
    }

    method ResponseBody(w: ListedResponse)
      modifies this
      ensures buf == old(buf) + EncResponse(w)
    {
      hide IsTail, LE, EncRows, EncOptText;
      Raw(LE(w.id, 8));
      Raw([Flag(w.ok)]);
      Raw(LE(|w.rows|, 4));
      Rows(w.rows);
      OptStr(w.error);
      Assoc6(old(buf), LE(w.id, 8), [Flag(w.ok)], LE(|w.rows|, 4), EncRows(w.rows), EncOptText(w.error));
      Assoc5(LE(w.id, 8), [Flag(w.ok)], LE(|w.rows|, 4), EncRows(w.rows), EncOptText(w.error));
    }

    /** The borrowed fast encoder: no response value is built, and `ok` is the absence of an error. */
    method ResponseBodyBorrowed(id: U64, rows: seq<ListedRow>, error: Option<Text>)
      modifies this
      ensures buf == old(buf) + EncResponse(LResponse(id, error.None?, rows, error))
    {
      hide IsTail, LE, EncRows, EncOptText;
      Raw(LE(id, 8));
      Raw([Flag(error.None?)]);
      Raw(LE(|rows|, 4));
      Rows(rows);
      OptStr(error);
      Assoc6(old(buf), LE(id, 8), [Flag(error.None?)], LE(|rows|, 4), EncRows(rows), EncOptText(error));
      Assoc5(LE(id, 8), [Flag(error.None?)], LE(|rows|, 4), EncRows(rows), EncOptText(error));
    }
  }
  // One turn of each of the reader's loops.

  lemma JsonsStep(n: nat, s: seq<byte>, acc: seq<Json>)
    ensures DecJsons(n, s, acc)
         == if n == 0 then Got(acc, s) else
            match DecJson(s) case Bad => Bad case Got(v, s1) => DecJsons(n - 1, s1, acc + [v])
  {
    hide IsTail, DecJson;
  }

  lemma FieldsStep(n: nat, s: seq<byte>, acc: map<Text, Json>)
    ensures DecFields(n, s, acc)
         == if n == 0 then Got(acc, s) else
            match DecField(s) case Bad => Bad case Got(v, s1) => DecFields(n - 1, s1, acc[v.0 := v.1])
  {
    hide IsTail, DecField;
  }

  lemma ValuesStep(n: nat, s: seq<byte>, acc: seq<Value>)
    ensures DecValues(n, s, acc)
         == if n == 0 then Got(acc, s) else
            match DecValue(s) case Bad => Bad case Got(v, s1) => DecValues(n - 1, s1, acc + [v])
  {
    hide IsTail, DecValue;
  }

  lemma EntriesStep(n: nat, s: seq<byte>, acc: map<Text, Value>)
    ensures DecEntries(n, s, acc)
         == if n == 0 then Got(acc, s) else
            match DecEntry(s) case Bad => Bad case Got(v, s1) => DecEntries(n - 1, s1, acc[v.0 := v.1])
  {
    hide IsTail, DecEntry;
  }

  lemma ResponsesStep(n: nat, s: seq<byte>, acc: seq<Response>)
    ensures DecResponses(n, s, acc)
         == if n == 0 then Got(acc, s) else
            match DecResponse(s) case Bad => Bad case Got(v, s1) => DecResponses(n - 1, s1, acc + [v])
  {
    hide IsTail, DecResponse;
  }

  lemma RowsStep(n: nat, s: seq<byte>, acc: seq<RowView>)
    ensures DecRows(n, s, acc)
         == if n == 0 then Got(acc, s) else
            match DecRow(s) case Bad => Bad case Got(v, s1) => DecRows(n - 1, s1, acc + [v])
  {
    hide IsTail, DecRow;
  }

  /** A method's answer `r`, with `rest` still unread, is what the format says. */
  predicate Reads<T(==)>(p: Parsed<T>, r: Option<T>, rest: seq<byte>) {
    match p
    case Bad => r == None
    case Got(v, s) => r == Some(v) && rest == s
  }

  class Reader {
    const buf: seq<byte>
    var pos: nat

    ghost predicate Valid()
      reads this
    {
      pos <= |buf|
    }

    ghost function Unread(): seq<byte>
      requires Valid()
      reads this
    {
      buf[pos..]
    }

    constructor (b: seq<byte>)
      ensures Valid() && buf == b && Unread() == b
    {
      buf, pos := b, 0;
    }

    method TakeBytes(n: nat) returns (r: Option<seq<byte>>)
      requires Valid()
      modifies this
      ensures Valid() && pos >= old(pos) && (r.Some? && n > 0 ==> pos > old(pos))
      ensures Reads(Take(n, old(Unread())), r, Unread())
    {
      if pos + n > |buf| { return None; }
      r := Some(buf[pos..pos + n]);
      assert buf[pos..][..n] == buf[pos..pos + n] && buf[pos..][n..] == buf[pos + n..];
      pos := pos + n;
    }

    method Uint(k: nat) returns (r: Option<nat>)
      requires Valid() && 0 < k <= 8
      modifies this
      ensures Valid() && pos >= old(pos) && (r.Some? ==> pos > old(pos))
      ensures Reads(DecUint(k, old(Unread())), r, Unread())
    {
      var b :- TakeBytes(k);
      return Some(FromLE(b));
    }

    method Int(k: nat) returns (r: Option<int>)
      requires Valid() && (k == 1 || k == 2 || k == 4 || k == 8)
      modifies this
      ensures Valid() && pos >= old(pos) && (r.Some? ==> pos > old(pos))
      ensures Reads(DecInt(k, old(Unread())), r, Unread())
    {
      hide IsTail, DecUint;
      var n :- Uint(k);
      return Some(if n >= Bound(k) / 2 then n - Bound(k) else n);
    }

    method Str() returns (r: Option<Text>)
      requires Valid()
      modifies this
      ensures Valid() && pos >= old(pos) && (r.Some? ==> pos > old(pos))
      ensures Reads(DecText(old(Unread())), r, Unread())
    {
      hide IsTail, DecUint, ValidUtf8;
      var n :- Uint(4);
      var b :- TakeBytes(n);
      return if ValidUtf8(b) then Some(b) else None;
    }

    method DateBody() returns (r: Option<Value>)
      requires Valid()
      modifies this
      ensures Valid() && pos >= old(pos)
      ensures Reads(DecDate(old(Unread())), r, Unread())
    {
      hide IsTail, DecUint, DecInt, ChronoDate, CivilFromDays;
      var days :- Int(4);
      var month :- Uint(4);
      var day :- Uint(4);
      var c := CivilFromDays(days - 1);
      return if ChronoDate(c) && c.m == month && c.d == day then Some(Date(c)) else None;
    }

    method Scalar(tag: byte) returns (r: Option<Value>)
      requires Valid()
      modifies this
      ensures Valid() && pos >= old(pos)
      ensures Reads(DecScalar(tag, old(Unread())), r, Unread())
    {
      hide IsTail, DecUint, DecInt, DecText, DecDate, Take, ChronoMicros;
      match tag
      case 0x00 => r := Some(Null);
      case 0x01 => var n :- Uint(1); r := Some(Boolean(n != 0));
      case 0x02 => var n :- Int(1); r := Some(Int8(n));
      case 0x03 => var n :- Int(2); r := Some(Int16(n));
      case 0x04 => var n :- Int(4); r := Some(Int32(n));
      case 0x05 => var n :- Int(8); r := Some(Int64(n));
      case 0x06 => var n :- Uint(1); r := Some(UInt8(n));
      case 0x07 => var n :- Uint(2); r := Some(UInt16(n));
      case 0x08 => var n :- Uint(4); r := Some(UInt32(n));
      case 0x09 => var n :- Uint(8); r := Some(UInt64(n));
      case 0x0A => var n :- Uint(4); r := Some(Float32(n));
      case 0x0B => var n :- Uint(8); r := Some(Float64(n));
      case 0x0C => var t :- Str(); r := Some(Decimal(t));
      case 0x0D => var t :- Str(); r := Some(String(t));
      case 0x0E =>
        var n :- Uint(4);
        var b :- TakeBytes(n);
        r := Some(Bytes(b));
      case 0x0F => var b :- TakeBytes(16); r := Some(Uuid(b));
      case 0x10 =>
        var t :- Int(8);
        r := if ChronoMicros(t) then Some(Timestamp(t)) else None;
      case 0x11 => r := DateBody();
      case _ => r := None;
    }

    method JsonScalar(tag: byte) returns (r: Option<Json>)
      requires Valid()
      modifies this
      ensures Valid() && pos >= old(pos)
      ensures Reads(DecJsonScalar(tag, old(Unread())), r, Unread())
    {
      hide IsTail, DecUint, DecInt, DecText;
      match tag
      case 0x00 => r := Some(JNull);
      case 0x01 => var n :- Uint(1); r := Some(JBool(n != 0));
      case 0x05 => var n :- Int(8); r := Some(JInt(n));
      case 0x09 => var n :- Uint(8); r := Some(JInt(n));
      case 0x0B => var n :- Uint(8); r := Some(JsonOfBits(n));
      case 0x0D => var t :- Str(); r := Some(JStr(t));
      case _ => r := None;
    }

    /** One byte, as a tag. */
    method Tag() returns (r: Option<byte>)
      requires Valid()
      modifies this
      ensures Valid() && pos >= old(pos) && (r.Some? ==> pos > old(pos))
      ensures r.None? <==> old(Unread()) == []
      ensures r.Some? ==> r.value == old(Unread())[0] && Unread() == old(Unread())[1..]
    {
      var b :- TakeBytes(1);
      return Some(b[0]);
    }

    method JsonValue() returns (r: Option<Json>)
      requires Valid()
      modifies this
      ensures Valid() && pos >= old(pos) && (r.Some? ==> pos > old(pos))
      ensures Reads(DecJson(old(Unread())), r, Unread())
      decreases |buf| - pos, 0
    {
      hide IsTail, DecUint, DecFields, DecJsons, DecJsonScalar;
      var tag :- Tag();
      if tag == 0x12 {
        var n :- Uint(4);
        if n > MAX_MAP { return None; }
        var m :- Fields(n);
        r := Some(JObj(m));
      } else if tag == 0x13 {
        var n :- Uint(4);
        if n > MAX_ARRAY { return None; }
        var js :- Jsons(n);
        r := Some(JArr(js));
      } else {
        r := JsonScalar(tag);
      }
    }

    method Jsons(n: nat) returns (r: Option<seq<Json>>)
      requires Valid()
      modifies this
      ensures Valid() && pos >= old(pos)
      ensures Reads(DecJsons(n, old(Unread()), []), r, Unread())
      decreases |buf| - pos, 2
    {
      hide IsTail, DecJson, DecJsons;
      ghost var start := Unread();
      var out := [];
      for i := 0 to n
        invariant Valid() && pos >= old(pos)
        invariant DecJsons(n, start, []) == DecJsons(n - i, Unread(), out)
      {
        JsonsStep(n - i, Unread(), out);
        var j :- JsonValue();
        out := out + [j];
      }
      JsonsStep(0, Unread(), out);
      return Some(out);
    }

    method OneField() returns (r: Option<(Text, Json)>)
      requires Valid()
      modifies this
      ensures Valid() && pos >= old(pos) && (r.Some? ==> pos > old(pos))
      ensures Reads(DecField(old(Unread())), r, Unread())
      decreases |buf| - pos, 1
    {
      hide IsTail, DecText, DecJson;
      var k :- Str();
      var j :- JsonValue();
      return Some((k, j));
    }

    method Fields(n: nat) returns (r: Option<map<Text, Json>>)
      requires Valid()
      modifies this
      ensures Valid() && pos >= old(pos)
      ensures Reads(DecFields(n, old(Unread()), map[]), r, Unread())
      decreases |buf| - pos, 2
    {
      hide IsTail, DecField, DecFields;
      ghost var start := Unread();
      var out := map[];
      for i := 0 to n
        invariant Valid() && pos >= old(pos)
        invariant DecFields(n, start, map[]) == DecFields(n - i, Unread(), out)
      {
        FieldsStep(n - i, Unread(), out);
        var f :- OneField();
        out := out[f.0 := f.1];
      }
      FieldsStep(0, Unread(), out);
      return Some(out);
    }

    method Value() returns (r: Option<Value>)
      requires Valid()
      modifies this
      ensures Valid() && pos >= old(pos) && (r.Some? ==> pos > old(pos))
      ensures Reads(DecValue(old(Unread())), r, Unread())
      decreases |buf| - pos, 0
    {
      hide IsTail, DecUint, DecJson, DecValues, DecScalar;
      var tag :- Tag();
      if tag == 0x12 {
        var j :- JsonValue();
        r := Some(JsonV(j));
      } else if tag == 0x13 {
        var n :- Uint(4);
        if n > MAX_ARRAY { return None; }
        var vs :- Values(n);
        r := Some(Array(vs));
      } else {
        r := Scalar(tag);
      }
    }

    method Values(n: nat) returns (r: Option<seq<Value>>)
      requires Valid()
      modifies this
      ensures Valid() && pos >= old(pos)
      ensures Reads(DecValues(n, old(Unread()), []), r, Unread())
      decreases |buf| - pos, 2
    {
      hide IsTail, DecValue, DecValues;
      ghost var start := Unread();
      var out := [];
      for i := 0 to n
        invariant Valid() && pos >= old(pos)
        invariant DecValues(n, start, []) == DecValues(n - i, Unread(), out)
      {
        ValuesStep(n - i, Unread(), out);
        var v :- Value();
        out := out + [v];
      }
      ValuesStep(0, Unread(), out);
      return Some(out);
    }

    method OneEntry() returns (r: Option<(Text, Value)>)
      requires Valid()
      modifies this
      ensures Valid() && pos >= old(pos)
      ensures Reads(DecEntry(old(Unread())), r, Unread())
    {
      hide IsTail, DecText, DecValue;
      var k :- Str();
      var v :- Value();
      return Some((k, v));
    }

    method Map() returns (r: Option<map<Text, Value>>)
      requires Valid()
      modifies this
      ensures Valid() && pos >= old(pos)
      ensures Reads(DecMap(old(Unread())), r, Unread())
    {
      hide IsTail, DecEntry, DecEntries;
      hide IsTail, DecUint;
      var n :- Uint(4);
      if n > MAX_MAP { return None; }
      var out := map[];
      ghost var start := Unread();
      for i := 0 to n
        invariant Valid() && pos >= old(pos)
        invariant DecEntries(n, start, map[]) == DecEntries(n - i, Unread(), out)
      {
        EntriesStep(n - i, Unread(), out);
        var e :- OneEntry();
        out := out[e.0 := e.1];
      }
      EntriesStep(0, Unread(), out);
      return Some(out);
    }

    method RowId() returns (r: Option<Option<U64>>)
      requires Valid()
      modifies this
      ensures Valid() && pos >= old(pos)
      ensures Reads(DecRowId(old(Unread())), r, Unread())
    {
      hide IsTail, DecUint;
      var t :- Tag();
      if t == 0 { return Some(None); }
      if t != 1 { return None; }
      var n :- Uint(8);
      return Some(Some(n));
    }

    method OptMap() returns (r: Option<Option<map<Text, Value>>>)
      requires Valid()
      modifies this
      ensures Valid() && pos >= old(pos)
      ensures Reads(DecOptMap(old(Unread())), r, Unread())
    {
      hide IsTail, DecMap;
      var t :- Tag();
      if t == 0 { return Some(None); }
      if t != 1 { return None; }
      var m :- Map();
      return Some(Some(m));
    }

    method OptStr() returns (r: Option<Option<Text>>)
      requires Valid()
      modifies this
      ensures Valid() && pos >= old(pos)
      ensures Reads(DecOptText(old(Unread())), r, Unread())
    {
      hide IsTail, DecText;
      var t :- Tag();
      if t == 0 { return Some(None); }
      if t != 1 { return None; }
      var s :- Str();
      return Some(Some(s));
    }

    method RequestHead() returns (r: Option<(U64, Op)>)
      requires Valid()
      modifies this
      ensures Valid() && pos >= old(pos)
      ensures Reads(DecRequestHead(old(Unread())), r, Unread())
    {
      hide IsTail, DecUint;
      var id :- Uint(8);
      var t :- Uint(1);
      var op :- OpFromTag(t as byte);
      return Some((id, op));
    }

    method Target() returns (r: Option<(Text, Option<U64>)>)
      requires Valid()
      modifies this
      ensures Valid() && pos >= old(pos)
      ensures Reads(DecTarget(old(Unread())), r, Unread())
    {
      hide IsTail, DecText, DecRowId;
      var table :- Str();
      var rowId :- RowId();
      return Some((table, rowId));
    }

    method RequestBody() returns (r: Option<Request>)
      requires Valid()
      modifies this
      ensures Valid() && pos >= old(pos)
      ensures Reads(DecRequest(old(Unread())), r, Unread())
    {
      hide IsTail, DecRequestHead, DecTarget, DecOptMap;
      var head :- RequestHead();
      var target :- Target();
      var values :- OptMap();
      return Some(Request(head.0, head.1, target.0, target.1, values));
    }

    method Row() returns (r: Option<RowView>)
      requires Valid()
      modifies this
      ensures Valid() && pos >= old(pos)
      ensures Reads(DecRow(old(Unread())), r, Unread())
    {
      hide IsTail, DecUint, DecMap;
      var id :- Uint(8);
      var m :- Map();
      return Some(RowView(id, m));
    }

    method ResponseHead() returns (r: Option<(U64, bool, nat)>)
      requires Valid()
      modifies this
      ensures Valid() && pos >= old(pos)
      ensures Reads(DecResponseHead(old(Unread())), r, Unread())
    {
      hide IsTail, DecUint;
      var id :- Uint(8);
      var ok :- Uint(1);
      var n :- Uint(4);
      return if n > MAX_ROWS then None else Some((id, ok != 0, n));
    }

    method ResponseBody() returns (r: Option<Response>)
      requires Valid()
      modifies this
      ensures Valid() && pos >= old(pos)
      ensures Reads(DecResponse(old(Unread())), r, Unread())
    {
      hide IsTail, DecRow, DecRows;
      hide IsTail, DecResponseHead, DecOptText;
      var head :- ResponseHead();
      var rows := [];
      ghost var start := Unread();
      for i := 0 to head.2
        invariant Valid() && pos >= old(pos)
        invariant DecRows(head.2, start, []) == DecRows(head.2 - i, Unread(), rows)
      {
        RowsStep(head.2 - i, Unread(), rows);
        var row :- Row();
        rows := rows + [row];
      }
      RowsStep(0, Unread(), rows);
      var error :- OptStr();
      return Some(Response(head.0, head.1, rows, error));
    }

    method AtEnd() returns (ok: bool)
      requires Valid()
      ensures ok <==> Unread() == []
    {
      return pos == |buf|;
    }
  }

  method DecodeRequestPayload(frame: seq<byte>) returns (r: Option<Request>)
    ensures r == DecodeRequest(frame)
  {
    hide IsTail, DecRequest;
    var rd := new Reader(frame);
    var kind :- rd.Tag();
    if kind != KIND_REQUEST { return None; }
    var q :- rd.RequestBody();
    var done := rd.AtEnd();
    return if done then Some(q) else None;
  }

  method DecodeIncomingPayload(frame: seq<byte>) returns (r: Option<Incoming>)
    ensures r == DecodeIncoming(frame)
  {
    hide IsTail, DecRequest, DecBatchHead;
    var rd := new Reader(frame);
    var kind :- rd.Tag();
    var out;
    if kind == KIND_REQUEST {
      var q :- rd.RequestBody();
      out := Single(q);
    } else if kind == KIND_BATCH_REQUEST || kind == KIND_ATOMIC_BATCH_REQUEST {
      var head :- BatchHead(rd);
      var ops := [];
      ghost var start := rd.Unread();
      for i := 0 to head.1
        invariant rd.Valid()
        invariant DecRequests(head.1, start, []) == DecRequests(head.1 - i, rd.Unread(), ops)
      {
        var q :- rd.RequestBody();
        ops := ops + [q];
      }
      out := if kind == KIND_ATOMIC_BATCH_REQUEST then AtomicBatch(head.0, ops) else Batch(head.0, ops);
    } else {
      return None;
    }
    var done := rd.AtEnd();
    return if done then Some(out) else None;
  }

  method BatchHead(rd: Reader) returns (r: Option<(U64, nat)>)
    requires rd.Valid()
    modifies rd
    ensures rd.Valid()
    ensures Reads(DecBatchHead(old(rd.Unread())), r, rd.Unread())
  {
    hide IsTail, DecUint;
    var id :- rd.Uint(8);
    var n :- rd.Uint(4);
    return if n > MAX_BATCH then None else Some((id, n));
  }

  method DecodeResponsePayload(frame: seq<byte>) returns (r: Option<Response>)
    ensures r == DecodeResponse(frame)
  {
    hide IsTail, DecResponse;
    var rd := new Reader(frame);
    var kind :- rd.Tag();
    if kind != KIND_RESPONSE { return None; }
    var q :- rd.ResponseBody();
    var done := rd.AtEnd();
    return if done then Some(q) else None;
  }

  method Results(rd: Reader, n: nat) returns (r: Option<seq<Response>>)
    requires rd.Valid()
    modifies rd
    ensures rd.Valid()
    ensures Reads(DecResponses(n, old(rd.Unread()), []), r, rd.Unread())
  {
    hide IsTail, DecResponse, DecResponses;
    var results := [];
    ghost var start := rd.Unread();
    for i := 0 to n
      invariant rd.Valid()
      invariant DecResponses(n, start, []) == DecResponses(n - i, rd.Unread(), results)
    {
      ResponsesStep(n - i, rd.Unread(), results);
      var q :- rd.ResponseBody();
      results := results + [q];
    }
    ResponsesStep(0, rd.Unread(), results);
    return Some(results);
  }

  method DecodeBatchResponsePayload(frame: seq<byte>) returns (r: Option<BatchResponse>)
    ensures r == DecodeBatchResponse(frame)
  {
    hide IsTail, DecResponses, DecBatchHead;
    var rd := new Reader(frame);
    var kind :- rd.Tag();
    if kind != KIND_BATCH_RESPONSE { return None; }
    var head :- BatchHead(rd);
    var results :- Results(rd, head.1);
    var done := rd.AtEnd();
    return if done then Some(BatchResponse(head.0, results)) else None;
  }
}
