/**
 Listings and the maps they stand for: a HashMap's iterator may visit the entries
 in any order, and the reader must rebuild the same map from each of them.
 */
module Listings {
  import opened Types
  import opened Wire
  import opened WireLaws
  import opened Framing

  predicate DistinctKeys(es: ListedMap) {
    forall i, j :: 0 <= i < j < |es| ==> es[i].key != es[j].key
  }

  /** A listing with distinct keys maps exactly those keys, each to its own value. */
  lemma {:induction false} ListingContents(es: ListedMap)
    requires DistinctKeys(es)
    ensures forall k :: k in DenoteMap(es) <==> exists i :: 0 <= i < |es| && es[i].key == k
    ensures forall i :: 0 <= i < |es| ==>
            es[i].key in DenoteMap(es) && DenoteMap(es)[es[i].key] == DenoteValue(es[i].val)
  {
    if es != [] {
      var tail := es[1..];
      assert forall i :: 0 <= i < |tail| ==> tail[i] == es[i + 1];
      ListingContents(tail);
      forall k ensures k in DenoteMap(es) <==> exists i :: 0 <= i < |es| && es[i].key == k {
        assert k == es[0].key ==> es[0].key == k;
        if i: int :| 0 <= i < |tail| && tail[i].key == k { assert es[i + 1].key == k; }
        if i: int :| 0 <= i < |es| && es[i].key == k { assert i > 0 ==> tail[i - 1].key == k; }
      }
      forall i | 0 <= i < |es|
        ensures es[i].key in DenoteMap(es) && DenoteMap(es)[es[i].key] == DenoteValue(es[i].val)
      {
        assert i > 0 ==> tail[i - 1] == es[i];
        assert forall j :: 0 <= j < |tail| ==> tail[j].key != es[0].key;
      }
    }
  }

  /** The listing has an entry for `k` that stands for `v`. */
  ghost predicate Says(es: ListedMap, k: Text, v: Value) {
    exists i :: 0 <= i < |es| && es[i].key == k && DenoteValue(es[i].val) == v
  }

  lemma MapSays(es: ListedMap, k: Text, v: Value)
    requires DistinctKeys(es)
    ensures k in DenoteMap(es) && DenoteMap(es)[k] == v <==> Says(es, k, v)
  {
    hide DenoteMap, DenoteValue;
    ListingContents(es);
    if k in DenoteMap(es) { var i :| 0 <= i < |es| && es[i].key == k; }
  }

  /** Two listings stand for the same map exactly when they say the same of the same keys, in whatever orders. */
  lemma ListingOrderIrrelevant(es: ListedMap, fs: ListedMap)
    requires DistinctKeys(es) && DistinctKeys(fs)
    ensures DenoteMap(es) == DenoteMap(fs) <==> forall k, v :: Says(es, k, v) <==> Says(fs, k, v)
  {
    hide DenoteMap, Says, DistinctKeys;
    var m, n := DenoteMap(es), DenoteMap(fs);
    forall k, v
      ensures (k in m && m[k] == v <==> Says(es, k, v)) && (k in n && n[k] == v <==> Says(fs, k, v))
    {
      MapSays(es, k, v);
      MapSays(fs, k, v);
    }
    if forall k, v :: Says(es, k, v) <==> Says(fs, k, v) {
      forall k ensures k in m <==> k in n {
        assert k in m ==> Says(es, k, m[k]);
        assert k in n ==> Says(fs, k, n[k]);
      }
      forall k | k in m ensures m[k] == n[k] { assert Says(es, k, m[k]); }
    }
  }

  // ------------------------------------------------------- proper listings

  /** Leaves are no containers, and no map lists a key twice, at any depth. */
  predicate JsonProper(w: ListedJson) {
    match w
    case JLeaf(j) => !j.JArr? && !j.JObj?
    case JItems(items) => forall i :: 0 <= i < |items| ==> JsonProper(items[i])
    case JFields(fields) => FieldsDistinct(fields) && forall i :: 0 <= i < |fields| ==> JsonProper(fields[i].val)
  }

  predicate FieldsDistinct(fs: seq<Field>) {
    forall i, j :: 0 <= i < j < |fs| ==> fs[i].key != fs[j].key
  }

  predicate ValueProper(w: ListedValue) {
    match w
    case Leaf(v) => !v.JsonV? && !v.Array?
    case Js(j) => JsonProper(j)
    case Items(items) => forall i :: 0 <= i < |items| ==> ValueProper(items[i])
  }

  predicate MapProper(es: ListedMap) {
    DistinctKeys(es) && forall i :: 0 <= i < |es| ==> ValueProper(es[i].val)
  }

  predicate RequestProper(w: ListedRequest) { w.values.Some? ==> MapProper(w.values.value) }

  predicate ResponseProper(w: ListedResponse) { forall i :: 0 <= i < |w.rows| ==> MapProper(w.rows[i].values) }

  // ------------------------------------------- the caps, said of the values

  predicate JsonWithin(j: Json) {
    match j
    case JStr(s) => TextFits(s)
    case JArr(items) => |items| <= MAX_ARRAY && forall i :: 0 <= i < |items| ==> JsonWithin(items[i])
    case JObj(fields) => |fields| <= MAX_MAP && forall k :: k in fields ==> TextFits(k) && JsonWithin(fields[k])
    case _ => true
  }

  predicate ValueWithin(v: Value) {
    match v
    case JsonV(j) => JsonWithin(j)
    case Array(items) => |items| <= MAX_ARRAY && forall i :: 0 <= i < |items| ==> ValueWithin(items[i])
    case _ => ScalarFits(v)
  }

  predicate MapWithin(m: map<Text, Value>) {
    |m| <= MAX_MAP && forall k :: k in m ==> TextFits(k) && ValueWithin(m[k])
  }

  predicate RequestWithin(r: Request) { TextFits(r.table) && (r.values.Some? ==> MapWithin(r.values.value)) }

  predicate ResponseWithin(r: Response) {
    |r.rows| <= MAX_ROWS && (forall i :: 0 <= i < |r.rows| ==> MapWithin(r.rows[i].values))
      && (r.error.Some? ==> TextFits(r.error.value))
  }

  // -------------------- the writer's order does not decide what fits the caps

  lemma {:induction false} FieldsContents(fs: seq<Field>)
    requires FieldsDistinct(fs)
    ensures forall k :: k in DenoteFields(fs) <==> exists i :: 0 <= i < |fs| && fs[i].key == k
    ensures forall i :: 0 <= i < |fs| ==>
            fs[i].key in DenoteFields(fs) && DenoteFields(fs)[fs[i].key] == DenoteJson(fs[i].val)
  {
    hide DenoteJson;
    if fs != [] {
      var tail := fs[1..];
      assert forall i :: 0 <= i < |tail| ==> tail[i] == fs[i + 1];
      FieldsContents(tail);
      forall k ensures k in DenoteFields(fs) <==> exists i :: 0 <= i < |fs| && fs[i].key == k {
        assert k == fs[0].key ==> fs[0].key == k;
        if i: int :| 0 <= i < |tail| && tail[i].key == k { assert fs[i + 1].key == k; }
        if i: int :| 0 <= i < |fs| && fs[i].key == k { assert i > 0 ==> tail[i - 1].key == k; }
      }
      forall i | 0 <= i < |fs|
        ensures fs[i].key in DenoteFields(fs) && DenoteFields(fs)[fs[i].key] == DenoteJson(fs[i].val)
      {
        assert i > 0 ==> tail[i - 1] == fs[i];
        assert forall j :: 0 <= j < |tail| ==> tail[j].key != fs[0].key;
      }
    }
  }

  lemma {:induction false} FieldsSize(fs: seq<Field>)
    requires FieldsDistinct(fs)
    ensures |DenoteFields(fs)| == |fs|
  {
    hide DenoteJson;
    if fs != [] {
      var tail := fs[1..];
      assert forall i :: 0 <= i < |tail| ==> tail[i] == fs[i + 1];
      FieldsSize(tail);
      FieldsContents(tail);
      assert forall j :: 0 <= j < |tail| ==> tail[j].key != fs[0].key;
      OneMoreKey(fs[0].key, DenoteJson(fs[0].val), DenoteFields(tail));
    }
  }

  lemma OneMoreKey<V>(k: Text, v: V, m: map<Text, V>)
    requires k !in m
    ensures |map[k := v] + m| == 1 + |m| && (map[k := v] + m)[k] == v
    ensures (map[k := v] + m).Keys == {k} + m.Keys && forall x :: x in m ==> (map[k := v] + m)[x] == m[x]
  {
    var all := map[k := v] + m;
    assert all.Keys == {k} + m.Keys;
    assert |all| == |all.Keys| && |m| == |m.Keys|;
  }

  lemma {:induction false} MapSize(es: ListedMap)
    requires DistinctKeys(es)
    ensures |DenoteMap(es)| == |es|
  {
    hide DenoteValue;
    if es != [] {
      var tail := es[1..];
      assert forall i :: 0 <= i < |tail| ==> tail[i] == es[i + 1];
      MapSize(tail);
      ListingContents(tail);
      assert forall j :: 0 <= j < |tail| ==> tail[j].key != es[0].key;
      OneMoreKey(es[0].key, DenoteValue(es[0].val), DenoteMap(tail));
    }
  }

  lemma {:induction false} JsonsAt(ws: seq<ListedJson>)
    ensures |DenoteJsons(ws)| == |ws| && forall i :: 0 <= i < |ws| ==> DenoteJsons(ws)[i] == DenoteJson(ws[i])
    ensures JsonsFit(ws) <==> forall i :: 0 <= i < |ws| ==> JsonFits(ws[i])
  {
    hide DenoteJson, JsonFits;
    if ws != [] {
      JsonsAt(ws[1..]);
      assert ws == [ws[0]] + ws[1..];
    }
  }

  lemma {:induction false} ValuesAt(ws: seq<ListedValue>)
    ensures |DenoteValues(ws)| == |ws| && forall i :: 0 <= i < |ws| ==> DenoteValues(ws)[i] == DenoteValue(ws[i])
    ensures ValuesFit(ws) <==> forall i :: 0 <= i < |ws| ==> ValueFits(ws[i])
  {
    hide DenoteValue, ValueFits;
    if ws != [] {
      ValuesAt(ws[1..]);
      assert ws == [ws[0]] + ws[1..];
    }
  }

  lemma {:induction false} FieldsFitAt(fs: seq<Field>)
    ensures FieldsFit(fs) <==> forall i :: 0 <= i < |fs| ==> TextFits(fs[i].key) && JsonFits(fs[i].val)
  {
    hide JsonFits, TextFits;
    if fs != [] {
      FieldsFitAt(fs[1..]);
      assert fs == [fs[0]] + fs[1..];
    }
  }

  lemma {:induction false} EntriesFitAt(es: ListedMap)
    ensures EntriesFit(es) <==> forall i :: 0 <= i < |es| ==> TextFits(es[i].key) && ValueFits(es[i].val)
  {
    hide ValueFits, TextFits;
    if es != [] {
      EntriesFitAt(es[1..]);
      assert es == [es[0]] + es[1..];
    }
  }

  /** A proper listing of JSON fits exactly when the JSON is within the caps. */
  lemma {:induction false} JsonFitsIff(w: ListedJson)
    requires JsonProper(w)
    ensures JsonFits(w) <==> JsonWithin(DenoteJson(w))
    decreases w
  {
    match w
    case JLeaf(_) =>
    case JItems(items) =>
      JsonsAt(items);
      forall i | 0 <= i < |items|
        ensures JsonFits(items[i]) <==> JsonWithin(DenoteJson(items[i]))
      {
        JsonFitsIff(items[i]);
      }
    case JFields(fields) =>
      forall i | 0 <= i < |fields|
        ensures JsonFits(fields[i].val) <==> JsonWithin(DenoteJson(fields[i].val))
      {
        JsonFitsIff(fields[i].val);
      }
      FieldsFitIff(fields);
  }

  lemma FieldsFitIff(fs: seq<Field>)
    requires FieldsDistinct(fs)
    requires forall i :: 0 <= i < |fs| ==> (JsonFits(fs[i].val) <==> JsonWithin(DenoteJson(fs[i].val)))
    ensures |fs| <= MAX_MAP && FieldsFit(fs) <==> JsonWithin(JObj(DenoteFields(fs)))
  {
    hide JsonFits, DenoteJson, DenoteFields, FieldsFit, TextFits;
    FieldsFitAt(fs);
    FieldsContents(fs);
    FieldsSize(fs);
    var m := DenoteFields(fs);
    if forall k :: k in m ==> TextFits(k) && JsonWithin(m[k]) {
      forall i | 0 <= i < |fs| ensures TextFits(fs[i].key) && JsonFits(fs[i].val) { assert fs[i].key in m; }
    }
    if FieldsFit(fs) {
      forall k | k in m ensures TextFits(k) && JsonWithin(m[k]) { var i :| 0 <= i < |fs| && fs[i].key == k; }
    }
  }

  lemma {:induction false} ValueFitsIff(w: ListedValue)
    requires ValueProper(w)
    ensures ValueFits(w) <==> ValueWithin(DenoteValue(w))
    decreases w
  {
    match w
    case Leaf(_) =>
    case Js(j) => JsonFitsIff(j);
    case Items(items) =>
      ValuesAt(items);
      forall i | 0 <= i < |items|
        ensures ValueFits(items[i]) <==> ValueWithin(DenoteValue(items[i]))
      {
        ValueFitsIff(items[i]);
      }
  }

  lemma MapFitsIff(es: ListedMap)
    requires MapProper(es)
    ensures MapFits(es) <==> MapWithin(DenoteMap(es))
  {
    hide ValueFits, ValueWithin, DenoteValue, DenoteMap, EntriesFit, TextFits, ValueProper;
    EntriesFitAt(es);
    MapSize(es);
    ListingContents(es);
    forall i | 0 <= i < |es|
      ensures ValueFits(es[i].val) <==> ValueWithin(DenoteValue(es[i].val))
    {
      ValueFitsIff(es[i].val);
    }
    var m := DenoteMap(es);
    if forall k :: k in m ==> TextFits(k) && ValueWithin(m[k]) {
      forall i | 0 <= i < |es| ensures TextFits(es[i].key) && ValueFits(es[i].val) { assert es[i].key in m; }
    }
    if EntriesFit(es) {
      forall k | k in m ensures TextFits(k) && ValueWithin(m[k]) { var i :| 0 <= i < |es| && es[i].key == k; }
    }
  }

  // --------------------------------------------- everything has a listing

  /** Every JSON value has a proper listing. */
  lemma {:induction false} EveryJsonIsListed(j: Json) returns (w: ListedJson)
    ensures DenoteJson(w) == j && JsonProper(w)
    decreases j, 1
  {
    match j
    case JArr(items) =>
      var ws := EveryJsonsAreListed(items);
      w := JItems(ws);
    case JObj(fields) =>
      var fs := EveryFieldsAreListed(j, fields.Keys);
      w := JFields(fs);
      assert (map k | k in fields.Keys :: fields[k]) == fields;
    case _ => w := JLeaf(j);
  }

  lemma {:induction false} EveryJsonsAreListed(js: seq<Json>) returns (ws: seq<ListedJson>)
    ensures DenoteJsons(ws) == js && forall i :: 0 <= i < |ws| ==> JsonProper(ws[i])
    decreases js
  {
    if js == [] {
      ws := [];
    } else {
      var w := EveryJsonIsListed(js[0]);
      var rest := EveryJsonsAreListed(js[1..]);
      ws := [w] + rest;
      assert ws[1..] == rest;
    }
  }

  lemma {:induction false} EveryFieldsAreListed(j: Json, keys: set<Text>) returns (fs: seq<Field>)
    requires j.JObj? && keys <= j.fields.Keys
    ensures DenoteFields(fs) == map k | k in keys :: j.fields[k]
    ensures FieldsDistinct(fs) && forall i :: 0 <= i < |fs| ==> fs[i].key in keys && JsonProper(fs[i].val)
    decreases j, 0, keys
  {
    if keys == {} {
      fs := [];
    } else {
      var k :| k in keys;
      var w := EveryJsonIsListed(j.fields[k]);
      var rest := EveryFieldsAreListed(j, keys - {k});
      fs := [Field(k, w)] + rest;
      assert fs[1..] == rest;
    }
  }

  /** Every value has a proper listing. */
  lemma {:induction false} EveryValueIsListed(v: Value) returns (w: ListedValue)
    ensures DenoteValue(w) == v && ValueProper(w)
    decreases v
  {
    match v
    case JsonV(j) =>
      var l := EveryJsonIsListed(j);
      w := Js(l);
    case Array(items) =>
      var ws := EveryValuesAreListed(items);
      w := Items(ws);
    case _ => w := Leaf(v);
  }

  lemma {:induction false} EveryValuesAreListed(vs: seq<Value>) returns (ws: seq<ListedValue>)
    ensures DenoteValues(ws) == vs && forall i :: 0 <= i < |ws| ==> ValueProper(ws[i])
    decreases vs
  {
    if vs == [] {
      ws := [];
    } else {
      var w := EveryValueIsListed(vs[0]);
      var rest := EveryValuesAreListed(vs[1..]);
      ws := [w] + rest;
      assert ws[1..] == rest;
    }
  }

  lemma {:induction false} EveryMapIsListed(m: map<Text, Value>, keys: set<Text>) returns (es: ListedMap)
    requires keys <= m.Keys
    ensures DenoteMap(es) == map k | k in keys :: m[k]
    ensures MapProper(es) && forall i :: 0 <= i < |es| ==> es[i].key in keys
    decreases keys
  {
    if keys == {} {
      es := [];
    } else {
      var k :| k in keys;
      var w := EveryValueIsListed(m[k]);
      var rest := EveryMapIsListed(m, keys - {k});
      es := [Entry(k, w)] + rest;
      assert es[1..] == rest;
    }
  }

  /** Every request has a proper listing. */
  lemma EveryRequestIsListed(r: Request) returns (w: ListedRequest)
    ensures DenoteRequest(w) == r && RequestProper(w)
  {
    if r.values.Some? {
      var m := r.values.value;
      var es := EveryMapIsListed(m, m.Keys);
      assert (map k | k in m.Keys :: m[k]) == m;
      w := LRequest(r.id, r.op, r.table, r.rowId, Some(es));
    } else {
      w := LRequest(r.id, r.op, r.table, r.rowId, None);
    }
  }

  lemma {:induction false} EveryRowsAreListed(rows: seq<RowView>) returns (ws: seq<ListedRow>)
    ensures DenoteRows(ws) == rows && forall i :: 0 <= i < |ws| ==> MapProper(ws[i].values)
  {
    if rows == [] {
      ws := [];
    } else {
      var m := rows[0].values;
      var es := EveryMapIsListed(m, m.Keys);
      assert (map k | k in m.Keys :: m[k]) == m;
      var rest := EveryRowsAreListed(rows[1..]);
      ws := [LRow(rows[0].id, es)] + rest;
      assert ws[1..] == rest;
    }
  }

  /** Every response has a proper listing. */
  lemma EveryResponseIsListed(r: Response) returns (w: ListedResponse)
    ensures DenoteResponse(w) == r && ResponseProper(w)
  {
    var rows := EveryRowsAreListed(r.rows);
    w := LResponse(r.id, r.ok, rows, r.error);
  }

  // -------------------------------------------------- round trips of values

  /** A request within the caps comes back from every proper listing of it, nested maps in any order. */
  lemma RequestTravels(r: Request, w: ListedRequest)
    requires RequestWithin(r) && RequestProper(w) && DenoteRequest(w) == r
    ensures DecodeRequest(RequestPayload(w)) == Some(r) && DecodeIncoming(RequestPayload(w)) == Some(Single(r))
  {
    hide DecodeRequest, DecodeIncoming, RequestPayload, MapFits, MapWithin, MapProper;
    if w.values.Some? { MapFitsIff(w.values.value); }
    RequestRoundTrip(w);
  }

  lemma {:induction false} RowsFitAt(ws: seq<ListedRow>)
    ensures |DenoteRows(ws)| == |ws| && forall i :: 0 <= i < |ws| ==> DenoteRows(ws)[i] == DenoteRow(ws[i])
    ensures RowsFit(ws) <==> forall i :: 0 <= i < |ws| ==> MapFits(ws[i].values)
  {
    hide DenoteRow, MapFits;
    if ws != [] {
      RowsFitAt(ws[1..]);
      assert ws == [ws[0]] + ws[1..];
    }
  }

  /** The same for responses. */
  lemma ResponseTravels(r: Response, w: ListedResponse)
    requires ResponseWithin(r) && ResponseProper(w) && DenoteResponse(w) == r
    ensures DecodeResponse(ResponsePayload(w)) == Some(r)
  {
    hide DecodeResponse, ResponsePayload, MapFits, MapWithin, MapProper, DenoteRows, RowsFit;
    RowsFitAt(w.rows);
    forall i | 0 <= i < |w.rows| ensures MapFits(w.rows[i].values) {
      assert DenoteRow(w.rows[i]) == r.rows[i];
      MapFitsIff(w.rows[i].values);
    }
    ResponseRoundTrip(w);
  }

  function RequestPayloads(ws: seq<ListedRequest>): seq<seq<byte>> {
    if ws == [] then [] else [RequestPayload(ws[0])] + RequestPayloads(ws[1..])
  }

  /** Requests sent one frame each over a chunked stream all arrive, in order, as sent. */
  lemma RequestsOverTheWire(maxFrame: nat, ws: seq<ListedRequest>, chunks: seq<seq<byte>>)
    requires RequestsFit(ws) && Sendable(maxFrame, RequestPayloads(ws))
    requires Concat(chunks) == Frames(RequestPayloads(ws))
    ensures var r := Run(maxFrame, [], chunks);
            && r.ok && r.rest == [] && |r.out| == |ws|
            && forall i :: 0 <= i < |ws| ==> DecodeRequest(r.out[i]) == Some(DenoteRequest(ws[i]))
  {
    hide DecodeRequest, DenoteRequest, RequestPayload, Run, Drain;
    FramesDrain(maxFrame, RequestPayloads(ws), []);
    assert Frames(RequestPayloads(ws)) + [] == Frames(RequestPayloads(ws));
    ChunkingIrrelevant(maxFrame, [], chunks);
    assert [] + Concat(chunks) == Concat(chunks);
    PayloadsDecode(ws);
  }

  lemma {:induction false} PayloadsDecode(ws: seq<ListedRequest>)
    requires RequestsFit(ws)
    ensures |RequestPayloads(ws)| == |ws|
    ensures forall i :: 0 <= i < |ws| ==> DecodeRequest(RequestPayloads(ws)[i]) == Some(DenoteRequest(ws[i]))
  {
    hide DecodeRequest, DenoteRequest, RequestPayload, RequestFits;
    if ws != [] {
      RequestRoundTrip(ws[0]);
      PayloadsDecode(ws[1..]);
    }
  }
}
