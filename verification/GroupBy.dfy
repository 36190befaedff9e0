/**
 GROUP BY: rows are gathered by the values of the group columns, every group becomes one
 row with its aggregates, and the rows are sorted by the group columns. Groups come out
 of a hash map, in any order.
 */
module GroupBy {
  import opened Types
  import opened ValueOrder
  import opened QueryRows
  import S = StableSort

  datatype Agg =
    | Count | CountColumn(column: Text)
    | Sum(column: Text) | Avg(column: Text)
    | Min(column: Text) | Max(column: Text)

  /** The machine's doubles, by their bits: what a value is as one, zero, addition, division by a count. */
  datatype Arith = Arith(asF64: Value -> Option<U64>, zero: U64, add: (U64, U64) -> U64, div: (U64, nat) -> U64)

  type Key = seq<Value>

  const MAX_COUNT := 0x7FFF_FFFF_FFFF_FFFF

  // ------------------------------------------------------------ aggregates

  predicate HasCell(row: Row, column: Text) { column in row.values && row.values[column] != Null }

  /** The values an aggregate of a column looks at, in row order. */
  function Cells(rows: seq<Row>, column: Text): seq<Value> {
    if rows == [] then [] else
    var last := rows[|rows| - 1];
    Cells(rows[..|rows| - 1], column) + (if HasCell(last, column) then [last.values[column]] else [])
  }

  function Least(render: Json -> Text, cells: seq<Value>): Value {
    if cells == [] then Null
    else if |cells| == 1 then cells[0]
    else
      var best, last := Least(render, cells[..|cells| - 1]), cells[|cells| - 1];
      if Cmp(render, last, best) == Less then last else best
  }

  function Greatest(render: Json -> Text, cells: seq<Value>): Value {
    if cells == [] then Null
    else if |cells| == 1 then cells[0]
    else
      var best, last := Greatest(render, cells[..|cells| - 1]), cells[|cells| - 1];
      if Cmp(render, last, best) == Greater then last else best
  }

  lemma {:induction false} CellsFit(rows: seq<Row>, column: Text)
    ensures |Cells(rows, column)| <= |rows|
  {
    if rows != [] { CellsFit(rows[..|rows| - 1], column); }
  }

  /** The cells of a column that are numbers, in row order. */
  function Numbers(arith: Arith, rows: seq<Row>, column: Text): seq<U64> {
    if rows == [] then [] else
    var last := rows[|rows| - 1];
    Numbers(arith, rows[..|rows| - 1], column)
    + (if column in last.values && arith.asF64(last.values[column]).Some?
       then [arith.asF64(last.values[column]).value] else [])
  }

  function Total(arith: Arith, ns: seq<U64>): U64 {
    if ns == [] then arith.zero else arith.add(Total(arith, ns[..|ns| - 1]), ns[|ns| - 1])
  }

  function Aggregate(render: Json -> Text, arith: Arith, rows: seq<Row>, agg: Agg): Value
    requires |rows| <= MAX_COUNT
  {
    match agg
    case Count => Int64(|rows|)
    case CountColumn(c) => CellsFit(rows, c); Int64(|Cells(rows, c)|)
    case Sum(c) => Float64(Total(arith, Numbers(arith, rows, c)))
    case Avg(c) =>
      var ns := Numbers(arith, rows, c);
      if ns == [] then Null else Float64(arith.div(Total(arith, ns), |ns|))
    case Min(c) => Least(render, Cells(rows, c))
    case Max(c) => Greatest(render, Cells(rows, c))
  }

  /** The aggregates by alias; of equal aliases the last one stays. */
  function AggValues(render: Json -> Text, arith: Arith, rows: seq<Row>, aggs: seq<(Text, Agg)>): map<Text, Value>
    requires |rows| <= MAX_COUNT
  {
    if aggs == [] then map[] else
    var last := aggs[|aggs| - 1];
    AggValues(render, arith, rows, aggs[..|aggs| - 1])[last.0 := Aggregate(render, arith, rows, last.1)]
  }

  // ---------------------------------------------------------------- groups

  function CellOrNull(row: Row, column: Text): Value { if column in row.values then row.values[column] else Null }

  function KeyOf(row: Row, columns: seq<Text>): (key: Key)
    ensures |key| == |columns| && forall i :: 0 <= i < |columns| ==> key[i] == CellOrNull(row, columns[i])
  {
    seq(|columns|, i requires 0 <= i < |columns| => CellOrNull(row, columns[i]))
  }

  function Keys(rows: seq<Row>, columns: seq<Text>): set<Key> { set i | 0 <= i < |rows| :: KeyOf(rows[i], columns) }

  /** The rows of one group, in row order. */
  function Group(rows: seq<Row>, columns: seq<Text>, key: Key): (g: seq<Row>)
    ensures |g| <= |rows|
  {
    if rows == [] then [] else
    var last := rows[|rows| - 1];
    Group(rows[..|rows| - 1], columns, key) + (if KeyOf(last, columns) == key then [last] else [])
  }

  function Groups(rows: seq<Row>, columns: seq<Text>): map<Key, seq<Row>> {
    map key | key in Keys(rows, columns) :: Group(rows, columns, key)
  }

  /** The columns of a key; a later column of the same name overwrites. */
  function KeyValues(columns: seq<Text>, key: Key): map<Text, Value>
    requires |columns| == |key|
  {
    if columns == [] then map[] else
    var n := |columns| - 1;
    KeyValues(columns[..n], key[..n])[columns[n] := key[n]]
  }

  function OutRow(render: Json -> Text, arith: Arith, columns: seq<Text>, aggs: seq<(Text, Agg)>, key: Key,
                  group: seq<Row>): Row
    requires |columns| == |key| && |group| <= MAX_COUNT
  {
    Row(0, KeyValues(columns, key) + AggValues(render, arith, group, aggs))
  }

  function Ascending(columns: seq<Text>): seq<SortKey> {
    if columns == [] then [] else [SortKey(columns[0], Asc)] + Ascending(columns[1..])
  }

  /** The keys of the rows, each once, in the order the hash map yields them. */
  ghost predicate IsListing(listing: seq<Key>, rows: seq<Row>, columns: seq<Text>) {
    && (forall key :: key in listing <==> key in Keys(rows, columns))
    && NoRepeats(listing)
    && (forall i :: 0 <= i < |listing| ==> |listing[i]| == |columns|)
  }

  predicate NoRepeats(listing: seq<Key>) { forall i, j :: 0 <= i < j < |listing| ==> listing[i] != listing[j] }

  function OutRows(render: Json -> Text, arith: Arith, columns: seq<Text>, aggs: seq<(Text, Agg)>, rows: seq<Row>,
                   keys: seq<Key>): (out: seq<Row>)
    requires |rows| <= MAX_COUNT && forall i :: 0 <= i < |keys| ==> |keys[i]| == |columns|
    ensures |out| == |keys|
    ensures forall i :: 0 <= i < |keys| ==>
            out[i] == OutRow(render, arith, columns, aggs, keys[i], Group(rows, columns, keys[i]))
  {
    seq(|keys|, i requires 0 <= i < |keys| =>
      OutRow(render, arith, columns, aggs, keys[i], Group(rows, columns, keys[i])))
  }

  function Truncate<T>(s: seq<T>, limit: Option<nat>): seq<T> {
    if limit.Some? && limit.value < |s| then s[..limit.value] else s
  }

  /** The grouped result when the hash map yields its groups in the order of `listing`. */
  ghost function Grouped(render: Json -> Text, arith: Arith, columns: seq<Text>, aggs: seq<(Text, Agg)>, rows: seq<Row>,
                         listing: seq<Key>, limit: Option<nat>): seq<Row>
    requires |rows| <= MAX_COUNT && IsListing(listing, rows, columns)
  {
    Truncate(S.Sort(By(render, Ascending(columns)), OutRows(render, arith, columns, aggs, rows, listing)), limit)
  }

  // --------------------------------------------------------- least and greatest

  lemma {:induction false} LeastIsBound(render: Json -> Text, cells: seq<Value>)
    requires Lossless(render) && cells != []
    ensures Least(render, cells) in cells
    ensures forall i :: 0 <= i < |cells| ==> Cmp(render, Least(render, cells), cells[i]) != Greater
  {
    hide Cmp;
    var n := |cells| - 1;
    if n == 0 {
      CmpLawful(render, cells[0], cells[0], cells[0]);
    } else {
      LeastIsBound(render, cells[..n]);
      var best, now := Least(render, cells[..n]), Least(render, cells);
      CmpLawful(render, cells[n], best, best);
      CmpLawful(render, cells[n], cells[n], cells[n]);
      forall i | 0 <= i < |cells| ensures Cmp(render, now, cells[i]) != Greater {
        if i < n {
          assert cells[..n][i] == cells[i];
          CmpLawful(render, cells[n], best, cells[i]);
        }
      }
    }
  }

  lemma {:induction false} GreatestIsBound(render: Json -> Text, cells: seq<Value>)
    requires Lossless(render) && cells != []
    ensures Greatest(render, cells) in cells
    ensures forall i :: 0 <= i < |cells| ==> Cmp(render, cells[i], Greatest(render, cells)) != Greater
  {
    hide Cmp;
    var n := |cells| - 1;
    if n == 0 {
      CmpLawful(render, cells[0], cells[0], cells[0]);
    } else {
      GreatestIsBound(render, cells[..n]);
      var best, now := Greatest(render, cells[..n]), Greatest(render, cells);
      CmpLawful(render, cells[n], best, best);
      CmpLawful(render, cells[n], cells[n], cells[n]);
      CmpLawful(render, best, cells[n], cells[n]);
      forall i | 0 <= i < |cells| ensures Cmp(render, cells[i], now) != Greater {
        if i < n {
          assert cells[..n][i] == cells[i];
          CmpLawful(render, cells[i], best, cells[n]);
        }
      }
    }
  }

  predicate HoldsAt(row: Row, column: Text, v: Value) { HasCell(row, column) && row.values[column] == v }

  /** The cells are the non-null values of the column. */
  lemma {:induction false} CellsAre(rows: seq<Row>, column: Text, v: Value)
    ensures v in Cells(rows, column) <==> exists i :: 0 <= i < |rows| && HoldsAt(rows[i], column, v)
  {
    if rows != [] {
      var n := |rows| - 1;
      CellsAre(rows[..n], column, v);
      var last := if HasCell(rows[n], column) then [rows[n].values[column]] else [];
      assert v in last <==> HoldsAt(rows[n], column, v);
      hide HoldsAt, HasCell;
      assert v in Cells(rows, column) <==> v in Cells(rows[..n], column) || v in last;
      if i: int :| 0 <= i < n && HoldsAt(rows[..n][i], column, v) { assert HoldsAt(rows[i], column, v); }
      if i: int :| 0 <= i < |rows| && HoldsAt(rows[i], column, v) { assert i < n ==> HoldsAt(rows[..n][i], column, v); }
    }
  }

  /**
   MIN and MAX over any rows: null when no row has a value there, and otherwise a value
   of some row that none goes below (above).
   */
  lemma MinMaxAttained(render: Json -> Text, arith: Arith, rows: seq<Row>, column: Text, v: Value)
    requires Lossless(render) && |rows| <= MAX_COUNT
    requires v == Aggregate(render, arith, rows, Min(column)) || v == Aggregate(render, arith, rows, Max(column))
    ensures (exists i :: 0 <= i < |rows| && HasCell(rows[i], column)) <==> v != Null
    ensures v != Null ==> exists i :: 0 <= i < |rows| && HasCell(rows[i], column) && rows[i].values[column] == v
    ensures forall i :: 0 <= i < |rows| && HasCell(rows[i], column) ==>
              && (v == Aggregate(render, arith, rows, Min(column)) ==>
                Cmp(render, v, rows[i].values[column]) != Greater)
              && (v == Aggregate(render, arith, rows, Max(column)) ==>
                Cmp(render, rows[i].values[column], v) != Greater)
  {
    hide Cmp, Cells, Least, Greatest;
    var cells := Cells(rows, column);
    forall i | 0 <= i < |rows| && HasCell(rows[i], column)
      ensures rows[i].values[column] in cells
    {
      assert HoldsAt(rows[i], column, rows[i].values[column]);
      CellsAre(rows, column, rows[i].values[column]);
    }
    if cells == [] {
      NothingIsNull(render);
    } else {
      LeastIsBound(render, cells);
      GreatestIsBound(render, cells);
      CellsAre(rows, column, v);
    }
  }

  lemma NothingIsNull(render: Json -> Text)
    ensures Least(render, []) == Null && Greatest(render, []) == Null
  {
  }

  // ---------------------------------------------------------- key order

  function KeyOrder(render: Json -> Text): (Key, Key) -> Ordering { (a, b) => CmpList(render, a, b) }

  lemma KeyOrderIsPreorder(render: Json -> Text)
    requires Lossless(render)
    ensures S.Preorder(KeyOrder(render))
    ensures forall a, b :: KeyOrder(render)(a, b) == Equal <==> a == b
  {
    hide CmpList;
    var cmp := KeyOrder(render);
    forall a, b, c
      ensures cmp(a, a) == Equal && cmp(b, a) == Reverse(cmp(a, b)) && (cmp(a, b) == Equal <==> a == b)
      ensures cmp(a, b) != Greater && cmp(b, c) != Greater ==> cmp(a, c) != Greater
    {
      ListLawful(render, a, b, c);
      ListLawful(render, a, a, a);
    }
  }

  /** The aggregate an output name ends up with: the last one of that alias. */
  function AggOf(aggs: seq<(Text, Agg)>, x: Text): Option<Agg> {
    if aggs == [] then None
    else if aggs[|aggs| - 1].0 == x then Some(aggs[|aggs| - 1].1)
    else AggOf(aggs[..|aggs| - 1], x)
  }

  lemma {:induction false} AggValuesAt(render: Json -> Text, arith: Arith, rows: seq<Row>, aggs: seq<(Text, Agg)>,
                                       x: Text)
    requires |rows| <= MAX_COUNT
    ensures x in AggValues(render, arith, rows, aggs) <==> AggOf(aggs, x).Some?
    ensures x in AggValues(render, arith, rows, aggs) ==>
            AggValues(render, arith, rows, aggs)[x] == Aggregate(render, arith, rows, AggOf(aggs, x).value)
  {
    hide Aggregate;
    if aggs != [] { AggValuesAt(render, arith, rows, aggs[..|aggs| - 1], x); }
  }

  /**
   No aggregate overwrites a group column with anything else: its alias is no group
   column, or it is the least or greatest value of that very column.
   */
  predicate Harmless(columns: seq<Text>, aggs: seq<(Text, Agg)>) {
    forall i :: 0 <= i < |columns| ==> HarmlessFor(aggs, columns[i])
  }

  predicate HarmlessFor(aggs: seq<(Text, Agg)>, column: Text) {
    match AggOf(aggs, column)
    case None => true
    case Some(Min(c)) => c == column
    case Some(Max(c)) => c == column
    case Some(_) => false
  }

  lemma {:induction false} NoAlias(aggs: seq<(Text, Agg)>, x: Text)
    requires forall j :: 0 <= j < |aggs| ==> aggs[j].0 != x
    ensures AggOf(aggs, x) == None
  {
    if aggs != [] { NoAlias(aggs[..|aggs| - 1], x); }
  }

  /** In particular, aliases apart from the group columns are harmless. */
  lemma ApartIsHarmless(columns: seq<Text>, aggs: seq<(Text, Agg)>)
    requires forall i, j :: 0 <= i < |columns| && 0 <= j < |aggs| ==> columns[i] != aggs[j].0
    ensures Harmless(columns, aggs)
  {
    forall i | 0 <= i < |columns| ensures HarmlessFor(aggs, columns[i]) { NoAlias(aggs, columns[i]); }
  }

  /** Columns of the same name hold the same value, as in the key of a row. */
  predicate Consistent(columns: seq<Text>, key: Key) {
    |columns| == |key| && forall i, j :: 0 <= i < |columns| && 0 <= j < |columns| && columns[i] == columns[j] ==>
      key[i] == key[j]
  }

  lemma {:induction false} KeyValuesAt(columns: seq<Text>, key: Key, i: nat)
    requires Consistent(columns, key) && i < |columns|
    ensures columns[i] in KeyValues(columns, key) && KeyValues(columns, key)[columns[i]] == key[i]
  {
    var n := |columns| - 1;
    if i < n && columns[i] != columns[n] { KeyValuesAt(columns[..n], key[..n], i); }
  }

  ghost predicate IsKey(rows: seq<Row>, columns: seq<Text>, key: Key) {
    exists r :: 0 <= r < |rows| && KeyOf(rows[r], columns) == key
  }

  lemma {:induction false} GroupHas(rows: seq<Row>, columns: seq<Text>, key: Key, row: Row)
    ensures row in Group(rows, columns, key) <==> row in rows && KeyOf(row, columns) == key
  {
    hide KeyOf;
    if rows != [] { GroupHas(rows[..|rows| - 1], columns, key, row); }
  }

  /** Over a group, the least and the greatest value of a group column are the key's. */
  lemma GroupColumnIsConstant(render: Json -> Text, arith: Arith, rows: seq<Row>, columns: seq<Text>, key: Key, i: nat,
                              agg: Agg)
    requires Lossless(render) && |rows| <= MAX_COUNT && IsKey(rows, columns, key) && i < |columns| == |key|
    requires agg == Min(columns[i]) || agg == Max(columns[i])
    ensures Aggregate(render, arith, Group(rows, columns, key), agg) == key[i]
  {
    hide Group, Cells, Least, Greatest;
    var group, cells := Group(rows, columns, key), Cells(Group(rows, columns, key), columns[i]);
    var r :| 0 <= r < |rows| && KeyOf(rows[r], columns) == key;
    GroupHas(rows, columns, key, rows[r]);
    CellsAre(group, columns[i], key[i]);
    forall v | v in cells ensures v == key[i] {
      CellsAre(group, columns[i], v);
      var k :| 0 <= k < |group| && HoldsAt(group[k], columns[i], v);
      GroupHas(rows, columns, key, group[k]);
    }
    NothingIsNull(render);
    var k :| 0 <= k < |group| && group[k] == rows[r];
    assert key[i] != Null ==> HoldsAt(group[k], columns[i], key[i]);
    if cells != [] {
      LeastIsBound(render, cells);
      GreatestIsBound(render, cells);
    }
  }

  lemma OutRowKeeps(render: Json -> Text, arith: Arith, columns: seq<Text>, aggs: seq<(Text, Agg)>, rows: seq<Row>,
                    key: Key)
    requires Lossless(render) && |rows| <= MAX_COUNT && IsKey(rows, columns, key) && Harmless(columns, aggs)
    ensures |key| == |columns|
    ensures KeyOf(OutRow(render, arith, columns, aggs, key, Group(rows, columns, key)), columns) == key
    ensures forall i :: 0 <= i < |columns| ==>
            columns[i] in OutRow(render, arith, columns, aggs, key, Group(rows, columns, key)).values
  {
    hide KeyValues, AggValues, Group, Aggregate;
    var group := Group(rows, columns, key);
    var out := OutRow(render, arith, columns, aggs, key, group);
    forall i | 0 <= i < |columns| ensures columns[i] in out.values && out.values[columns[i]] == key[i] {
      KeyValuesAt(columns, key, i);
      AggValuesAt(render, arith, group, aggs, columns[i]);
      assert HarmlessFor(aggs, columns[i]);
      if AggOf(aggs, columns[i]).Some? {
        GroupColumnIsConstant(render, arith, rows, columns, key, i, AggOf(aggs, columns[i]).value);
      }
    }
  }

  /** Rows that have all group columns are sorted by them as their keys are. */
  lemma {:induction false} RowOrderIsKeyOrder(render: Json -> Text, columns: seq<Text>, a: Row, b: Row)
    requires forall i :: 0 <= i < |columns| ==> columns[i] in a.values && columns[i] in b.values
    ensures CmpRows(render, Ascending(columns), a, b) == CmpList(render, KeyOf(a, columns), KeyOf(b, columns))
  {
    hide Cmp;
    if columns != [] {
      assert KeyOf(a, columns)[1..] == KeyOf(a, columns[1..]) && KeyOf(b, columns)[1..] == KeyOf(b, columns[1..]);
      assert Ascending(columns)[1..] == Ascending(columns[1..]);
      RowOrderIsKeyOrder(render, columns[1..], a, b);
    }
  }

  ghost predicate AllKeys(rows: seq<Row>, columns: seq<Text>, keys: seq<Key>) {
    forall i :: 0 <= i < |keys| ==> |keys[i]| == |columns| && IsKey(rows, columns, keys[i])
  }

  lemma ListingIsKeys(listing: seq<Key>, rows: seq<Row>, columns: seq<Text>)
    requires IsListing(listing, rows, columns)
    ensures AllKeys(rows, columns, listing)
  {
    forall i | 0 <= i < |listing| ensures IsKey(rows, columns, listing[i]) {
      assert listing[i] in listing;
      var r :| 0 <= r < |rows| && KeyOf(rows[r], columns) == listing[i];
    }
  }

  lemma {:induction false} InsertKeys(render: Json -> Text, arith: Arith, columns: seq<Text>, aggs: seq<(Text, Agg)>,
                                      rows: seq<Row>, key: Key, keys: seq<Key>)
    requires Lossless(render) && |rows| <= MAX_COUNT && Harmless(columns, aggs)
    requires |key| == |columns| && IsKey(rows, columns, key) && AllKeys(rows, columns, keys)
    ensures AllKeys(rows, columns, S.Insert(KeyOrder(render), key, keys))
    ensures S.Insert(By(render, Ascending(columns)),
                     OutRow(render, arith, columns, aggs, key, Group(rows, columns, key)),
                     OutRows(render, arith, columns, aggs, rows, keys))
         == OutRows(render, arith, columns, aggs, rows, S.Insert(KeyOrder(render), key, keys))
    decreases |keys|
  {
    hide OutRow, CmpRows, CmpList, Group, KeyOf, Harmless, IsKey;
    if keys != [] {
      var out, outs := OutRow(render, arith, columns, aggs, key, Group(rows, columns, key)),
        OutRows(render, arith, columns, aggs, rows, keys);
      OutRowKeeps(render, arith, columns, aggs, rows, key);
      OutRowKeeps(render, arith, columns, aggs, rows, keys[0]);
      RowOrderIsKeyOrder(render, columns, out, outs[0]);
      assert outs[1..] == OutRows(render, arith, columns, aggs, rows, keys[1..]);
      InsertKeys(render, arith, columns, aggs, rows, key, keys[1..]);
    }
  }

  /** Sorting the rows of the groups is sorting their keys. */
  lemma {:induction false} SortKeys(render: Json -> Text, arith: Arith, columns: seq<Text>, aggs: seq<(Text, Agg)>,
                                    rows: seq<Row>, keys: seq<Key>)
    requires Lossless(render) && |rows| <= MAX_COUNT && Harmless(columns, aggs) && AllKeys(rows, columns, keys)
    ensures AllKeys(rows, columns, S.Sort(KeyOrder(render), keys))
    ensures S.Sort(By(render, Ascending(columns)), OutRows(render, arith, columns, aggs, rows, keys))
         == OutRows(render, arith, columns, aggs, rows, S.Sort(KeyOrder(render), keys))
    decreases |keys|
  {
    hide OutRow, CmpRows, CmpList, Group, KeyOf, Harmless, IsKey, S.Insert;
    if keys != [] {
      assert OutRows(render, arith, columns, aggs, rows, keys)[1..]
        == OutRows(render, arith, columns, aggs, rows, keys[1..]);
      SortKeys(render, arith, columns, aggs, rows, keys[1..]);
      InsertKeys(render, arith, columns, aggs, rows, keys[0], S.Sort(KeyOrder(render), keys[1..]));
    }
  }

  // -------------------------------------------------------- main results

  /** The keys of the rows in ascending order: no listing of the hash map shows in it. */
  ghost predicate IsSortedListing(render: Json -> Text, keys: seq<Key>, rows: seq<Row>, columns: seq<Text>) {
    && IsListing(keys, rows, columns)
    && forall i, j :: 0 <= i < j < |keys| ==> CmpList(render, keys[i], keys[j]) == Less
  }

  lemma {:induction false} NoRepeatsPermuted(s: seq<Key>, t: seq<Key>)
    requires multiset(s) == multiset(t) && NoRepeats(s)
    ensures NoRepeats(t) && (forall k :: k in s <==> k in t)
  {
    forall k ensures k in s <==> k in t { assert k in multiset(s) <==> k in multiset(t); }
    forall i, j | 0 <= i < j < |t| ensures t[i] != t[j] {
      if t[i] == t[j] {
        assert t == t[..i] + [t[i]] + t[i + 1..j] + [t[j]] + t[j + 1..];
        assert multiset(t)[t[i]] >= 2;
        OnceEach(s, t[i]);
      }
    }
  }

  lemma {:induction false} OnceEach(s: seq<Key>, k: Key)
    requires NoRepeats(s)
    ensures multiset(s)[k] <= 1
  {
    if s != [] {
      OnceEach(s[1..], k);
      assert s == [s[0]] + s[1..];
      assert k == s[0] ==> k !in s[1..];
    }
  }

  lemma SortedKeysAscend(render: Json -> Text, listing: seq<Key>, rows: seq<Row>, columns: seq<Text>)
    requires Lossless(render) && IsListing(listing, rows, columns)
    ensures IsSortedListing(render, S.Sort(KeyOrder(render), listing), rows, columns)
  {
    hide CmpList, KeyOf, S.Sort;
    var cmp := KeyOrder(render);
    var keys := S.Sort(cmp, listing);
    KeyOrderIsPreorder(render);
    S.SortIsStable(cmp, listing);
    NoRepeatsPermuted(listing, keys);
    forall i | 0 <= i < |keys| ensures |keys[i]| == |columns| {
      assert keys[i] in listing;
      var l :| 0 <= l < |listing| && listing[l] == keys[i];
    }
    forall i, j | 0 <= i < j < |keys| ensures CmpList(render, keys[i], keys[j]) == Less {
      assert cmp(keys[i], keys[j]) != Greater && keys[i] != keys[j];
    }
  }

  /** There is one ascending list of the keys of some rows. */
  lemma {:induction false} SortedListingUnique(render: Json -> Text, s: seq<Key>, t: seq<Key>)
    requires Lossless(render) && (forall k :: k in s <==> k in t)
    requires forall i, j :: 0 <= i < j < |s| ==> CmpList(render, s[i], s[j]) == Less
    requires forall i, j :: 0 <= i < j < |t| ==> CmpList(render, t[i], t[j]) == Less
    ensures s == t
  {
    hide CmpList;
    HasMember(s);
    HasMember(t);
    if s != [] {
      assert s[0] in t;
      var i :| 0 <= i < |t| && t[i] == s[0];
      assert t[0] in s;
      var j :| 0 <= j < |s| && s[j] == t[0];
      ListLawful(render, s[0], t[0], t[0]);
      assert s[0] == t[0];
      forall k ensures k in s[1..] <==> k in t[1..] {
        SortedTail(render, s, k);
        SortedTail(render, t, k);
      }
      SortedListingUnique(render, s[1..], t[1..]);
      assert s == [s[0]] + s[1..] && t == [t[0]] + t[1..];
    }
  }

  lemma HasMember(s: seq<Key>)
    ensures s == [] || exists k :: k in s
  {
    if s != [] { assert s[0] in s; }
  }

  lemma SortedTail(render: Json -> Text, s: seq<Key>, k: Key)
    requires Lossless(render) && s != []
    requires forall i, j :: 0 <= i < j < |s| ==> CmpList(render, s[i], s[j]) == Less
    ensures k in s[1..] <==> k in s && k != s[0]
  {
    hide CmpList;
    ListLawful(render, k, k, k);
    if k in s[1..] {
      var i :| 0 <= i < |s[1..]| && s[1..][i] == k;
      assert CmpList(render, s[0], s[i + 1]) == Less;
    }
  }

  /** With harmless aliases the result is the ascending groups: the hash map's order does not show. */
  lemma GroupOrderIrrelevant(render: Json -> Text, arith: Arith, columns: seq<Text>, aggs: seq<(Text, Agg)>,
                             rows: seq<Row>, one: seq<Key>, other: seq<Key>, limit: Option<nat>)
    requires Lossless(render) && |rows| <= MAX_COUNT && Harmless(columns, aggs)
    requires IsListing(one, rows, columns) && IsListing(other, rows, columns)
    ensures Grouped(render, arith, columns, aggs, rows, one, limit)
            == Grouped(render, arith, columns, aggs, rows, other, limit)
  {
    hide OutRow, CmpList, KeyOf, S.Sort, Keys, Harmless;
    var s, t := S.Sort(KeyOrder(render), one), S.Sort(KeyOrder(render), other);
    ListingIsKeys(one, rows, columns);
    ListingIsKeys(other, rows, columns);
    SortKeys(render, arith, columns, aggs, rows, one);
    SortKeys(render, arith, columns, aggs, rows, other);
    SortedKeysAscend(render, one, rows, columns);
    SortedKeysAscend(render, other, rows, columns);
    SortedListingUnique(render, s, t);
  }

  function SumSizes(rows: seq<Row>, columns: seq<Text>, keys: seq<Key>): nat {
    if keys == [] then 0 else |Group(rows, columns, keys[0])| + SumSizes(rows, columns, keys[1..])
  }

  lemma {:induction false} SizesWithRow(rows: seq<Row>, columns: seq<Text>, keys: seq<Key>)
    requires rows != [] && NoRepeats(keys)
    ensures SumSizes(rows, columns, keys)
         == SumSizes(rows[..|rows| - 1], columns, keys) + (if KeyOf(rows[|rows| - 1], columns) in keys then 1 else 0)
  {
    hide KeyOf;
    if keys != [] {
      SizesWithRow(rows, columns, keys[1..]);
      assert keys == [keys[0]] + keys[1..];
      assert keys[0] !in keys[1..];
    }
  }

  lemma {:induction false} SizesOfNothing(columns: seq<Text>, keys: seq<Key>)
    ensures SumSizes([], columns, keys) == 0
  {
    if keys != [] { SizesOfNothing(columns, keys[1..]); }
  }

  /** The groups cover every row once: their sizes add up. */
  lemma {:induction false} SizesAddUp(rows: seq<Row>, columns: seq<Text>, keys: seq<Key>)
    requires NoRepeats(keys) && forall i :: 0 <= i < |rows| ==> KeyOf(rows[i], columns) in keys
    ensures SumSizes(rows, columns, keys) == |rows|
  {
    hide KeyOf;
    if rows == [] {
      SizesOfNothing(columns, keys);
    } else {
      SizesAddUp(rows[..|rows| - 1], columns, keys);
      SizesWithRow(rows, columns, keys);
    }
  }

  lemma {:induction false} GroupMembers(rows: seq<Row>, columns: seq<Text>, key: Key, row: Row)
    ensures multiset(Group(rows, columns, key))[row] ==
            if KeyOf(row, columns) == key then multiset(rows)[row] else 0
  {
    hide KeyOf;
    if rows != [] {
      var n := |rows| - 1;
      GroupMembers(rows[..n], columns, key, row);
      assert rows == rows[..n] + [rows[n]];
    }
  }

  /**
   GROUP BY without a limit, with harmless aliases: one output row a
   distinct key, keys strictly ascending, each row's aggregates taken over exactly the
   rows with its key, every input row in one group and no other, group sizes adding up.
   */
  lemma GroupByPartitions(render: Json -> Text, arith: Arith, columns: seq<Text>, aggs: seq<(Text, Agg)>,
                          rows: seq<Row>, listing: seq<Key>)
    returns (keys: seq<Key>)
    requires Lossless(render) && |rows| <= MAX_COUNT && Harmless(columns, aggs) && IsListing(listing, rows, columns)
    ensures IsSortedListing(render, keys, rows, columns)
    ensures var out := Grouped(render, arith, columns, aggs, rows, listing, None);
      && |out| == |keys|
      && (forall i :: 0 <= i < |out| ==> KeyOf(out[i], columns) == keys[i])
      && (forall i, a :: 0 <= i < |out| && a in AggValues(render, arith, Group(rows, columns, keys[i]), aggs) ==>
            a in out[i].values && out[i].values[a] == AggValues(render, arith, Group(rows, columns, keys[i]), aggs)[a])
    ensures forall r :: 0 <= r < |rows| ==> KeyOf(rows[r], columns) in keys
    ensures forall key, row ::
              multiset(Group(rows, columns, key))[row]
              == (if KeyOf(row, columns) == key then multiset(rows)[row] else 0)
    ensures SumSizes(rows, columns, keys) == |rows|
  {
    hide CmpList, KeyOf, S.Sort, AggValues, KeyValues, Group, SumSizes, Harmless, IsKey;
    keys := S.Sort(KeyOrder(render), listing);
    ListingIsKeys(listing, rows, columns);
    SortKeys(render, arith, columns, aggs, rows, listing);
    SortedKeysAscend(render, listing, rows, columns);
    forall i | 0 <= i < |keys|
      ensures KeyOf(OutRow(render, arith, columns, aggs, keys[i], Group(rows, columns, keys[i])), columns) == keys[i]
    {
      OutRowKeeps(render, arith, columns, aggs, rows, keys[i]);
    }
    forall r | 0 <= r < |rows| ensures KeyOf(rows[r], columns) in keys {
      assert KeyOf(rows[r], columns) in Keys(rows, columns);
    }
    SizesAddUp(rows, columns, keys);
    forall key, row
      ensures multiset(Group(rows, columns, key))[row] ==
            if KeyOf(row, columns) == key then multiset(rows)[row] else 0
    {
      GroupMembers(rows, columns, key, row);
    }
  }

  /** A limit keeps the first groups, as many as it says or as there are. */
  lemma LimitKeepsFirst(render: Json -> Text, arith: Arith, columns: seq<Text>, aggs: seq<(Text, Agg)>, rows: seq<Row>,
                        listing: seq<Key>, n: nat)
    requires |rows| <= MAX_COUNT && IsListing(listing, rows, columns)
    ensures var all, some := Grouped(render, arith, columns, aggs, rows, listing, None),
                             Grouped(render, arith, columns, aggs, rows, listing, Some(n));
      some <= all && |some| == if n < |all| then n else |all|
  {
    hide S.Sort, OutRows;
  }

  // ------------------------------------------------------------ counts

  /** The rows that have a value in the column. */
  ghost function Filled(rows: seq<Row>, column: Text): set<nat> {
    set i: nat | i < |rows| && column in rows[i].values && rows[i].values[column] != Null
  }

  lemma {:induction false} CellsAreFilled(rows: seq<Row>, column: Text)
    ensures |Cells(rows, column)| == |Filled(rows, column)|
  {
    if rows == [] {
      assert Filled(rows, column) == {};
    } else {
      var n := |rows| - 1;
      CellsAreFilled(rows[..n], column);
      assert Filled(rows, column) == Filled(rows[..n], column) + (if HasCell(rows[n], column) then {n} else {});
    }
  }

  /** The rows whose value in the column is a number. */
  ghost function Numeric(arith: Arith, rows: seq<Row>, column: Text): set<nat> {
    set i: nat | i < |rows| && column in rows[i].values && arith.asF64(rows[i].values[column]).Some?
  }

  lemma {:induction false} NumbersAreNumeric(arith: Arith, rows: seq<Row>, column: Text)
    ensures |Numbers(arith, rows, column)| == |Numeric(arith, rows, column)|
  {
    if rows == [] {
      assert Numeric(arith, rows, column) == {};
    } else {
      var n := |rows| - 1;
      NumbersAreNumeric(arith, rows[..n], column);
      assert Numeric(arith, rows, column) == Numeric(arith, rows[..n], column)
        + (if column in rows[n].values && arith.asF64(rows[n].values[column]).Some? then {n} else {});
    }
  }

  /** COUNT(*) is the number of rows, COUNT(column) the number of rows that have a value there. */
  lemma CountsAre(render: Json -> Text, arith: Arith, rows: seq<Row>, column: Text)
    requires |rows| <= MAX_COUNT
    ensures var all, some := Aggregate(render, arith, rows, Count), Aggregate(render, arith, rows, CountColumn(column));
      all.Int64? && all.i64 == |rows| && some.Int64? && some.i64 == |Filled(rows, column)|
  {
    CellsAreFilled(rows, column);
    hide Filled;
  }

  /** SUM adds the numbers row by row, other cells adding nothing; without numbers it is zero. */
  lemma SumGoesRowByRow(render: Json -> Text, arith: Arith, rows: seq<Row>, row: Row, column: Text)
    requires |rows| < MAX_COUNT
    ensures Aggregate(render, arith, [], Sum(column)) == Float64(arith.zero)
    ensures var sum, more := Aggregate(render, arith, rows, Sum(column)),
                             Aggregate(render, arith, rows + [row], Sum(column));
      && sum.Float64? && more.Float64?
      && more.f64 == (if column in row.values && arith.asF64(row.values[column]).Some?
                      then arith.add(sum.f64, arith.asF64(row.values[column]).value) else sum.f64)
  {
    assert (rows + [row])[..|rows|] == rows;
    var before, more := Numbers(arith, rows, column), Numbers(arith, rows + [row], column);
    if column in row.values && arith.asF64(row.values[column]).Some? {
      assert more[..|before|] == before;
    } else {
      assert more == before + [] == before;
    }
  }

  /** AVG is the sum divided by the number of numbers, null when there are none. */
  lemma AverageIs(render: Json -> Text, arith: Arith, rows: seq<Row>, column: Text)
    requires |rows| <= MAX_COUNT
    ensures var avg, n := Aggregate(render, arith, rows, Avg(column)), |Numeric(arith, rows, column)|;
      if n == 0 then avg == Null
      else avg.Float64? && avg.f64 == arith.div(Aggregate(render, arith, rows, Sum(column)).f64, n)
  {
    hide Numeric, Numbers, Total, Cells, Least, Greatest;
    NumbersAreNumeric(arith, rows, column);
  }

  /** What the output rows show under `x`, added up. */
  function CellSum(out: seq<Row>, x: Text): int {
    if out == [] then 0 else
    var cell := CellOrNull(out[0], x);
    (if cell.Int64? then cell.i64 else 0) + CellSum(out[1..], x)
  }

  /** The last aggregate called `x` counts rows. */
  predicate CountsUnder(aggs: seq<(Text, Agg)>, i: nat, x: Text) {
    i < |aggs| && aggs[i] == (x, Count) && forall j :: i < j < |aggs| ==> aggs[j].0 != x
  }

  lemma {:induction false} LastAlias(aggs: seq<(Text, Agg)>, i: nat, x: Text)
    requires i < |aggs| && aggs[i].0 == x && forall j :: i < j < |aggs| ==> aggs[j].0 != x
    ensures AggOf(aggs, x) == Some(aggs[i].1)
    decreases |aggs|
  {
    if i < |aggs| - 1 { LastAlias(aggs[..|aggs| - 1], i, x); }
  }

  lemma {:induction false} OutRowsCount(render: Json -> Text, arith: Arith, columns: seq<Text>, aggs: seq<(Text, Agg)>,
                                        rows: seq<Row>, keys: seq<Key>, i: nat, x: Text)
    requires |rows| <= MAX_COUNT && (forall k :: 0 <= k < |keys| ==> |keys[k]| == |columns|) && CountsUnder(aggs, i, x)
    ensures CellSum(OutRows(render, arith, columns, aggs, rows, keys), x) == SumSizes(rows, columns, keys)
    decreases |keys|
  {
    hide AggValues, KeyValues, Group, Aggregate;
    if keys != [] {
      var group, outs := Group(rows, columns, keys[0]), OutRows(render, arith, columns, aggs, rows, keys);
      LastAlias(aggs, i, x);
      AggValuesAt(render, arith, group, aggs, x);
      CountsAre(render, arith, group, x);
      assert outs[1..] == OutRows(render, arith, columns, aggs, rows, keys[1..]);
      OutRowsCount(render, arith, columns, aggs, rows, keys[1..], i, x);
    }
  }

  /** The counts of the groups add up to the number of rows: no row is dropped and none is counted twice. */
  lemma CountsAddUp(render: Json -> Text, arith: Arith, columns: seq<Text>, aggs: seq<(Text, Agg)>, rows: seq<Row>,
                    listing: seq<Key>, i: nat, x: Text)
    requires Lossless(render) && |rows| <= MAX_COUNT && Harmless(columns, aggs) && IsListing(listing, rows, columns)
    requires CountsUnder(aggs, i, x)
    ensures CellSum(Grouped(render, arith, columns, aggs, rows, listing, None), x) == |rows|
  {
    hide CmpList, KeyOf, S.Sort, AggValues, KeyValues, Group, SumSizes, Harmless, CellSum, CountsUnder, Keys;
    var keys := GroupByPartitions(render, arith, columns, aggs, rows, listing);
    var sorted := S.Sort(KeyOrder(render), listing);
    ListingIsKeys(listing, rows, columns);
    SortKeys(render, arith, columns, aggs, rows, listing);
    SortedKeysAscend(render, listing, rows, columns);
    SortedListingUnique(render, sorted, keys);
    OutRowsCount(render, arith, columns, aggs, rows, keys, i, x);
  }

  /** One row, one group: the result shows the key only if its aggregates leave it alone. */
  lemma LoneRow(render: Json -> Text, arith: Arith, columns: seq<Text>, aggs: seq<(Text, Agg)>, column: Text)
    requires column in columns && !HarmlessFor(aggs, column)
    ensures var row := Row(1, map[column := Boolean(true)]);
      var key := KeyOf(row, columns);
      && IsListing([key], [row], columns)
      && KeyOf(Grouped(render, arith, columns, aggs, [row], [key], None)[0], columns) != key
  {
    hide AggValues, Aggregate, KeyValues, CmpRows, S.Sort, Group, Keys, IsListing;
    var row := Row(1, map[column := Boolean(true)]);
    var key := KeyOf(row, columns);
    var rows := [row];
    LoneGroup(row, columns);
    var outs := OutRows(render, arith, columns, aggs, rows, [key]);
    S.SortOne(By(render, Ascending(columns)), outs);
    AggValuesAt(render, arith, rows, aggs, column);
    var i :| 0 <= i < |columns| && columns[i] == column;
    LoneAggregate(render, arith, row, column, AggOf(aggs, column).value);
    assert KeyOf(outs[0], columns)[i] == Aggregate(render, arith, rows, AggOf(aggs, column).value);
    assert KeyOf(outs[0], columns)[i] != key[i];
  }

  lemma LoneGroup(row: Row, columns: seq<Text>)
    ensures Group([row], columns, KeyOf(row, columns)) == [row] && IsListing([KeyOf(row, columns)], [row], columns)
  {
    hide KeyOf;
    var rows := [row];
    assert rows[..0] == [];
    assert KeyOf(rows[0], columns) in Keys(rows, columns);
  }

  lemma LoneAggregate(render: Json -> Text, arith: Arith, row: Row, column: Text, agg: Agg)
    requires row.values == map[column := Boolean(true)] && agg != Min(column) && agg != Max(column)
    ensures Aggregate(render, arith, [row], agg) != Boolean(true)
  {
    assert [row][..0] == [];
    if agg.Min? || agg.Max? {
      assert Cells([row], agg.column) == [];
      NothingIsNull(render);
    }
  }

  /**
   Output rows show the keys of the groups, for all rows and hash orders, exactly when no
   aggregate overwrites a group column with something else.
   */
  lemma KeysShowIff(render: Json -> Text, arith: Arith, columns: seq<Text>, aggs: seq<(Text, Agg)>)
    requires Lossless(render)
    ensures Harmless(columns, aggs) <==>
      forall rows: seq<Row>, listing: seq<Key> :: |rows| <= MAX_COUNT && IsListing(listing, rows, columns) ==>
        ShowsKeys(columns, rows, Grouped(render, arith, columns, aggs, rows, listing, None))
  {
    hide Grouped, HarmlessFor, KeyOf, IsListing;
    if Harmless(columns, aggs) {
      forall rows: seq<Row>, listing: seq<Key> | |rows| <= MAX_COUNT && IsListing(listing, rows, columns)
        ensures ShowsKeys(columns, rows, Grouped(render, arith, columns, aggs, rows, listing, None))
      {
        var keys := GroupByPartitions(render, arith, columns, aggs, rows, listing);
        SortedListingKeys(render, keys, rows, columns);
      }
    } else {
      var i :| 0 <= i < |columns| && !HarmlessFor(aggs, columns[i]);
      LoneRow(render, arith, columns, aggs, columns[i]);
      var rows := [Row(1, map[columns[i] := Boolean(true)])];
      var key := KeyOf(rows[0], columns);
      assert IsListing([key], rows, columns);
      LoneResult(render, arith, columns, aggs, rows, [key]);
      assert !ShowsKeys(columns, rows, Grouped(render, arith, columns, aggs, rows, [key], None));
    }
  }

  /** Every output row shows the key of some input row. */
  ghost predicate ShowsKeys(columns: seq<Text>, rows: seq<Row>, out: seq<Row>) {
    forall i :: 0 <= i < |out| ==> KeyOf(out[i], columns) in Keys(rows, columns)
  }

  lemma SortedListingKeys(render: Json -> Text, keys: seq<Key>, rows: seq<Row>, columns: seq<Text>)
    requires IsSortedListing(render, keys, rows, columns)
    ensures forall i :: 0 <= i < |keys| ==> keys[i] in Keys(rows, columns)
  {
    assert forall i :: 0 <= i < |keys| ==> keys[i] in keys;
  }

  lemma LoneResult(render: Json -> Text, arith: Arith, columns: seq<Text>, aggs: seq<(Text, Agg)>, rows: seq<Row>,
                   listing: seq<Key>)
    requires |rows| == 1 && IsListing(listing, rows, columns) && |listing| == 1
    ensures |Grouped(render, arith, columns, aggs, rows, listing, None)| == 1
    ensures forall k :: k in Keys(rows, columns) <==> k == KeyOf(rows[0], columns)
  {
    S.SortOne(By(render, Ascending(columns)), OutRows(render, arith, columns, aggs, rows, listing));
    assert KeyOf(rows[0], columns) in Keys(rows, columns);
  }

  // ------------------------------------------------------------ the executor

  /** The rows gathered by key, as the hash map holds them. */
  method BuildGroups(columns: seq<Text>, rows: seq<Row>) returns (groups: map<Key, seq<Row>>)
    ensures groups == Groups(rows, columns)
  {
    hide KeyOf, Group;
    groups := map[];
    for i := 0 to |rows|
      invariant groups == Groups(rows[..i], columns)
    {
      var key := KeyOf(rows[i], columns);
      GroupsStep(rows[..i], columns, rows[i]);
      assert rows[..i + 1] == rows[..i] + [rows[i]];
      groups := groups[key := (if key in groups then groups[key] else []) + [rows[i]]];
    }
    assert rows[..|rows|] == rows;
  }

  lemma {:induction false} NoGroup(rows: seq<Row>, columns: seq<Text>, key: Key)
    requires key !in Keys(rows, columns)
    ensures Group(rows, columns, key) == []
  {
    hide KeyOf;
    if rows != [] {
      var n := |rows| - 1;
      assert KeyOf(rows[n], columns) in Keys(rows, columns);
      assert forall k :: k in Keys(rows[..n], columns) ==> k in Keys(rows, columns);
      NoGroup(rows[..n], columns, key);
    }
  }

  lemma KeysStep(rows: seq<Row>, columns: seq<Text>, row: Row)
    ensures Keys(rows + [row], columns) == Keys(rows, columns) + {KeyOf(row, columns)}
  {
    hide KeyOf;
    var all := rows + [row];
    forall k ensures k in Keys(all, columns) <==> k in Keys(rows, columns) || k == KeyOf(row, columns) {
      if k in Keys(rows, columns) {
        var i :| 0 <= i < |rows| && KeyOf(rows[i], columns) == k;
        assert all[i] == rows[i];
      }
      if k == KeyOf(row, columns) { assert all[|rows|] == row; }
    }
  }

  lemma GroupStep(rows: seq<Row>, columns: seq<Text>, row: Row, k: Key)
    ensures Group(rows + [row], columns, k)
            == Group(rows, columns, k) + (if KeyOf(row, columns) == k then [row] else [])
  {
    hide KeyOf;
    assert (rows + [row])[..|rows|] == rows;
    assert Group(rows, columns, k) + [] == Group(rows, columns, k);
  }

  lemma GroupsStep(rows: seq<Row>, columns: seq<Text>, row: Row)
    ensures var key, g := KeyOf(row, columns), Groups(rows, columns);
      Groups(rows + [row], columns) == g[key := (if key in g then g[key] else []) + [row]]
  {
    hide KeyOf, Keys, Group;
    var key := KeyOf(row, columns);
    KeysStep(rows, columns, row);
    forall k | k in Keys(rows + [row], columns)
      ensures Group(rows + [row], columns, k) == Group(rows, columns, k) + (if key == k then [row] else [])
    {
      GroupStep(rows, columns, row, k);
    }
    if key !in Keys(rows, columns) { NoGroup(rows, columns, key); }
    var g, all := Groups(rows, columns), Groups(rows + [row], columns);
    assert all.Keys == g.Keys + {key};
    forall k | k in all ensures all[k] == g[key := (if key in g then g[key] else []) + [row]][k] {
      if k != key { assert Group(rows, columns, k) + [] == Group(rows, columns, k); }
    }
  }

  method ComputeMin(render: Json -> Text, rows: seq<Row>, column: Text) returns (v: Value)
    ensures v == Least(render, Cells(rows, column))
  {
    hide Cmp;
    var least: Option<Value> := None;
    for i := 0 to |rows|
      invariant least == if Cells(rows[..i], column) == [] then None else Some(Least(render, Cells(rows[..i], column)))
    {
      assert rows[..i + 1][..i] == rows[..i];
      ghost var before := Cells(rows[..i], column);
      assert before + [] == before;
      if column in rows[i].values && rows[i].values[column] != Null {
        var val := rows[i].values[column];
        assert Cells(rows[..i + 1], column) == before + [val] && (before + [val])[..|before|] == before;
        match least {
          case None => least := Some(val);
          case Some(current) => if Cmp(render, val, current) == Less { least := Some(val); }
        }
      }
    }
    assert rows[..|rows|] == rows;
    v := if least.Some? then least.value else Null;
  }

  method ComputeMax(render: Json -> Text, rows: seq<Row>, column: Text) returns (v: Value)
    ensures v == Greatest(render, Cells(rows, column))
  {
    hide Cmp;
    var greatest: Option<Value> := None;
    for i := 0 to |rows|
      invariant greatest ==
                if Cells(rows[..i], column) == [] then None else Some(Greatest(render, Cells(rows[..i], column)))
    {
      assert rows[..i + 1][..i] == rows[..i];
      ghost var before := Cells(rows[..i], column);
      assert before + [] == before;
      if column in rows[i].values && rows[i].values[column] != Null {
        var val := rows[i].values[column];
        assert Cells(rows[..i + 1], column) == before + [val] && (before + [val])[..|before|] == before;
        match greatest {
          case None => greatest := Some(val);
          case Some(current) => if Cmp(render, val, current) == Greater { greatest := Some(val); }
        }
      }
    }
    assert rows[..|rows|] == rows;
    v := if greatest.Some? then greatest.value else Null;
  }

  /** Adds up the numbers of a column in row order, and counts them. */
  method ComputeTotal(arith: Arith, rows: seq<Row>, column: Text) returns (total: U64, count: nat)
    ensures total == Total(arith, Numbers(arith, rows, column)) && count == |Numbers(arith, rows, column)|
  {
    total, count := arith.zero, 0;
    for i := 0 to |rows|
      invariant total == Total(arith, Numbers(arith, rows[..i], column)) && count == |Numbers(arith, rows[..i], column)|
    {
      assert rows[..i + 1][..i] == rows[..i];
      ghost var before := Numbers(arith, rows[..i], column);
      assert before + [] == before;
      if column in rows[i].values {
        var n := arith.asF64(rows[i].values[column]);
        if n.Some? {
          assert Numbers(arith, rows[..i + 1], column) == before + [n.value]
            && (before + [n.value])[..|before|] == before;
          total, count := arith.add(total, n.value), count + 1;
        }
      }
    }
    assert rows[..|rows|] == rows;
  }

  method CountCells(rows: seq<Row>, column: Text) returns (n: nat)
    ensures n == |Cells(rows, column)|
  {
    n := 0;
    for i := 0 to |rows|
      invariant n == |Cells(rows[..i], column)|
    {
      assert rows[..i + 1][..i] == rows[..i];
      if column in rows[i].values && rows[i].values[column] != Null { n := n + 1; }
    }
    assert rows[..|rows|] == rows;
  }

  method ComputeAggregations(render: Json -> Text, arith: Arith, rows: seq<Row>, aggs: seq<(Text, Agg)>)
    returns (result: map<Text, Value>)
    requires |rows| <= MAX_COUNT
    ensures result == AggValues(render, arith, rows, aggs)
  {
    hide Cells, Least, Greatest, Numbers, Total;
    result := map[];
    for i := 0 to |aggs|
      invariant result == AggValues(render, arith, rows, aggs[..i])
    {
      assert aggs[..i + 1][..i] == aggs[..i];
      var val: Value;
      match aggs[i].1 {
        case Count => val := Int64(|rows|);
        case CountColumn(c) =>
          CellsFit(rows, c);
          var n := CountCells(rows, c);
          val := Int64(n);
        case Sum(c) =>
          var total, _ := ComputeTotal(arith, rows, c);
          val := Float64(total);
        case Avg(c) =>
          var total, count := ComputeTotal(arith, rows, c);
          val := if count == 0 then Null else Float64(arith.div(total, count));
        case Min(c) => val := ComputeMin(render, rows, c);
        case Max(c) => val := ComputeMax(render, rows, c);
      }
      result := result[aggs[i].0 := val];
    }
    assert aggs[..|aggs|] == aggs;
  }

  /** Some keys of the map listed so far, the others left. */
  ghost predicate Partly(listing: seq<Key>, left: set<Key>, all: set<Key>, columns: seq<Text>) {
    && left <= all
    && (forall k :: k in listing <==> k in all && k !in left)
    && NoRepeats(listing) && forall i :: 0 <= i < |listing| ==> |listing[i]| == |columns|
  }

  lemma ListOneMore(listing: seq<Key>, left: set<Key>, all: set<Key>, columns: seq<Text>, key: Key)
    requires Partly(listing, left, all, columns) && key in left && |key| == |columns|
    ensures Partly(listing + [key], left - {key}, all, columns)
  {
  }

  lemma OneMoreRow(render: Json -> Text, arith: Arith, columns: seq<Text>, aggs: seq<(Text, Agg)>, rows: seq<Row>,
                   keys: seq<Key>, key: Key)
    requires |rows| <= MAX_COUNT && |key| == |columns| && forall i :: 0 <= i < |keys| ==> |keys[i]| == |columns|
    ensures OutRows(render, arith, columns, aggs, rows, keys + [key])
         == OutRows(render, arith, columns, aggs, rows, keys)
           + [OutRow(render, arith, columns, aggs, key, Group(rows, columns, key))]
  {
    hide OutRow, Group;
  }

  /** One row a group, in the order the hash map yields them, which is `listing`. */
  method GroupRows(render: Json -> Text, arith: Arith, columns: seq<Text>, aggs: seq<(Text, Agg)>,
                   groups: map<Key, seq<Row>>, ghost rows: seq<Row>)
    returns (results: seq<Row>, ghost listing: seq<Key>)
    requires |rows| <= MAX_COUNT && groups == Groups(rows, columns)
    ensures IsListing(listing, rows, columns) && results == OutRows(render, arith, columns, aggs, rows, listing)
  {
    hide *;
    GroupsAre(rows, columns);
    results, listing := [], [];
    var left := groups.Keys;
    NoOutRows(render, arith, columns, aggs, rows);
    while left != {}
      invariant Partly(listing, left, groups.Keys, columns) && left <= groups.Keys
      invariant forall i :: 0 <= i < |listing| ==> |listing[i]| == |columns|
      invariant results == OutRows(render, arith, columns, aggs, rows, listing)
      decreases |left|
    {
      var key :| key in left;
      GroupOf(groups, rows, columns, key);
      ListOneMore(listing, left, groups.Keys, columns, key);
      OneMoreRow(render, arith, columns, aggs, rows, listing, key);
      var aggregated := ComputeAggregations(render, arith, groups[key], aggs);
      var named := NameKey(columns, key);
      OutRowIs(render, arith, columns, aggs, key, groups[key]);
      results := results + [Row(0, named + aggregated)];
      listing := listing + [key];
      left := left - {key};
    }
    AllListed(listing, rows, columns, groups);
  }

  lemma OutRowIs(render: Json -> Text, arith: Arith, columns: seq<Text>, aggs: seq<(Text, Agg)>, key: Key,
                 group: seq<Row>)
    requires |columns| == |key| && |group| <= MAX_COUNT
    ensures OutRow(render, arith, columns, aggs, key, group)
         == Row(0, KeyValues(columns, key) + AggValues(render, arith, group, aggs))
  {
  }

  lemma GroupsAre(rows: seq<Row>, columns: seq<Text>)
    ensures var all := Groups(rows, columns).Keys;
      Partly([], all, all, columns) && forall k :: k in all ==> |k| == |columns|
  {
    hide KeyOf;
  }

  lemma GroupOf(groups: map<Key, seq<Row>>, rows: seq<Row>, columns: seq<Text>, key: Key)
    requires groups == Groups(rows, columns) && key in groups
    ensures groups[key] == Group(rows, columns, key) && |groups[key]| <= |rows| && |key| == |columns|
  {
    hide KeyOf;
  }

  lemma AllListed(listing: seq<Key>, rows: seq<Row>, columns: seq<Text>, groups: map<Key, seq<Row>>)
    requires groups == Groups(rows, columns) && Partly(listing, {}, groups.Keys, columns)
    ensures IsListing(listing, rows, columns)
  {
    hide KeyOf, Keys, Group;
  }

  lemma NoOutRows(render: Json -> Text, arith: Arith, columns: seq<Text>, aggs: seq<(Text, Agg)>, rows: seq<Row>)
    requires |rows| <= MAX_COUNT
    ensures OutRows(render, arith, columns, aggs, rows, []) == [] && NoRepeats([])
  {
  }

  /** The grouped rows, or without group columns the one row of aggregates. */
  method ExecuteAggregation(render: Json -> Text, arith: Arith, columns: seq<Text>, aggs: seq<(Text, Agg)>,
                            limit: Option<nat>, rows: seq<Row>)
    returns (out: seq<Row>, ghost listing: seq<Key>)
    requires |rows| <= MAX_COUNT
    ensures columns == [] ==> out == [Row(0, AggValues(render, arith, rows, aggs))]
    ensures columns != [] ==>
            IsListing(listing, rows, columns) && out == Grouped(render, arith, columns, aggs, rows, listing, limit)
  {
    hide AggValues, Group, KeyValues, KeyOf, S.Sort, IsListing, OutRows;
    listing := [];
    if columns == [] {
      var result := ComputeAggregations(render, arith, rows, aggs);
      return [Row(0, result)], listing;
    }
    var groups := BuildGroups(columns, rows);
    var results: seq<Row>;
    results, listing := GroupRows(render, arith, columns, aggs, groups, rows);
    results := S.Sort(By(render, Ascending(columns)), results);
    if limit.Some? && limit.value < |results| { results := results[..limit.value]; }
    out := results;
  }

  method NameKey(columns: seq<Text>, key: Key) returns (values: map<Text, Value>)
    requires |columns| == |key|
    ensures values == KeyValues(columns, key)
  {
    values := map[];
    for i := 0 to |columns|
      invariant values == KeyValues(columns[..i], key[..i])
    {
      assert columns[..i + 1][..i] == columns[..i] && key[..i + 1][..i] == key[..i];
      values := values[columns[i] := key[i]];
    }
    assert columns[..|columns|] == columns && key[..|columns|] == key;
  }
}
