/** Rows of a query result: their order by sort keys, and the page a query asks for. */
module QueryRows {
  import opened Types
  import opened ValueOrder
  import S = StableSort

  datatype Row = Row(id: nat, values: map<Text, Value>)

  datatype Direction = Asc | Desc

  datatype SortKey = SortKey(column: Text, direction: Direction)

  function Get(row: Row, column: Text): Option<Value> {
    if column in row.values then Some(row.values[column]) else None
  }

  /** A row without the column comes behind the rows that have it. */
  function CmpCell(render: Json -> Text, a: Option<Value>, b: Option<Value>): Ordering {
    match (a, b)
    case (Some(x), Some(y)) => Cmp(render, x, y)
    case (Some(_), None) => Less
    case (None, Some(_)) => Greater
    case (None, None) => Equal
  }

  function Directed(d: Direction, o: Ordering): Ordering { if d == Asc then o else Reverse(o) }

  /** The first sort key that tells the rows apart decides. */
  function CmpRows(render: Json -> Text, sorts: seq<SortKey>, a: Row, b: Row): Ordering {
    if sorts == [] then Equal else
    var o := Directed(sorts[0].direction, CmpCell(render, Get(a, sorts[0].column), Get(b, sorts[0].column)));
    if o != Equal then o else CmpRows(render, sorts[1..], a, b)
  }

  /**
   One sort key: rows with the column go by its value, up or down; rows without it come last
   when ascending and first when descending, and are equal among themselves.
   */
  lemma OneKeyOrders(render: Json -> Text, column: Text, a: Row, b: Row)
    requires Lossless(render)
    ensures var up, down := CmpRows(render, [SortKey(column, Asc)], a, b),
                            CmpRows(render, [SortKey(column, Desc)], a, b);
      if column in a.values && column in b.values then
        var x, y := a.values[column], b.values[column];
        && (up == Less <==> Cmp(render, x, y) == Less) && (up == Greater <==> Cmp(render, x, y) == Greater)
        && (down == Less <==> Cmp(render, x, y) == Greater) && (down == Greater <==> Cmp(render, x, y) == Less)
      else if column in a.values then up == Less && down == Greater
      else if column in b.values then up == Greater && down == Less
      else up == Equal && down == Equal
  {
    hide Cmp;
    assert [SortKey(column, Asc)][1..] == [] && [SortKey(column, Desc)][1..] == [];
  }

  /** With several keys the first that tells two rows apart decides. */
  lemma {:induction false} FirstKeyDecides(render: Json -> Text, front: seq<SortKey>, back: seq<SortKey>,
                                            a: Row, b: Row)
    ensures CmpRows(render, front + back, a, b)
         == if CmpRows(render, front, a, b) != Equal then CmpRows(render, front, a, b) else CmpRows(render, back, a, b)
  {
    hide CmpCell, Directed;
    if front == [] {
      assert front + back == back;
    } else {
      assert (front + back)[1..] == front[1..] + back;
      FirstKeyDecides(render, front[1..], back, a, b);
    }
  }

  function By(render: Json -> Text, sorts: seq<SortKey>): (Row, Row) -> Ordering {
    (a, b) => CmpRows(render, sorts, a, b)
  }

  lemma CellLawful(render: Json -> Text, a: Option<Value>, b: Option<Value>, c: Option<Value>)
    requires Lossless(render)
    ensures Lawful(CmpCell(render, a, b), CmpCell(render, b, a), CmpCell(render, b, c), CmpCell(render, a, c), a == b)
  {
    hide Cmp;
    if a.Some? && b.Some? {
      CmpLawful(render, a.value, b.value, if c.Some? then c.value else b.value);
    } else if b.Some? && c.Some? {
      CmpLawful(render, b.value, c.value, c.value);
    }
  }

  /** Less and equal go through in turn; equality does not tell equal rows. */
  lemma {:induction false} CmpRowsLawful(render: Json -> Text, sorts: seq<SortKey>, a: Row, b: Row, c: Row)
    requires Lossless(render)
    ensures CmpRows(render, sorts, a, a) == Equal
    ensures CmpRows(render, sorts, b, a) == Reverse(CmpRows(render, sorts, a, b))
    ensures CmpRows(render, sorts, a, b) != Greater && CmpRows(render, sorts, b, c) != Greater ==>
            CmpRows(render, sorts, a, c) != Greater
    ensures CmpRows(render, sorts, a, b) == Equal ==> CmpRows(render, sorts, a, c) == CmpRows(render, sorts, b, c)
    ensures CmpRows(render, sorts, b, c) == Equal ==> CmpRows(render, sorts, a, c) == CmpRows(render, sorts, a, b)
    decreases sorts
  {
    hide CmpCell;
    if sorts != [] {
      var x, y, z := Get(a, sorts[0].column), Get(b, sorts[0].column), Get(c, sorts[0].column);
      CellLawful(render, x, y, z);
      CellLawful(render, x, x, x);
      CellLawful(render, z, y, x);
      CellLawful(render, x, z, z);
      CmpRowsLawful(render, sorts[1..], a, b, c);
    }
  }

  lemma ByIsPreorder(render: Json -> Text, sorts: seq<SortKey>)
    requires Lossless(render)
    ensures S.Preorder(By(render, sorts))
  {
    hide CmpRows;
    var cmp := By(render, sorts);
    forall a, b, c
      ensures cmp(a, a) == Equal && cmp(b, a) == Reverse(cmp(a, b))
      ensures cmp(a, b) != Greater && cmp(b, c) != Greater ==> cmp(a, c) != Greater
    {
      CmpRowsLawful(render, sorts, a, b, c);
    }
  }

  /** What a query's rows come to: the filtered rows in order. */
  function Ordered(render: Json -> Text, keep: Row -> bool, sorts: seq<SortKey>, rows: seq<Row>): seq<Row> {
    S.Sort(By(render, sorts), Kept(keep, rows))
  }

  function Kept(keep: Row -> bool, rows: seq<Row>): seq<Row> {
    if rows == [] then [] else
    var last := rows[|rows| - 1];
    Kept(keep, rows[..|rows| - 1]) + (if keep(last) then [last] else [])
  }

  function Page(s: seq<Row>, offset: nat, limit: Option<nat>): seq<Row> {
    var rest := if offset >= |s| then [] else s[offset..];
    if limit.Some? && limit.value < |rest| then rest[..limit.value] else rest
  }

  function Project(columns: Option<seq<Text>>, row: Row): Row {
    if columns.None? then row else Row(row.id, map c | c in columns.value && c in row.values :: row.values[c])
  }

  function ProjectAll(columns: Option<seq<Text>>, s: seq<Row>): seq<Row> {
    seq(|s|, i requires 0 <= i < |s| => Project(columns, s[i]))
  }

  /** Filtering keeps the order: the kept rows of a list come one part after the other. */
  lemma {:induction false} KeptInOrder(keep: Row -> bool, a: seq<Row>, b: seq<Row>)
    ensures Kept(keep, a + b) == Kept(keep, a) + Kept(keep, b)
    ensures |a| == 1 ==> Kept(keep, a) == if keep(a[0]) then a else []
    decreases |b|
  {
    if |a| == 1 { assert a[..0] == [] && a == [a[0]]; }
    if b == [] {
      assert a + b == a;
    } else {
      var n := |b| - 1;
      assert (a + b)[..|a + b| - 1] == a + b[..n] && (a + b)[|a + b| - 1] == b[n];
      KeptInOrder(keep, a, b[..n]);
    }
  }

  /** Projection keeps the rows, their order and ids, and of each exactly the columns that are asked for and there. */
  lemma ProjectedAre(columns: seq<Text>, s: seq<Row>, i: nat, c: Text)
    requires i < |s|
    ensures |ProjectAll(Some(columns), s)| == |s| && ProjectAll(None, s) == s
    ensures var row := ProjectAll(Some(columns), s)[i];
      && row.id == s[i].id
      && (c in row.values <==> c in columns && c in s[i].values)
      && (c in row.values ==> row.values[c] == s[i].values[c])
  {
  }

  /** Without sort keys the rows keep their order. */
  lemma {:induction false} NoSortKeys(render: Json -> Text, s: seq<Row>)
    ensures S.Sort(By(render, []), s) == s
  {
    if s != [] {
      NoSortKeys(render, s[1..]);
      assert s == [s[0]] + s[1..];
    }
  }

  /** A page is a run of the rows, from the offset on, as long as the limit and the rows allow. */
  lemma PageIs(s: seq<Row>, offset: nat, limit: Option<nat>)
    ensures var left := if offset <= |s| then |s| - offset else 0;
      |Page(s, offset, limit)| == if limit.Some? && limit.value < left then limit.value else left
    ensures forall i :: 0 <= i < |Page(s, offset, limit)| ==>
            offset + i < |s| && Page(s, offset, limit)[i] == s[offset + i]
  {
  }

  /** The kept rows are exactly those the filter accepts, as often as they are there. */
  lemma {:induction false} KeptAre(keep: Row -> bool, rows: seq<Row>, row: Row)
    ensures multiset(Kept(keep, rows))[row] == if keep(row) then multiset(rows)[row] else 0
  {
    if rows != [] {
      var n := |rows| - 1;
      KeptAre(keep, rows[..n], row);
      assert rows == rows[..n] + [rows[n]];
    }
  }

  /** Pages in a row are one longer page: paging neither repeats nor skips a row. */
  lemma PagesTile(s: seq<Row>, offset: nat, first: nat, second: nat)
    ensures Page(s, offset, Some(first)) + Page(s, offset + first, Some(second))
            == Page(s, offset, Some(first + second))
  {
  }

  /** The rows of an ungrouped query: the kept ones, stably sorted, whatever stable sort is used. */
  lemma OrderedIsTheStableSort(render: Json -> Text, keep: Row -> bool, sorts: seq<SortKey>, rows: seq<Row>,
                               t: seq<Row>)
    requires Lossless(render)
    ensures S.StableSorted(By(render, sorts), Kept(keep, rows), t) <==> t == Ordered(render, keep, sorts, rows)
  {
    ByIsPreorder(render, sorts);
    S.SortIsStable(By(render, sorts), Kept(keep, rows));
    if S.StableSorted(By(render, sorts), Kept(keep, rows), t) {
      S.AnyStableSortIsSort(By(render, sorts), Kept(keep, rows), t);
    }
  }

  method FilterRows(keep: Row -> bool, rows: seq<Row>) returns (r: seq<Row>)
    ensures r == Kept(keep, rows)
  {
    r := [];
    for i := 0 to |rows|
      invariant r == Kept(keep, rows[..i])
    {
      assert rows[..i + 1][..i] == rows[..i];
      if keep(rows[i]) { r := r + [rows[i]]; }
    }
    assert rows[..|rows|] == rows;
  }

  method SortRows(render: Json -> Text, sorts: seq<SortKey>, rows: seq<Row>) returns (r: seq<Row>)
    ensures r == S.Sort(By(render, sorts), rows)
  {
    if sorts == [] {
      NoSortKeys(render, rows);
      return rows;
    }
    r := S.Sort(By(render, sorts), rows);
  }

  method Execute(render: Json -> Text, keep: Row -> bool, sorts: seq<SortKey>, offset: Option<nat>, limit: Option<nat>,
                 projections: Option<seq<Text>>, rows: seq<Row>)
    returns (r: seq<Row>)
    ensures r == ProjectAll(projections,
                            Page(Ordered(render, keep, sorts, rows), if offset.Some? then offset.value else 0, limit))
  {
    hide Kept, S.Sort;
    var result := FilterRows(keep, rows);
    result := SortRows(render, sorts, result);
    if offset.Some? {
      if offset.value >= |result| { return []; }
      result := result[offset.value..];
    }
    if limit.Some? && limit.value < |result| { result := result[..limit.value]; }
    r := result;
    if projections.Some? {
      r := [];
      for i := 0 to |result|
        invariant r == ProjectAll(projections, result[..i])
      {
        r := r + [Project(projections, result[i])];
      }
      assert result[..|result|] == result;
    }
  }
}
