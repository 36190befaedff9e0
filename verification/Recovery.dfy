/**
 Start-up recovery: load the latest snapshot into a fresh engine, then replay whole
 log files over it. Tables made by recovery have no unique columns.
 */
module Recovery {
  import opened Types
  import opened JsonValues
  import TableSpec
  import R = RowReplay

  type TableState = TableSpec.TableState
  type EngineState = map<Text, TableState>

  datatype Kind = Insert | Update | Delete | Commit | Rollback

  /** `data` is None when the payload does not parse as a JSON object. */
  datatype Entry = Entry(sequence: nat, kind: Kind, table: Text, rowId: nat, data: Option<JsonRow>)

  datatype SnapRow = SnapRow(id: nat, values: JsonRow)
  datatype SnapTable = SnapTable(name: Text, rows: seq<SnapRow>)
  datatype Snapshot = Snapshot(walSeq: nat, tables: seq<SnapTable>)

  /** The data directory: the latest snapshot, then `wal.log` and the 16 shard files in replay order. */
  datatype Dir = Dir(snapshot: Option<Snapshot>, files: seq<Option<seq<Entry>>>)

  const LOCAL_SPAN: nat := 0x100_0000_0000_0000

  /** The engine-local part of a global row id (its low 56 bits). */
  function LocalId(rowId: nat): nat { rowId % LOCAL_SPAN }

  /** The global id of a row: the shard's number above the local id. */
  function GlobalId(shard: nat, local: nat): nat { shard % 0x100 * LOCAL_SPAN + local % LOCAL_SPAN }

  /** Whatever the shard, an id below 2^56 is the local part of its global id, and global ids are u64. */
  lemma ComposedIdSplits(shard: nat, local: nat)
    requires shard < 256 && local < 72_057_594_037_927_936
    ensures LocalId(GlobalId(shard, local)) == local && LocalId(local) == local
    ensures GlobalId(shard, local) / 72_057_594_037_927_936 == shard
    ensures GlobalId(shard, local) < 0x1_0000_0000_0000_0000
  {
  }

  function PayloadValues(data: Option<JsonRow>): Values {
    match data case Some(row) => JsonToRow(row) case None => map[]
  }

  /** A table operation on a table without unique columns. */
  ghost function OnTable(e: EngineState, name: Text, op: TableSpec.Op): EngineState {
    if name in e then e[name := TableSpec.Step([], _ => true, e[name], op).0] else e
  }

  function Ensured(e: EngineState, name: Text): EngineState {
    if name in e then e else e[name := TableSpec.EMPTY]
  }

  ghost function ReplayEntry(e: EngineState, en: Entry, snapSeq: nat): EngineState {
    if en.sequence <= snapSeq then e else
    match en.kind
    case Insert =>
      OnTable(Ensured(e, en.table), en.table, TableSpec.Restore(LocalId(en.rowId), PayloadValues(en.data)))
    case Update => OnTable(e, en.table, TableSpec.Update(LocalId(en.rowId), PayloadValues(en.data)))
    case Delete => OnTable(e, en.table, TableSpec.Take(LocalId(en.rowId)))
    case _ => e
  }

  ghost function Replay(e: EngineState, log: seq<Entry>, snapSeq: nat): EngineState
    decreases |log|
  {
    if log == [] then e else ReplayEntry(Replay(e, log[..|log| - 1], snapSeq), log[|log| - 1], snapSeq)
  }

  /** Stable insertion of a row into rows sorted by id. */
  function InsertRow(r: SnapRow, rows: seq<SnapRow>): seq<SnapRow> {
    if rows == [] || r.id < rows[0].id then [r] + rows else [rows[0]] + InsertRow(r, rows[1..])
  }

  function SortRows(rows: seq<SnapRow>): seq<SnapRow>
    decreases |rows|
  {
    if rows == [] then [] else InsertRow(rows[|rows| - 1], SortRows(rows[..|rows| - 1]))
  }

  ghost function LoadRows(e: EngineState, name: Text, rows: seq<SnapRow>): EngineState
    decreases |rows|
  {
    if rows == [] then e else
    var r := rows[|rows| - 1];
    OnTable(LoadRows(e, name, rows[..|rows| - 1]), name, TableSpec.Restore(r.id, JsonToRow(r.values)))
  }

  ghost function LoadTables(e: EngineState, tables: seq<SnapTable>): EngineState
    decreases |tables|
  {
    if tables == [] then e else
    var t := tables[|tables| - 1];
    LoadRows(Ensured(LoadTables(e, tables[..|tables| - 1]), t.name), t.name, SortRows(t.rows))
  }

  function FileLog(file: Option<seq<Entry>>): seq<Entry> {
    match file case Some(log) => log case None => []
  }

  function AllLogs(files: seq<Option<seq<Entry>>>): seq<Entry>
    decreases |files|
  {
    if files == [] then [] else AllLogs(files[..|files| - 1]) + FileLog(files[|files| - 1])
  }

  function SnapSeq(dir: Dir): nat {
    match dir.snapshot case Some(s) => s.walSeq case None => 0
  }

  function SnapTables(dir: Dir): seq<SnapTable> {
    match dir.snapshot case Some(s) => s.tables case None => []
  }

  ghost function Recovered(e: EngineState, dir: Dir): EngineState {
    Replay(LoadTables(e, SnapTables(dir)), AllLogs(dir.files), SnapSeq(dir))
  }

  /** Entries that the snapshot already holds, and transaction markers, are passed over; any other is applied. */
  lemma PassesOver(e: EngineState, en: Entry, snapSeq: nat)
    ensures en.sequence <= snapSeq || en.kind.Commit? || en.kind.Rollback? ==> ReplayEntry(e, en, snapSeq) == e
    ensures en.sequence > snapSeq ==> ReplayEntry(e, en, snapSeq) == ReplayEntry(e, en.(sequence := 1), 0)
    ensures en.data.None? ==> ReplayEntry(e, en, snapSeq) == ReplayEntry(e, en.(data := Some(map[])), snapSeq)
  {
  }

  // ------------------------------------------------------- row by row

  function RowAt(e: EngineState, name: Text, id: nat): R.RowState {
    if name in e && id in e[name].rows then Some(e[name].rows[id]) else None
  }

  /** What a log entry does to row `id` of table `name`, if anything. */
  function RowOps(en: Entry, snapSeq: nat, name: Text, id: nat): seq<R.RowOp> {
    if en.sequence <= snapSeq || en.table != name || LocalId(en.rowId) != id then [] else
    match en.kind
    case Insert => [R.Ins(PayloadValues(en.data))]
    case Update => [R.Upd(PayloadValues(en.data))]
    case Delete => [R.Del]
    case _ => []
  }

  function Project(log: seq<Entry>, snapSeq: nat, name: Text, id: nat): seq<R.RowOp>
    decreases |log|
  {
    if log == [] then [] else
    Project(log[..|log| - 1], snapSeq, name, id) + RowOps(log[|log| - 1], snapSeq, name, id)
  }

  lemma {:induction false} ProjectAppend(a: seq<Entry>, b: seq<Entry>, snapSeq: nat, name: Text, id: nat)
    ensures Project(a + b, snapSeq, name, id) == Project(a, snapSeq, name, id) + Project(b, snapSeq, name, id)
    decreases |b|
  {
    if b == [] {
      assert a + b == a;
    } else {
      var b', last := b[..|b| - 1], b[|b| - 1];
      assert (a + b)[..|a + b| - 1] == a + b' && (a + b)[|a + b| - 1] == last;
      ProjectAppend(a, b', snapSeq, name, id);
      hide RowOps;
    }
  }

  lemma EntryOnRow(e: EngineState, en: Entry, snapSeq: nat, name: Text, id: nat)
    ensures RowAt(ReplayEntry(e, en, snapSeq), name, id)
         == R.Run(RowAt(e, name, id), RowOps(en, snapSeq, name, id))
  {
    var ops := RowOps(en, snapSeq, name, id);
    if ops != [] { assert ops[..0] == []; }
    if en.sequence > snapSeq {
      assert LocalId(en.rowId) < LOCAL_SPAN;
    }
  }

  /** The engine replays each row on its own. */
  lemma {:induction false} ReplayByRow(e: EngineState, log: seq<Entry>, snapSeq: nat, name: Text, id: nat)
    ensures RowAt(Replay(e, log, snapSeq), name, id)
         == R.Run(RowAt(e, name, id), Project(log, snapSeq, name, id))
    decreases |log|
  {
    if log != [] {
      var init, last := log[..|log| - 1], log[|log| - 1];
      ReplayByRow(e, init, snapSeq, name, id);
      EntryOnRow(Replay(e, init, snapSeq), last, snapSeq, name, id);
      R.RunAppend(RowAt(e, name, id), Project(init, snapSeq, name, id), RowOps(last, snapSeq, name, id));
      hide ReplayEntry, RowOps, R.Run;
    }
  }

  // -------------------------------------------------------- snapshots

  type LiveState = map<Text, map<nat, Values>>

  function LiveRow(live: LiveState, name: Text, id: nat): R.RowState {
    if name in live && id in live[name] then Some(live[name][id]) else None
  }

  /** `rows` lists exactly the rows of a table, by ascending id, as JSON. */
  ghost predicate ListsRows(f: Foreign, rows: seq<SnapRow>, table: map<nat, Values>) {
    && (forall i, j :: 0 <= i < j < |rows| ==> rows[i].id < rows[j].id)
    && (forall i :: 0 <= i < |rows| ==>
          rows[i].id < TableSpec.MAX_ID && rows[i].id in table && rows[i].values == RowToJson(f, table[rows[i].id]))
    && (forall id :: id in table ==> exists i :: 0 <= i < |rows| && rows[i].id == id)
  }

  /** `s` is what saving a snapshot of the engine holding `live` writes, tables in any order. */
  ghost predicate IsSnapshotOf(f: Foreign, s: Snapshot, live: LiveState) {
    && s.walSeq == 0
    && (forall i, j :: 0 <= i < j < |s.tables| ==> s.tables[i].name != s.tables[j].name)
    && (forall i :: 0 <= i < |s.tables| ==>
          s.tables[i].name in live && ListsRows(f, s.tables[i].rows, live[s.tables[i].name]))
    && (forall name :: name in live ==> exists i :: 0 <= i < |s.tables| && s.tables[i].name == name)
  }

  lemma {:induction false} InsertLast(r: SnapRow, rows: seq<SnapRow>)
    requires forall i :: 0 <= i < |rows| ==> rows[i].id < r.id
    ensures InsertRow(r, rows) == rows + [r]
  {
    if rows != [] { InsertLast(r, rows[1..]); }
  }

  lemma {:induction false} SortedStaysSorted(rows: seq<SnapRow>)
    requires forall i, j :: 0 <= i < j < |rows| ==> rows[i].id < rows[j].id
    ensures SortRows(rows) == rows
    decreases |rows|
  {
    if rows != [] {
      SortedStaysSorted(rows[..|rows| - 1]);
      InsertLast(rows[|rows| - 1], rows[..|rows| - 1]);
    }
  }

  predicate Sorted(rows: seq<SnapRow>) { forall i, j :: 0 <= i < j < |rows| ==> rows[i].id <= rows[j].id }

  lemma {:induction false} InsertKeepsSorted(r: SnapRow, rows: seq<SnapRow>)
    requires Sorted(rows)
    ensures Sorted(InsertRow(r, rows)) && InsertRow(r, rows) != []
    ensures rows == [] || rows[0].id <= InsertRow(r, rows)[0].id || r.id <= InsertRow(r, rows)[0].id
  {
    if rows != [] && r.id >= rows[0].id {
      InsertKeepsSorted(r, rows[1..]);
      var rest := InsertRow(r, rows[1..]);
      assert forall i :: 0 <= i < |rest| ==> rest[0].id <= rest[i].id;
    }
  }

  lemma {:induction false} InsertAddsOne(r: SnapRow, rows: seq<SnapRow>)
    ensures multiset(InsertRow(r, rows)) == multiset(rows) + multiset{r}
  {
    if rows != [] && r.id >= rows[0].id {
      InsertAddsOne(r, rows[1..]);
      assert rows == [rows[0]] + rows[1..];
    }
  }

  /** Whatever order a snapshot lists its rows in, they are restored by ascending id, each as often as it is listed. */
  lemma {:induction false} RestoredInOrder(rows: seq<SnapRow>)
    ensures Sorted(SortRows(rows)) && multiset(SortRows(rows)) == multiset(rows)
    decreases |rows|
  {
    if rows != [] {
      var n := |rows| - 1;
      RestoredInOrder(rows[..n]);
      InsertKeepsSorted(rows[n], SortRows(rows[..n]));
      InsertAddsOne(rows[n], SortRows(rows[..n]));
      assert rows == rows[..n] + [rows[n]];
    }
  }

  lemma {:induction false} LoadRowsByRow(e: EngineState, t: Text, rows: seq<SnapRow>, name: Text, id: nat)
    requires t in e && e[t].rows == map[]
    requires forall i, j :: 0 <= i < j < |rows| ==> rows[i].id < rows[j].id
    requires forall i :: 0 <= i < |rows| ==> rows[i].id < TableSpec.MAX_ID
    ensures var e' := LoadRows(e, t, rows);
      && e'.Keys == e.Keys
      && (t != name ==> RowAt(e', name, id) == RowAt(e, name, id))
      && (forall i :: 0 <= i < |rows| && rows[i].id == id ==> RowAt(e', t, id) == Some(JsonToRow(rows[i].values)))
      && ((forall i :: 0 <= i < |rows| ==> rows[i].id != id) ==> RowAt(e', t, id) == None)
    decreases |rows|
  {
    if rows != [] {
      var init, last := rows[..|rows| - 1], rows[|rows| - 1];
      LoadRowsByRow(e, t, init, name, id);
      if last.id == id { assert RowAt(LoadRows(e, t, init), t, id) == None; }
    }
  }

  function NormState(f: Foreign, x: R.RowState): R.RowState {
    match x case Some(row) => Some(NormRow(f, row)) case None => None
  }

  /** The rows of a loaded table, one by one. */
  lemma LoadedRow(f: Foreign, e: EngineState, t: SnapTable, table: map<nat, Values>, id: nat)
    requires t.name in e && e[t.name].rows == map[] && ListsRows(f, t.rows, table)
    ensures RowAt(LoadRows(e, t.name, t.rows), t.name, id)
         == (if id in table then Some(NormRow(f, table[id])) else None)
  {
    hide LoadRows, JsonToRow, RowToJson;
    LoadRowsByRow(e, t.name, t.rows, t.name, id);
    if id in table {
      var i :| 0 <= i < |t.rows| && t.rows[i].id == id;
      assert JsonToRow(t.rows[i].values) == NormRow(f, table[id]);
    } else {
      assert forall i :: 0 <= i < |t.rows| ==> t.rows[i].id != id;
    }
  }

  /** Loading one table that the engine does not have yet. */
  lemma LoadOneTable(f: Foreign, e: EngineState, t: SnapTable, table: map<nat, Values>, name: Text, id: nat)
    requires t.name !in e && ListsRows(f, t.rows, table)
    ensures var e' := LoadRows(Ensured(e, t.name), t.name, SortRows(t.rows));
      && e'.Keys == e.Keys + {t.name}
      && (name != t.name ==> RowAt(e', name, id) == RowAt(e, name, id))
      && RowAt(e', t.name, id) == (if id in table then Some(NormRow(f, table[id])) else None)
  {
    hide LoadRows, SortRows, NormRow;
    SortedStaysSorted(t.rows);
    LoadRowsByRow(Ensured(e, t.name), t.name, t.rows, name, id);
    LoadedRow(f, Ensured(e, t.name), t, table, id);
  }

  /** Loading a snapshot into a fresh engine restores each row, up to the JSON trip. */
  lemma {:induction false} LoadRestores(f: Foreign, tables: seq<SnapTable>, live: LiveState, name: Text, id: nat)
    requires forall i, j :: 0 <= i < j < |tables| ==> tables[i].name != tables[j].name
    requires forall i :: 0 <= i < |tables| ==>
               tables[i].name in live && ListsRows(f, tables[i].rows, live[tables[i].name])
    ensures var e := LoadTables(map[], tables);
      && (name in e <==> exists i :: 0 <= i < |tables| && tables[i].name == name)
      && RowAt(e, name, id) == (if name in e then NormState(f, LiveRow(live, name, id)) else None)
    decreases |tables|
  {
    hide LoadRows, ListsRows, SortRows;
    if tables != [] {
      var init, t := tables[..|tables| - 1], tables[|tables| - 1];
      LoadRestores(f, init, live, name, id);
      LoadRestores(f, init, live, t.name, id);
      var e0 := LoadTables(map[], init);
      assert t.name !in e0;
      LoadOneTable(f, e0, t, live[t.name], name, id);
      if name == t.name {
        assert tables[|tables| - 1].name == name;
      } else if name in e0 {
        var i :| 0 <= i < |init| && init[i].name == name;
        assert tables[i].name == name;
      } else {
        assert forall i :: 0 <= i < |init| ==> init[i].name != name;
      }
    }
  }

  lemma SnapshotRestores(f: Foreign, s: Snapshot, live: LiveState, name: Text, id: nat)
    requires IsSnapshotOf(f, s, live)
    ensures name in LoadTables(map[], s.tables) <==> name in live
    ensures RowAt(LoadTables(map[], s.tables), name, id) == NormState(f, LiveRow(live, name, id))
  {
    LoadRestores(f, s.tables, live, name, id);
  }
}
