/**
 Recovery and rotation as the program runs them: loops that edit an engine of row
 stores and the files of a data directory.
 */
module RecoveryRun {
  import opened Types
  import opened JsonValues
  import opened Recovery
  import opened RowStore
  import TableSpec
  import Rotation

  /** An engine whose tables were all made by recovery, without unique columns. */
  class Engine {
    var tables: map<Text, InMemoryTable>

    ghost function Objects(): set<object>
      reads this
    {
      set n | n in tables :: tables[n]
    }

    ghost predicate Valid()
      reads this, Objects()
    {
      && (forall n :: n in tables ==> tables[n].Valid() && tables[n].Cols() == [])
      && (forall a, b :: a in tables && b in tables && a != b ==> tables[a] != tables[b])
    }

    ghost function Abs(): EngineState
      reads this, Objects()
    {
      map n | n in tables :: tables[n].State()
    }

    constructor ()
      ensures Valid() && Abs() == map[] && Objects() == {}
    {
      tables := map[];
    }

    method Adopt(name: Text, t: InMemoryTable)
      requires Valid() && name !in tables && t !in Objects() && t.Valid() && t.Cols() == []
      modifies this
      ensures Valid() && Objects() == old(Objects()) + {t}
      ensures Abs() == old(Abs())[name := t.State()]
    {
      hide InMemoryTable.Valid, InMemoryTable.State, InMemoryTable.Cols;
      ghost var before := tables;
      tables := tables[name := t];
      assert tables[name] == t && forall n :: n in before ==> tables[n] == before[n];
    }

    method CreateTable(name: Text, columns: seq<ColumnDef>)
      requires Valid() && InMemoryTable.UniqueNames(columns) == []
      modifies this
      ensures Valid() && fresh(Objects() - old(Objects())) && old(Objects()) <= Objects()
      ensures Abs() == Ensured(old(Abs()), name)
    {
      hide IndexMatches, TableSpec.Ahead;
      if name !in tables {
        var t := new InMemoryTable(columns, _ => true);
        Adopt(name, t);
      }
    }

    /** One operation on a table, if the table exists. */
    method Apply(name: Text, op: TableSpec.Op)
      requires Valid() && (op.Restore? || op.Update? || op.Take?)
      modifies Objects()
      ensures Valid() && tables == old(tables)
      ensures Abs() == OnTable(old(Abs()), name, op)
    {
      hide TableSpec.Step, TableSpec.Ahead, IndexMatches, InMemoryTable.Valid, InMemoryTable.State;
      if name !in tables { return; }
      var t := tables[name];
      Perform(t, op);
      assert forall n :: n in tables && n != name ==> tables[n].State() == old(tables[n].State());
    }
  }

  method Perform(t: InMemoryTable, op: TableSpec.Op)
    requires t.Valid() && t.Cols() == [] && (op.Restore? || op.Update? || op.Take?)
    modifies t
    ensures t.Valid() && t.State() == TableSpec.Step([], _ => true, old(t.State()), op).0
  {
    match op
    case Restore(id, values) => var _ := t.InsertPreservingId(id, values);
    case Update(id, values) => var _ := t.Update(id, values);
    case Take(id) => var _ := t.Take(id);
    case _ =>
  }

  const ID_COLUMN: Text := [105, 100]

  /** Recovery guesses a schema from one row: nullable columns, none of them unique. */
  method InferSchema(sample: Values) returns (columns: seq<ColumnDef>)
    ensures InMemoryTable.UniqueNames(columns) == []
    ensures forall k :: k in sample || k == ID_COLUMN <==> ColumnDef(k, false, false) in columns
  {
    columns := [ColumnDef(ID_COLUMN, false, false)];
    var rest := sample.Keys - {ID_COLUMN};
    while rest != {}
      invariant rest <= sample.Keys - {ID_COLUMN}
      invariant forall i :: 0 <= i < |columns| ==> !columns[i].primaryKey && !columns[i].unique
      invariant forall k :: (k in sample && k !in rest) || k == ID_COLUMN <==> ColumnDef(k, false, false) in columns
      decreases |rest|
    {
      var k :| k in rest;
      columns := columns + [ColumnDef(k, false, false)];
      rest := rest - {k};
    }
    NoneUnique(columns);
  }

  lemma {:induction false} NoneUnique(columns: seq<ColumnDef>)
    requires forall i :: 0 <= i < |columns| ==> !columns[i].primaryKey && !columns[i].unique
    ensures InMemoryTable.UniqueNames(columns) == []
  {
    if columns != [] { NoneUnique(columns[1..]); }
  }

  method EnsureTable(engine: Engine, name: Text, sample: Values)
    requires engine.Valid()
    modifies engine
    ensures engine.Valid() && fresh(engine.Objects() - old(engine.Objects()))
            && old(engine.Objects()) <= engine.Objects()
    ensures engine.Abs() == Ensured(old(engine.Abs()), name)
  {
    if name !in engine.tables {
      var schema := InferSchema(sample);
      engine.CreateTable(name, schema);
    }
  }

  method ReplayOne(engine: Engine, en: Entry, snapSeq: nat)
    requires engine.Valid()
    modifies engine, engine.Objects()
    ensures engine.Valid() && fresh(engine.Objects() - old(engine.Objects()))
    ensures engine.Abs() == ReplayEntry(old(engine.Abs()), en, snapSeq)
  {
    hide OnTable, Ensured;
    if en.sequence <= snapSeq { return; }
    match en.kind
    case Insert =>
      var values := PayloadValues(en.data);
      EnsureTable(engine, en.table, values);
      engine.Apply(en.table, TableSpec.Restore(LocalId(en.rowId), values));
    case Update => engine.Apply(en.table, TableSpec.Update(LocalId(en.rowId), PayloadValues(en.data)));
    case Delete => engine.Apply(en.table, TableSpec.Take(LocalId(en.rowId)));
    case _ =>
  }

  method ReplayLog(engine: Engine, log: seq<Entry>, snapSeq: nat)
    requires engine.Valid()
    modifies engine, engine.Objects()
    ensures engine.Valid() && fresh(engine.Objects() - old(engine.Objects()))
    ensures engine.Abs() == Replay(old(engine.Abs()), log, snapSeq)
  {
    hide ReplayEntry;
    for i := 0 to |log|
      invariant engine.Valid() && fresh(engine.Objects() - old(engine.Objects()))
      invariant engine.Abs() == Replay(old(engine.Abs()), log[..i], snapSeq)
    {
      assert log[..i + 1][..i] == log[..i];
      ReplayOne(engine, log[i], snapSeq);
    }
    assert log[..|log|] == log;
  }

  method LoadTable(engine: Engine, t: SnapTable)
    requires engine.Valid()
    modifies engine, engine.Objects()
    ensures engine.Valid() && fresh(engine.Objects() - old(engine.Objects()))
    ensures engine.Abs() == LoadRows(Ensured(old(engine.Abs()), t.name), t.name, SortRows(t.rows))
  {
    hide OnTable, Ensured, SortRows;
    var sample := if t.rows == [] then map[] else JsonToRow(t.rows[0].values);
    EnsureTable(engine, t.name, sample);
    ghost var start := engine.Abs();
    var rows := SortRows(t.rows);
    for i := 0 to |rows|
      invariant engine.Valid() && fresh(engine.Objects() - old(engine.Objects()))
      invariant engine.Abs() == LoadRows(start, t.name, rows[..i])
    {
      assert rows[..i + 1][..i] == rows[..i];
      engine.Apply(t.name, TableSpec.Restore(rows[i].id, JsonToRow(rows[i].values)));
    }
    assert rows[..|rows|] == rows;
  }

  method LoadSnapshot(engine: Engine, tables: seq<SnapTable>)
    requires engine.Valid()
    modifies engine, engine.Objects()
    ensures engine.Valid() && fresh(engine.Objects() - old(engine.Objects()))
    ensures engine.Abs() == LoadTables(old(engine.Abs()), tables)
  {
    hide LoadRows, SortRows;
    for i := 0 to |tables|
      invariant engine.Valid() && fresh(engine.Objects() - old(engine.Objects()))
      invariant engine.Abs() == LoadTables(old(engine.Abs()), tables[..i])
    {
      assert tables[..i + 1][..i] == tables[..i];
      LoadTable(engine, tables[i]);
    }
    assert tables[..|tables|] == tables;
  }

  /** Loads the snapshot, then replays every file that exists, in order. */
  method Recover(engine: Engine, dir: Dir)
    requires engine.Valid()
    modifies engine, engine.Objects()
    ensures engine.Valid() && fresh(engine.Objects() - old(engine.Objects()))
    ensures engine.Abs() == Recovered(old(engine.Abs()), dir)
  {
    hide LoadTables, Replay, AllLogs, FileLog, Engine.Valid;
    LoadSnapshot(engine, SnapTables(dir));
    ghost var start := engine.Abs();
    NoFiles(start, dir);
    for i := 0 to |dir.files|
      invariant engine.Valid() && fresh(engine.Objects() - old(engine.Objects()))
      invariant engine.Abs() == Replay(start, AllLogs(dir.files[..i]), SnapSeq(dir))
    {
      NextFile(start, dir, i);
      ReplayLog(engine, FileLog(dir.files[i]), SnapSeq(dir));
    }
    assert dir.files[..|dir.files|] == dir.files;
  }

  lemma NoFiles(e: EngineState, dir: Dir)
    ensures Replay(e, AllLogs(dir.files[..0]), SnapSeq(dir)) == e
  {
  }

  lemma NextFile(e: EngineState, dir: Dir, i: nat)
    requires i < |dir.files|
    ensures Replay(e, AllLogs(dir.files[..i + 1]), SnapSeq(dir))
         == Replay(Replay(e, AllLogs(dir.files[..i]), SnapSeq(dir)), FileLog(dir.files[i]), SnapSeq(dir))
  {
    hide Replay, FileLog;
    assert dir.files[..i + 1][..i] == dir.files[..i];
    ReplayAppend(e, AllLogs(dir.files[..i]), FileLog(dir.files[i]), SnapSeq(dir));
  }

  lemma {:induction false} ReplayAppend(e: EngineState, a: seq<Entry>, b: seq<Entry>, snapSeq: nat)
    ensures Replay(e, a + b, snapSeq) == Replay(Replay(e, a, snapSeq), b, snapSeq)
    decreases |b|
  {
    hide ReplayEntry;
    if b == [] {
      assert a + b == a;
    } else {
      var b' := b[..|b| - 1];
      assert (a + b)[..|a + b| - 1] == a + b';
      ReplayAppend(e, a, b', snapSeq);
    }
  }

  // ---------------------------------------------------------- rotation

  method Smallest(ids: set<nat>) returns (m: nat)
    requires ids != {}
    ensures m in ids && forall x :: x in ids ==> m <= x
  {
    m :| m in ids;
    var rest := ids - {m};
    while rest != {}
      invariant rest <= ids && m in ids && forall x :: x in ids ==> x in rest || m <= x
      decreases |rest|
    {
      var x :| x in rest;
      if x < m { m := x; }
      rest := rest - {x};
    }
  }

  /** `out` lists the rows of a table except those in `rest`, all of which come later. */
  ghost predicate ListsSoFar(f: Foreign, out: seq<SnapRow>, rows: map<nat, Values>, rest: set<nat>) {
    && rest <= rows.Keys && ListsRows(f, out, rows - rest)
    && forall i, x :: 0 <= i < |out| && x in rest ==> out[i].id < x
  }

  lemma ListNext(f: Foreign, out: seq<SnapRow>, rows: map<nat, Values>, rest: set<nat>, id: nat)
    requires ListsSoFar(f, out, rows, rest) && id in rest && id < TableSpec.MAX_ID
    requires forall x :: x in rest ==> id <= x
    ensures ListsSoFar(f, out + [SnapRow(id, RowToJson(f, rows[id]))], rows, rest - {id})
  {
    hide RowToJson;
    var next := out + [SnapRow(id, RowToJson(f, rows[id]))];
    forall x | x in rows - (rest - {id}) ensures exists i :: 0 <= i < |next| && next[i].id == x {
      if x == id {
        assert next[|out|].id == x;
      } else {
        assert x in rows - rest;
        var i :| 0 <= i < |out| && out[i].id == x;
        assert next[i].id == x;
      }
    }
  }

  /** The rows of a table by ascending id, as JSON. */
  method SnapRows(f: Foreign, rows: map<nat, Values>) returns (out: seq<SnapRow>)
    requires forall id :: id in rows ==> id < TableSpec.MAX_ID
    ensures ListsRows(f, out, rows)
  {
    out := [];
    var rest := rows.Keys;
    assert rows - rest == map[];
    while rest != {}
      invariant ListsSoFar(f, out, rows, rest)
      decreases |rest|
    {
      hide ListsRows;
      var id := Smallest(rest);
      ListNext(f, out, rows, rest, id);
      out := out + [SnapRow(id, RowToJson(f, rows[id]))];
      rest := rest - {id};
    }
    assert rows - {} == rows;
  }

  /** `tables` lists the tables of an engine except those in `rest`. */
  ghost predicate TablesSoFar(f: Foreign, tables: seq<SnapTable>, live: LiveState, rest: set<Text>) {
    rest <= live.Keys && IsSnapshotOf(f, Snapshot(0, tables), live - rest)
  }

  lemma TableNext(f: Foreign, tables: seq<SnapTable>, live: LiveState, rest: set<Text>, t: SnapTable)
    requires TablesSoFar(f, tables, live, rest) && t.name in rest && ListsRows(f, t.rows, live[t.name])
    ensures TablesSoFar(f, tables + [t], live, rest - {t.name})
  {
    hide ListsRows;
    var next := tables + [t];
    forall n | n in live - (rest - {t.name}) ensures exists i :: 0 <= i < |next| && next[i].name == n {
      if n == t.name {
        assert next[|tables|].name == n;
      } else {
        assert n in live - rest;
        var i :| 0 <= i < |tables| && tables[i].name == n;
        assert next[i].name == n;
      }
    }
  }

  lemma TablesStart(f: Foreign, live: LiveState)
    ensures TablesSoFar(f, [], live, live.Keys)
  {
    var none := live - live.Keys;
    assert none.Keys == {};
  }

  lemma TablesEnd(f: Foreign, tables: seq<SnapTable>, live: LiveState)
    requires TablesSoFar(f, tables, live, {})
    ensures IsSnapshotOf(f, Snapshot(0, tables), live)
  {
    assert live - {} == live;
  }

  /** The rows of every table, as they are when the snapshot is taken. */
  method ScanAll(engine: Engine) returns (live: LiveState)
    requires engine.Valid()
    ensures live == Rotation.RowsOf(engine.Abs())
    ensures IdsFit(live)
  {
    hide IndexMatches;
    live := map n | n in engine.tables :: engine.tables[n].rows;
  }

  ghost predicate IdsFit(live: LiveState) {
    forall n, id :: n in live && id in live[n] ==> id < TableSpec.MAX_ID
  }

  /** Every table's rows, as JSON. */
  method SnapTablesOf(f: Foreign, live: LiveState) returns (tables: seq<SnapTable>)
    requires IdsFit(live)
    ensures IsSnapshotOf(f, Snapshot(0, tables), live)
  {
    hide *;
    tables := [];
    var rest := live.Keys;
    TablesStart(f, live);
    while rest != {}
      invariant rest <= live.Keys && TablesSoFar(f, tables, live, rest)
      decreases |rest|
    {
      var name :| name in rest;
      IdsFitIn(live, name);
      var rows := SnapRows(f, live[name]);
      TableNext(f, tables, live, rest, SnapTable(name, rows));
      tables := tables + [SnapTable(name, rows)];
      rest := rest - {name};
    }
    TablesEnd(f, tables, live);
  }

  lemma IdsFitIn(live: LiveState, name: Text)
    requires IdsFit(live) && name in live
    ensures forall id :: id in live[name] ==> id < TableSpec.MAX_ID
  {
  }

  method SaveSnapshot(f: Foreign, engine: Engine) returns (s: Snapshot)
    requires engine.Valid()
    ensures IsSnapshotOf(f, s, Rotation.RowsOf(engine.Abs()))
  {
    hide IsSnapshotOf, IdsFit, IndexMatches, TableSpec.Ahead;
    var live := ScanAll(engine);
    ghost var abs := engine.Abs();
    assert live == Rotation.RowsOf(abs);
    var tables := SnapTablesOf(f, live);
    assert engine.Abs() == abs;
    s := Snapshot(0, tables);
  }

  /** Both directories recover to the same tables, and row `id` of table `name` is the same. */
  ghost predicate SameRow(a: Dir, b: Dir, name: Text, id: nat) {
    (name in Recovered(map[], a) <==> name in Recovered(map[], b))
    && RowAt(Recovered(map[], a), name, id) == RowAt(Recovered(map[], b), name, id)
  }

  /** Both directories recover to the same tables and the same rows under the same ids. */
  ghost predicate SameRecovery(a: Dir, b: Dir) {
    forall name, id: nat :: SameRow(a, b, name, id)
  }

  /** No row's log holds a stale update, and no entry is filtered by sequence number. */
  ghost predicate CleanDir(dir: Dir) {
    Rotation.Unfiltered(dir)
    && forall name, id: nat :: Rotation.RowLogIsClean(dir, LoadTables(map[], SnapTables(dir)), name, id)
  }

  lemma RotationStepIsSafe(f: Foreign, dir: Dir, snap: Snapshot, j: nat)
    requires CleanDir(dir) && j <= |dir.files|
    requires IsSnapshotOf(f, snap, Rotation.RowsOf(Recovered(map[], dir)))
    ensures SameRecovery(Dir(Some(snap), Rotation.Truncated(dir.files, j)), dir)
  {
    hide Recovered, Rotation.RowLogIsClean, IsSnapshotOf;
    var after := Dir(Some(snap), Rotation.Truncated(dir.files, j));
    forall name, id: nat ensures SameRow(after, dir, name, id) {
      Rotation.RotationKeepsRow(f, dir, snap, j, name, id);
      Rotation.RotationKeepsTables(f, dir, snap, j, name);
    }
  }

  /** The files on disk. `trace` records every state a crash could leave behind. */
  class DataDir {
    var snapshot: Option<Snapshot>
    var files: seq<Option<seq<Entry>>>
    ghost var trace: seq<Dir>

    ghost function OnDisk(): Dir
      reads this
    {
      Dir(snapshot, files)
    }

    constructor (dir: Dir)
      ensures OnDisk() == dir && trace == [dir]
    {
      snapshot, files := dir.snapshot, dir.files;
      trace := [dir];
    }

    /** Renaming the finished snapshot into place; the temporary file before it is never read. */
    method RenameSnapshot(s: Snapshot)
      modifies this
      ensures OnDisk() == Dir(Some(s), old(files)) && trace == old(trace) + [OnDisk()]
    {
      snapshot := Some(s);
      trace := trace + [Dir(snapshot, files)];
    }

    method TruncateFile(i: nat)
      requires i < |files|
      modifies this
      ensures OnDisk() == Dir(old(snapshot), old(files)[i := Some([])]) && trace == old(trace) + [OnDisk()]
    {
      files := files[i := Some([])];
      trace := trace + [Dir(snapshot, files)];
    }
  }

  /**
   Offline rotation. Wherever it stops, the directory recovers to what it recovered to
   before; when it completes, nothing is left to replay.
   */
  method OfflineRotate(f: Foreign, d: DataDir)
    requires CleanDir(d.OnDisk()) && d.trace == [d.OnDisk()]
    modifies d
    ensures forall i :: 0 <= i < |d.trace| ==> SameRecovery(d.trace[i], old(d.OnDisk()))
    ensures |d.trace| > 0 && d.trace[|d.trace| - 1] == d.OnDisk() && AllLogs(d.files) == []
  {
    hide CleanDir, SameRecovery, Recovered, IsSnapshotOf, Rotation.Truncated;
    ghost var before := d.OnDisk();
    var scratch := new Engine();
    Recover(scratch, Dir(d.snapshot, d.files));
    var snap := SaveSnapshot(f, scratch);
    SameAsItself(before);
    RotationStepIsSafe(f, before, snap, 0);
    Rotation.TruncatedEnds(before.files);
    d.RenameSnapshot(snap);
    TruncateAll(f, d, before, snap);
  }

  /** Every state the trace records recovers as `before` does. */
  ghost predicate TraceIsSafe(trace: seq<Dir>, before: Dir) {
    forall i :: 0 <= i < |trace| ==> SameRecovery(trace[i], before)
  }

  lemma TraceStep(trace: seq<Dir>, next: Dir, before: Dir)
    requires TraceIsSafe(trace, before) && SameRecovery(next, before)
    ensures TraceIsSafe(trace + [next], before)
  {
    hide SameRecovery;
  }

  /** The truncation loop of the rotation. */
  method TruncateAll(f: Foreign, d: DataDir, ghost before: Dir, ghost snap: Snapshot)
    requires CleanDir(before) && IsSnapshotOf(f, snap, Rotation.RowsOf(Recovered(map[], before)))
    requires d.OnDisk() == Dir(Some(snap), before.files) && TraceIsSafe(d.trace, before)
    requires |d.trace| > 0 && d.trace[|d.trace| - 1] == d.OnDisk()
    modifies d
    ensures TraceIsSafe(d.trace, before)
    ensures |d.trace| > 0 && d.trace[|d.trace| - 1] == d.OnDisk() && AllLogs(d.files) == []
  {
    hide CleanDir, SameRecovery, Recovered, IsSnapshotOf, Rotation.Truncated, AllLogs, TraceIsSafe;
    Rotation.TruncatedEnds(before.files);
    for i := 0 to |d.files|
      invariant |d.files| == |before.files| && d.OnDisk() == Dir(Some(snap), Rotation.Truncated(before.files, i))
      invariant |d.trace| > 0 && d.trace[|d.trace| - 1] == d.OnDisk() && TraceIsSafe(d.trace, before)
    {
      Rotation.TruncateOne(before.files, i);
      RotationStepIsSafe(f, before, snap, i + 1);
      TraceStep(d.trace, Dir(Some(snap), Rotation.Truncated(before.files, i + 1)), before);
      if d.files[i].Some? { d.TruncateFile(i); }
    }
  }

  lemma SameAsItself(dir: Dir)
    ensures SameRecovery(dir, dir)
  {
  }
}
