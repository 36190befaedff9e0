/** Snapshots carry no allocators: what a rotation does to the next row id of each table. */
module Allocators {
  import opened Types
  import opened JsonValues
  import opened Recovery
  import opened Rotation
  import TableSpec

  /** The allocator of a table right after its rows were loaded from a snapshot. */
  lemma {:induction false} LoadedAllocator(e: EngineState, name: Text, rows: seq<SnapRow>)
    requires name in e && e[name] == TableSpec.EMPTY
    requires forall i, j :: 0 <= i < j < |rows| ==> rows[i].id < rows[j].id
    requires forall i :: 0 <= i < |rows| ==> rows[i].id < TableSpec.MAX_ID
    ensures var t := LoadRows(e, name, rows);
            && name in t && (forall id :: id in t[name].rows ==> exists i :: 0 <= i < |rows| && rows[i].id == id)
            && t[name].nextId == if rows == [] || rows[|rows| - 1].id == 0 then 1 else rows[|rows| - 1].id + 1
    decreases |rows|
  {
    if rows != [] {
      var init := rows[..|rows| - 1];
      LoadedAllocator(e, name, init);
      forall id | id in LoadRows(e, name, rows)[name].rows ensures exists i :: 0 <= i < |rows| && rows[i].id == id {
        if id in LoadRows(e, name, init)[name].rows {
          var i :| 0 <= i < |init| && init[i].id == id;
          assert rows[i].id == id;
        } else {
          assert rows[|rows| - 1].id == id;
        }
      }
      assert forall i :: 0 <= i < |init| ==> init[i].id != rows[|rows| - 1].id;
    }
  }

  /** The last listed row has the largest live id. */
  lemma LastIsLargest(f: Foreign, rows: seq<SnapRow>, table: map<nat, Values>, id: nat)
    requires ListsRows(f, rows, table) && id in table
    ensures rows != [] && id <= rows[|rows| - 1].id
  {
    var i :| 0 <= i < |rows| && rows[i].id == id;
  }

  /** Loading a table's rows gives its allocator back exactly when the last id handed out is live, or none was. */
  lemma LoadedAllocatorIff(f: Foreign, e: EngineState, name: Text, rows: seq<SnapRow>, t: TableSpec.TableState)
    requires name in e && e[name] == TableSpec.EMPTY
    requires TableSpec.Ahead(t) && t.nextId >= 1 && ListsRows(f, rows, t.rows)
    ensures name in LoadRows(e, name, rows) && LoadRows(e, name, rows)[name].nextId <= t.nextId
    ensures LoadRows(e, name, rows)[name].nextId == t.nextId <==> t.nextId == 1 || t.nextId - 1 in t.rows
  {
    hide LoadRows, RowToJson;
    LoadedAllocator(e, name, rows);
    if t.nextId - 1 in t.rows { LastIsLargest(f, rows, t.rows, t.nextId - 1); }
    if rows != [] { assert rows[|rows| - 1].id in t.rows; }
  }

  // ---------------------------------------------- allocators are ahead

  ghost predicate AllAhead(e: EngineState) {
    forall name :: name in e ==> TableSpec.Ahead(e[name]) && e[name].nextId >= 1
  }

  lemma OpKeepsAhead(e: EngineState, name: Text, op: TableSpec.Op)
    requires AllAhead(e)
    ensures AllAhead(OnTable(e, name, op)) && AllAhead(OnTable(Ensured(e, name), name, op))
            && AllAhead(Ensured(e, name))
  {
    hide TableSpec.Step;
    var made := Ensured(e, name);
    assert AllAhead(made);
    if name in e { TableSpec.StepKeepsSound([], _ => true, e[name], op); }
    TableSpec.StepKeepsSound([], _ => true, made[name], op);
  }

  lemma EntryKeepsAhead(e: EngineState, en: Entry, snapSeq: nat)
    requires AllAhead(e)
    ensures AllAhead(ReplayEntry(e, en, snapSeq))
  {
    hide OnTable, Ensured, AllAhead;
    match en.kind
    case Insert => OpKeepsAhead(e, en.table, TableSpec.Restore(LocalId(en.rowId), PayloadValues(en.data)));
    case Update => OpKeepsAhead(e, en.table, TableSpec.Update(LocalId(en.rowId), PayloadValues(en.data)));
    case Delete => OpKeepsAhead(e, en.table, TableSpec.Take(LocalId(en.rowId)));
    case _ =>
  }

  lemma {:induction false} ReplayKeepsAhead(e: EngineState, log: seq<Entry>, snapSeq: nat)
    requires AllAhead(e)
    ensures AllAhead(Replay(e, log, snapSeq))
    decreases |log|
  {
    hide ReplayEntry, AllAhead;
    if log != [] {
      ReplayKeepsAhead(e, log[..|log| - 1], snapSeq);
      EntryKeepsAhead(Replay(e, log[..|log| - 1], snapSeq), log[|log| - 1], snapSeq);
    }
  }

  lemma {:induction false} LoadRowsKeepsAhead(e: EngineState, name: Text, rows: seq<SnapRow>)
    requires AllAhead(e)
    ensures AllAhead(LoadRows(e, name, rows))
    decreases |rows|
  {
    hide OnTable, AllAhead;
    if rows != [] {
      var r := rows[|rows| - 1];
      LoadRowsKeepsAhead(e, name, rows[..|rows| - 1]);
      OpKeepsAhead(LoadRows(e, name, rows[..|rows| - 1]), name, TableSpec.Restore(r.id, JsonToRow(r.values)));
    }
  }

  lemma {:induction false} LoadKeepsAhead(tables: seq<SnapTable>)
    ensures AllAhead(LoadTables(map[], tables))
    decreases |tables|
  {
    if tables != [] {
      hide LoadRows, SortRows, AllAhead, Ensured;
      var e, t := LoadTables(map[], tables[..|tables| - 1]), tables[|tables| - 1];
      LoadKeepsAhead(tables[..|tables| - 1]);
      OpKeepsAhead(e, t.name, TableSpec.Take(0));
      LoadRowsKeepsAhead(Ensured(e, t.name), t.name, SortRows(t.rows));
    }
  }

  // -------------------------------------------------- one table of many

  lemma {:induction false} LoadRowsElsewhere(e: EngineState, t: Text, rows: seq<SnapRow>, name: Text)
    requires name != t
    ensures TableAt(LoadRows(e, t, rows), name) == TableAt(e, name)
    decreases |rows|
  {
    hide TableSpec.Step;
    if rows != [] { LoadRowsElsewhere(e, t, rows[..|rows| - 1], name); }
  }

  /** A loaded table is what its own rows make of an empty one. */
  lemma {:induction false} LoadedTable(f: Foreign, tables: seq<SnapTable>, live: LiveState, i: nat)
    returns (e: EngineState)
    requires forall j, k :: 0 <= j < k < |tables| ==> tables[j].name != tables[k].name
    requires forall j :: 0 <= j < |tables| ==>
             tables[j].name in live && ListsRows(f, tables[j].rows, live[tables[j].name])
    requires i < |tables|
    ensures var name := tables[i].name;
      && name in e && e[name] == TableSpec.EMPTY
      && TableAt(LoadTables(map[], tables), name) == TableAt(LoadRows(e, name, tables[i].rows), name)
    decreases |tables|
  {
    hide LoadRows, SortRows, ListsRows;
    var front, t := tables[..|tables| - 1], tables[|tables| - 1];
    var before := LoadTables(map[], front);
    SortKeepsListing(f, t.rows, live[t.name]);
    if i == |front| {
      e := Ensured(before, t.name);
      LoadRestores(f, front, live, t.name, 0);
    } else {
      e := LoadedTable(f, front, live, i);
      LoadRowsElsewhere(Ensured(before, t.name), t.name, t.rows, tables[i].name);
    }
  }

  lemma SortKeepsListing(f: Foreign, rows: seq<SnapRow>, table: map<nat, Values>)
    requires ListsRows(f, rows, table)
    ensures SortRows(rows) == rows
  {
    SortedStaysSorted(rows);
  }

  lemma SnapshotAllocator(f: Foreign, before: EngineState, snap: Snapshot, name: Text)
    requires IsSnapshotOf(f, snap, RowsOf(before)) && AllAhead(before) && name in before
    ensures var after := LoadTables(map[], snap.tables);
      && name in after && after[name].nextId <= before[name].nextId
      && (after[name].nextId == before[name].nextId <==>
        before[name].nextId == 1 || before[name].nextId - 1 in before[name].rows)
  {
    hide LoadTables, ListsRows, LoadRows, TableSpec.Ahead;
    assert name in RowsOf(before);
    var i :| 0 <= i < |snap.tables| && snap.tables[i].name == name;
    var e := LoadedTable(f, snap.tables, RowsOf(before), i);
    LoadedAllocatorIff(f, e, name, snap.tables[i].rows, before[name]);
  }

  /** With nothing left to replay, recovery is the snapshot. */
  lemma RotatedIsSnapshot(dir: Dir, snap: Snapshot)
    ensures Recovered(map[], Dir(Some(snap), Truncated(dir.files, |dir.files|))) == LoadTables(map[], snap.tables)
  {
    hide LoadTables;
    TruncatedEnds(dir.files);
  }

  /**
   After a rotation the allocator of a table is never ahead of where recovery had it
   before, and it is the same exactly when the last id handed out is live or none was.
   */
  lemma RotatedAllocatorIff(f: Foreign, dir: Dir, snap: Snapshot, name: Text)
    requires IsSnapshotOf(f, snap, RowsOf(Recovered(map[], dir))) && name in Recovered(map[], dir)
    ensures var before, after := Recovered(map[], dir),
            Recovered(map[], Dir(Some(snap), Truncated(dir.files, |dir.files|)));
      && name in after && after[name].nextId <= before[name].nextId
      && (after[name].nextId == before[name].nextId <==>
        before[name].nextId == 1 || before[name].nextId - 1 in before[name].rows)
  {
    RecoveredIsAhead(dir);
    RotatedIsSnapshot(dir, snap);
    hide *;
    SnapshotAllocator(f, Recovered(map[], dir), snap, name);
  }

  lemma RecoveredIsAhead(dir: Dir)
    ensures AllAhead(Recovered(map[], dir))
  {
    hide AllAhead;
    LoadKeepsAhead(SnapTables(dir));
    ReplayKeepsAhead(LoadTables(map[], SnapTables(dir)), AllLogs(dir.files), SnapSeq(dir));
  }
}
