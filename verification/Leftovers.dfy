/**
 Rotation ignores the errors of its truncations, so any files may be left as they were
 when it ends. Whether that matters depends on which rows share which files.
 */
module Leftovers {
  import opened Types
  import opened JsonValues
  import opened Recovery
  import opened Rotation
  import opened RecoveryRun
  import TableSpec
  import D = Durable
  import R = RowReplay

  /** The files after a rotation whose truncations failed on the files in `keep`. */
  function Kept(files: seq<Option<seq<Entry>>>, keep: set<nat>): (t: seq<Option<seq<Entry>>>)
    ensures |t| == |files|
  {
    seq(|files|, i requires 0 <= i < |files| => if files[i].Some? && i !in keep then Some([]) else files[i])
  }

  /** Every subset of untruncated files behind a new snapshot recovers what was recovered before. */
  ghost predicate LeftoversAreHarmless(f: Foreign, dir: Dir) {
    forall snap: Snapshot, keep: set<nat> ::
      IsSnapshotOf(f, snap, RowsOf(Recovered(map[], dir))) ==> SameRecovery(Dir(Some(snap), Kept(dir.files, keep)), dir)
  }

  /** Which rows may have entries in which files: table, row id, file. */
  type Layout = (Text, nat, nat) -> bool

  ghost predicate LaidOut(lay: Layout, dir: Dir) {
    forall name, id: nat, i: nat :: i < |dir.files| && !lay(name, id, i) ==>
      Project(FileLog(dir.files[i]), 0, name, id) == []
  }

  /** Rotation of `n` files laid out like this is safe for all clean contents, whichever truncations fail. */
  ghost predicate LayoutIsSafe(f: Foreign, n: nat, lay: Layout) {
    forall dir: Dir :: |dir.files| == n && CleanDir(dir) && LaidOut(lay, dir) ==> LeftoversAreHarmless(f, dir)
  }

  /** No row may have entries in two files. */
  ghost predicate OneFileEach(n: nat, lay: Layout) {
    forall name, id: nat, i: nat, j: nat :: i < j < n && id < LOCAL_SPAN ==> !(lay(name, id, i) && lay(name, id, j))
  }

  // -------------------------------------------------- rows in one file each

  /** All entries of the row are in file `g`, or there are none. */
  ghost predicate Lives(files: seq<Option<seq<Entry>>>, g: nat, name: Text, id: nat) {
    forall i: nat :: i < |files| && i != g ==> Project(FileLog(files[i]), 0, name, id) == []
  }

  lemma {:induction false} RowLogOf(files: seq<Option<seq<Entry>>>, g: nat, name: Text, id: nat)
    requires Lives(files, g, name, id)
    ensures Project(AllLogs(files), 0, name, id) == if g < |files| then Project(FileLog(files[g]), 0, name, id) else []
    decreases |files|
  {
    hide Project, FileLog;
    if files == [] {
      EmptyProject(name, id);
    } else {
      var front, last := files[..|files| - 1], files[|files| - 1];
      assert forall i: nat :: i < |front| ==> front[i] == files[i];
      RowLogOf(front, g, name, id);
      ProjectAppend(AllLogs(front), FileLog(last), 0, name, id);
      hide AllLogs;
      EmptyUnit(Project(AllLogs(front), 0, name, id));
      EmptyUnit(Project(FileLog(last), 0, name, id));
    }
  }

  lemma EmptyProject(name: Text, id: nat)
    ensures Project([], 0, name, id) == []
  {
  }

  lemma KeptRowLog(files: seq<Option<seq<Entry>>>, keep: set<nat>, g: nat, name: Text, id: nat)
    requires Lives(files, g, name, id)
    ensures Project(AllLogs(Kept(files, keep)), 0, name, id) == []
         || Project(AllLogs(Kept(files, keep)), 0, name, id) == Project(AllLogs(files), 0, name, id)
  {
    hide Project, AllLogs;
    var kept := Kept(files, keep);
    EmptyProject(name, id);
    assert forall i: nat :: i < |kept| ==> FileLog(kept[i]) == FileLog(files[i]) || FileLog(kept[i]) == [];
    RowLogOf(files, g, name, id);
    RowLogOf(kept, g, name, id);
  }

  /** A row whose entries are in one file recovers as before, whichever files are left. */
  lemma RowSurvives(f: Foreign, dir: Dir, snap: Snapshot, keep: set<nat>, g: nat, name: Text, id: nat)
    requires Unfiltered(dir) && RowLogIsClean(dir, LoadTables(map[], SnapTables(dir)), name, id)
    requires IsSnapshotOf(f, snap, RowsOf(Recovered(map[], dir)))
    requires Lives(dir.files, g, name, id)
    ensures RowAt(Recovered(map[], Dir(Some(snap), Kept(dir.files, keep))), name, id)
            == RowAt(Recovered(map[], dir), name, id)
  {
    assert snap.walSeq == 0;
    hide AllLogs, Project, Replay, LoadTables, IsSnapshotOf, Kept, R.StaleFree, Lives;
    var base, e := LoadTables(map[], SnapTables(dir)), Recovered(map[], dir);
    var x, p := RowAt(base, name, id), Project(AllLogs(dir.files), 0, name, id);
    var q := Project(AllLogs(Kept(dir.files, keep)), 0, name, id);
    KeptRowLog(dir.files, keep, g, name, id);
    ReplayByRow(base, AllLogs(dir.files), 0, name, id);
    RecoveredIsNormal(f, dir, name, id);
    EmptyUnit(p);
    TailAgain(x, [], p);
    assert R.Run(R.Run(x, p), []) == R.Run(x, p);
    SnapshotRestores(f, snap, RowsOf(e), name, id);
    assert LiveRow(RowsOf(e), name, id) == RowAt(e, name, id);
    ReplayByRow(LoadTables(map[], snap.tables), AllLogs(Kept(dir.files, keep)), 0, name, id);
  }

  lemma {:induction false} KeptEntries(files: seq<Option<seq<Entry>>>, keep: set<nat>, en: Entry)
    requires en in AllLogs(Kept(files, keep))
    ensures en in AllLogs(files)
    decreases |files|
  {
    var front, last := files[..|files| - 1], files[|files| - 1];
    var kept := Kept(files, keep);
    assert kept[..|kept| - 1] == Kept(front, keep);
    if en in AllLogs(Kept(front, keep)) { KeptEntries(front, keep, en); }
  }

  lemma KeptInserts(files: seq<Option<seq<Entry>>>, keep: set<nat>, name: Text)
    ensures InsertsInto(AllLogs(Kept(files, keep)), 0, name) ==> InsertsInto(AllLogs(files), 0, name)
  {
    hide AllLogs, Kept;
    var rest, all := AllLogs(Kept(files, keep)), AllLogs(files);
    if InsertsInto(rest, 0, name) {
      var i :| 0 <= i < |rest| && rest[i].kind.Insert? && rest[i].table == name && rest[i].sequence > 0;
      KeptEntries(files, keep, rest[i]);
      var j :| 0 <= j < |all| && all[j] == rest[i];
      assert all[j].kind.Insert? && all[j].table == name && all[j].sequence > 0;
    }
  }

  /** The tables are the same, whichever files are left and whatever they hold. */
  lemma TableSurvives(f: Foreign, dir: Dir, snap: Snapshot, keep: set<nat>, name: Text)
    requires Unfiltered(dir) && IsSnapshotOf(f, snap, RowsOf(Recovered(map[], dir)))
    ensures name in Recovered(map[], Dir(Some(snap), Kept(dir.files, keep))) <==> name in Recovered(map[], dir)
  {
    assert snap.walSeq == 0;
    hide AllLogs, Replay, LoadTables, IsSnapshotOf, Kept, RowAt;
    SnapshotRestores(f, snap, RowsOf(Recovered(map[], dir)), name, 0);
    ReplayHasTable(LoadTables(map[], SnapTables(dir)), AllLogs(dir.files), 0, name);
    ReplayHasTable(LoadTables(map[], snap.tables), AllLogs(Kept(dir.files, keep)), 0, name);
    KeptInserts(dir.files, keep, name);
    hide InsertsInto;
  }

  /** Row ids beyond the local span have no entries anywhere. */
  lemma {:induction false} BeyondSpan(log: seq<Entry>, name: Text, id: nat)
    requires id >= LOCAL_SPAN
    ensures Project(log, 0, name, id) == []
    decreases |log|
  {
    if log != [] { BeyondSpan(log[..|log| - 1], name, id); }
  }

  lemma RowHasHome(n: nat, lay: Layout, dir: Dir, name: Text, id: nat) returns (g: nat)
    requires |dir.files| == n && OneFileEach(n, lay) && LaidOut(lay, dir)
    ensures Lives(dir.files, g, name, id)
  {
    hide Project, FileLog;
    if i: nat :| i < n && lay(name, id, i) && id < LOCAL_SPAN {
      g := i;
      forall k: nat | k < n && k != g ensures Project(FileLog(dir.files[k]), 0, name, id) == [] {
        assert !lay(name, id, k);
      }
    } else {
      g := n;
      forall k: nat | k < n ensures Project(FileLog(dir.files[k]), 0, name, id) == [] {
        if id >= LOCAL_SPAN { BeyondSpan(FileLog(dir.files[k]), name, id); }
      }
    }
  }

  /** With every row in one file, a rotation may leave any files untruncated. */
  lemma OneFileEachIsSafe(f: Foreign, n: nat, lay: Layout)
    requires OneFileEach(n, lay)
    ensures LayoutIsSafe(f, n, lay)
  {
    hide Recovered, RowLogIsClean, IsSnapshotOf, Kept, LaidOut, OneFileEach;
    forall dir: Dir, snap: Snapshot, keep: set<nat>
      | |dir.files| == n && CleanDir(dir) && LaidOut(lay, dir) && IsSnapshotOf(f, snap, RowsOf(Recovered(map[], dir)))
      ensures SameRecovery(Dir(Some(snap), Kept(dir.files, keep)), dir)
    {
      forall name, id: nat ensures SameRow(Dir(Some(snap), Kept(dir.files, keep)), dir, name, id) {
        var g := RowHasHome(n, lay, dir, name, id);
        RowSurvives(f, dir, snap, keep, g, name, id);
        TableSurvives(f, dir, snap, keep, name);
      }
    }
  }

  // --------------------------------------------------- a row in two files

  const C: Text := [99]

  function Said(b: bool): JsonRow { map[C := JBool(b)] }

  /** An update of the row that sets one column. */
  function Sets(name: Text, id: nat, b: bool): Entry { Entry(1, Update, name, id, Some(Said(b))) }

  /** A snapshot of one table with one row. */
  function OneRow(name: Text, id: nat, row: JsonRow): Snapshot { Snapshot(0, [SnapTable(name, [SnapRow(id, row)])]) }

  /** An older update in file `i`, a newer one in file `j`. */
  function TwoFiles(name: Text, id: nat, i: nat, j: nat, n: nat): Dir {
    Dir(Some(OneRow(name, id, map[])),
        seq(n, k => Some(if k == i then [Sets(name, id, false)] else if k == j then [Sets(name, id, true)] else [])))
  }

  /** The engine with that table, holding `row`. */
  function Holding(name: Text, id: nat, row: Values): EngineState {
    map[name := TableSpec.TableState(map[id := row], if id >= 1 then id + 1 else 1)]
  }

  lemma LoadOneRow(name: Text, id: nat, row: JsonRow)
    requires id < LOCAL_SPAN
    ensures LoadTables(map[], OneRow(name, id, row).tables) == Holding(name, id, JsonToRow(row))
  {
    hide JsonToRow;
    var tables, rows := OneRow(name, id, row).tables, [SnapRow(id, row)];
    assert tables[..0] == [] && LoadTables(map[], tables[..0]) == map[];
    assert SortRows(rows[1..]) == [] && SortRows(rows) == rows;
    var e: EngineState := Ensured(map[], name);
    assert rows[..0] == [] && LoadRows(e, name, rows[..0]) == e;
    var step := TableSpec.Step([], _ => true, TableSpec.EMPTY, TableSpec.Restore(id, JsonToRow(row)));
    assert step.0 == TableSpec.TableState(map[id := JsonToRow(row)], if id >= 1 then id + 1 else 1);
    assert LoadRows(e, name, rows) == Holding(name, id, JsonToRow(row));
  }

  lemma SetsRow(name: Text, id: nat, row: Values, b: bool)
    requires id < LOCAL_SPAN
    ensures ReplayEntry(Holding(name, id, row), Sets(name, id, b), 0) == Holding(name, id, row + map[C := Boolean(b)])
  {
    var e, values: Values := Holding(name, id, row), map[C := Boolean(b)];
    assert PayloadValues(Some(Said(b))) == values;
    var t := TableSpec.Step([], _ => true, e[name], TableSpec.Update(id, values)).0;
    assert t == TableSpec.TableState(map[id := row][id := row + values], e[name].nextId);
    assert map[id := row][id := row + values] == map[id := row + values];
    assert ReplayEntry(e, Sets(name, id, b), 0) == OnTable(e, name, TableSpec.Update(id, values));
    assert e[name := t] == map[name := t];
  }

  lemma ReplayMore(e: EngineState, log: seq<Entry>, last: Entry)
    ensures Replay(e, log + [last], 0) == ReplayEntry(Replay(e, log, 0), last, 0)
  {
    hide ReplayEntry;
    assert (log + [last])[..|log|] == log;
  }

  lemma ReplaySingle(e: EngineState, en: Entry)
    ensures Replay(e, [en], 0) == ReplayEntry(e, en, 0)
  {
    hide ReplayEntry;
    var none: seq<Entry> := [];
    assert Replay(e, none, 0) == e;
    ReplayMore(e, none, en);
    assert none + [en] == [en];
  }

  lemma TwoFilesLogs(name: Text, id: nat, i: nat, j: nat, n: nat)
    requires i < j < n
    ensures AllLogs(TwoFiles(name, id, i, j, n).files) == [Sets(name, id, false), Sets(name, id, true)]
    ensures AllLogs(Kept(TwoFiles(name, id, i, j, n).files, {i})) == [Sets(name, id, false)]
  {
    hide Kept;
    var files := TwoFiles(name, id, i, j, n).files;
    TwoEntries(files, i, j);
    var kept := KeptFirst(files, i, j);
    TwoEntries(kept, i, j);
  }

  lemma KeptFirst(files: seq<Option<seq<Entry>>>, i: nat, j: nat) returns (kept: seq<Option<seq<Entry>>>)
    requires i < j < |files| && forall k :: 0 <= k < |files| ==> files[k].Some?
    ensures kept == Kept(files, {i}) && kept[i] == files[i]
    ensures forall k :: 0 <= k < |files| && k != i ==> kept[k] == Some([])
  {
    kept := Kept(files, {i});
  }

  /** Files without entries around one more file add nothing to its log. */
  lemma OneBehindEmpty(front: seq<Option<seq<Entry>>>, empty: seq<Option<seq<Entry>>>, file: Option<seq<Entry>>)
    requires forall k :: 0 <= k < |empty| ==> FileLog(empty[k]) == []
    ensures AllLogs((front + empty) + [file]) == AllLogs(front) + FileLog(file)
  {
    hide *;
    EmptyFiles(empty);
    OneFile(file);
    AllLogsAppend(front + empty, [file]);
    AllLogsAppend(front, empty);
    EmptyUnit(AllLogs(front));
  }

  lemma SplitAround<T>(s: seq<T>, i: nat, j: nat)
    requires i < j < |s|
    ensures ([] + s[..i]) + [s[i]] == s[..i + 1]
    ensures (s[..i + 1] + s[i + 1..j]) + [s[j]] == s[..j + 1]
    ensures s[..j + 1] + s[j + 1..] == s
  {
  }

  /** Files of which only two may hold entries. */
  lemma TwoEntries(files: seq<Option<seq<Entry>>>, i: nat, j: nat)
    requires i < j < |files| && forall k :: 0 <= k < |files| && k != i && k != j ==> FileLog(files[k]) == []
    ensures AllLogs(files) == FileLog(files[i]) + FileLog(files[j])
  {
    hide FileLog, AllLogs;
    SplitAround(files, i, j);
    NoFilesNoLog();
    EmptyUnit(FileLog(files[i]));
    OneBehindEmpty([], files[..i], files[i]);
    assert AllLogs(files[..i + 1]) == FileLog(files[i]);
    OneBehindEmpty(files[..i + 1], files[i + 1..j], files[j]);
    assert AllLogs(files[..j + 1]) == FileLog(files[i]) + FileLog(files[j]);
    EmptyFiles(files[j + 1..]);
    AllLogsAppend(files[..j + 1], files[j + 1..]);
    EmptyUnit(FileLog(files[i]) + FileLog(files[j]));
  }

  lemma NoFilesNoLog()
    ensures AllLogs([]) == []
  {
  }

  lemma OneFile(file: Option<seq<Entry>>)
    ensures AllLogs([file]) == FileLog(file)
  {
    assert [file][..0] == [];
  }

  lemma {:induction false} OnlyUpdates(log: seq<Entry>, name: Text, id: nat)
    requires forall i :: 0 <= i < |log| ==> log[i].kind.Update?
    ensures forall i :: 0 <= i < |Project(log, 0, name, id)| ==> Project(log, 0, name, id)[i].Upd?
    decreases |log|
  {
    if log != [] { OnlyUpdates(log[..|log| - 1], name, id); }
  }

  lemma TwoFilesAreClean(name: Text, id: nat, i: nat, j: nat, n: nat)
    requires i < j < n
    ensures CleanDir(TwoFiles(name, id, i, j, n))
  {
    hide Project, AllLogs, LoadTables;
    var dir := TwoFiles(name, id, i, j, n);
    TwoFilesLogs(name, id, i, j, n);
    forall t, x: nat ensures RowLogIsClean(dir, LoadTables(map[], SnapTables(dir)), t, x) {
      OnlyUpdates(AllLogs(dir.files), t, x);
    }
  }

  lemma TwoFilesFit(lay: Layout, name: Text, id: nat, i: nat, j: nat, n: nat)
    requires i < j < n && id < LOCAL_SPAN && lay(name, id, i) && lay(name, id, j)
    ensures LaidOut(lay, TwoFiles(name, id, i, j, n))
  {
    var dir := TwoFiles(name, id, i, j, n);
    forall t, x: nat, k: nat | k < n && !lay(t, x, k) ensures Project(FileLog(dir.files[k]), 0, t, x) == [] {
      if k == i { AloneInFile(name, id, false, t, x); }
      if k == j { AloneInFile(name, id, true, t, x); }
    }
  }

  lemma AloneInFile(name: Text, id: nat, b: bool, t: Text, x: nat)
    requires id < LOCAL_SPAN && (t != name || x != id)
    ensures Project([Sets(name, id, b)], 0, t, x) == []
  {
    assert [Sets(name, id, b)][..0] == [];
  }

  lemma OldThenNew()
    ensures JsonToRow(map[]) == map[] && JsonToRow(Said(true)) == map[C := Boolean(true)]
    ensures var before, after: Values := map[C := Boolean(false)], map[C := Boolean(true)];
      map[] + before == before && before + after == after && after + before == before && before[C] != after[C]
  {
  }

  /** Both updates replayed: the newer one stands. */
  lemma BothReplayed(name: Text, id: nat, i: nat, j: nat, n: nat)
    requires i < j < n && id < LOCAL_SPAN
    ensures Recovered(map[], TwoFiles(name, id, i, j, n)) == Holding(name, id, map[C := Boolean(true)])
  {
    var dir, e := TwoFiles(name, id, i, j, n), Holding(name, id, map[]);
    var older, newer := Sets(name, id, false), Sets(name, id, true);
    TwoFilesLogs(name, id, i, j, n);
    RevealTwoFiles(name, id, i, j, n);
    assert SnapTables(dir) == OneRow(name, id, map[]).tables && SnapSeq(dir) == 0;
    LoadOneRow(name, id, map[]);
    OldThenNew();
    SetsRow(name, id, map[], false);
    SetsRow(name, id, map[C := Boolean(false)], true);
    hide AllLogs, Replay, LoadTables, ReplayEntry, TwoFiles, Holding, Sets;
    ReplaySingle(e, older);
    ReplayMore(e, [older], newer);
    assert [older] + [newer] == [older, newer];
  }

  /** The older update alone, replayed over the snapshot of both: it wins. */
  lemma OlderReplayed(name: Text, id: nat, i: nat, j: nat, n: nat)
    requires i < j < n && id < LOCAL_SPAN
    ensures Recovered(map[], Dir(Some(OneRow(name, id, Said(true))), Kept(TwoFiles(name, id, i, j, n).files, {i})))
         == Holding(name, id, map[C := Boolean(false)])
  {
    TwoFilesLogs(name, id, i, j, n);
    LoadOneRow(name, id, Said(true));
    OldThenNew();
    SetsRow(name, id, map[C := Boolean(true)], false);
    hide AllLogs, Replay, LoadTables, ReplayEntry, TwoFiles, Holding, Sets, Kept;
    ReplaySingle(Holding(name, id, map[C := Boolean(true)]), Sets(name, id, false));
  }

  /** The older update, left behind alone, overwrites the newer one. */
  lemma LeftoverRegresses(f: Foreign, name: Text, id: nat, i: nat, j: nat, n: nat)
    requires i < j < n && id < LOCAL_SPAN
    ensures !LeftoversAreHarmless(f, TwoFiles(name, id, i, j, n))
  {
    hide Recovered, TwoFiles, Kept, IsSnapshotOf, RowsOf;
    var dir, snap := TwoFiles(name, id, i, j, n), OneRow(name, id, Said(true));
    var left := Dir(Some(snap), Kept(dir.files, {i}));
    BothReplayed(name, id, i, j, n);
    OlderReplayed(name, id, i, j, n);
    OneRowSnapshot(f, name, id);
    OldThenNew();
    assert !SameRow(left, dir, name, id);
    assert !SameRecovery(left, dir);
  }

  lemma RevealTwoFiles(name: Text, id: nat, i: nat, j: nat, n: nat)
    ensures TwoFiles(name, id, i, j, n).snapshot == Some(OneRow(name, id, map[]))
  {
  }

  lemma OneRowSnapshot(f: Foreign, name: Text, id: nat)
    requires id < LOCAL_SPAN
    ensures IsSnapshotOf(f, OneRow(name, id, Said(true)), RowsOf(Holding(name, id, map[C := Boolean(true)])))
  {
    var row: Values := map[C := Boolean(true)];
    assert RowToJson(f, row) == Said(true);
    var rows := [SnapRow(id, Said(true))];
    var table := map[id := row];
    assert ListsRows(f, rows, table) by { assert rows[0].id == id; }
    var s := OneRow(name, id, Said(true));
    assert s.tables[0].name == name;
  }

  /**
   Rotation that ignores failed truncations is safe for all clean contents and whichever
   of them fail exactly when no row may have entries in two files.
   */
  lemma LayoutIsSafeIff(f: Foreign, n: nat, lay: Layout)
    ensures LayoutIsSafe(f, n, lay) <==> OneFileEach(n, lay)
  {
    hide CleanDir, LaidOut, LeftoversAreHarmless, TwoFiles;
    if OneFileEach(n, lay) {
      OneFileEachIsSafe(f, n, lay);
    } else {
      var name, id: nat, i: nat, j: nat :| i < j < n && id < LOCAL_SPAN && lay(name, id, i) && lay(name, id, j);
      TwoFilesAreClean(name, id, i, j, n);
      TwoFilesFit(lay, name, id, i, j, n);
      LeftoverRegresses(f, name, id, i, j, n);
      assert |TwoFiles(name, id, i, j, n).files| == n by { FileCount(name, id, i, j, n); }
    }
  }

  lemma FileCount(name: Text, id: nat, i: nat, j: nat, n: nat)
    ensures |TwoFiles(name, id, i, j, n).files| == n
  {
  }

  /** Routing by table, with nothing left in a file from before the shards, is such a layout. */
  lemma RoutedFilesAreSafe(f: Foreign, n: nat, route: Text -> nat)
    ensures LayoutIsSafe(f, n, (name, id, i) => route(name) == i)
  {
    OneFileEachIsSafe(f, n, (name, id, i) => route(name) == i);
  }
}
