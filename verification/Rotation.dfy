/**
 Sharded logs replay like one log, and rotating the logs away is safe at every point
 where it can be cut short.
 */
module Rotation {
  import opened Types
  import opened JsonValues
  import opened Recovery
  import TableSpec
  import R = RowReplay
  import D = Durable

  // ----------------------------------------------------------- sharding

  function OfTable(log: seq<Entry>, name: Text): seq<Entry>
    decreases |log|
  {
    if log == [] then [] else
    var last := log[|log| - 1];
    OfTable(log[..|log| - 1], name) + (if last.table == name then [last] else [])
  }

  /** The entries that routing by table name sends to shard `i`. */
  function OfShard(log: seq<Entry>, route: Text -> nat, i: nat): seq<Entry>
    decreases |log|
  {
    if log == [] then [] else
    var last := log[|log| - 1];
    OfShard(log[..|log| - 1], route, i) + (if route(last.table) == i then [last] else [])
  }

  function ShardFiles(log: seq<Entry>, route: Text -> nat, n: nat): seq<Option<seq<Entry>>> {
    if n == 0 then [] else ShardFiles(log, route, n - 1) + [Some(OfShard(log, route, n - 1))]
  }

  function TableAt(e: EngineState, name: Text): Option<TableSpec.TableState> {
    if name in e then Some(e[name]) else None
  }

  lemma {:induction false} OfTableAppend(a: seq<Entry>, b: seq<Entry>, name: Text)
    ensures OfTable(a + b, name) == OfTable(a, name) + OfTable(b, name)
    decreases |b|
  {
    if b == [] {
      assert a + b == a;
    } else {
      var b', last := b[..|b| - 1], b[|b| - 1];
      assert (a + b)[..|a + b| - 1] == a + b' && (a + b)[|a + b| - 1] == last;
      OfTableAppend(a, b', name);
    }
  }

  lemma {:induction false} ShardOfTable(log: seq<Entry>, route: Text -> nat, i: nat, name: Text)
    ensures OfTable(OfShard(log, route, i), name) == if route(name) == i then OfTable(log, name) else []
    decreases |log|
  {
    if log != [] {
      var init, last := log[..|log| - 1], log[|log| - 1];
      ShardOfTable(init, route, i, name);
      OfTableAppend(OfShard(init, route, i), if route(last.table) == i then [last] else [], name);
      assert OfTable([last], name) == (if last.table == name then [last] else []) by { assert [last][..0] == []; }
    }
  }

  lemma EmptyUnit<T>(s: seq<T>)
    ensures [] + s == s && s + [] == s
  {
  }

  lemma ShardFilesStep(log: seq<Entry>, route: Text -> nat, n: nat)
    ensures AllLogs(ShardFiles(log, route, n))
         == if n == 0 then [] else AllLogs(ShardFiles(log, route, n - 1)) + OfShard(log, route, n - 1)
  {
    hide OfShard;
    if n > 0 {
      var files := ShardFiles(log, route, n);
      assert files[..|files| - 1] == ShardFiles(log, route, n - 1);
    }
  }

  lemma NoEntries(name: Text)
    ensures OfTable([], name) == []
  {
  }

  /** Each table's entries sit in one shard, in their original order. */
  lemma {:induction false} ShardsHoldTable(log: seq<Entry>, route: Text -> nat, n: nat, name: Text)
    ensures OfTable(AllLogs(ShardFiles(log, route, n)), name) == if route(name) < n then OfTable(log, name) else []
    decreases n
  {
    hide *;
    ShardFilesStep(log, route, n);
    NoEntries(name);
    if n > 0 {
      var before, own := AllLogs(ShardFiles(log, route, n - 1)), OfShard(log, route, n - 1);
      ShardsHoldTable(log, route, n - 1, name);
      ShardOfTable(log, route, n - 1, name);
      OfTableAppend(before, own, name);
      EmptyUnit(OfTable(log, name));
    }
  }

  /** An entry reads and writes the table it names, and no other. */
  lemma EntryIsLocal(e: EngineState, e': EngineState, en: Entry, snapSeq: nat, name: Text)
    requires TableAt(e, name) == TableAt(e', name)
    ensures en.table == name ==>
            TableAt(ReplayEntry(e, en, snapSeq), name) == TableAt(ReplayEntry(e', en, snapSeq), name)
    ensures en.table != name ==> TableAt(ReplayEntry(e, en, snapSeq), name) == TableAt(e, name)
  {
    hide TableSpec.Step;
  }

  /** A table's state depends on the entries of that table alone. */
  lemma {:induction false} ReplayByTable(e: EngineState, log: seq<Entry>, snapSeq: nat, name: Text)
    ensures TableAt(Replay(e, log, snapSeq), name) == TableAt(Replay(e, OfTable(log, name), snapSeq), name)
    decreases |log|
  {
    if log != [] {
      var init, last := log[..|log| - 1], log[|log| - 1];
      ReplayByTable(e, init, snapSeq, name);
      EntryIsLocal(Replay(e, init, snapSeq), Replay(e, OfTable(init, name), snapSeq), last, snapSeq, name);
      hide ReplayEntry;
      if last.table == name {
        var own := OfTable(init, name) + [last];
        assert own[..|own| - 1] == OfTable(init, name);
      } else {
        assert OfTable(init, name) + [] == OfTable(init, name);
      }
    }
  }

  /**
   For every routing of tables to shards, replaying the shard files one after another
   gives the same engine state as replaying all entries in the order they were accepted.
   */
  lemma ShardedReplayCommutes(e: EngineState, log: seq<Entry>, route: Text -> nat, n: nat, snapSeq: nat)
    requires forall name :: route(name) < n
    ensures Replay(e, AllLogs(ShardFiles(log, route, n)), snapSeq) == Replay(e, log, snapSeq)
  {
    var a, b := Replay(e, AllLogs(ShardFiles(log, route, n)), snapSeq), Replay(e, log, snapSeq);
    forall name ensures TableAt(a, name) == TableAt(b, name) {
      ReplayByTable(e, AllLogs(ShardFiles(log, route, n)), snapSeq, name);
      ReplayByTable(e, log, snapSeq, name);
      ShardsHoldTable(log, route, n, name);
    }
    SameTables(a, b);
  }

  lemma SameTables(a: EngineState, b: EngineState)
    requires forall name :: TableAt(a, name) == TableAt(b, name)
    ensures a == b
  {
    forall name ensures name in a <==> name in b { assert TableAt(a, name) == TableAt(b, name); }
    forall name | name in a ensures a[name] == b[name] { assert TableAt(a, name) == TableAt(b, name); }
  }

  // ----------------------------------------------------------- rotation

  /** All values of a row are as the JSON trip leaves them. */
  predicate Normal(f: Foreign, x: R.RowState) { NormState(f, x) == x }

  lemma PayloadIsNormal(f: Foreign, row: JsonRow)
    ensures NormRow(f, JsonToRow(row)) == JsonToRow(row)
  {
    JsonRowIsFixed(f, row);
  }

  lemma {:induction false} ProjectIsNormal(f: Foreign, log: seq<Entry>, snapSeq: nat, name: Text, id: nat)
    ensures forall i :: 0 <= i < |Project(log, snapSeq, name, id)| ==>
              D.NormOp(f, Project(log, snapSeq, name, id)[i]) == Project(log, snapSeq, name, id)[i]
    decreases |log|
  {
    if log != [] {
      ProjectIsNormal(f, log[..|log| - 1], snapSeq, name, id);
      var data := log[|log| - 1].data;
      if data.Some? { PayloadIsNormal(f, data.value); }
      assert NormRow(f, map[]) == map[];
    }
  }

  lemma {:induction false} RunKeepsNormal(f: Foreign, x: R.RowState, ops: seq<R.RowOp>)
    requires Normal(f, x) && forall i :: 0 <= i < |ops| ==> D.NormOp(f, ops[i]) == ops[i]
    ensures Normal(f, R.Run(x, ops))
    decreases |ops|
  {
    if ops != [] {
      RunKeepsNormal(f, x, ops[..|ops| - 1]);
      D.NormApply(f, R.Run(x, ops[..|ops| - 1]), ops[|ops| - 1]);
    }
  }

  function RowsOf(e: EngineState): LiveState { map name | name in e :: e[name].rows }

  ghost predicate AllNormal(f: Foreign, e: EngineState) {
    forall name, id: nat :: Normal(f, RowAt(e, name, id))
  }

  lemma {:induction false} LoadRowsIsNormal(f: Foreign, e: EngineState, t: Text, rows: seq<SnapRow>)
    requires AllNormal(f, e)
    ensures AllNormal(f, LoadRows(e, t, rows))
    decreases |rows|
  {
    if rows != [] {
      var init, last := rows[..|rows| - 1], rows[|rows| - 1];
      LoadRowsIsNormal(f, e, t, init);
      PayloadIsNormal(f, last.values);
      hide NormRow, JsonToRow;
      forall name, id: nat ensures Normal(f, RowAt(LoadRows(e, t, rows), name, id)) {
        assert Normal(f, RowAt(LoadRows(e, t, init), name, id));
      }
    }
  }

  /** A freshly loaded engine holds only values that the JSON trip leaves alone. */
  lemma {:induction false} LoadIsNormal(f: Foreign, tables: seq<SnapTable>)
    ensures AllNormal(f, LoadTables(map[], tables))
    decreases |tables|
  {
    if tables != [] {
      var init, t := tables[..|tables| - 1], tables[|tables| - 1];
      LoadIsNormal(f, init);
      var e := LoadTables(map[], init);
      assert AllNormal(f, Ensured(e, t.name)) by {
        forall name, id: nat ensures Normal(f, RowAt(Ensured(e, t.name), name, id)) {
          assert Normal(f, RowAt(e, name, id));
        }
      }
      LoadRowsIsNormal(f, Ensured(e, t.name), t.name, SortRows(t.rows));
    }
  }

  /** Rows that a recovery produced come back unchanged from a snapshot of them. */
  lemma RecoveredIsNormal(f: Foreign, dir: Dir, name: Text, id: nat)
    ensures Normal(f, RowAt(Recovered(map[], dir), name, id))
  {
    var e := LoadTables(map[], SnapTables(dir));
    LoadIsNormal(f, SnapTables(dir));
    ReplayByRow(e, AllLogs(dir.files), SnapSeq(dir), name, id);
    ProjectIsNormal(f, AllLogs(dir.files), SnapSeq(dir), name, id);
    RunKeepsNormal(f, RowAt(e, name, id), Project(AllLogs(dir.files), SnapSeq(dir), name, id));
  }

  /** The files with the first `j` of them truncated; a missing file stays missing. */
  function Truncated(files: seq<Option<seq<Entry>>>, j: nat): (t: seq<Option<seq<Entry>>>)
    requires j <= |files|
    ensures |t| == |files|
  {
    seq(|files|, i requires 0 <= i < |files| => if i < j && files[i].Some? then Some([]) else files[i])
  }

  lemma {:induction false} AllLogsAppend(a: seq<Option<seq<Entry>>>, b: seq<Option<seq<Entry>>>)
    ensures AllLogs(a + b) == AllLogs(a) + AllLogs(b)
    decreases |b|
  {
    hide FileLog;
    if b == [] {
      assert a + b == a;
    } else {
      var b', last := b[..|b| - 1], b[|b| - 1];
      assert (a + b)[..|a + b| - 1] == a + b' && (a + b)[|a + b| - 1] == last;
      AllLogsAppend(a, b');
      assert AllLogs(a) + (AllLogs(b') + FileLog(last)) == AllLogs(a) + AllLogs(b') + FileLog(last);
    }
  }

  lemma {:induction false} EmptyFiles(files: seq<Option<seq<Entry>>>)
    requires forall i :: 0 <= i < |files| ==> FileLog(files[i]) == []
    ensures AllLogs(files) == []
    decreases |files|
  {
    if files != [] { EmptyFiles(files[..|files| - 1]); }
  }

  lemma TruncatedSplits(files: seq<Option<seq<Entry>>>, j: nat)
    requires j <= |files|
    ensures var t := Truncated(files, j);
            t == t[..j] + files[j..] && forall i :: 0 <= i < j ==> FileLog(t[..j][i]) == []
  {
  }

  /** What is left to replay after truncating the first files is the end of the whole log. */
  lemma TruncatedLogs(files: seq<Option<seq<Entry>>>, j: nat)
    requires j <= |files|
    ensures AllLogs(Truncated(files, j)) == AllLogs(files[j..])
    ensures AllLogs(files) == AllLogs(files[..j]) + AllLogs(files[j..])
  {
    hide AllLogs, Truncated, FileLog;
    var t := Truncated(files, j);
    TruncatedSplits(files, j);
    EmptyFiles(t[..j]);
    AllLogsAppend(t[..j], files[j..]);
    EmptyUnit(AllLogs(files[j..]));
    assert files == files[..j] + files[j..];
    AllLogsAppend(files[..j], files[j..]);
  }

  /** One turn of the truncation loop. */
  lemma TruncateOne(files: seq<Option<seq<Entry>>>, i: nat)
    requires i < |files|
    ensures Truncated(files, i + 1)
         == if files[i].Some? then Truncated(files, i)[i := Some([])] else Truncated(files, i)
    ensures Truncated(files, i)[i] == files[i]
  {
  }

  lemma TruncatedEnds(files: seq<Option<seq<Entry>>>)
    ensures Truncated(files, 0) == files && AllLogs(Truncated(files, |files|)) == []
  {
    EmptyFiles(Truncated(files, |files|));
  }

  /** No sequence number is filtered: logs start at 1 and snapshots are stamped 0. */
  predicate Unfiltered(dir: Dir) {
    SnapSeq(dir) == 0
  }

  /** The row's log holds no stale update, seen from the loaded snapshot. */
  predicate RowLogIsClean(dir: Dir, base: EngineState, name: Text, id: nat) {
    R.StaleFree(RowAt(base, name, id), Project(AllLogs(dir.files), 0, name, id))
  }

  /**
   The logs of accepted writes are clean, whichever stretch `m..n` of the history the
   files hold and whatever snapshot lies under them.
   */
  lemma AcceptedHistoryIsClean(f: Foreign, l: LiveState, h: seq<D.LiveOp>, log: seq<Entry>, m: nat, n: nat,
                               dir: Dir, base: EngineState, name: Text, id: nat)
    requires D.LogOf(f, h, log) && D.UpdatesHitRows(l, h) && D.InsertsAreNew(l, h) && m <= n <= |log|
    requires Project(AllLogs(dir.files), 0, name, id) == Project(log[m..n], 0, name, id)
    ensures RowLogIsClean(dir, base, name, id)
  {
    hide Project, AllLogs, R.StaleFree, D.LogOf, D.UpdatesHitRows, D.InsertsAreNew;
    D.HistoryIsOrderly(f, l, h, log, name, id);
    D.ProjectPiece(log, 0, m, n, name, id);
    R.OrderlyIsStaleFree(RowAt(base, name, id), Project(log[m..n], 0, name, id));
  }

  /**
   Crash-safe rotation. Once the new snapshot is renamed into place, stopping after
   any number `j` of truncated files leaves a directory from which every row recovers
   as it did before the rotation.
   */
  lemma RotationKeepsRow(f: Foreign, dir: Dir, snap: Snapshot, j: nat, name: Text, id: nat)
    requires Unfiltered(dir) && j <= |dir.files|
    requires RowLogIsClean(dir, LoadTables(map[], SnapTables(dir)), name, id)
    requires IsSnapshotOf(f, snap, RowsOf(Recovered(map[], dir)))
    ensures RowAt(Recovered(map[], Dir(Some(snap), Truncated(dir.files, j))), name, id)
         == RowAt(Recovered(map[], dir), name, id)
  {
    var base, e := LoadTables(map[], SnapTables(dir)), Recovered(map[], dir);
    var x, done, rest := RowAt(base, name, id), AllLogs(dir.files[..j]), AllLogs(dir.files[j..]);
    TruncatedLogs(dir.files, j);
    ReplayByRow(base, AllLogs(dir.files), 0, name, id);
    ProjectAppend(done, rest, 0, name, id);
    var p: seq<R.RowOp>, q: seq<R.RowOp> := Project(done, 0, name, id), Project(rest, 0, name, id);
    assert snap.walSeq == 0;
    RecoveredIsNormal(f, dir, name, id);
    hide AllLogs, Project, Replay, LoadTables, IsSnapshotOf;
    TailAgain(x, p, q);
    SnapshotRestores(f, snap, RowsOf(e), name, id);
    assert LiveRow(RowsOf(e), name, id) == RowAt(e, name, id);
    ReplayByRow(LoadTables(map[], snap.tables), rest, 0, name, id);
  }

  /** Replaying the end of a clean log over the state after all of it changes nothing. */
  lemma TailAgain(x: R.RowState, p: seq<R.RowOp>, q: seq<R.RowOp>)
    requires R.StaleFree(x, p + q)
    ensures R.Run(R.Run(x, p + q), q) == R.Run(x, p + q)
  {
    hide R.StaleFree, R.Run;
    R.FuzzyRecovery(x, p + q, |p|, |p + q|, |p + q|);
    assert (p + q)[|p|..|p + q|] == q && (p + q)[..|p + q|] == p + q;
  }

  predicate InsertsInto(log: seq<Entry>, snapSeq: nat, name: Text) {
    exists i :: 0 <= i < |log| && log[i].kind.Insert? && log[i].table == name && log[i].sequence > snapSeq
  }

  lemma {:induction false} ReplayHasTable(e: EngineState, log: seq<Entry>, snapSeq: nat, name: Text)
    ensures name in Replay(e, log, snapSeq) <==> name in e || InsertsInto(log, snapSeq, name)
    decreases |log|
  {
    if log != [] {
      var init := log[..|log| - 1];
      ReplayHasTable(e, init, snapSeq, name);
      assert forall i :: 0 <= i < |init| ==> init[i] == log[i];
      if InsertsInto(log, snapSeq, name) && !InsertsInto(init, snapSeq, name) {
        var i :| 0 <= i < |log| && log[i].kind.Insert? && log[i].table == name && log[i].sequence > snapSeq;
        assert i == |log| - 1;
      }
      if InsertsInto(init, snapSeq, name) {
        var i :| 0 <= i < |init| && init[i].kind.Insert? && init[i].table == name && init[i].sequence > snapSeq;
        assert log[i].kind.Insert?;
      }
    }
  }

  /** Rotation keeps exactly the tables that were there. */
  lemma RotationKeepsTables(f: Foreign, dir: Dir, snap: Snapshot, j: nat, name: Text)
    requires Unfiltered(dir) && j <= |dir.files|
    requires IsSnapshotOf(f, snap, RowsOf(Recovered(map[], dir)))
    ensures name in Recovered(map[], Dir(Some(snap), Truncated(dir.files, j))) <==> name in Recovered(map[], dir)
  {
    assert snap.walSeq == 0;
    hide AllLogs, Replay, LoadTables, IsSnapshotOf, Truncated, RowAt;
    TruncatedLogs(dir.files, j);
    SnapshotRestores(f, snap, RowsOf(Recovered(map[], dir)), name, 0);
    ReplayHasTable(LoadTables(map[], SnapTables(dir)), AllLogs(dir.files), 0, name);
    var rest := AllLogs(dir.files[j..]);
    ReplayHasTable(LoadTables(map[], snap.tables), rest, 0, name);
    if InsertsInto(rest, 0, name) {
      var i :| 0 <= i < |rest| && rest[i].kind.Insert? && rest[i].table == name && rest[i].sequence > 0;
      assert AllLogs(dir.files)[|AllLogs(dir.files[..j])| + i] == rest[i];
    }
  }
}
