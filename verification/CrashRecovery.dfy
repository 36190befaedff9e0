/**
 From the writers to recovery: any history, any interleaving of the group-commit threads
 of a cluster, any crash, any snapshot no later than what the files kept.
 */
module CrashRecovery {
  import opened Types
  import opened JsonValues
  import opened Recovery
  import opened Durable
  import opened GroupCommit
  import Rotation

  /** A row's entries are among its table's. */
  lemma {:induction false} ProjectOfTable(log: seq<Entry>, name: Text, id: nat)
    ensures Project(Rotation.OfTable(log, name), 0, name, id) == Project(log, 0, name, id)
    decreases |log|
  {
    if log != [] {
      var init, last := log[..|log| - 1], log[|log| - 1];
      ProjectOfTable(init, name, id);
      Rotation.OfTableAppend(init, [last], name);
      assert log == init + [last];
      OfTableOne(last, name);
      hide Rotation.OfTable, RowOps;
      if last.table == name {
        ProjectMore(Rotation.OfTable(init, name), last, name, id);
      } else {
        OtherTable(last, name, id);
        Rotation.EmptyUnit(Rotation.OfTable(init, name));
        Rotation.EmptyUnit(Project(init, 0, name, id));
      }
    }
  }

  lemma OfTableOne(en: Entry, name: Text)
    ensures Rotation.OfTable([en], name) == if en.table == name then [en] else []
  {
    var none: seq<Entry> := [];
    assert Rotation.OfTable(none, name) == [];
    Rotation.NoEntries(name);
    assert [en][..0] == [];
    assert [en][1..] == [];
  }

  lemma ProjectMore(log: seq<Entry>, en: Entry, name: Text, id: nat)
    ensures Project(log + [en], 0, name, id) == Project(log, 0, name, id) + RowOps(en, 0, name, id)
  {
    assert (log + [en])[..|log|] == log;
  }

  lemma OtherTable(en: Entry, name: Text, id: nat)
    requires en.table != name
    ensures RowOps(en, 0, name, id) == []
  {
  }

  /** Taking one more entry of the log takes at most one more of the table. */
  lemma TableStep(log: seq<Entry>, i: nat, name: Text)
    requires i < |log|
    ensures |Rotation.OfTable(log[..i], name)| <= |Rotation.OfTable(log[..i + 1], name)|
            <= |Rotation.OfTable(log[..i], name)| + 1
  {
    hide Rotation.OfTable;
    assert log[..i + 1] == log[..i] + [log[i]];
    Rotation.OfTableAppend(log[..i], [log[i]], name);
    OfTableOne(log[i], name);
  }

  /** Some point of the log, no earlier than `k`, has seen `kept` entries of the table. */
  lemma {:induction false} CutAt(log: seq<Entry>, k: nat, kept: nat, name: Text) returns (n: nat)
    requires k <= |log| && |Rotation.OfTable(log[..k], name)| <= kept <= |Rotation.OfTable(log, name)|
    ensures k <= n <= |log| && |Rotation.OfTable(log[..n], name)| == kept
    decreases |log| - k
  {
    hide Rotation.OfTable;
    if k == |log| { assert log[..k] == log; }
    if |Rotation.OfTable(log[..k], name)| == kept {
      n := k;
    } else {
      TableStep(log, k, name);
      n := CutAt(log, k + 1, kept, name);
    }
  }

  /** What the files kept of a table is what some front of the log has of it. */
  lemma KeptIsFront(log: seq<Entry>, files: seq<Option<seq<Entry>>>, route: Text -> nat, k: nat, name: Text)
    returns (n: nat)
    requires k <= |log| && route(name) < |files| && FilesArePrefixes(files, log, route)
    requires |Rotation.OfTable(log[..k], name)| <= |Rotation.OfTable(FileLog(files[route(name)]), name)|
    ensures k <= n <= |log| && Rotation.OfTable(AllLogs(files), name) == Rotation.OfTable(log[..n], name)
  {
    hide Rotation.OfTable, Rotation.OfShard, AllLogs, FileLog;
    var r := route(name);
    var file := FileLog(files[r]);
    TableInItsFile(files, log, route, |files|, name);
    assert files[..|files|] == files;
    assert IsPrefixOf(file, Rotation.OfShard(log, route, r));
    Rotation.ShardOfTable(log, route, r, name);
    PrefixOfTable(Rotation.OfShard(log, route, r), |file|, name);
    n := CutAt(log, k, |Rotation.OfTable(file, name)|, name);
    PrefixOfTable(log, n, name);
  }

  /**
   Crash recovery. The cluster's files held the log of a history from `m` on and the
   cluster accepted the rest of it, in any interleaving with its threads; after a crash
   at any point, with a snapshot that saw the row after `k` writes, no later than what
   the files kept of its table, recovery has the row as it was after the kept writes.
   */
  lemma CrashRecovers(f: Foreign, l: LiveState, h: seq<LiveOp>, log: seq<Entry>, m: nat, k: nat,
                      maxBatch: nat, before: seq<Entry>, route: Text -> nat, shards: nat, steps: seq<ClusterStep>,
                      files: seq<Option<seq<Entry>>>, snap: Snapshot, seen: LiveState, name: Text, id: nat)
    returns (n: nat)
    requires LogOf(f, h, log) && UpdatesHitRows(l, h) && m <= k <= |log|
    requires log[m..] == Accepted(maxBatch, before, route, shards, steps) && route(name) < shards
    requires var c := ClusterRun(maxBatch, route, Opened(before, route, shards), steps);
             NoFailures(c) && CrashFiles(c, files)
    requires IsSnapshotOf(f, snap, seen) && LiveRow(seen, name, id) == LiveRow(LiveRun(l, h[..k]), name, id)
    requires |Rotation.OfTable(log[m..k], name)| <= |Rotation.OfTable(FileLog(files[route(name)]), name)|
    ensures k <= n <= |h|
    ensures |Rotation.OfTable(log[m..n], name)| == |Rotation.OfTable(FileLog(files[route(name)]), name)|
    ensures RowAt(Recovered(map[], Dir(Some(snap), files)), name, id)
            == NormState(f, LiveRow(LiveRun(l, h[..n]), name, id))
  {
    hide Rotation.OfTable, Rotation.OfShard, AllLogs, FileLog, Project, Accepted, ClusterRun, Recovered, LiveRun,
      LiveRow,
         UpdatesHitRows, IsSnapshotOf, FilesArePrefixes;
    var rest := log[m..];
    CrashFilesArePrefixes(maxBatch, before, route, shards, steps, files);
    assert rest[..k - m] == log[m..k];
    var cut := KeptIsFront(rest, files, route, k - m, name);
    n := m + cut;
    assert rest[..cut] == log[m..n];
    ProjectOfTable(AllLogs(files), name, id);
    ProjectOfTable(log[m..n], name, id);
    TableInItsFile(files, rest, route, |files|, name);
    assert files[..|files|] == files;
    FuzzySnapshotRecovery(f, l, h, log, m, k, n, Dir(Some(snap), files), seen, name, id);
  }
}
