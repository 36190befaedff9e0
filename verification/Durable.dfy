/**
 What recovery guarantees: fuzzy snapshots, sharded logs and log rotation.
 */
module Durable {
  import opened Types
  import opened JsonValues
  import opened Recovery
  import TableSpec
  import R = RowReplay

  // ------------------------------------------------------- live history

  /** A write that the live engine carried out, with the row id local to its table. */
  datatype LiveOp = LiveOp(kind: Kind, table: Text, id: nat, values: Values)

  function LiveStep(l: LiveState, op: LiveOp): LiveState {
    var rows := if op.table in l then l[op.table] else map[];
    match op.kind
    case Insert => if op.id in rows then l else l[op.table := rows[op.id := op.values]]
    case Update => if op.id in rows then l[op.table := rows[op.id := rows[op.id] + op.values]] else l
    case Delete => if op.id in rows then l[op.table := rows - {op.id}] else l
    case _ => l
  }

  function LiveRun(l: LiveState, ops: seq<LiveOp>): LiveState
    decreases |ops|
  {
    if ops == [] then l else LiveStep(LiveRun(l, ops[..|ops| - 1]), ops[|ops| - 1])
  }

  /** The log entry of a write: same row, values as JSON, any shard tag above the local id. */
  predicate LogsAs(f: Foreign, op: LiveOp, en: Entry) {
    && en.sequence > 0 && en.kind == op.kind && en.table == op.table && LocalId(en.rowId) == op.id
    && (op.kind.Insert? || op.kind.Update? ==> en.data == Some(RowToJson(f, op.values)))
  }

  predicate LogOf(f: Foreign, h: seq<LiveOp>, log: seq<Entry>) {
    |log| == |h| && forall i :: 0 <= i < |h| ==> LogsAs(f, h[i], log[i])
  }

  /** Every update was of a row that was there. */
  predicate UpdatesHitRows(l: LiveState, h: seq<LiveOp>) {
    forall i :: 0 <= i < |h| && h[i].kind.Update? ==> LiveRow(LiveRun(l, h[..i]), h[i].table, h[i].id).Some?
  }

  /** Every insert was of a row that was not there. */
  predicate InsertsAreNew(l: LiveState, h: seq<LiveOp>) {
    forall i :: 0 <= i < |h| && h[i].kind.Insert? ==> LiveRow(LiveRun(l, h[..i]), h[i].table, h[i].id).None?
  }

  lemma HitsInFront(l: LiveState, h: seq<LiveOp>)
    requires UpdatesHitRows(l, h) && h != []
    ensures var hi, op := h[..|h| - 1], h[|h| - 1];
      UpdatesHitRows(l, hi) && (op.kind.Update? ==> LiveRow(LiveRun(l, hi), op.table, op.id).Some?)
  {
    hide LiveRun;
    var hi := h[..|h| - 1];
    assert forall i :: 0 <= i < |hi| ==> hi[..i] == h[..i];
  }

  lemma NewInFront(l: LiveState, h: seq<LiveOp>)
    requires InsertsAreNew(l, h) && h != []
    ensures var hi, op := h[..|h| - 1], h[|h| - 1];
      InsertsAreNew(l, hi) && (op.kind.Insert? ==> LiveRow(LiveRun(l, hi), op.table, op.id).None?)
  {
    hide LiveRun;
    var hi := h[..|h| - 1];
    assert forall i :: 0 <= i < |hi| ==> hi[..i] == h[..i];
  }

  function NormOp(f: Foreign, op: R.RowOp): R.RowOp {
    match op
    case Ins(v) => R.Ins(NormRow(f, v))
    case Upd(v) => R.Upd(NormRow(f, v))
    case Del => R.Del
  }

  lemma NormOfMerge(f: Foreign, a: Values, b: Values)
    ensures NormRow(f, a + b) == NormRow(f, a) + NormRow(f, b)
  {
  }

  lemma NormApply(f: Foreign, x: R.RowState, op: R.RowOp)
    ensures NormState(f, R.Apply(x, op)) == R.Apply(NormState(f, x), NormOp(f, op))
  {
    if x.Some? && op.Upd? { NormOfMerge(f, x.value, op.values); }
  }

  /** What a write does to row `id` of table `name`, if anything. */
  function LiveRowOps(op: LiveOp, name: Text, id: nat): seq<R.RowOp> {
    if op.table != name || op.id != id then [] else
    match op.kind
    case Insert => [R.Ins(op.values)]
    case Update => [R.Upd(op.values)]
    case Delete => [R.Del]
    case _ => []
  }

  lemma LiveStepOnRow(l: LiveState, op: LiveOp, name: Text, id: nat)
    ensures LiveRow(LiveStep(l, op), name, id) == R.Run(LiveRow(l, name, id), LiveRowOps(op, name, id))
  {
    var ops := LiveRowOps(op, name, id);
    if ops != [] { assert ops[..0] == []; }
  }

  lemma EntryRowOps(f: Foreign, op: LiveOp, en: Entry, name: Text, id: nat)
    requires LogsAs(f, op, en)
    ensures |RowOps(en, 0, name, id)| == |LiveRowOps(op, name, id)| <= 1
    ensures forall i :: 0 <= i < |RowOps(en, 0, name, id)| ==>
              RowOps(en, 0, name, id)[i] == NormOp(f, LiveRowOps(op, name, id)[i])
  {
  }

  /**
   The log of a history, projected on a row: running it from the normalised base gives
   the normalised live row, and its updates find the row present.
   */
  lemma {:induction false} LogFollowsHistory(f: Foreign, l: LiveState, h: seq<LiveOp>, log: seq<Entry>, name: Text,
                                             id: nat)
    requires LogOf(f, h, log)
    ensures R.Run(NormState(f, LiveRow(l, name, id)), Project(log, 0, name, id))
         == NormState(f, LiveRow(LiveRun(l, h), name, id))
    decreases |h|
  {
    if h != [] {
      var hi, li, op, en := h[..|h| - 1], log[..|h| - 1], h[|h| - 1], log[|h| - 1];
      LogFollowsHistory(f, l, hi, li, name, id);
      var x, y := NormState(f, LiveRow(l, name, id)), LiveRow(LiveRun(l, hi), name, id);
      var ops, live := RowOps(en, 0, name, id), LiveRowOps(op, name, id);
      R.RunAppend(x, Project(li, 0, name, id), ops);
      EntryRowOps(f, op, en, name, id);
      LiveStepOnRow(LiveRun(l, hi), op, name, id);
      if live != [] {
        NormApply(f, y, live[0]);
        assert ops == [NormOp(f, live[0])] && live == [live[0]];
        RunOne(NormState(f, y), ops[0]);
        RunOne(y, live[0]);
      }
      hide LiveStep, LiveRowOps, RowOps, LogsAs;
    }
  }

  lemma RunOne(x: R.RowState, op: R.RowOp)
    ensures R.Run(x, [op]) == R.Apply(x, op)
  {
    assert [op][..0] == [];
  }

  predicate PresentUpdates(x: R.RowState, ops: seq<R.RowOp>) {
    forall i :: 0 <= i < |ops| && ops[i].Upd? ==> R.Run(x, ops[..i]).Some?
  }

  lemma {:induction false} UpdatesArePresent(f: Foreign, l: LiveState, h: seq<LiveOp>, log: seq<Entry>, name: Text,
                                             id: nat)
    requires LogOf(f, h, log) && UpdatesHitRows(l, h)
    ensures PresentUpdates(NormState(f, LiveRow(l, name, id)), Project(log, 0, name, id))
    decreases |h|
  {
    if h != [] {
      hide UpdatesHitRows, LiveStep, RowOps, LiveRow, R.Run;
      var hi, li, op, en := h[..|h| - 1], log[..|h| - 1], h[|h| - 1], log[|h| - 1];
      HitsInFront(l, h);
      UpdatesArePresent(f, l, hi, li, name, id);
      LogFollowsHistory(f, l, hi, li, name, id);
      EntryRowOps(f, op, en, name, id);
      var p: seq<R.RowOp> := Project(li, 0, name, id);
      var ops: seq<R.RowOp> := RowOps(en, 0, name, id);
      var x := NormState(f, LiveRow(l, name, id));
      forall i | 0 <= i < |p + ops| && (p + ops)[i].Upd? ensures R.Run(x, (p + ops)[..i]).Some? {
        if i < |p| {
          assert (p + ops)[..i] == p[..i];
        } else {
          assert (p + ops)[..i] == p;
        }
      }
    }
  }

  /** In a history of accepted writes no insert of a row comes right after an update of it. */
  lemma {:induction false} HistoryIsOrderly(f: Foreign, l: LiveState, h: seq<LiveOp>, log: seq<Entry>, name: Text,
                                            id: nat)
    requires LogOf(f, h, log) && UpdatesHitRows(l, h) && InsertsAreNew(l, h)
    ensures var p := Project(log, 0, name, id);
      R.Orderly(p) && (p != [] && p[|p| - 1].Upd? ==> LiveRow(LiveRun(l, h), name, id).Some?)
    decreases |h|
  {
    if h != [] {
      hide UpdatesHitRows, InsertsAreNew, R.Orderly, LiveStep, RowOps, LiveRow, R.Run;
      var hi, li, op, en := h[..|h| - 1], log[..|h| - 1], h[|h| - 1], log[|h| - 1];
      HitsInFront(l, h);
      NewInFront(l, h);
      HistoryIsOrderly(f, l, hi, li, name, id);
      EntryRowOps(f, op, en, name, id);
      LiveStepOnRow(LiveRun(l, hi), op, name, id);
      assert LiveRun(l, h) == LiveStep(LiveRun(l, hi), op);
      OrderlyStep(f, Project(li, 0, name, id), RowOps(en, 0, name, id), LiveRowOps(op, name, id),
                  LiveRow(LiveRun(l, hi), name, id));
    }
  }

  lemma OrderlyStep(f: Foreign, p: seq<R.RowOp>, ops: seq<R.RowOp>, live: seq<R.RowOp>, y: R.RowState)
    requires R.Orderly(p) && (p != [] && p[|p| - 1].Upd? ==> y.Some?)
    requires |ops| == |live| <= 1 && (ops != [] ==> ops[0] == NormOp(f, live[0]))
    requires live != [] ==> (live[0].Ins? ==> y.None?) && (live[0].Upd? ==> y.Some?)
    ensures var q := p + ops; R.Orderly(q) && (q != [] && q[|q| - 1].Upd? ==> R.Run(y, live).Some?)
  {
    if live != [] {
      assert live == [live[0]];
      RunOne(y, live[0]);
    } else {
      assert p + ops == p;
    }
  }

  /** A piece of a row's log is the projection of the same piece of the log. */
  lemma ProjectPiece(log: seq<Entry>, snapSeq: nat, m: nat, n: nat, name: Text, id: nat)
    requires m <= n <= |log|
    ensures var p := Project(log, snapSeq, name, id);
            var i := |Project(log[..m], snapSeq, name, id)|;
            var j := |Project(log[..n], snapSeq, name, id)|;
      i <= j <= |p| && p[..i] == Project(log[..m], snapSeq, name, id)
      && p[i..j] == Project(log[m..n], snapSeq, name, id)
  {
    hide Project;
    ProjectAppend(log[..m], log[m..n], snapSeq, name, id);
    assert log[..m] + log[m..n] == log[..n];
    ProjectAppend(log[..n], log[n..], snapSeq, name, id);
    assert log[..n] + log[n..] == log;
  }

  /**
   Fuzzy-snapshot recovery. Whatever the base state, the history (its updates hitting
   present rows) and the replayed entries `m..n`, a fresh engine recovers every row as it
   was live after `n` writes, up to the JSON trip. The snapshot need not be of one
   instant: `k` in `m..n` is when it saw this row, and other rows may have been seen
   earlier or later. The files need only hold each row's entries in log order.
   */
  lemma FuzzySnapshotRecovery(f: Foreign, l: LiveState, h: seq<LiveOp>, log: seq<Entry>,
                              m: nat, k: nat, n: nat, dir: Dir, seen: LiveState, name: Text, id: nat)
    requires LogOf(f, h, log) && UpdatesHitRows(l, h) && m <= k <= n <= |h|
    requires dir.snapshot.Some? && IsSnapshotOf(f, dir.snapshot.value, seen)
    requires LiveRow(seen, name, id) == LiveRow(LiveRun(l, h[..k]), name, id)
    requires Project(AllLogs(dir.files), 0, name, id) == Project(log[m..n], 0, name, id)
    ensures RowAt(Recovered(map[], dir), name, id) == NormState(f, LiveRow(LiveRun(l, h[..n]), name, id))
  {
    hide Project, UpdatesHitRows, LiveRun, R.Run, LoadTables, AllLogs, NormState, LiveRow, RowAt, R.StaleFree;
    var x, p := NormState(f, LiveRow(l, name, id)), Project(log, 0, name, id);
    UpdatesArePresent(f, l, h, log, name, id);
    R.PresentUpdatesAreStaleFree(x, p);
    ProjectPiece(log, 0, m, n, name, id);
    ProjectPiece(log, 0, k, n, name, id);
    ProjectPiece(log, 0, m, k, name, id);
    var i, j, o := |Project(log[..m], 0, name, id)|, |Project(log[..k], 0, name, id)|, |Project(log[..n], 0, name, id)|;
    R.FuzzyRecovery(x, p, i, j, o);
    LogFollowsHistory(f, l, h[..k], log[..k], name, id);
    LogFollowsHistory(f, l, h[..n], log[..n], name, id);
    ProjectPiece(log, 0, n, |log|, name, id);
    SnapshotRestores(f, dir.snapshot.value, seen, name, id);
    ReplayByRow(LoadTables(map[], SnapTables(dir)), AllLogs(dir.files), 0, name, id);
  }
}
