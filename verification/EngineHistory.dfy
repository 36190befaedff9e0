/**
 Where histories come from: runs of the table engine, with any schemas and unique columns,
 of which the server logs the writes that the engine accepted.
 */
module EngineHistory {
  import opened Types
  import opened JsonValues
  import opened Recovery
  import opened Durable
  import TableSpec
  import Rotation
  import R = RowReplay

  /** The unique columns and the validator of each table. */
  datatype Schemas = Schemas(unique: Text -> seq<Text>, valid: (Text, Values) -> bool)

  datatype EngineOp = EngineOp(table: Text, op: TableSpec.Op)

  ghost function TableStep(sc: Schemas, e: EngineState, op: EngineOp): (TableState, TableSpec.Outcome)
    requires op.table in e
  {
    TableSpec.Step(sc.unique(op.table), v => sc.valid(op.table, v), e[op.table], op.op)
  }

  /** One operation on the engine; without its table it fails and changes nothing. */
  ghost function EngineStep(sc: Schemas, e: EngineState, op: EngineOp): EngineState {
    if op.table in e then e[op.table := TableStep(sc, e, op).0] else e
  }

  ghost function EngineRun(sc: Schemas, e: EngineState, ops: seq<EngineOp>): EngineState
    decreases |ops|
  {
    if ops == [] then e else EngineStep(sc, EngineRun(sc, e, ops[..|ops| - 1]), ops[|ops| - 1])
  }

  /**
   What the server logs of an operation: accepted inserts under the id they were given,
   accepted updates with the whole row they led to, removals of rows that were there.
   */
  ghost function Logged(sc: Schemas, e: EngineState, op: EngineOp): seq<LiveOp> {
    if op.table !in e then [] else
    match (op.op, TableStep(sc, e, op).1)
    case (Insert(v), Stored(id)) => [LiveOp(Insert, op.table, id, v)]
    case (InsertUnchecked(v), Stored(id)) => [LiveOp(Insert, op.table, id, v)]
    case (Restore(_, v), Stored(id)) => [LiveOp(Insert, op.table, id, v)]
    case (Update(id, _), Row(row)) => [LiveOp(Update, op.table, id, row)]
    case (Take(id), Taken(Some(_))) => [LiveOp(Delete, op.table, id, map[])]
    case _ => []
  }

  ghost function History(sc: Schemas, e: EngineState, ops: seq<EngineOp>): seq<LiveOp>
    decreases |ops|
  {
    if ops == [] then [] else
    var init := ops[..|ops| - 1];
    History(sc, e, init) + Logged(sc, EngineRun(sc, e, init), ops[|ops| - 1])
  }

  /** Unique columns are unique and allocators are ahead, in every table. */
  ghost predicate AllSound(sc: Schemas, e: EngineState) {
    forall name :: name in e ==> TableSpec.Sound(sc.unique(name), e[name])
  }

  // ------------------------------------------------------- step by step

  /** What a logged write says of the state before it. */
  predicate FitsRow(l: LiveState, op: LiveOp) {
    && (op.kind.Insert? ==> LiveRow(l, op.table, op.id).None?)
    && (op.kind.Update? ==> LiveRow(l, op.table, op.id).Some?)
  }

  lemma StepKeepsAllSound(sc: Schemas, e: EngineState, op: EngineOp)
    requires AllSound(sc, e)
    ensures AllSound(sc, EngineStep(sc, e, op))
  {
    hide TableSpec.Step, TableSpec.Sound;
    if op.table in e {
      TableSpec.StepKeepsSound(sc.unique(op.table), v => sc.valid(op.table, v), e[op.table], op.op);
    }
  }

  /** The rows of one table after a step, by what was logged of it. */
  lemma TableStepIsLogged(sc: Schemas, e: EngineState, op: EngineOp)
    requires op.table in e && TableSpec.Ahead(e[op.table])
    ensures var rows, after, logged := e[op.table].rows, TableStep(sc, e, op).0.rows, Logged(sc, e, op);
      && |logged| <= 1
      && (logged == [] ==> after == rows)
      && (logged != [] ==>
            var w := logged[0];
            && w.table == op.table
            && match w.kind
               case Insert => w.id !in rows && after == rows[w.id := w.values]
               case Update => w.id in rows && after == rows[w.id := rows[w.id] + w.values]
               case Delete => w.id in rows && after == rows - {w.id}
               case _ => false)
  {
    hide TableSpec.Clash;
    var t := e[op.table];
    match op.op
    case Update(id, v) => if id in t.rows { MergeAgain(t.rows[id], v); }
    case _ =>
  }

  lemma MergeAgain(row: Values, v: Values)
    ensures row + (row + v) == row + v
  {
  }

  lemma StepIsLogged(sc: Schemas, e: EngineState, op: EngineOp)
    requires AllSound(sc, e)
    ensures var logged, l := Logged(sc, e, op), Rotation.RowsOf(e);
      && |logged| <= 1 && (logged != [] ==> FitsRow(l, logged[0]))
      && Rotation.RowsOf(EngineStep(sc, e, op)) == if logged == [] then l else LiveStep(l, logged[0])
  {
    if op.table in e {
      assert TableSpec.Sound(sc.unique(op.table), e[op.table]);
      TableStepIsLogged(sc, e, op);
      hide Logged, TableStep;
    }
  }

  // ------------------------------------------------------------ whole runs

  lemma LiveRunMore(l: LiveState, h: seq<LiveOp>, more: seq<LiveOp>)
    requires |more| <= 1
    ensures LiveRun(l, h + more) == if more == [] then LiveRun(l, h) else LiveStep(LiveRun(l, h), more[0])
  {
    if more == [] {
      assert h + more == h;
    } else {
      assert (h + more)[..|h|] == h;
    }
  }

  lemma FitsMore(l: LiveState, h: seq<LiveOp>, more: seq<LiveOp>)
    requires UpdatesHitRows(l, h) && InsertsAreNew(l, h) && |more| <= 1
    requires more != [] ==> FitsRow(LiveRun(l, h), more[0])
    ensures UpdatesHitRows(l, h + more) && InsertsAreNew(l, h + more)
  {
    hide LiveRun;
    forall i | 0 <= i < |h + more| ensures FitsRow(LiveRun(l, (h + more)[..i]), (h + more)[i]) {
      assert (h + more)[..i] == if i < |h| then h[..i] else h;
    }
  }

  /**
   Every run of the engine, with any schemas and unique columns, gives a history whose
   updates hit rows and whose inserts are new, and whose live state is the engine's rows.
   */
  lemma {:induction false} EngineRunsAreHistories(sc: Schemas, e: EngineState, ops: seq<EngineOp>)
    requires AllSound(sc, e)
    ensures AllSound(sc, EngineRun(sc, e, ops))
    ensures LiveRun(Rotation.RowsOf(e), History(sc, e, ops)) == Rotation.RowsOf(EngineRun(sc, e, ops))
    ensures UpdatesHitRows(Rotation.RowsOf(e), History(sc, e, ops))
            && InsertsAreNew(Rotation.RowsOf(e), History(sc, e, ops))
    decreases |ops|
  {
    hide EngineStep, Logged, LiveStep, AllSound, FitsRow;
    if ops != [] {
      var init, op := ops[..|ops| - 1], ops[|ops| - 1];
      EngineRunsAreHistories(sc, e, init);
      var mid := EngineRun(sc, e, init);
      StepIsLogged(sc, mid, op);
      StepKeepsAllSound(sc, mid, op);
      LiveRunMore(Rotation.RowsOf(e), History(sc, e, init), Logged(sc, mid, op));
      FitsMore(Rotation.RowsOf(e), History(sc, e, init), Logged(sc, mid, op));
    }
  }

  /** The history of a part of a run is the front of the history of the whole. */
  lemma {:induction false} HistoryOfPart(sc: Schemas, e: EngineState, ops: seq<EngineOp>, a: nat)
    requires a <= |ops|
    ensures History(sc, e, ops[..a]) <= History(sc, e, ops)
    decreases |ops|
  {
    if a < |ops| {
      var init := ops[..|ops| - 1];
      HistoryOfPart(sc, e, init, a);
      assert init[..a] == ops[..a];
    } else {
      assert ops[..a] == ops;
    }
  }

  /** The history up to a point of the run leads to the engine's rows at that point. */
  lemma HistoryAt(sc: Schemas, e: EngineState, ops: seq<EngineOp>, a: nat)
    requires AllSound(sc, e) && a <= |ops|
    ensures var h, k := History(sc, e, ops), |History(sc, e, ops[..a])|;
      k <= |h| && LiveRun(Rotation.RowsOf(e), h[..k]) == Rotation.RowsOf(EngineRun(sc, e, ops[..a]))
  {
    hide *;
    HistoryOfPart(sc, e, ops, a);
    EngineRunsAreHistories(sc, e, ops[..a]);
    assert History(sc, e, ops)[..|History(sc, e, ops[..a])|] == History(sc, e, ops[..a]);
  }

  lemma RowsAsLive(e: EngineState, name: Text, id: nat)
    ensures LiveRow(Rotation.RowsOf(e), name, id) == RowAt(e, name, id)
  {
  }

  lemma LogIsAsLong(f: Foreign, h: seq<LiveOp>, log: seq<Entry>)
    requires LogOf(f, h, log)
    ensures |log| == |h|
  {
  }

  /**
   Fuzzy-snapshot recovery of the engine. After any run, a snapshot that saw the row at
   some point `a` of it, and files holding the row's log from no later than that up to a
   point `b`, recover the row as the engine had it at `b`, up to the JSON trip.
   */
  lemma EngineRecovers(f: Foreign, sc: Schemas, e: EngineState, ops: seq<EngineOp>, log: seq<Entry>,
                       m: nat, a: nat, b: nat, dir: Dir, seen: LiveState, name: Text, id: nat)
    requires AllSound(sc, e) && a <= b <= |ops| && LogOf(f, History(sc, e, ops), log)
    requires m <= |History(sc, e, ops[..a])|
    requires dir.snapshot.Some? && IsSnapshotOf(f, dir.snapshot.value, seen)
    requires LiveRow(seen, name, id) == RowAt(EngineRun(sc, e, ops[..a]), name, id)
    requires m <= |History(sc, e, ops[..b])| <= |log|
    requires Project(AllLogs(dir.files), 0, name, id) == Project(log[m..|History(sc, e, ops[..b])|], 0, name, id)
    ensures RowAt(Recovered(map[], dir), name, id) == NormState(f, RowAt(EngineRun(sc, e, ops[..b]), name, id))
  {
    hide *;
    var l, h := Rotation.RowsOf(e), History(sc, e, ops);
    var k, n := |History(sc, e, ops[..a])|, |History(sc, e, ops[..b])|;
    EngineRunsAreHistories(sc, e, ops);
    HistoryAt(sc, e, ops, a);
    HistoryAt(sc, e, ops, b);
    HistoryOfPart(sc, e, ops[..b], a);
    assert ops[..b][..a] == ops[..a];
    RowsAsLive(EngineRun(sc, e, ops[..a]), name, id);
    RowsAsLive(EngineRun(sc, e, ops[..b]), name, id);
    LogIsAsLong(f, h, log);
    FuzzySnapshotRecovery(f, l, h, log, m, k, n, dir, seen, name, id);
  }

  /** The files of an engine, holding any stretch of its log, are what the rotation theorems ask for. */
  lemma EngineLogsAreClean(f: Foreign, sc: Schemas, e: EngineState, ops: seq<EngineOp>, log: seq<Entry>, m: nat, n: nat,
                           dir: Dir, base: EngineState, name: Text, id: nat)
    requires AllSound(sc, e) && LogOf(f, History(sc, e, ops), log) && m <= n <= |log|
    requires Project(AllLogs(dir.files), 0, name, id) == Project(log[m..n], 0, name, id)
    ensures Rotation.RowLogIsClean(dir, base, name, id)
  {
    hide *;
    EngineRunsAreHistories(sc, e, ops);
    Rotation.AcceptedHistoryIsClean(f, Rotation.RowsOf(e), History(sc, e, ops), log, m, n, dir, base, name, id);
  }

  // ---------------------------------------------------------- row by row

  /** What a history does to one row. */
  function RowHistory(h: seq<LiveOp>, name: Text, id: nat): seq<R.RowOp>
    decreases |h|
  {
    if h == [] then [] else RowHistory(h[..|h| - 1], name, id) + LiveRowOps(h[|h| - 1], name, id)
  }

  lemma {:induction false} RowHistoryRuns(l: LiveState, h: seq<LiveOp>, name: Text, id: nat)
    ensures R.Run(LiveRow(l, name, id), RowHistory(h, name, id)) == LiveRow(LiveRun(l, h), name, id)
    decreases |h|
  {
    if h != [] {
      hide LiveStep, LiveRowOps, LiveRow;
      var init, op := h[..|h| - 1], h[|h| - 1];
      RowHistoryRuns(l, init, name, id);
      LiveStepOnRow(LiveRun(l, init), op, name, id);
      R.RunAppend(LiveRow(l, name, id), RowHistory(init, name, id), LiveRowOps(op, name, id));
    }
  }

  /** Row by row: inserts find the row missing and updates find it there. */
  lemma {:induction false} HistoryIsAccepted(l: LiveState, h: seq<LiveOp>, name: Text, id: nat)
    requires UpdatesHitRows(l, h) && InsertsAreNew(l, h)
    ensures R.Accepted(LiveRow(l, name, id), RowHistory(h, name, id))
    decreases |h|
  {
    if h != [] {
      var init, op := h[..|h| - 1], h[|h| - 1];
      assert forall i :: 0 <= i < |init| ==> init[..i] == h[..i];
      HistoryIsAccepted(l, init, name, id);
      RowHistoryRuns(l, init, name, id);
      var x, p, more := LiveRow(l, name, id), RowHistory(init, name, id), LiveRowOps(op, name, id);
      assert h[..|h| - 1] == init;
      assert more != [] && more[0].Ins? ==> R.Run(x, p).None?;
      assert more != [] && more[0].Upd? ==> R.Run(x, p).Some?;
      hide LiveRun, LiveRowOps, RowHistory, LiveRow, R.Run;
      forall i | 0 <= i < |p + more|
        ensures ((p + more)[i].Ins? ==> R.Run(x, (p + more)[..i]).None?)
                && ((p + more)[i].Upd? ==> R.Run(x, (p + more)[..i]).Some?)
      {
        assert (p + more)[..i] == if i < |p| then p[..i] else p;
      }
    }
  }

  /** So every row of every run of the engine has an accepted, and thus orderly, history. */
  lemma EngineRowsAreOrderly(sc: Schemas, e: EngineState, ops: seq<EngineOp>, name: Text, id: nat)
    requires AllSound(sc, e)
    ensures R.Accepted(RowAt(e, name, id), RowHistory(History(sc, e, ops), name, id))
    ensures R.Orderly(RowHistory(History(sc, e, ops), name, id))
  {
    hide EngineRun, RowHistory, R.Accepted, R.Orderly, AllSound, History, UpdatesHitRows, InsertsAreNew;
    EngineRunsAreHistories(sc, e, ops);
    HistoryIsAccepted(Rotation.RowsOf(e), History(sc, e, ops), name, id);
    R.AcceptedIsOrderly(RowAt(e, name, id), RowHistory(History(sc, e, ops), name, id));
  }
}
