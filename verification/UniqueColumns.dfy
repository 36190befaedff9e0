/**
 Why recovery must run on tables without unique columns: with one, an old update can
 be refused during the replay because the snapshot already holds a later owner of the
 value, and whatever else that update carried is lost.
 */
module UniqueColumns {
  import opened Types
  import opened TableSpec
  import R = RowReplay
  import D = Durable

  const ANY: Values -> bool := _ => true

  /** Every operation of the run was accepted. */
  ghost predicate AllAccepted(cols: seq<Text>, t: TableState, ops: seq<Op>) {
    forall i :: 0 <= i < |ops| ==> !Step(cols, ANY, Run(cols, ANY, t, ops[..i]), ops[i]).1.Failed?
  }

  /** Logged operations: inserts carry the id they were given. */
  predicate Logged(ops: seq<Op>) {
    forall i :: 0 <= i < |ops| ==> ops[i].Restore? || ops[i].Update? || ops[i].Take?
  }

  /** Replaying any final part of an accepted log over its own result gives the result back. */
  ghost predicate ReplayIsSafe(cols: seq<Text>) {
    forall t: TableState, ops: seq<Op>, m: nat ::
      Sound(cols, t) && Logged(ops) && AllAccepted(cols, t, ops) && m <= |ops| ==>
        Run(cols, ANY, Run(cols, ANY, t, ops), ops[m..]).rows == Run(cols, ANY, t, ops).rows
  }

  function RowOf(rows: map<nat, Values>, id: nat): R.RowState {
    if id in rows then Some(rows[id]) else None
  }

  function OpsOn(op: Op, id: nat): seq<R.RowOp> {
    match op
    case Restore(i, v) => if i == id then [R.Ins(v)] else []
    case Update(i, v) => if i == id then [R.Upd(v)] else []
    case Take(i) => if i == id then [R.Del] else []
    case _ => []
  }

  function Project(ops: seq<Op>, id: nat): seq<R.RowOp>
    decreases |ops|
  {
    if ops == [] then [] else Project(ops[..|ops| - 1], id) + OpsOn(ops[|ops| - 1], id)
  }

  lemma {:induction false} ProjectAppend(a: seq<Op>, b: seq<Op>, id: nat)
    ensures Project(a + b, id) == Project(a, id) + Project(b, id)
    decreases |b|
  {
    if b == [] {
      assert a + b == a;
    } else {
      var b', last := b[..|b| - 1], b[|b| - 1];
      assert (a + b)[..|a + b| - 1] == a + b' && (a + b)[|a + b| - 1] == last;
      ProjectAppend(a, b', id);
      hide OpsOn;
    }
  }

  /** An operation that is not an overflowing restore acts on its own row only. */
  lemma StepOnRow(t: TableState, op: Op, id: nat)
    requires op.Restore? || op.Update? || op.Take?
    requires op.Restore? ==> op.id < MAX_ID
    ensures RowOf(Step([], ANY, t, op).0.rows, id) == R.Run(RowOf(t.rows, id), OpsOn(op, id))
  {
    if OpsOn(op, id) != [] { D.RunOne(RowOf(t.rows, id), OpsOn(op, id)[0]); }
  }

  lemma {:induction false} RunOnRow(t: TableState, ops: seq<Op>, id: nat)
    requires Logged(ops) && forall i :: 0 <= i < |ops| && ops[i].Restore? ==> ops[i].id < MAX_ID
    ensures RowOf(Run([], ANY, t, ops).rows, id) == R.Run(RowOf(t.rows, id), Project(ops, id))
    decreases |ops|
  {
    if ops != [] {
      var init, last := ops[..|ops| - 1], ops[|ops| - 1];
      RunOnRow(t, init, id);
      StepOnRow(Run([], ANY, t, init), last, id);
      R.RunAppend(RowOf(t.rows, id), Project(init, id), OpsOn(last, id));
      hide Step, OpsOn, R.Run;
    }
  }

  /** An accepted restore is of a small enough id, an accepted update of a present row. */
  lemma AcceptedStep(t: TableState, op: Op)
    requires Ahead(t) && !Step([], ANY, t, op).1.Failed?
    ensures Ahead(Step([], ANY, t, op).0)
    ensures op.Restore? ==> op.id < MAX_ID
    ensures op.Update? ==> op.id in t.rows
  {
  }

  lemma {:induction false} AcceptedRun(t: TableState, ops: seq<Op>)
    requires Ahead(t) && AllAccepted([], t, ops)
    ensures Ahead(Run([], ANY, t, ops))
    ensures forall i :: 0 <= i < |ops| && ops[i].Restore? ==> ops[i].id < MAX_ID
    decreases |ops|
  {
    hide Step;
    if ops != [] {
      var init := ops[..|ops| - 1];
      assert forall i :: 0 <= i < |init| ==> init[..i] == ops[..i] && init[i] == ops[i];
      AcceptedRun(t, init);
      AcceptedStep(Run([], ANY, t, init), ops[|ops| - 1]);
    }
  }

  /** Accepted updates hit present rows. */
  lemma {:induction false} AcceptedProjection(t: TableState, ops: seq<Op>, id: nat)
    requires Ahead(t) && Logged(ops) && AllAccepted([], t, ops)
    ensures D.PresentUpdates(RowOf(t.rows, id), Project(ops, id))
    decreases |ops|
  {
    hide Step, D.PresentUpdates;
    if ops != [] {
      var init, last := ops[..|ops| - 1], ops[|ops| - 1];
      assert forall i :: 0 <= i < |init| ==> init[..i] == ops[..i] && init[i] == ops[i];
      AcceptedProjection(t, init, id);
      AcceptedRun(t, init);
      RunOnRow(t, init, id);
      AcceptedStep(Run([], ANY, t, init), last);
      if OpsOn(last, id) == [] {
        assert Project(init, id) + [] == Project(init, id);
      } else {
        AppendPresent(RowOf(t.rows, id), Project(init, id), OpsOn(last, id)[0]);
      }
    } else {
      NothingToUpdate(RowOf(t.rows, id));
    }
  }

  lemma NothingToUpdate(x: R.RowState)
    ensures D.PresentUpdates(x, [])
  {
  }

  lemma AppendPresent(x: R.RowState, p: seq<R.RowOp>, op: R.RowOp)
    requires D.PresentUpdates(x, p) && (op.Upd? ==> R.Run(x, p).Some?)
    ensures D.PresentUpdates(x, p + [op])
  {
    forall i | 0 <= i < |p + [op]| && (p + [op])[i].Upd? ensures R.Run(x, (p + [op])[..i]).Some? {
      if i < |p| { assert (p + [op])[..i] == p[..i]; } else { assert (p + [op])[..i] == p; }
    }
  }

  lemma ProjectionIsStaleFree(t: TableState, ops: seq<Op>, id: nat)
    requires Ahead(t) && Logged(ops) && AllAccepted([], t, ops)
    ensures R.StaleFree(RowOf(t.rows, id), Project(ops, id))
  {
    AcceptedProjection(t, ops, id);
    R.PresentUpdatesAreStaleFree(RowOf(t.rows, id), Project(ops, id));
  }

  lemma PlainTablesReplaySafely(t: TableState, ops: seq<Op>, m: nat)
    requires Sound([], t) && Logged(ops) && AllAccepted([], t, ops) && m <= |ops|
    ensures Run([], ANY, Run([], ANY, t, ops), ops[m..]).rows == Run([], ANY, t, ops).rows
  {
    hide Run, R.Run, Step, R.StaleFree, D.PresentUpdates, Project;
    var final := Run([], ANY, t, ops);
    AcceptedRun(t, ops);
    forall id: nat ensures RowOf(Run([], ANY, final, ops[m..]).rows, id) == RowOf(final.rows, id) {
      ProjectionIsStaleFree(t, ops, id);
      RunOnRow(t, ops, id);
      RunOnRow(final, ops[m..], id);
      var x, p := RowOf(t.rows, id), Project(ops, id);
      assert ops == ops[..m] + ops[m..];
      ProjectAppend(ops[..m], ops[m..], id);
      var j := |Project(ops[..m], id)|;
      assert p[j..|p|] == Project(ops[m..], id) && p[..|p|] == p;
      R.ReplayAgain(x, p, j, |p|);
    }
    SameRows(Run([], ANY, final, ops[m..]).rows, final.rows);
  }

  lemma SameRows(a: map<nat, Values>, b: map<nat, Values>)
    requires forall id: nat :: RowOf(a, id) == RowOf(b, id)
    ensures a == b
  {
    forall id: nat ensures id in a <==> id in b { assert RowOf(a, id) == RowOf(b, id); }
    forall id: nat | id in a ensures a[id] == b[id] { assert RowOf(a, id) == RowOf(b, id); }
  }

  // ------------------------------------------------- the losing history

  function Longest(cols: seq<Text>): nat {
    if cols == [] then 0 else
    var rest := Longest(cols[1..]);
    if |cols[0]| > rest then |cols[0]| else rest
  }

  lemma {:induction false} NoColumnIsLonger(cols: seq<Text>, c: Text)
    requires c in cols
    ensures |c| <= Longest(cols)
  {
    if c != cols[0] { NoColumnIsLonger(cols[1..], c); }
  }

  /** A column name that is not among the unique ones. */
  function PlainName(cols: seq<Text>): (x: Text)
    ensures x !in cols
  {
    var x := seq(Longest(cols) + 1, _ => 0);
    assert x !in cols by { if x in cols { NoColumnIsLonger(cols, x); } }
    x
  }

  /** An update of one row, judged by hand: no other row holds its values in a unique column. */
  lemma UpdateGoesThrough(cols: seq<Text>, t: TableState, id: nat, values: Values)
    requires id in t.rows
    requires forall col, other: nat :: col in cols && col in values && Holds(t.rows, other, col, values[col]) ==>
             other == id
    ensures Step(cols, ANY, t, Update(id, values))
            == (t.(rows := t.rows[id := t.rows[id] + values]), Row(t.rows[id] + values))
  {
  }

  function Losing(c: Text, x: Text): seq<Op> {
    [Update(1, map[x := Int64(1)]), Update(1, map[c := Int64(5), x := Int64(2)]),
     Update(1, map[c := Int64(3)]), Update(2, map[c := Int64(5)])]
  }

  lemma RunFour(cols: seq<Text>, t: TableState, ops: seq<Op>)
    requires |ops| == 4
    ensures var t1 := Step(cols, ANY, t, ops[0]).0; var t2 := Step(cols, ANY, t1, ops[1]).0;
            var t3 := Step(cols, ANY, t2, ops[2]).0;
            && Run(cols, ANY, t, ops[..0]) == t && Run(cols, ANY, t, ops[..1]) == t1
              && Run(cols, ANY, t, ops[..2]) == t2
            && Run(cols, ANY, t, ops[..3]) == t3 && Run(cols, ANY, t, ops) == Step(cols, ANY, t3, ops[3]).0
  {
    hide Step;
    assert ops[..1][..0] == ops[..0] == [] && ops[..2][..1] == ops[..1] && ops[..3][..2] == ops[..2];
  }

  /** Two rows with values `a` and `b` of column `c`, and `n` of column `x` in the first. */
  function TwoRows(c: Text, x: Text, a: I64, b: I64, n: I64): TableState {
    TableState(map[1 := map[c := Int64(a), x := Int64(n)], 2 := map[c := Int64(b)]], 3)
  }

  /** `values` writes `c` or `x` of row `id` and turns the pair (a, b), n into (a', b'), n'. */
  predicate Writes(c: Text, x: Text, a: I64, b: I64, n: I64, id: nat, values: Values, a': I64, b': I64, n': I64) {
    if id == 1 then
      b' == b && (|| (values == map[x := Int64(n')] && a' == a)
                  || (values == map[c := Int64(a')] && n' == n)
                  || values == map[c := Int64(a'), x := Int64(n')])
    else id == 2 && a' == a && n' == n && values == map[c := Int64(b')]
  }

  lemma WrittenRows(c: Text, x: Text, a: I64, b: I64, n: I64, id: nat, values: Values, a': I64, b': I64, n': I64)
    requires c != x && Writes(c, x, a, b, n, id, values, a', b', n')
    ensures var rows := TwoRows(c, x, a, b, n).rows;
            id in rows && rows[id := rows[id] + values] == TwoRows(c, x, a', b', n').rows
  {
    var rows := TwoRows(c, x, a, b, n).rows;
    if id == 1 {
      assert rows[1] + values == map[c := Int64(a'), x := Int64(n')];
    } else {
      assert rows[2] + values == map[c := Int64(b')];
    }
  }

  lemma NoOtherOwner(cols: seq<Text>, c: Text, x: Text, a: I64, b: I64, n: I64, id: nat, values: Values, a': I64,
                     b': I64, n': I64)
    requires c in cols && x !in cols && Writes(c, x, a, b, n, id, values, a', b', n') && a' != b'
    ensures forall col, other: nat ::
      col in cols && col in values && Holds(TwoRows(c, x, a, b, n).rows, other, col, values[col]) ==> other == id
  {
  }

  /** What an accepted update of column `c` or `x` makes of a two-row table. */
  lemma TwoRowUpdate(cols: seq<Text>, c: Text, x: Text, a: I64, b: I64, n: I64, id: nat, values: Values, a': I64,
                     b': I64, n': I64)
    requires c in cols && x !in cols && Writes(c, x, a, b, n, id, values, a', b', n') && a' != b'
    ensures Step(cols, ANY, TwoRows(c, x, a, b, n), Update(id, values)).0 == TwoRows(c, x, a', b', n')
    ensures !Step(cols, ANY, TwoRows(c, x, a, b, n), Update(id, values)).1.Failed?
  {
    hide Step, Holds, Writes;
    NoOtherOwner(cols, c, x, a, b, n, id, values, a', b', n');
    WrittenRows(c, x, a, b, n, id, values, a', b', n');
    UpdateGoesThrough(cols, TwoRows(c, x, a, b, n), id, values);
  }

  /** The losing history is accepted, step by step. */
  lemma LosingHistoryAccepted(cols: seq<Text>, c: Text, x: Text)
    requires c in cols && x !in cols
    ensures AllAccepted(cols, TwoRows(c, x, 3, 4, 0), Losing(c, x))
    ensures Run(cols, ANY, TwoRows(c, x, 3, 4, 0), Losing(c, x)) == TwoRows(c, x, 3, 5, 2)
  {
    hide Step, Run, TwoRows;
    var t, ops := TwoRows(c, x, 3, 4, 0), Losing(c, x);
    TwoRowUpdate(cols, c, x, 3, 4, 0, 1, map[x := Int64(1)], 3, 4, 1);
    TwoRowUpdate(cols, c, x, 3, 4, 1, 1, map[c := Int64(5), x := Int64(2)], 5, 4, 2);
    TwoRowUpdate(cols, c, x, 5, 4, 2, 1, map[c := Int64(3)], 3, 4, 2);
    TwoRowUpdate(cols, c, x, 3, 4, 2, 2, map[c := Int64(5)], 3, 5, 2);
    RunFour(cols, t, ops);
    forall i | 0 <= i < |ops| ensures !Step(cols, ANY, Run(cols, ANY, t, ops[..i]), ops[i]).1.Failed? {
      if i == 0 { } else if i == 1 { } else if i == 2 { } else { assert i == 3; }
    }
  }

  /** The update that the replay refuses: row 2 owns the value by now. */
  lemma OldUpdateRefused(cols: seq<Text>, c: Text, x: Text)
    requires c in cols && x !in cols
    ensures Step(cols, ANY, TwoRows(c, x, 3, 5, 1), Update(1, map[c := Int64(5), x := Int64(2)])).0
            == TwoRows(c, x, 3, 5, 1)
  {
    var values := map[c := Int64(5), x := Int64(2)];
    assert Holds(TwoRows(c, x, 3, 5, 1).rows, 2, c, values[c]) && Some(2) != Some(1);
  }

  /** Replaying the losing history over its own result loses a write. */
  lemma LosingHistoryLoses(cols: seq<Text>, c: Text, x: Text)
    requires c in cols && x !in cols
    ensures Run(cols, ANY, TwoRows(c, x, 3, 5, 2), Losing(c, x)) == TwoRows(c, x, 3, 5, 1)
  {
    hide Step, Run, TwoRows;
    TwoRowUpdate(cols, c, x, 3, 5, 2, 1, map[x := Int64(1)], 3, 5, 1);
    OldUpdateRefused(cols, c, x);
    TwoRowUpdate(cols, c, x, 3, 5, 1, 1, map[c := Int64(3)], 3, 5, 1);
    TwoRowUpdate(cols, c, x, 3, 5, 1, 2, map[c := Int64(5)], 3, 5, 1);
    RunFour(cols, TwoRows(c, x, 3, 5, 2), Losing(c, x));
  }

  /**
   Recovery by replay is right for every accepted history exactly on the tables that
   have no unique columns.
   */
  lemma ReplaySafeIffNoUniqueColumns(cols: seq<Text>)
    ensures ReplayIsSafe(cols) <==> cols == []
  {
    if cols == [] {
      forall t: TableState, ops: seq<Op>, m: nat
        | Sound(cols, t) && Logged(ops) && AllAccepted(cols, t, ops) && m <= |ops|
        ensures Run(cols, ANY, Run(cols, ANY, t, ops), ops[m..]).rows == Run(cols, ANY, t, ops).rows
      {
        PlainTablesReplaySafely(t, ops, m);
      }
    } else {
      var c, x := cols[0], PlainName(cols);
      var t, ops := TwoRows(c, x, 3, 4, 0), Losing(c, x);
      LosingHistoryAccepted(cols, c, x);
      LosingHistoryLoses(cols, c, x);
      TwoRowsSound(cols, c, x);
      var whole := ops[0..];
      assert whole == ops;
      TwoRowsDiffer(c, x);
      assert ReplayIsSafe(cols) ==> Run(cols, ANY, Run(cols, ANY, t, ops), whole).rows == Run(cols, ANY, t, ops).rows;
    }
  }

  lemma TwoRowsSound(cols: seq<Text>, c: Text, x: Text)
    requires c in cols && x !in cols
    ensures Sound(cols, TwoRows(c, x, 3, 4, 0)) && Logged(Losing(c, x))
  {
  }

  lemma TwoRowsDiffer(c: Text, x: Text)
    requires c != x
    ensures TwoRows(c, x, 3, 5, 1).rows != TwoRows(c, x, 3, 5, 2).rows
  {
    assert TwoRows(c, x, 3, 5, 1).rows[1][x] == Int64(1);
    assert TwoRows(c, x, 3, 5, 2).rows[1][x] == Int64(2);
  }
}
