/**
 Replaying one row's log over a state that already contains part of it.

 The program loads a snapshot taken somewhere in the middle of the log and then
 replays the log from an earlier point: old inserts are refused as duplicates, old
 updates are merged again, updates of missing rows are ignored.
 */
module RowReplay {
  import opened Types
  import opened JsonValues

  datatype RowOp = Ins(values: Values) | Upd(values: Values) | Del

  type RowState = Option<Values>

  function Apply(x: RowState, op: RowOp): RowState {
    match op
    case Ins(v) => if x.None? then Some(v) else x
    case Upd(u) => if x.None? then None else Some(x.value + u)
    case Del => None
  }

  function Run(x: RowState, ops: seq<RowOp>): RowState
    decreases |ops|
  {
    if ops == [] then x else Apply(Run(x, ops[..|ops| - 1]), ops[|ops| - 1])
  }

  /** All updates of a stretch, merged in order. */
  function Merged(ops: seq<RowOp>): Values
    decreases |ops|
  {
    if ops == [] then map[] else
    var last := ops[|ops| - 1];
    Merged(ops[..|ops| - 1]) + (if last.Upd? then last.values else map[])
  }

  lemma {:induction false} RunAppend(x: RowState, a: seq<RowOp>, b: seq<RowOp>)
    ensures Run(x, a + b) == Run(Run(x, a), b)
    decreases |b|
  {
    if b == [] {
      assert a + b == a;
    } else {
      var b' := b[..|b| - 1];
      assert (a + b)[..|a + b| - 1] == a + b';
      RunAppend(x, a, b');
    }
  }

  lemma MapAssoc<K, V>(a: map<K, V>, b: map<K, V>, c: map<K, V>)
    ensures a + b + c == a + (b + c)
  {
  }

  lemma MapUnit<K, V>(a: map<K, V>)
    ensures a + map[] == a && map[] + a == a
  {
  }

  lemma {:induction false} MergedAppend(a: seq<RowOp>, b: seq<RowOp>)
    ensures Merged(a + b) == Merged(a) + Merged(b)
    decreases |b|
  {
    if b == [] {
      assert a + b == a;
      MapUnit(Merged(a));
    } else {
      var b', last := b[..|b| - 1], b[|b| - 1];
      assert (a + b)[..|a + b| - 1] == a + b' && (a + b)[|a + b| - 1] == last;
      MergedAppend(a, b');
      MapAssoc(Merged(a), Merged(b'), if last.Upd? then last.values else map[]);
    }
  }

  /** On a present row, a stretch without deletes only merges its updates. */
  lemma {:induction false} RunPresent(y: Values, ops: seq<RowOp>)
    requires forall i :: 0 <= i < |ops| ==> !ops[i].Del?
    ensures Run(Some(y), ops) == Some(y + Merged(ops))
    decreases |ops|
  {
    if ops == [] {
      MapUnit(y);
    } else {
      var last := ops[|ops| - 1];
      RunPresent(y, ops[..|ops| - 1]);
      MapAssoc(y, Merged(ops[..|ops| - 1]), if last.Upd? then last.values else map[]);
      MapUnit(y + Merged(ops[..|ops| - 1]));
    }
  }

  /** On an absent row, a stretch without inserts does nothing. */
  lemma {:induction false} RunAbsent(ops: seq<RowOp>)
    requires forall i :: 0 <= i < |ops| ==> !ops[i].Ins?
    ensures Run(None, ops) == None
    decreases |ops|
  {
    if ops != [] { RunAbsent(ops[..|ops| - 1]); }
  }

  /** After a delete it no longer matters where the replay started. */
  lemma DeleteForgets(x: RowState, y: RowState, ops: seq<RowOp>, d: nat)
    requires d < |ops| && ops[d].Del?
    ensures Run(x, ops) == Run(y, ops)
  {
    assert ops == ops[..d + 1] + ops[d + 1..];
    RunAppend(x, ops[..d + 1], ops[d + 1..]);
    RunAppend(y, ops[..d + 1], ops[d + 1..]);
    assert ops[..d + 1][..d] == ops[..d];
  }

  /**
   Updates that found the row missing, with nothing but updates up to the insert at
   `j`, agree with the values inserted there.
   */
  predicate StaleAgrees(x: RowState, ops: seq<RowOp>, i: nat, j: nat)
    requires i <= j < |ops|
  {
    (Run(x, ops[..i]).None? && (forall l :: i <= l < j ==> ops[l].Upd?) && ops[j].Ins?)
    ==> ops[j].values + Merged(ops[i..j]) == ops[j].values
  }

  predicate StaleFree(x: RowState, ops: seq<RowOp>) {
    forall i: nat, j: nat :: i <= j < |ops| ==> StaleAgrees(x, ops, i, j)
  }

  /** Recovery from a snapshot after `k` entries, replaying entries `m..n`, ends where the log does. */
  predicate RecoversAt(x: RowState, ops: seq<RowOp>, m: nat, k: nat, n: nat)
    requires m <= k <= n <= |ops|
  {
    Run(Run(x, ops[..k]), ops[m..n]) == Run(x, ops[..n])
  }

  /** An insert directly after an update of the same row never happens in a log of accepted writes. */
  predicate Orderly(ops: seq<RowOp>) {
    forall j :: 0 < j < |ops| && ops[j].Ins? ==> !ops[j - 1].Upd?
  }

  /** Every insert found the row absent and every update found it present. */
  predicate Accepted(x: RowState, ops: seq<RowOp>) {
    forall i :: 0 <= i < |ops| ==>
      (ops[i].Ins? ==> Run(x, ops[..i]).None?) && (ops[i].Upd? ==> Run(x, ops[..i]).Some?)
  }

  lemma AcceptedIsOrderly(x: RowState, ops: seq<RowOp>)
    requires Accepted(x, ops)
    ensures Orderly(ops)
  {
    forall j | 0 < j < |ops| && ops[j].Ins? ensures !ops[j - 1].Upd? {
      assert ops[..j][..j - 1] == ops[..j - 1];
    }
  }

  /** Orderly logs are safe whatever state they are replayed over. */
  lemma OrderlyIsStaleFree(x: RowState, ops: seq<RowOp>)
    requires Orderly(ops)
    ensures StaleFree(x, ops)
  {
    forall i: nat, j: nat | i <= j < |ops| ensures StaleAgrees(x, ops, i, j) {
      if i == j { assert ops[j].Ins? ==> ops[j].values + map[] == ops[j].values; }
    }
  }

  /** Updates that hit present rows are safe, even when inserts are repeated. */
  lemma PresentUpdatesAreStaleFree(x: RowState, ops: seq<RowOp>)
    requires forall i :: 0 <= i < |ops| && ops[i].Upd? ==> Run(x, ops[..i]).Some?
    ensures StaleFree(x, ops)
  {
    forall i: nat, j: nat | i <= j < |ops| ensures StaleAgrees(x, ops, i, j) {
      if i == j && ops[j].Ins? { assert ops[j].values + map[] == ops[j].values; }
    }
  }

  /** The first insert of a stretch, when it comes after updates only. */
  lemma {:induction false} FirstInsert(ops: seq<RowOp>) returns (j: nat)
    requires exists i :: 0 <= i < |ops| && ops[i].Ins?
    requires forall i :: 0 <= i < |ops| ==> !ops[i].Del?
    ensures j < |ops| && ops[j].Ins? && forall l :: 0 <= l < j ==> ops[l].Upd?
  {
    j := 0;
    while !ops[j].Ins?
      invariant j < |ops| && (forall l :: 0 <= l < j ==> ops[l].Upd?)
      invariant exists i :: j <= i < |ops| && ops[i].Ins?
      decreases |ops| - j
    {
      j := j + 1;
    }
  }

  /** Replaying a stretch over its own result changes nothing. */
  lemma ReplayAgain(x: RowState, ops: seq<RowOp>, m: nat, k: nat)
    requires m <= k <= |ops| && StaleFree(x, ops)
    ensures Run(Run(x, ops[..k]), ops[m..k]) == Run(x, ops[..k])
  {
    var xm, a := Run(x, ops[..m]), ops[m..k];
    assert ops[..k] == ops[..m] + a;
    RunAppend(x, ops[..m], a);
    var y := Run(xm, a);
    if d: nat :| d < |a| && a[d].Del? {
      DeleteForgets(y, xm, a, d);
    } else if xm.Some? {
      RunPresent(xm.value, a);
      RunPresent(y.value, a);
      MergeTwice(xm.value, Merged(a));
    } else if exists i :: 0 <= i < |a| && a[i].Ins? {
      StretchAgain(x, ops, m, k);
    } else {
      RunAbsent(a);
    }
  }

  lemma MergeTwice(y: Values, u: Values)
    ensures y + u + u == y + u
  {
  }

  lemma StretchAgain(x: RowState, ops: seq<RowOp>, m: nat, k: nat)
    requires m <= k <= |ops| && StaleFree(x, ops) && Run(x, ops[..m]).None?
    requires forall i :: 0 <= i < |ops[m..k]| ==> !ops[m..k][i].Del?
    requires exists i :: 0 <= i < |ops[m..k]| && ops[m..k][i].Ins?
    ensures var y := Run(None, ops[m..k]); Run(y, ops[m..k]) == y
  {
    var a := ops[m..k];
    var j := FirstInsert(a);
    var p, q, v := a[..j], a[j + 1..], a[j].values;
    assert a == p + ([a[j]] + q);
    assert p == ops[m..m + j] && a[j] == ops[m + j];
    assert forall l :: m <= l < m + j ==> ops[l] == a[l - m];
    assert a[j] == Ins(v);
    assert StaleAgrees(x, ops, m, m + j);
    var u, w := Merged(p), Merged(q);
    assert v + u == v;
    RunFromInsert(p, v, q);
    RunPresent(v + w, a);
    MergedAroundInsert(p, v, q);
    MergedOver(v, u, w);
  }

  /** Updates of an absent row, then an insert, then a stretch without deletes. */
  lemma RunFromInsert(p: seq<RowOp>, v: Values, q: seq<RowOp>)
    requires forall l :: 0 <= l < |p| ==> p[l].Upd?
    requires forall l :: 0 <= l < |q| ==> !q[l].Del?
    ensures Run(None, p + ([Ins(v)] + q)) == Some(v + Merged(q))
  {
    RunAbsent(p);
    RunAppend(None, p, [Ins(v)] + q);
    RunAppend(None, [Ins(v)], q);
    assert Run(None, [Ins(v)]) == Some(v) by { assert [Ins(v)][..0] == []; }
    RunPresent(v, q);
  }

  lemma MergedAroundInsert(p: seq<RowOp>, v: Values, q: seq<RowOp>)
    ensures Merged(p + ([Ins(v)] + q)) == Merged(p) + Merged(q)
  {
    MergedAppend(p, [Ins(v)] + q);
    MergedAppend([Ins(v)], q);
    assert Merged([Ins(v)]) == map[] by { assert [Ins(v)][..0] == []; }
    MapUnit(Merged(q));
  }

  lemma MergedOver(v: Values, u: Values, w: Values)
    requires v + u == v
    ensures v + w + (u + w) == v + w
  {
    forall k | k in u ensures k in v && v[k] == u[k] {
      assert (v + u)[k] == u[k];
      assert k in (v + u);
    }
  }

  /**
   Fuzzy recovery is exact: it is right for every snapshot point and every starting
   point of the replay if and only if no update of a missing row disagrees with the
   values a later insert gives that row.
   */
  lemma FuzzyRecoveryExact(x: RowState, ops: seq<RowOp>)
    ensures StaleFree(x, ops) <==>
            forall m: nat, k: nat, n: nat :: m <= k <= n <= |ops| ==> RecoversAt(x, ops, m, k, n)
  {
    if StaleFree(x, ops) {
      forall m: nat, k: nat, n: nat | m <= k <= n <= |ops| ensures RecoversAt(x, ops, m, k, n) {
        FuzzyRecovery(x, ops, m, k, n);
      }
    }
    if forall m: nat, k: nat, n: nat :: m <= k <= n <= |ops| ==> RecoversAt(x, ops, m, k, n) {
      forall i: nat, j: nat | i <= j < |ops| ensures StaleAgrees(x, ops, i, j) {
        if Run(x, ops[..i]).None? && (forall l :: i <= l < j ==> ops[l].Upd?) && ops[j].Ins? {
          StaleUpdateShows(x, ops, i, j);
        }
      }
    }
  }

  lemma FuzzyRecovery(x: RowState, ops: seq<RowOp>, m: nat, k: nat, n: nat)
    requires m <= k <= n <= |ops| && StaleFree(x, ops)
    ensures RecoversAt(x, ops, m, k, n)
  {
    hide Run, StaleFree;
    ReplayAgain(x, ops, m, k);
    assert ops[m..n] == ops[m..k] + ops[k..n];
    RunAppend(Run(x, ops[..k]), ops[m..k], ops[k..n]);
    assert ops[..n] == ops[..k] + ops[k..n];
    RunAppend(x, ops[..k], ops[k..n]);
  }

  lemma RunLast(x: RowState, ops: seq<RowOp>)
    requires ops != []
    ensures Run(x, ops) == Apply(Run(x, ops[..|ops| - 1]), ops[|ops| - 1])
  {
  }

  /** A disagreeing update shows up when the snapshot is taken right after the insert. */
  lemma StaleUpdateShows(x: RowState, ops: seq<RowOp>, i: nat, j: nat)
    requires i <= j < |ops| && Run(x, ops[..i]).None? && ops[j].Ins?
    requires forall l :: i <= l < j ==> ops[l].Upd?
    requires RecoversAt(x, ops, i, j + 1, j + 1)
    ensures ops[j].values + Merged(ops[i..j]) == ops[j].values
  {
    hide Run;
    var p, v := ops[i..j], ops[j].values;
    assert ops[..j] == ops[..i] + p;
    RunAppend(x, ops[..i], p);
    RunAbsent(p);
    assert ops[..j + 1][..j] == ops[..j];
    RunLast(x, ops[..j + 1]);
    assert Run(x, ops[..j + 1]) == Some(v);
    assert ops[i..j + 1][..j - i] == p;
    RunLast(Some(v), ops[i..j + 1]);
    RunPresent(v, p);
    assert ops[j + 1..j + 1] == [];
  }
}
