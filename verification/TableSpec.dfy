/**
 What one table does, said with linear scans and no index: the specification that
 the indexed row store (module RowStore) is proved to follow.
 */
module TableSpec {
  import opened Types

  type Values = map<Text, Value>

  datatype TableState = TableState(rows: map<nat, Values>, nextId: nat)

  const EMPTY := TableState(map[], 1)
  const MAX_ID := 0xFFFF_FFFF_FFFF_FFFF

  /** `Overflow` is the arithmetic panic of the allocator's `+ 1`. */
  datatype CoreError = DuplicateKey | RowNotFound | SchemaViolation | NotIndexed | Overflow

  datatype Op =
    | Insert(values: Values)
    | InsertUnchecked(values: Values)
    | Update(id: nat, values: Values)
    | Take(id: nat)
    | Restore(id: nat, values: Values)

  datatype Outcome = Stored(id: nat) | Row(values: Values) | Taken(row: Option<Values>) | Failed(error: CoreError)

  /** Row `id` holds the non-null value `v` in column `col`. */
  predicate Holds(rows: map<nat, Values>, id: nat, col: Text, v: Value) {
    id in rows && col in rows[id] && rows[id][col] == v && v != Null
  }

  /** Some other row already holds one of the new values in a unique column. */
  ghost predicate Clash(cols: seq<Text>, rows: map<nat, Values>, values: Values, self: Option<nat>) {
    exists col, id: nat :: col in cols && col in values && Holds(rows, id, col, values[col]) && Some(id) != self
  }

  ghost function Step(cols: seq<Text>, valid: Values -> bool, t: TableState, op: Op): (TableState, Outcome) {
    match op
    case Insert(values) =>
      if !valid(values) then (t, Failed(SchemaViolation)) else InsertStep(cols, t, values)
    case InsertUnchecked(values) => InsertStep(cols, t, values)
    case Update(id, values) =>
      if id !in t.rows then (t, Failed(RowNotFound))
      else if Clash(cols, t.rows, values, Some(id)) then (t, Failed(DuplicateKey))
      else (t.(rows := t.rows[id := t.rows[id] + values]), Row(t.rows[id] + values))
    case Take(id) =>
      if id !in t.rows then (t, Taken(None)) else (t.(rows := t.rows - {id}), Taken(Some(t.rows[id])))
    case Restore(id, values) =>
      if id in t.rows then (t, Failed(DuplicateKey))
      else if Clash(cols, t.rows, values, Some(id)) then (t, Failed(DuplicateKey))
      else if id >= t.nextId && id >= MAX_ID then (t, Failed(Overflow))
      else (TableState(t.rows[id := values], if id >= t.nextId then id + 1 else t.nextId), Stored(id))
  }

  ghost function InsertStep(cols: seq<Text>, t: TableState, values: Values): (TableState, Outcome) {
    if Clash(cols, t.rows, values, None) then (t, Failed(DuplicateKey))
    else if t.nextId >= MAX_ID then (t, Failed(Overflow))
    else (TableState(t.rows[t.nextId := values], t.nextId + 1), Stored(t.nextId))
  }

  /** The state after a whole run of operations. */
  ghost function Run(cols: seq<Text>, valid: Values -> bool, t: TableState, ops: seq<Op>): TableState
    decreases |ops|
  {
    if ops == [] then t else Step(cols, valid, Run(cols, valid, t, ops[..|ops| - 1]), ops[|ops| - 1]).0
  }

  // ------------------------------------------------------------ over all runs

  /** No two rows share a non-null value of a unique column. */
  ghost predicate UniqueHolds(cols: seq<Text>, rows: map<nat, Values>) {
    forall col, v, a: nat, b: nat :: col in cols && Holds(rows, a, col, v) && Holds(rows, b, col, v) ==> a == b
  }

  /** The allocator is ahead of every live row. */
  predicate Ahead(t: TableState) {
    t.nextId <= MAX_ID && forall id :: id in t.rows ==> id < t.nextId
  }

  ghost predicate Sound(cols: seq<Text>, t: TableState) {
    UniqueHolds(cols, t.rows) && Ahead(t)
  }

  /** Writing values that clash with no other row keeps unique columns unique. */
  lemma WriteKeepsUnique(cols: seq<Text>, rows: map<nat, Values>, id: nat, values: Values, self: Option<nat>)
    requires UniqueHolds(cols, rows) && !Clash(cols, rows, values, self)
    requires if id in rows then self == Some(id) else self.None? || self == Some(id)
    ensures UniqueHolds(cols, rows[id := (if id in rows then rows[id] + values else values)])
  {
    var rows' := rows[id := (if id in rows then rows[id] + values else values)];
    forall col, v, a: nat, b: nat | col in cols && Holds(rows', a, col, v) && Holds(rows', b, col, v)
      ensures a == b
    {
      assert !Holds(rows, a, col, v) ==> a == id && col in values && values[col] == v;
      assert !Holds(rows, b, col, v) ==> b == id && col in values && values[col] == v;
      assert col in values ==> forall c: nat :: Holds(rows, c, col, values[col]) ==> Some(c) == self;
    }
  }

  lemma StepKeepsSound(cols: seq<Text>, valid: Values -> bool, t: TableState, op: Op)
    requires Sound(cols, t)
    ensures Sound(cols, Step(cols, valid, t, op).0)
    ensures t.nextId <= Step(cols, valid, t, op).0.nextId
  {
    match op
    case Insert(values) =>
      if !Clash(cols, t.rows, values, None) { WriteKeepsUnique(cols, t.rows, t.nextId, values, None); }
    case InsertUnchecked(values) =>
      if !Clash(cols, t.rows, values, None) { WriteKeepsUnique(cols, t.rows, t.nextId, values, None); }
    case Update(id, values) =>
      if id in t.rows && !Clash(cols, t.rows, values, Some(id)) {
        WriteKeepsUnique(cols, t.rows, id, values, Some(id));
      }
    case Take(id) =>
      assert forall x: nat, col, v :: Holds(t.rows - {id}, x, col, v) ==> Holds(t.rows, x, col, v);
    case Restore(id, values) =>
      if id !in t.rows && !Clash(cols, t.rows, values, Some(id)) {
        WriteKeepsUnique(cols, t.rows, id, values, Some(id));
      }
  }

  /** A failed operation leaves the table exactly as it was. */
  lemma FailureChangesNothing(cols: seq<Text>, valid: Values -> bool, t: TableState, op: Op)
    requires Step(cols, valid, t, op).1.Failed?
    ensures Step(cols, valid, t, op).0 == t
  {
  }

  /** Every run keeps unique columns unique and the allocator ahead of the rows. */
  lemma {:induction false} RunKeepsSound(cols: seq<Text>, valid: Values -> bool, t: TableState, ops: seq<Op>)
    requires Sound(cols, t)
    ensures Sound(cols, Run(cols, valid, t, ops))
    decreases |ops|
  {
    if ops != [] {
      RunKeepsSound(cols, valid, t, ops[..|ops| - 1]);
      StepKeepsSound(cols, valid, Run(cols, valid, t, ops[..|ops| - 1]), ops[|ops| - 1]);
    }
  }

  lemma {:induction false} AllocatorNeverBacksUp(cols: seq<Text>, valid: Values -> bool, t: TableState, ops: seq<Op>,
                                                 j: nat)
    requires Sound(cols, t) && j <= |ops|
    ensures Run(cols, valid, t, ops[..j]).nextId <= Run(cols, valid, t, ops).nextId
    decreases |ops|
  {
    if j < |ops| {
      var init := ops[..|ops| - 1];
      AllocatorNeverBacksUp(cols, valid, t, init, j);
      assert init[..j] == ops[..j];
      RunKeepsSound(cols, valid, t, init);
      StepKeepsSound(cols, valid, Run(cols, valid, t, init), ops[|ops| - 1]);
    } else {
      assert ops[..j] == ops;
    }
  }

  /** An insert never hands out an id that any row had at any earlier point of the run. */
  lemma AllocatedIdIsNew(cols: seq<Text>, valid: Values -> bool, t: TableState, ops: seq<Op>, op: Op, j: nat)
    requires Sound(cols, t) && j <= |ops| && (op.Insert? || op.InsertUnchecked?)
    ensures var out := Step(cols, valid, Run(cols, valid, t, ops), op).1;
            out.Stored? ==> out.id !in Run(cols, valid, t, ops[..j]).rows
  {
    RunKeepsSound(cols, valid, t, ops[..j]);
    AllocatorNeverBacksUp(cols, valid, t, ops, j);
  }

  // ------------------------------------------------- what operations answer

  /** A write clashes exactly when carrying it out would make a unique column repeat a value. */
  lemma ClashIff(cols: seq<Text>, rows: map<nat, Values>, id: nat, values: Values, self: Option<nat>)
    requires UniqueHolds(cols, rows) && (if id in rows then self == Some(id) else self.None? || self == Some(id))
    ensures Clash(cols, rows, values, self)
       <==> !UniqueHolds(cols, rows[id := (if id in rows then rows[id] + values else values)])
  {
    var after := rows[id := (if id in rows then rows[id] + values else values)];
    if Clash(cols, rows, values, self) {
      var col, other: nat :|
        col in cols && col in values && Holds(rows, other, col, values[col]) && Some(other) != self;
      assert Holds(after, id, col, values[col]) && Holds(after, other, col, values[col]) && other != id;
    } else {
      WriteKeepsUnique(cols, rows, id, values, self);
    }
  }

  /** A table whose rows hold nothing but nulls in its unique columns takes any number of them. */
  lemma NullsNeverClash(cols: seq<Text>, rows: map<nat, Values>, values: Values, self: Option<nat>)
    requires forall col :: col in cols && col in values ==> values[col] == Null
    ensures !Clash(cols, rows, values, self)
  {
  }

  ghost predicate Adds(op: Op) { op.Insert? || op.InsertUnchecked? }

  /**
   When an operation is accepted: an insert exactly when its values are valid (if they are
   looked at), the new row repeats no unique value and an id is left; a restore likewise
   under its own id, which must be free; an update exactly when the row is there and the
   merged row repeats no unique value; a removal always.
   */
  lemma AcceptedIff(cols: seq<Text>, valid: Values -> bool, t: TableState, op: Op)
    requires Sound(cols, t)
    ensures Adds(op) ==> (!Step(cols, valid, t, op).1.Failed? <==>
              && (op.Insert? ==> valid(op.values))
              && UniqueHolds(cols, t.rows[t.nextId := op.values]) && t.nextId < MAX_ID)
    ensures op.Restore? ==> (!Step(cols, valid, t, op).1.Failed? <==>
              && op.id !in t.rows && UniqueHolds(cols, t.rows[op.id := op.values])
              && (op.id < t.nextId || op.id < MAX_ID))
    ensures op.Update? ==> (!Step(cols, valid, t, op).1.Failed? <==>
              op.id in t.rows && UniqueHolds(cols, t.rows[op.id := t.rows[op.id] + op.values]))
    ensures op.Take? ==> !Step(cols, valid, t, op).1.Failed?
  {
    hide UniqueHolds, Clash;
    match op
    case Insert(values) => ClashIff(cols, t.rows, t.nextId, values, None);
    case InsertUnchecked(values) => ClashIff(cols, t.rows, t.nextId, values, None);
    case Update(id, values) => if id in t.rows { ClashIff(cols, t.rows, id, values, Some(id)); }
    case Take(_) =>
    case Restore(id, values) => if id !in t.rows { ClashIff(cols, t.rows, id, values, Some(id)); }
  }

  /** Of all failures the reason: bad values, then a missing row, then a repeated value, then no id left. */
  lemma FailureReason(cols: seq<Text>, valid: Values -> bool, t: TableState, op: Op)
    requires Sound(cols, t) && Step(cols, valid, t, op).1.Failed?
    ensures Step(cols, valid, t, op).1.error ==
      if op.Insert? && !valid(op.values) then SchemaViolation
      else if op.Update? && op.id !in t.rows then RowNotFound
      else if op.Restore? && op.id in t.rows then DuplicateKey
      else if op.Update? then DuplicateKey
      else if UniqueHolds(cols, t.rows[(if op.Restore? then op.id else t.nextId) := op.values]) then Overflow
      else DuplicateKey
  {
    AcceptedIff(cols, valid, t, op);
    hide UniqueHolds, Clash;
    match op
    case Insert(values) => ClashIff(cols, t.rows, t.nextId, values, None);
    case InsertUnchecked(values) => ClashIff(cols, t.rows, t.nextId, values, None);
    case Restore(id, values) => if id !in t.rows { ClashIff(cols, t.rows, id, values, Some(id)); }
    case _ =>
  }

  /** A stored row is there under the id in the answer, an update answers with the row as it now is. */
  lemma AnswerIsState(cols: seq<Text>, valid: Values -> bool, t: TableState, op: Op)
    requires Sound(cols, t)
    ensures var (after, out) := Step(cols, valid, t, op);
      && (out.Stored? ==> (Adds(op) || op == Restore(out.id, op.values)) && out.id !in t.rows
                          && after.rows == t.rows[out.id := op.values] && out.id < after.nextId)
      && (out.Row? ==> op.Update? && op.id in after.rows && out.values == after.rows[op.id])
      && (out.Taken? ==> op.Take? && op.id !in after.rows && (out.row.Some? <==> op.id in t.rows))
  {
    hide Clash, UniqueHolds;
  }

  // ------------------------------------------------------ the life of a row

  /** What the accepted updates of row `id` along a run come to. */
  ghost function Overlaid(cols: seq<Text>, valid: Values -> bool, t: TableState, ops: seq<Op>, id: nat): Values
    decreases |ops|
  {
    if ops == [] then map[] else
    var init, op := ops[..|ops| - 1], ops[|ops| - 1];
    var accepted := op.Update? && op.id == id && Step(cols, valid, Run(cols, valid, t, init), op).1.Row?;
    Overlaid(cols, valid, t, init, id) + (if accepted then op.values else map[])
  }

  /** As long as a row is not taken it holds what it held, under the accepted updates since. */
  lemma {:induction false} RowLivesOn(cols: seq<Text>, valid: Values -> bool, t: TableState, ops: seq<Op>, id: nat)
    requires Sound(cols, t) && id in t.rows && Take(id) !in ops
    ensures var rows := Run(cols, valid, t, ops).rows;
      id in rows && rows[id] == t.rows[id] + Overlaid(cols, valid, t, ops, id)
    decreases |ops|
  {
    hide Step, UniqueHolds, Ahead, Clash;
    if ops != [] {
      var init, op := ops[..|ops| - 1], ops[|ops| - 1];
      assert op in ops && forall o :: o in init ==> o in ops;
      RowLivesOn(cols, valid, t, init, id);
      RunKeepsSound(cols, valid, t, init);
      StepOnOneRow(cols, valid, Run(cols, valid, t, init), op, id);
      hide Run;
      Overlay(t.rows[id], Overlaid(cols, valid, t, init, id), if op.Update? then op.values else map[]);
    }
  }

  lemma Overlay(row: Values, updates: Values, last: Values)
    ensures (row + updates) + last == row + (updates + last) && updates + map[] == updates
  {
  }

  lemma StepOnOneRow(cols: seq<Text>, valid: Values -> bool, t: TableState, op: Op, id: nat)
    requires Sound(cols, t) && id in t.rows && op != Take(id)
    ensures var (after, out) := Step(cols, valid, t, op);
      && id in after.rows
      && after.rows[id] == t.rows[id] + (if op.Update? && op.id == id && out.Row? then op.values else map[])
  {
    hide Clash, UniqueHolds;
  }

  /**
   Taking a row gives back what went in: the values it was stored with under the updates
   accepted since, whatever else happened to the table in between.
   */
  lemma TakeGivesBack(cols: seq<Text>, valid: Values -> bool, t: TableState, op: Op, ops: seq<Op>, id: nat)
    requires Sound(cols, t) && (Adds(op) || op.Restore?) && Step(cols, valid, t, op).1 == Stored(id)
    requires Take(id) !in ops
    ensures var t1 := Step(cols, valid, t, op).0;
      && Step(cols, valid, Run(cols, valid, t1, ops), Take(id)).1
      == Taken(Some(op.values + Overlaid(cols, valid, t1, ops, id)))
  {
    hide Clash, Overlaid;
    var t1 := Step(cols, valid, t, op).0;
    StepKeepsSound(cols, valid, t, op);
    RowLivesOn(cols, valid, t1, ops, id);
  }

  /** And a second time there is nothing left to take, until a restore or an insert stores the row again. */
  lemma {:induction false} TakenStaysGone(cols: seq<Text>, valid: Values -> bool, t: TableState, ops: seq<Op>, id: nat)
    requires Sound(cols, t) && id in t.rows && forall op :: op in ops ==> !(op.Restore? && op.id == id)
    ensures Step(cols, valid, Run(cols, valid, Step(cols, valid, t, Take(id)).0, ops), Take(id)).1 == Taken(None)
    decreases |ops|
  {
    hide Clash, UniqueHolds;
    var t1 := Step(cols, valid, t, Take(id)).0;
    StepKeepsSound(cols, valid, t, Take(id));
    if ops != [] {
      var init, op := ops[..|ops| - 1], ops[|ops| - 1];
      assert op in ops && forall o :: o in init ==> o in ops;
      TakenStaysGone(cols, valid, t, init, id);
      AllocatorNeverBacksUp(cols, valid, t1, init, 0);
      assert init[..0] == [];
    }
  }

  // ------------------------------------------- builds without overflow checks

  /** The step of a build whose allocator wraps around instead of failing. */
  ghost function WrapStep(cols: seq<Text>, valid: Values -> bool, t: TableState, op: Op): (TableState, Outcome) {
    match op
    case Insert(values) => if !valid(values) then (t, Failed(SchemaViolation)) else WrapInsert(cols, t, values)
    case InsertUnchecked(values) => WrapInsert(cols, t, values)
    case Restore(id, values) =>
      if id in t.rows || Clash(cols, t.rows, values, Some(id)) then (t, Failed(DuplicateKey))
      else (TableState(t.rows[id := values], if id >= t.nextId then (id + 1) % (MAX_ID + 1) else t.nextId), Stored(id))
    case _ => Step(cols, valid, t, op)
  }

  ghost function WrapInsert(cols: seq<Text>, t: TableState, values: Values): (TableState, Outcome) {
    if Clash(cols, t.rows, values, None) then (t, Failed(DuplicateKey))
    else (TableState(t.rows[t.nextId := values], (t.nextId + 1) % (MAX_ID + 1)), Stored(t.nextId))
  }

  ghost function WrapRun(cols: seq<Text>, valid: Values -> bool, t: TableState, ops: seq<Op>): TableState
    decreases |ops|
  {
    if ops == [] then t else WrapStep(cols, valid, WrapRun(cols, valid, t, ops[..|ops| - 1]), ops[|ops| - 1]).0
  }

  /** Row ids are u64. */
  predicate IdsFit(ops: seq<Op>) { forall i :: 0 <= i < |ops| && ops[i].Restore? ==> ops[i].id <= MAX_ID }

  /** The operation is accepted and stores a row under the largest u64. */
  ghost predicate TakesLastId(cols: seq<Text>, valid: Values -> bool, t: TableState, op: Op) {
    WrapStep(cols, valid, t, op).1 == Stored(MAX_ID)
  }

  lemma WrapsOnlyAtLastId(cols: seq<Text>, valid: Values -> bool, t: TableState, op: Op)
    requires Ahead(t) && (op.Restore? ==> op.id <= MAX_ID)
    ensures !TakesLastId(cols, valid, t, op) ==> WrapStep(cols, valid, t, op) == Step(cols, valid, t, op)
    ensures TakesLastId(cols, valid, t, op) ==> !Ahead(WrapStep(cols, valid, t, op).0)
  {
    hide Clash;
    assert t.nextId < MAX_ID ==> (t.nextId + 1) % (MAX_ID + 1) == t.nextId + 1;
    assert op.Restore? && op.id < MAX_ID ==> (op.id + 1) % (MAX_ID + 1) == op.id + 1;
    var after := WrapStep(cols, valid, t, op).0;
    assert TakesLastId(cols, valid, t, op) ==> MAX_ID in after.rows && after.nextId == 0;
  }

  /** Until a row takes the largest id, a wrapping build runs as a checked one. */
  lemma {:induction false} WrapRunIsRun(cols: seq<Text>, valid: Values -> bool, t: TableState, ops: seq<Op>)
    requires Sound(cols, t) && IdsFit(ops)
    requires forall i :: 0 <= i < |ops| ==> !TakesLastId(cols, valid, WrapRun(cols, valid, t, ops[..i]), ops[i])
    ensures WrapRun(cols, valid, t, ops) == Run(cols, valid, t, ops)
    decreases |ops|
  {
    hide WrapStep, Step, Sound, TakesLastId;
    if ops != [] {
      var init := ops[..|ops| - 1];
      assert forall i :: 0 <= i < |init| ==> init[..i] == ops[..i];
      WrapRunIsRun(cols, valid, t, init);
      RunKeepsSound(cols, valid, t, init);
      SoundIsAhead(cols, Run(cols, valid, t, init));
      WrapsOnlyAtLastId(cols, valid, Run(cols, valid, t, init), ops[|ops| - 1]);
    }
  }

  lemma SoundIsAhead(cols: seq<Text>, t: TableState)
    requires Sound(cols, t)
    ensures Ahead(t)
  {
  }

  /**
   Over every run of a wrapping build the allocator stays ahead of the live rows exactly
   when no insert and no restore takes the largest id.
   */
  lemma WrappingRunIff(cols: seq<Text>, valid: Values -> bool, t: TableState, ops: seq<Op>)
    requires Sound(cols, t) && IdsFit(ops)
    ensures (forall j :: 0 <= j <= |ops| ==> Ahead(WrapRun(cols, valid, t, ops[..j])))
       <==> (forall i :: 0 <= i < |ops| ==> !TakesLastId(cols, valid, WrapRun(cols, valid, t, ops[..i]), ops[i]))
  {
    hide WrapStep, Step, Sound, TakesLastId, Ahead;
    if forall i :: 0 <= i < |ops| ==> !TakesLastId(cols, valid, WrapRun(cols, valid, t, ops[..i]), ops[i]) {
      forall j | 0 <= j <= |ops| ensures Ahead(WrapRun(cols, valid, t, ops[..j])) {
        assert forall i :: 0 <= i < j ==> ops[..j][..i] == ops[..i];
        WrapRunIsRun(cols, valid, t, ops[..j]);
        RunKeepsSound(cols, valid, t, ops[..j]);
        SoundIsAhead(cols, Run(cols, valid, t, ops[..j]));
      }
    }
    if forall j :: 0 <= j <= |ops| ==> Ahead(WrapRun(cols, valid, t, ops[..j])) {
      forall i | 0 <= i < |ops| ensures !TakesLastId(cols, valid, WrapRun(cols, valid, t, ops[..i]), ops[i]) {
        assert ops[..i + 1][..i] == ops[..i];
        assert Ahead(WrapRun(cols, valid, t, ops[..i])) && Ahead(WrapRun(cols, valid, t, ops[..i + 1]));
        WrapsOnlyAtLastId(cols, valid, WrapRun(cols, valid, t, ops[..i]), ops[i]);
      }
    }
  }
}
