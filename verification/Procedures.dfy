/**
 Stored procedures and what running one means: a fuelled interpreter over a storage
 backend, and the pure interpreter that knows no storage. The backend answers each
 call as it likes, given every call made before.
 */
module Procedures {
  import opened Types

  datatype Condition =
    | Equals(name: Text, expected: Value)
    | NotEquals(name: Text, expected: Value)
    | IsNotNull(name: Text)
    | GreaterOrEqual(name: Text, expected: Value)
    | LessThan(name: Text, expected: Value)
    | All(conditions: seq<Condition>)
    | Any(conditions: seq<Condition>)

  datatype Step =
    | CallFunction(callee: Text, args: map<Text, Value>)
    | SetVariable(name: Text, value: Value)
    | If(condition: Condition, thenSteps: seq<Step>, elseSteps: seq<Step>)
    | Read(table: Text, id: Value, into: Text)
    | Insert(table: Text, values: map<Text, Value>, into: Text)
    | Update(table: Text, id: Value, values: map<Text, Value>)
    | Delete(table: Text, id: Value)
    | Return(value: Value)
    | Fail(message: Text)

  datatype Error =
    | FuelExhausted(burned: nat)
    | BadRowId(got: Value)
    | RowNotFound(table: Text, row: U64)
    | Abort(message: Text)
    | Backend(code: nat)
    | NeedsTransaction(step: Step)
    | FunctionNotFound(name: Text)

  datatype Result<+T> = Ok(value: T) | Err(error: Error)

  datatype Call =
    | ReadRow(table: Text, row: U64)
    | InsertRow(table: Text, values: map<Text, Value>)
    | UpdateRow(table: Text, row: U64, values: map<Text, Value>)
    | DeleteRow(table: Text, row: U64)
    | CallOut(callee: Text, args: map<Text, Value>)

  /** What a call comes back with; `Refused` is the backend's own error. */
  datatype Answer<+T> = Gave(value: T) | Refused(code: nat)

  /**
   The backend, whose answers may depend on every call made before, and the ordering and
   text rendering of values.
   */
  datatype World = World(
    read: (seq<Call>, Call) -> Answer<Option<map<Text, Value>>>,
    write: (seq<Call>, Call) -> Answer<()>,
    call: (seq<Call>, Call) -> Answer<Value>,
    less: (Value, Value) -> bool,
    show: Value -> Text)

  type Vars = map<Text, Value>

  const DOLLAR: byte := 36
  const DOT: byte := 46
  const HASH: byte := 35
  const ID_FIELD: Text := [HASH, 105, 100]

  predicate IsReference(v: Value) { v.String? && |v.s| > 0 && v.s[0] == DOLLAR }

  function Lookup(vars: Vars, name: Text): Value { if name in vars then vars[name] else Null }

  function Resolve(vars: Vars, v: Value): Value {
    if IsReference(v) then Lookup(vars, v.s[1..]) else v
  }

  function ResolveAll(vars: Vars, args: map<Text, Value>): map<Text, Value> {
    map k | k in args :: Resolve(vars, args[k])
  }

  function ResolveId(vars: Vars, v: Value): Result<U64> {
    var r := Resolve(vars, v);
    match r
    case UInt64(n) => Ok(n)
    case Int64(n) => if n >= 0 then Ok(n) else Err(BadRowId(r))
    case UInt32(n) => Ok(n)
    case Int32(n) => if n >= 0 then Ok(n) else Err(BadRowId(r))
    case _ => Err(BadRowId(r))
  }

  predicate Holds(w: World, vars: Vars, c: Condition) {
    match c
    case Equals(x, e) => x in vars && vars[x] == Resolve(vars, e)
    case NotEquals(x, e) => x in vars && vars[x] != Resolve(vars, e)
    case IsNotNull(x) => x in vars && vars[x] != Null
    case GreaterOrEqual(x, e) => x in vars && !w.less(vars[x], Resolve(vars, e))
    case LessThan(x, e) => x in vars && w.less(vars[x], Resolve(vars, e))
    case All(cs) => forall i :: 0 <= i < |cs| ==> Holds(w, vars, cs[i])
    case Any(cs) => exists i :: 0 <= i < |cs| && Holds(w, vars, cs[i])
  }

  /** The variable a column of a row read into `into` lands in. */
  function Field(into: Text, column: Text): Text { into + [DOT] + column }

  /** Variables of a row: one per column, over the one for its id. */
  function RowVars(into: Text, row: U64, columns: map<Text, Value>): Vars {
    map[Field(into, ID_FIELD) := UInt64(row)] + ColumnVars(into, columns)
  }

  function ColumnVars(into: Text, columns: map<Text, Value>): Vars {
    map x | x in Fields(into, columns) :: columns[x[|into| + 1..]]
  }

  function Fields(into: Text, columns: map<Text, Value>): (xs: set<Text>)
    ensures forall x :: x in xs ==> |x| > |into| && x[|into| + 1..] in columns && x == Field(into, x[|into| + 1..])
  {
    set c | c in columns.Keys :: Field(into, c)
  }

  // ------------------------------------------------------ the fuelled runner

  /** Variables, fuel burned, and the calls made on the backend. */
  datatype State = State(vars: Vars, burned: nat, trace: seq<Call>)

  datatype Flow = Next(value: Value) | Ended(value: Value)

  datatype Ran<T> = Ran(st: State, r: Result<T>)

  function Called(st: State, call: Call): State { st.(trace := st.trace + [call]) }

  function Assign(st: State, vars: Vars): State { st.(vars := st.vars + vars) }

  /** A buffered write; once the backend takes it the step succeeds with `v`. */
  function Write(w: World, st: State, call: Call, extra: Vars, v: Value): Ran<Flow> {
    match w.write(st.trace, call)
    case Refused(code) => Ran(Called(st, call), Err(Backend(code)))
    case Gave(_) => Ran(Assign(Called(st, call), extra), Ok(Next(v)))
  }

  function CallStep(w: World, st: State, f: Text, args: map<Text, Value>): Ran<Value> {
    var call := CallOut(f, ResolveAll(st.vars, args));
    match w.call(st.trace, call)
    case Gave(v) => Ran(Called(st, call), Ok(v))
    case Refused(code) => Ran(Called(st, call), Err(Backend(code)))
  }

  function ReadStep(w: World, st: State, table: Text, id: Value, into: Text): Ran<Flow> {
    match ResolveId(st.vars, id)
    case Err(e) => Ran(st, Err(e))
    case Ok(row) =>
      var call := ReadRow(table, row);
      match w.read(st.trace, call)
      case Gave(Some(columns)) => Ran(Assign(Called(st, call), RowVars(into, row, columns)), Ok(Next(UInt64(row))))
      case Gave(None) => Ran(Called(st, call), Err(RowNotFound(table, row)))
      case Refused(code) => Ran(Called(st, call), Err(Backend(code)))
  }

  function AsFlow(x: Ran<Value>): Ran<Flow> {
    Ran(x.st, if x.r.Ok? then Ok(Next(x.r.value)) else Err(x.r.error))
  }

  function RowWrite(w: World, st: State, id: Value, call: U64 -> Call): Ran<Flow> {
    match ResolveId(st.vars, id)
    case Err(e) => Ran(st, Err(e))
    case Ok(row) => Write(w, st, call(row), map[], UInt64(row))
  }

  predicate NamesVariable(message: Text) { |message| > 0 && message[0] == DOLLAR }

  /** The message of a failure; one that names a variable is that variable, as text. */
  function FailMessage(w: World, vars: Vars, message: Text): Text {
    if NamesVariable(message) && message[1..] in vars then w.show(vars[message[1..]]) else message
  }

  function RunStep(w: World, fuel: nat, st: State, step: Step): Ran<Flow>
    decreases step
  {
    match step
    case SetVariable(name, value) =>
      var v := Resolve(st.vars, value);
      Ran(Assign(st, map[name := v]), Ok(Next(v)))
    case CallFunction(f, args) => AsFlow(CallStep(w, st, f, args))
    case If(c, whenTrue, whenFalse) =>
      AsFlow(RunSteps(w, fuel, st, Null, if Holds(w, st.vars, c) then whenTrue else whenFalse))
    case Read(table, id, into) => ReadStep(w, st, table, id, into)
    case Insert(table, values, into) =>
      Write(w, st, InsertRow(table, ResolveAll(st.vars, values)), map[into := UInt64(0)], UInt64(0))
    case Update(table, id, values) =>
      RowWrite(w, st, id, (row: U64) => UpdateRow(table, row, ResolveAll(st.vars, values)))
    case Delete(table, id) => RowWrite(w, st, id, (row: U64) => DeleteRow(table, row))
    case Return(value) => Ran(st, Ok(Ended(Resolve(st.vars, value))))
    case Fail(message) => Ran(st, Err(Abort(FailMessage(w, st.vars, message))))
  }

  /** Steps in order, one unit of fuel each; `last` is the value of the step before. */
  function RunSteps(w: World, fuel: nat, st: State, last: Value, steps: seq<Step>): Ran<Value>
    decreases steps
  {
    if steps == [] then Ran(st, Ok(last)) else
    var charged := st.(burned := st.burned + 1);
    if charged.burned > fuel then Ran(charged, Err(FuelExhausted(charged.burned))) else
    var x := RunStep(w, fuel, charged, steps[0]);
    match x.r
    case Err(e) => Ran(x.st, Err(e))
    case Ok(Ended(v)) => Ran(x.st, Ok(v))
    case Ok(Next(v)) => RunSteps(w, fuel, x.st, v, steps[1..])
  }

  /** A call of a procedure: its arguments are the first variables. */
  function RunProcedure(w: World, fuel: nat, args: Vars, steps: seq<Step>): Ran<Value> {
    RunSteps(w, fuel, State(args, 0, []), Null, steps)
  }

  // ------------------------------------------------------ the pure executor

  function ExecuteStep(w: World, st: State, step: Step): Ran<Value>
    decreases step
  {
    match step
    case SetVariable(name, value) => Ran(Assign(st, map[name := value]), Ok(value))
    case CallFunction(f, args) => CallStep(w, st, f, args)
    case If(c, whenTrue, whenFalse) => ExecuteSteps(w, st, Null, if Holds(w, st.vars, c) then whenTrue else whenFalse)
    case Return(value) => Ran(st, Ok(Resolve(st.vars, value)))
    case Fail(message) => Ran(st, Err(Abort(message)))
    case Read(_, _, _) => Ran(st, Err(NeedsTransaction(step)))
    case Insert(_, _, _) => Ran(st, Err(NeedsTransaction(step)))
    case Update(_, _, _) => Ran(st, Err(NeedsTransaction(step)))
    case Delete(_, _) => Ran(st, Err(NeedsTransaction(step)))
  }

  function ExecuteSteps(w: World, st: State, last: Value, steps: seq<Step>): Ran<Value>
    decreases steps
  {
    if steps == [] then Ran(st, Ok(last)) else
    var x := ExecuteStep(w, st, steps[0]);
    if x.r.Err? then x else ExecuteSteps(w, x.st, x.r.value, steps[1..])
  }

  // --------------------------------------------------------- fuel truncates

  /** A run never takes back a call or a unit of fuel. */
  lemma {:induction false} StepOnlyAdds(w: World, fuel: nat, st: State, step: Step)
    ensures st.trace <= RunStep(w, fuel, st, step).st.trace
    ensures st.burned <= RunStep(w, fuel, st, step).st.burned
    decreases step
  {
    if step.If? {
      RunOnlyAdds(w, fuel, st, Null, if Holds(w, st.vars, step.condition) then step.thenSteps else step.elseSteps);
    }
  }

  lemma {:induction false} RunOnlyAdds(w: World, fuel: nat, st: State, last: Value, steps: seq<Step>)
    ensures st.trace <= RunSteps(w, fuel, st, last, steps).st.trace
    ensures st.burned <= RunSteps(w, fuel, st, last, steps).st.burned
    decreases steps
  {
    hide RunStep;
    if steps != [] && st.burned < fuel {
      var charged := st.(burned := st.burned + 1);
      StepOnlyAdds(w, fuel, charged, steps[0]);
      var x := RunStep(w, fuel, charged, steps[0]);
      if x.r.Ok? && x.r.value.Next? { RunOnlyAdds(w, fuel, x.st, x.r.value.value, steps[1..]); }
    }
  }

  /** `small` is `large` cut off at fuel `f`. */
  ghost predicate CutOff<T>(f: nat, small: Ran<T>, large: Ran<T>) {
    if large.st.burned <= f then small == large
    else small.r == Err(FuelExhausted(f + 1)) && small.st.burned == f + 1 && small.st.trace <= large.st.trace
  }

  lemma {:induction false} StepCutOff(w: World, f: nat, g: nat, st: State, step: Step)
    requires st.burned <= f <= g
    ensures CutOff(f, RunStep(w, f, st, step), RunStep(w, g, st, step))
    decreases step
  {
    if step.If? {
      RunCutOff(w, f, g, st, Null, if Holds(w, st.vars, step.condition) then step.thenSteps else step.elseSteps);
    }
  }

  lemma {:induction false} RunCutOff(w: World, f: nat, g: nat, st: State, last: Value, steps: seq<Step>)
    requires st.burned <= f <= g
    ensures CutOff(f, RunSteps(w, f, st, last, steps), RunSteps(w, g, st, last, steps))
    decreases steps
  {
    hide RunStep;
    if steps != [] {
      var charged := st.(burned := st.burned + 1);
      RunOnlyAdds(w, g, st, last, steps);
      if charged.burned <= f {
        StepCutOff(w, f, g, charged, steps[0]);
        var x := RunStep(w, g, charged, steps[0]);
        if x.r.Ok? && x.r.value.Next? {
          RunOnlyAdds(w, g, x.st, x.r.value.value, steps[1..]);
          if x.st.burned <= f { RunCutOff(w, f, g, x.st, x.r.value.value, steps[1..]); }
        }
      } else if charged.burned <= g {
        StepOnlyAdds(w, g, charged, steps[0]);
        var x := RunStep(w, g, charged, steps[0]);
        if x.r.Ok? && x.r.value.Next? { RunOnlyAdds(w, g, x.st, x.r.value.value, steps[1..]); }
      }
    }
  }

  /**
   Fuel only truncates. With less fuel a procedure makes a prefix of the calls, runs
   out exactly when the longer run burned more than it had, and otherwise ends the same.
   */
  lemma FuelTruncates(w: World, f: nat, g: nat, args: Vars, steps: seq<Step>)
    requires f <= g
    ensures var small, large := RunProcedure(w, f, args, steps), RunProcedure(w, g, args, steps);
      && small.st.trace <= large.st.trace
      && (small.r == Err(FuelExhausted(f + 1)) <==> large.st.burned > f)
      && (large.st.burned <= f ==> small == large)
  {
    RunCutOff(w, f, g, State(args, 0, []), Null, steps);
    ExhaustedBurned(w, g, State(args, 0, []), Null, steps);
  }

  /** Running out of fuel is reported only with the fuel burned, one past the budget. */
  ghost predicate Reports<T>(fuel: nat, x: Ran<T>) {
    if x.st.burned <= fuel then !(x.r.Err? && x.r.error.FuelExhausted?) else x.r == Err(FuelExhausted(fuel + 1))
  }

  lemma {:induction false} StepExhausted(w: World, fuel: nat, st: State, step: Step)
    requires st.burned <= fuel
    ensures Reports(fuel, RunStep(w, fuel, st, step))
    decreases step
  {
    hide RunSteps;
    if step.If? {
      ExhaustedBurned(w, fuel, st, Null, if Holds(w, st.vars, step.condition) then step.thenSteps else step.elseSteps);
    }
  }

  lemma {:induction false} ExhaustedBurned(w: World, fuel: nat, st: State, last: Value, steps: seq<Step>)
    requires st.burned <= fuel
    ensures Reports(fuel, RunSteps(w, fuel, st, last, steps))
    decreases steps
  {
    hide RunStep;
    if steps != [] && st.burned < fuel {
      var charged := st.(burned := st.burned + 1);
      StepExhausted(w, fuel, charged, steps[0]);
      var x := RunStep(w, fuel, charged, steps[0]);
      if x.r.Ok? && x.r.value.Next? { ExhaustedBurned(w, fuel, x.st, x.r.value.value, steps[1..]); }
    }
  }

  function Max(a: nat, b: nat): nat { if a < b then b else a }

  /** Steps on the longest way through a step list. */
  function Longest(steps: seq<Step>): nat {
    if steps == [] then 0 else 1 + LongestInside(steps[0]) + Longest(steps[1..])
  }

  function LongestInside(step: Step): nat {
    if step.If? then Max(Longest(step.thenSteps), Longest(step.elseSteps)) else 0
  }

  /** All steps of the tree. */
  function TreeSize(steps: seq<Step>): nat {
    if steps == [] then 0 else
    1 + (if steps[0].If? then TreeSize(steps[0].thenSteps) + TreeSize(steps[0].elseSteps) else 0) + TreeSize(steps[1..])
  }

  lemma {:induction false} LongestFitsTree(steps: seq<Step>)
    ensures Longest(steps) <= TreeSize(steps)
    decreases steps
  {
    if steps != [] {
      if steps[0].If? {
        LongestFitsTree(steps[0].thenSteps);
        LongestFitsTree(steps[0].elseSteps);
      }
      LongestFitsTree(steps[1..]);
    }
  }

  lemma {:induction false} StepBurns(w: World, fuel: nat, st: State, step: Step)
    ensures RunStep(w, fuel, st, step).st.burned <= st.burned + LongestInside(step)
    decreases step
  {
    hide RunSteps, Longest;
    if step.If? {
      BurnsAtMostLongest(w, fuel, st, Null,
                         if Holds(w, st.vars, step.condition) then step.thenSteps else step.elseSteps);
    }
  }

  lemma {:induction false} BurnsAtMostLongest(w: World, fuel: nat, st: State, last: Value, steps: seq<Step>)
    ensures RunSteps(w, fuel, st, last, steps).st.burned <= st.burned + Longest(steps)
    decreases steps
  {
    hide RunStep, LongestInside;
    if steps != [] && st.burned < fuel {
      var charged := st.(burned := st.burned + 1);
      StepBurns(w, fuel, charged, steps[0]);
      var x := RunStep(w, fuel, charged, steps[0]);
      if x.r.Ok? && x.r.value.Next? { BurnsAtMostLongest(w, fuel, x.st, x.r.value.value, steps[1..]); }
    }
  }

  /** Fuel for the whole tree, even for its longest way through, never runs out. */
  lemma EnoughFuel(w: World, fuel: nat, args: Vars, steps: seq<Step>)
    requires Longest(steps) <= fuel || TreeSize(steps) <= fuel
    ensures !(RunProcedure(w, fuel, args, steps).r.Err? && RunProcedure(w, fuel, args, steps).r.error.FuelExhausted?)
  {
    LongestFitsTree(steps);
    BurnsAtMostLongest(w, fuel, State(args, 0, []), Null, steps);
    ExhaustedBurned(w, fuel, State(args, 0, []), Null, steps);
  }

  // --------------------------------------------- where the interpreters agree

  /** Steps on which the two interpreters cannot differ: no storage, plain literals, a return only at the end. */
  predicate Portable(steps: seq<Step>) {
    steps == [] || (PortableStep(steps[0], |steps| == 1) && Portable(steps[1..]))
  }

  /** The same outcome, variables and calls; only the executor does not count fuel. */
  predicate Agree(x: Ran<Value>, y: Ran<Value>) {
    x.r == y.r && x.st.vars == y.st.vars && x.st.trace == y.st.trace
  }

  predicate PortableStep(step: Step, isLast: bool) {
    match step
    case CallFunction(_, _) => true
    case SetVariable(_, value) => !IsReference(value)
    case If(_, whenTrue, whenFalse) => Portable(whenTrue) && Portable(whenFalse)
    case Return(_) => isLast
    case Fail(message) => !NamesVariable(message)
    case _ => false
  }

  /** A step done by both: the same value, and an early end only from a return. */
  ghost predicate StepAgrees(step: Step, x: Ran<Flow>, y: Ran<Value>) {
    && x.st.vars == y.st.vars && x.st.trace == y.st.trace
    && (x.r.Err? ==> y.r == Err(x.r.error))
    && (x.r.Ok? ==> y.r == Ok(x.r.value.value) && (x.r.value.Ended? ==> step.Return?))
  }

  lemma {:induction false} StepsAgree(w: World, fuel: nat, st: State, burned: nat, step: Step, isLast: bool)
    requires PortableStep(step, isLast) && st.burned + LongestInside(step) <= fuel
    ensures StepAgrees(step, RunStep(w, fuel, st, step), ExecuteStep(w, st.(burned := burned), step))
    decreases step
  {
    hide RunSteps, ExecuteSteps, Portable, Longest;
    if step.If? {
      InterpretersAgreeFrom(w, fuel, st, burned, Null,
                            if Holds(w, st.vars, step.condition) then step.thenSteps else step.elseSteps);
    }
  }

  lemma {:induction false} InterpretersAgreeFrom(w: World, fuel: nat, st: State, burned: nat, last: Value,
                                                 steps: seq<Step>)
    requires Portable(steps) && st.burned + Longest(steps) <= fuel
    ensures Agree(RunSteps(w, fuel, st, last, steps), ExecuteSteps(w, st.(burned := burned), last, steps))
    decreases steps
  {
    hide RunStep, ExecuteStep, LongestInside;
    if steps != [] {
      var charged := st.(burned := st.burned + 1);
      StepsAgree(w, fuel, charged, burned, steps[0], |steps| == 1);
      StepBurns(w, fuel, charged, steps[0]);
      assert charged.(burned := burned) == st.(burned := burned);
      var x, y := RunStep(w, fuel, charged, steps[0]), ExecuteStep(w, st.(burned := burned), steps[0]);
      if x.r.Ok? && x.r.value.Next? {
        assert x.st.(burned := y.st.burned) == y.st;
        InterpretersAgreeFrom(w, fuel, x.st, y.st.burned, x.r.value.value, steps[1..]);
      }
    }
  }

  /** On a portable procedure both interpreters return the same, leave the same variables and make the same calls. */
  lemma InterpretersAgree(w: World, fuel: nat, args: Vars, steps: seq<Step>)
    requires Portable(steps) && Longest(steps) <= fuel
    ensures Agree(RunProcedure(w, fuel, args, steps), ExecuteSteps(w, State(args, 0, []), Null, steps))
  {
    InterpretersAgreeFrom(w, fuel, State(args, 0, []), 0, Null, steps);
  }

  lemma AloneIsPortable(step: Step)
    requires PortableStep(step, true)
    ensures Portable([step]) && Longest([step]) == 1 + LongestInside(step)
  {
    hide PortableStep, LongestInside;
    var rest := [step][1..];
    assert rest == [] && Portable(rest) && Longest(rest) == 0;
  }

  lemma OneStepRun(w: World, fuel: nat, args: Vars, step: Step)
    requires fuel >= 1
    ensures var x := RunStep(w, fuel, State(args, 1, []), step);
      RunProcedure(w, fuel, args, [step]) == Ran(x.st, if x.r.Ok? then Ok(x.r.value.value) else Err(x.r.error))
  {
    var steps, st := [step], State(args, 0, []);
    assert steps[1..] == [] && st.(burned := 1) == State(args, 1, []);
    var x := RunStep(w, fuel, State(args, 1, []), step);
    if x.r.Ok? {
      assert RunSteps(w, fuel, x.st, x.r.value.value, steps[1..]) == Ran(x.st, Ok(x.r.value.value));
    }
    assert RunSteps(w, fuel, st, Null, steps).st == x.st;
  }

  /** Setting a variable means the same to both, whatever the variables, exactly for values that name no variable. */
  lemma SetVariableAgreesIff(w: World, fuel: nat, name: Text, value: Value)
    requires fuel >= 1
    ensures (forall args: Vars ::
               Agree(RunProcedure(w, fuel, args, [SetVariable(name, value)]),
                 ExecuteSteps(w, State(args, 0, []), Null, [SetVariable(name, value)])))
            <==> !IsReference(value)
  {
    var steps := [SetVariable(name, value)];
    if IsReference(value) {
      var none: Vars := map[];
      assert steps[1..] == [];
      assert RunStep(w, fuel, State(none, 1, []), steps[0]).r == Ok(Next(Null));
      OneStepRun(w, fuel, none, steps[0]);
      assert ExecuteSteps(w, State(none, 0, []), Null, steps).r == Ok(value);
    } else {
      forall args: Vars
        ensures Agree(RunProcedure(w, fuel, args, steps), ExecuteSteps(w, State(args, 0, []), Null, steps))
      {
        AloneIsPortable(steps[0]);
        InterpretersAgree(w, fuel, args, steps);
      }
    }
  }

  /** A step on storage is never the same to both. */
  lemma StorageStepsDisagree(w: World, fuel: nat, args: Vars, step: Step)
    requires fuel >= 1 && (step.Read? || step.Insert? || step.Update? || step.Delete?)
    ensures !Agree(RunProcedure(w, fuel, args, [step]), ExecuteSteps(w, State(args, 0, []), Null, [step]))
  {
    var steps := [step];
    assert steps[1..] == [];
    assert ExecuteStep(w, State(args, 0, []), steps[0]).r == Err(NeedsTransaction(step));
    var x := RunStep(w, fuel, State(args, 1, []), step);
    OneStepRun(w, fuel, args, step);
  }

  // A failure means the same to both, whatever the variables and their rendering, exactly when its message names none.
  lemma FailAgreesIff(w: World, fuel: nat, message: Text)
    requires fuel >= 1
    ensures (forall args: Vars, show: Value -> Text ::
               Agree(RunProcedure(w.(show := show), fuel, args, [Fail(message)]),
                     ExecuteSteps(w.(show := show), State(args, 0, []), Null, [Fail(message)])))
            <==> !NamesVariable(message)
  {
    forall args: Vars, show: Value -> Text
      ensures Agree(RunProcedure(w.(show := show), fuel, args, [Fail(message)]),
                    ExecuteSteps(w.(show := show), State(args, 0, []), Null, [Fail(message)]))
         <==> FailMessage(w.(show := show), args, message) == message
    {
      FailsWith(w.(show := show), fuel, args, message);
    }
    if NamesVariable(message) {
      var args: Vars, show: Value -> Text := map[message[1..] := Null], _ => [];
      assert FailMessage(w.(show := show), args, message) == [];
    }
  }

  lemma FailsWith(w: World, fuel: nat, args: Vars, message: Text)
    requires fuel >= 1
    ensures RunProcedure(w, fuel, args, [Fail(message)])
            == Ran(State(args, 1, []), Err(Abort(FailMessage(w, args, message))))
    ensures ExecuteSteps(w, State(args, 0, []), Null, [Fail(message)]) == Ran(State(args, 0, []), Err(Abort(message)))
  {
    OneStepRun(w, fuel, args, Fail(message));
  }

  predicate Flat(steps: seq<Step>) { forall i :: 0 <= i < |steps| ==> !steps[i].If? }

  predicate OnlyReturns(steps: seq<Step>) { forall i :: 0 <= i < |steps| ==> steps[i].Return? }

  lemma {:induction false} ExecuteReturns(w: World, st: State, last: Value, steps: seq<Step>)
    requires OnlyReturns(steps)
    ensures ExecuteSteps(w, st, last, steps)
         == Ran(st, Ok(if steps == [] then last else Resolve(st.vars, steps[|steps| - 1].value)))
    decreases steps
  {
    if steps != [] { ExecuteReturns(w, st, Resolve(st.vars, steps[0].value), steps[1..]); }
  }

  lemma {:induction false} ExecuteOnlyAdds(w: World, st: State, last: Value, steps: seq<Step>)
    requires Flat(steps)
    ensures st.trace <= ExecuteSteps(w, st, last, steps).st.trace
    ensures st.vars.Keys <= ExecuteSteps(w, st, last, steps).st.vars.Keys
    decreases steps
  {
    if steps != [] {
      var x := ExecuteStep(w, st, steps[0]);
      if x.r.Ok? { ExecuteOnlyAdds(w, x.st, x.r.value, steps[1..]); }
    }
  }

  /** Anything but returns shows: an error, a call or a variable. */
  lemma {:induction false} OtherStepsShow(w: World, st: State, last: Value, steps: seq<Step>)
    requires Flat(steps) && !OnlyReturns(steps)
    ensures var y := ExecuteSteps(w, st, last, steps); y.r.Err? || y.st.trace != st.trace || y.st.vars.Keys != {}
    decreases steps
  {
    var x := ExecuteStep(w, st, steps[0]);
    if x.r.Ok? {
      ExecuteOnlyAdds(w, x.st, x.r.value, steps[1..]);
      if steps[0].Return? {
        OtherStepsShow(w, x.st, x.r.value, steps[1..]);
      } else if steps[0].SetVariable? {
        assert steps[0].name in x.st.vars.Keys;
      }
    }
  }

  /**
   Steps behind a return, none of them an `If`, make no difference to either, whatever the
   variables, exactly when they are returns too and the last one returns the same.
   */
  lemma ReturnNotLastAgreesIff(w: World, fuel: nat, v: Value, rest: seq<Step>)
    requires fuel >= 1 && Flat(rest) && rest != []
    ensures (forall args: Vars ::
               Agree(RunProcedure(w, fuel, args, [Return(v)] + rest),
                 ExecuteSteps(w, State(args, 0, []), Null, [Return(v)] + rest)))
            <==> OnlyReturns(rest) && rest[|rest| - 1] == Return(v)
  {
    var steps := [Return(v)] + rest;
    forall args: Vars
      ensures RunProcedure(w, fuel, args, steps) == Ran(State(args, 1, []), Ok(Resolve(args, v)))
      ensures ExecuteSteps(w, State(args, 0, []), Null, steps)
              == ExecuteSteps(w, State(args, 0, []), Resolve(args, v), rest)
      ensures OnlyReturns(rest) ==>
        ExecuteSteps(w, State(args, 0, []), Resolve(args, v), rest)
        == Ran(State(args, 0, []), Ok(Resolve(args, rest[|rest| - 1].value)))
    {
      ReturnEndsItsList(w, fuel, State(args, 0, []), Null, v, rest);
      assert steps[0] == Return(v) && steps[1..] == rest;
      if OnlyReturns(rest) { ExecuteReturns(w, State(args, 0, []), Resolve(args, v), rest); }
    }
    var none: Vars := map[];
    if !OnlyReturns(rest) {
      OtherStepsShow(w, State(none, 0, []), Resolve(none, v), rest);
      assert !Agree(RunProcedure(w, fuel, none, steps), ExecuteSteps(w, State(none, 0, []), Null, steps));
    } else if rest[|rest| - 1] != Return(v) {
      var args := TellsApart(v, rest[|rest| - 1].value);
      assert !Agree(RunProcedure(w, fuel, args, steps), ExecuteSteps(w, State(args, 0, []), Null, steps));
    }
  }

  /** Two different values, as written, come to different values for some variables. */
  lemma TellsApart(u: Value, v: Value) returns (args: Vars)
    requires u != v
    ensures Resolve(args, u) != Resolve(args, v)
  {
    if !IsReference(u) && !IsReference(v) {
      args := map[];
    } else {
      var x := if IsReference(u) then u else v;
      var other := if IsReference(u) then v else u;
      if IsReference(other) {
        assert x.s == [DOLLAR] + x.s[1..] && other.s == [DOLLAR] + other.s[1..];
        args := map[x.s[1..] := Boolean(true)];
      } else {
        args := map[x.s[1..] := if other == Boolean(true) then Boolean(false) else Boolean(true)];
      }
    }
  }

  /**
   A return inside a branch ends that branch only: the steps behind the `If` still run,
   with the returned value as the value of the `If`.
   */
  lemma BranchReturnGoesOn(w: World, fuel: nat, st: State, last: Value, c: Condition, v: Value, rest: seq<Step>)
    requires st.burned + 2 <= fuel
    ensures RunSteps(w, fuel, st, last, [If(c, [Return(v)], [Return(v)])] + rest)
         == RunSteps(w, fuel, st.(burned := st.burned + 2), Resolve(st.vars, v), rest)
  {
    var branch := [Return(v)];
    var steps := [If(c, branch, branch)] + rest;
    assert steps[1..] == rest;
    var charged := st.(burned := st.burned + 1);
    assert RunSteps(w, fuel, charged, Null, branch) == Ran(st.(burned := st.burned + 2), Ok(Resolve(st.vars, v)));
  }

  /** A return in the list itself ends it: nothing behind it runs. */
  lemma ReturnEndsItsList(w: World, fuel: nat, st: State, last: Value, v: Value, rest: seq<Step>)
    requires st.burned < fuel
    ensures RunSteps(w, fuel, st, last, [Return(v)] + rest)
            == Ran(st.(burned := st.burned + 1), Ok(Resolve(st.vars, v)))
  {
    assert ([Return(v)] + rest)[0] == Return(v);
  }

  // ------------------------------------------------------- returning to the root

  /** The step list as the comment on it has it: a return anywhere ends the whole call. */
  function UnwindStep(w: World, fuel: nat, st: State, step: Step): Ran<Flow>
    decreases step
  {
    match step
    case If(c, whenTrue, whenFalse) =>
      UnwindSteps(w, fuel, st, Null, if Holds(w, st.vars, c) then whenTrue else whenFalse)
    case _ => RunStep(w, fuel, st, step)
  }

  function UnwindSteps(w: World, fuel: nat, st: State, last: Value, steps: seq<Step>): Ran<Flow>
    decreases steps
  {
    if steps == [] then Ran(st, Ok(Next(last))) else
    var charged := st.(burned := st.burned + 1);
    if charged.burned > fuel then Ran(charged, Err(FuelExhausted(charged.burned))) else
    var x := UnwindStep(w, fuel, charged, steps[0]);
    if x.r.Ok? && x.r.value.Next? then UnwindSteps(w, fuel, x.st, x.r.value.value, steps[1..]) else x
  }

  /** What a call comes to, however it ended. */
  function Outcome(x: Ran<Flow>): Ran<Value> {
    Ran(x.st, if x.r.Ok? then Ok(x.r.value.value) else Err(x.r.error))
  }

  /** On its way to a return inside a branch, the run leaves steps behind in a list around that branch. */
  predicate LeavesSteps(w: World, fuel: nat, st: State, last: Value, steps: seq<Step>)
    decreases steps
  {
    if steps == [] || st.burned >= fuel then false else
    var charged := st.(burned := st.burned + 1);
    var x := UnwindStep(w, fuel, charged, steps[0]);
    if x.r.Ok? && x.r.value.Next? then LeavesSteps(w, fuel, x.st, x.r.value.value, steps[1..])
    else if x.r.Ok? && steps[0].If? then
      steps[1..] != []
      || LeavesSteps(w, fuel, charged, Null, Taken(w, charged, steps[0]))
    else false
  }

  /** A branch that runs through or fails has left nothing behind. */
  lemma {:induction false} NothingLeftBehind(w: World, fuel: nat, st: State, last: Value, steps: seq<Step>)
    ensures LeavesSteps(w, fuel, st, last, steps) ==>
              UnwindSteps(w, fuel, st, last, steps).r.Ok? && UnwindSteps(w, fuel, st, last, steps).r.value.Ended?
    decreases steps
  {
    hide UnwindStep;
    if steps != [] && st.burned < fuel {
      var charged := st.(burned := st.burned + 1);
      var x := UnwindStep(w, fuel, charged, steps[0]);
      if x.r.Ok? && x.r.value.Next? { NothingLeftBehind(w, fuel, x.st, x.r.value.value, steps[1..]); }
    }
  }

  /** Runs compared: the same outcome, or more fuel burned where steps were left behind. */
  ghost predicate Compares(leaves: bool, run: Ran<Value>, unwound: Ran<Flow>) {
    if leaves then run.st.burned > unwound.st.burned else run == Outcome(unwound)
  }

  /** The branch that an `If` takes. */
  function Taken(w: World, st: State, step: Step): seq<Step>
    requires step.If?
  {
    if Holds(w, st.vars, step.condition) then step.thenSteps else step.elseSteps
  }

  lemma PlainStepsCompare(w: World, fuel: nat, st: State, step: Step)
    requires !step.If?
    ensures UnwindStep(w, fuel, st, step) == RunStep(w, fuel, st, step)
    ensures RunStep(w, fuel, st, step).r.Ok? && RunStep(w, fuel, st, step).r.value.Ended? ==> step.Return?
  {
    hide Holds, Resolve, ResolveAll, ResolveId, RowVars, FailMessage;
  }

  lemma BranchStepsCompare(w: World, fuel: nat, st: State, step: Step)
    requires step.If?
    ensures UnwindStep(w, fuel, st, step) == UnwindSteps(w, fuel, st, Null, Taken(w, st, step))
    ensures RunStep(w, fuel, st, step) == AsFlow(RunSteps(w, fuel, st, Null, Taken(w, st, step)))
  {
    hide Holds, RunSteps, UnwindSteps;
  }

  lemma {:induction false} RunsCompare(w: World, fuel: nat, st: State, last: Value, steps: seq<Step>)
    ensures Compares(LeavesSteps(w, fuel, st, last, steps),
                     RunSteps(w, fuel, st, last, steps), UnwindSteps(w, fuel, st, last, steps))
    decreases steps
  {
    hide UnwindStep, RunStep, Holds;
    if steps != [] && st.burned < fuel {
      var charged := st.(burned := st.burned + 1);
      var x := UnwindStep(w, fuel, charged, steps[0]);
      if steps[0].If? {
        var branch := Taken(w, charged, steps[0]);
        BranchStepsCompare(w, fuel, charged, steps[0]);
        RunsCompare(w, fuel, charged, Null, branch);
        NothingLeftBehind(w, fuel, charged, Null, branch);
        var y := RunSteps(w, fuel, charged, Null, branch);
        if y.r.Ok? { BurnsMore(w, fuel, y.st, y.r.value, steps[1..]); }
      } else {
        PlainStepsCompare(w, fuel, charged, steps[0]);
      }
      if x.r.Ok? && x.r.value.Next? { RunsCompare(w, fuel, x.st, x.r.value.value, steps[1..]); }
    }
  }

  /** Steps that are tried burn fuel. */
  lemma BurnsMore(w: World, fuel: nat, st: State, last: Value, steps: seq<Step>)
    ensures RunSteps(w, fuel, st, last, steps).st.burned >= st.burned + (if steps == [] then 0 else 1)
  {
    hide RunStep;
    if steps != [] && st.burned < fuel {
      var charged := st.(burned := st.burned + 1);
      StepOnlyAdds(w, fuel, charged, steps[0]);
      var x := RunStep(w, fuel, charged, steps[0]);
      if x.r.Ok? && x.r.value.Next? { RunOnlyAdds(w, fuel, x.st, x.r.value.value, steps[1..]); }
    }
  }

  /**
   A call ends as if returns ended the whole call, in result, variables, calls and fuel,
   exactly when no return that it reaches stands in a branch with steps behind it.
   */
  lemma UnwindsIff(w: World, fuel: nat, args: Vars, steps: seq<Step>)
    ensures RunProcedure(w, fuel, args, steps) == Outcome(UnwindSteps(w, fuel, State(args, 0, []), Null, steps))
       <==> !LeavesSteps(w, fuel, State(args, 0, []), Null, steps)
  {
    RunsCompare(w, fuel, State(args, 0, []), Null, steps);
  }

  /** A return somewhere in the step tree. */
  predicate Returns(steps: seq<Step>) {
    steps != [] && (
      || steps[0].Return?
      || (steps[0].If? && (Returns(steps[0].thenSteps) || Returns(steps[0].elseSteps)))
      || Returns(steps[1..]))
  }

  /** Every return inside a branch has nothing behind it in any list around the branch. */
  predicate ReturnsLast(steps: seq<Step>) {
    steps == [] || (
      && ReturnsLast(steps[1..])
      && (steps[0].If? ==>
            && (Returns(steps[0].thenSteps) || Returns(steps[0].elseSteps) ==> |steps| == 1)
            && ReturnsLast(steps[0].thenSteps) && ReturnsLast(steps[0].elseSteps)))
  }

  lemma {:induction false} EndedReturns(w: World, fuel: nat, st: State, last: Value, steps: seq<Step>)
    requires UnwindSteps(w, fuel, st, last, steps).r.Ok? && UnwindSteps(w, fuel, st, last, steps).r.value.Ended?
    ensures Returns(steps)
    decreases steps
  {
    hide UnwindStep, RunStep, Holds;
    var charged := st.(burned := st.burned + 1);
    var x := UnwindStep(w, fuel, charged, steps[0]);
    if x.r.Ok? && x.r.value.Next? {
      EndedReturns(w, fuel, x.st, x.r.value.value, steps[1..]);
    } else if steps[0].If? {
      BranchStepsCompare(w, fuel, charged, steps[0]);
      EndedReturns(w, fuel, charged, Null, Taken(w, charged, steps[0]));
    } else {
      PlainStepsCompare(w, fuel, charged, steps[0]);
    }
  }

  lemma {:induction false} LastReturnsLeaveNothing(w: World, fuel: nat, st: State, last: Value, steps: seq<Step>)
    requires ReturnsLast(steps)
    ensures !LeavesSteps(w, fuel, st, last, steps)
    decreases steps
  {
    hide Returns, UnwindStep, RunStep, Holds;
    if steps != [] && st.burned < fuel {
      var charged := st.(burned := st.burned + 1);
      var x := UnwindStep(w, fuel, charged, steps[0]);
      if x.r.Ok? && x.r.value.Next? {
        LastReturnsLeaveNothing(w, fuel, x.st, x.r.value.value, steps[1..]);
      } else if x.r.Ok? && steps[0].If? {
        var branch := Taken(w, charged, steps[0]);
        BranchStepsCompare(w, fuel, charged, steps[0]);
        EndedReturns(w, fuel, charged, Null, branch);
        LastReturnsLeaveNothing(w, fuel, charged, Null, branch);
      }
    }
  }

  /** So for every world, fuel and arguments when returns in branches stand last in every list around them. */
  lemma LastReturnsUnwind(w: World, fuel: nat, args: Vars, steps: seq<Step>)
    requires ReturnsLast(steps)
    ensures RunProcedure(w, fuel, args, steps) == Outcome(UnwindSteps(w, fuel, State(args, 0, []), Null, steps))
  {
    LastReturnsLeaveNothing(w, fuel, State(args, 0, []), Null, steps);
    UnwindsIff(w, fuel, args, steps);
  }

  /** For one branch that returns: the call ends with it exactly when nothing stands behind the `If`. */
  lemma BranchReturnEndsIff(w: World, fuel: nat, st: State, last: Value, c: Condition, v: Value, rest: seq<Step>)
    requires st.burned + 2 <= fuel
    ensures RunSteps(w, fuel, st, last, [If(c, [Return(v)], [Return(v)])] + rest)
            == Ran(st.(burned := st.burned + 2), Ok(Resolve(st.vars, v)))
       <==> rest == []
  {
    BranchReturnGoesOn(w, fuel, st, last, c, v, rest);
    BurnsMore(w, fuel, st.(burned := st.burned + 2), Resolve(st.vars, v), rest);
  }
}
