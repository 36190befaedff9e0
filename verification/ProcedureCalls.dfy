/**
 What the steps of a procedure ask of the backend and what they leave behind, said as
 relations between the states before and after, apart from the interpreter.
 */
module ProcedureCalls {
  import opened Types
  import opened Procedures

  // ---------------------------------------------------------- what steps ask

  /** What a value in a step stands for: `$x` for the variable x, null if there is none, anything else for itself. */
  predicate StandsFor(vars: Vars, v: Value, x: Value) {
    if v.String? && |v.s| > 0 && v.s[0] == 36 then x == (if v.s[1..] in vars then vars[v.s[1..]] else Null) else x == v
  }

  predicate AllStand(vars: Vars, args: map<Text, Value>, xs: map<Text, Value>) {
    xs.Keys == args.Keys && forall k :: k in args ==> StandsFor(vars, args[k], xs[k])
  }

  predicate IsRowNumber(x: Value, row: int) {
    row >= 0 && ((x.UInt64? && x.u64 == row) || (x.Int64? && x.i64 == row)
                 || (x.UInt32? && x.u32 == row) || (x.Int32? && x.i32 == row))
  }

  ghost predicate StandsForRow(vars: Vars, v: Value, row: int) {
    exists x :: StandsFor(vars, v, x) && IsRowNumber(x, row)
  }

  /** The call that a step makes when the variables are these. */
  ghost predicate Asks(step: Step, vars: Vars, call: Call) {
    match step
    case Read(t, id, _) => call.ReadRow? && call.table == t && StandsForRow(vars, id, call.row)
    case Insert(t, values, _) => call.InsertRow? && call.table == t && AllStand(vars, values, call.values)
    case Update(t, id, values) =>
      call.UpdateRow? && call.table == t && StandsForRow(vars, id, call.row) && AllStand(vars, values, call.values)
    case Delete(t, id) => call.DeleteRow? && call.table == t && StandsForRow(vars, id, call.row)
    case CallFunction(f, args) => call.CallOut? && call.callee == f && AllStand(vars, args, call.args)
    case _ => false
  }

  predicate IsCaller(step: Step) {
    step.Read? || step.Insert? || step.Update? || step.Delete? || step.CallFunction?
  }

  // ------------------------------------------------------- what steps leave

  function Bound(vars: Vars, x: Text): Option<Value> { if x in vars then Some(vars[x]) else None }

  /** The c of a variable that is called `into.c`. */
  function FieldOf(into: Text, x: Text): Option<Text> { if into + [46] <= x then Some(x[|into| + 1..]) else None }

  const ID: Text := [35, 105, 100]

  /** What variable `x` is after a row was read into `into`: a column, the id, or what it was. */
  function AfterRead(before: Vars, into: Text, row: U64, columns: map<Text, Value>, x: Text): Option<Value> {
    match FieldOf(into, x)
    case Some(c) => if c in columns then Some(columns[c]) else if c == ID then Some(UInt64(row)) else Bound(before, x)
    case None => Bound(before, x)
  }

  ghost predicate HoldsRow(before: Vars, after: Vars, into: Text, row: U64, columns: map<Text, Value>) {
    forall x :: Bound(after, x) == AfterRead(before, into, row, columns, x)
  }

  /** A step without branches has succeeded: from `st` to `after`, with value `v`. */
  ghost predicate Did(w: World, step: Step, st: State, after: State, v: Value) {
    && after.burned == st.burned
    && (if IsCaller(step) then
          exists call :: after.trace == st.trace + [call] && Answered(w, step, st, after.vars, call, v)
        else after.trace == st.trace && step.SetVariable? && StandsFor(st.vars, step.value, v)
             && after.vars == st.vars[step.name := v])
  }

  /** The call was the one asked for, the backend took it, and variables and value follow from its answer. */
  ghost predicate Answered(w: World, step: Step, st: State, vars: Vars, call: Call, v: Value) {
    && Asks(step, st.vars, call)
    && match step
       case CallFunction(_, _) => w.call(st.trace, call) == Gave(v) && vars == st.vars
       case Read(_, _, into) =>
         && w.read(st.trace, call).Gave? && w.read(st.trace, call).value.Some? && v == UInt64(call.row)
         && HoldsRow(st.vars, vars, into, call.row, w.read(st.trace, call).value.value)
       case Insert(_, _, into) => w.write(st.trace, call).Gave? && vars == st.vars[into := UInt64(0)] && v == UInt64(0)
       case Update(_, _, _) => w.write(st.trace, call).Gave? && vars == st.vars && v == UInt64(call.row)
       case Delete(_, _) => w.write(st.trace, call).Gave? && vars == st.vars && v == UInt64(call.row)
       case _ => false
  }

  /** A step without branches has failed with `e`; the calls made are those of `after`. */
  ghost predicate Stopped(w: World, step: Step, st: State, after: State, e: Error) {
    && after.burned == st.burned && after.vars == st.vars
    && match e
       case Abort(text) =>
         step.Fail? && after.trace == st.trace && Says(w, st.vars, step.message, text)
       case BadRowId(x) =>
         && (step.Read? || step.Update? || step.Delete?) && after.trace == st.trace
         && StandsFor(st.vars, step.id, x) && forall row :: !IsRowNumber(x, row)
       case RowNotFound(t, row) =>
         && step.Read? && Asks(step, st.vars, ReadRow(t, row)) && after.trace == st.trace + [ReadRow(t, row)]
         && w.read(st.trace, ReadRow(t, row)) == Gave(None)
       case Backend(code) =>
         exists call ::
           after.trace == st.trace + [call] && Asks(step, st.vars, call) && Refuses(w, st.trace, call, code)
       case _ => false
  }

  /** A message that names a bound variable is that variable as text, any other is itself. */
  predicate Says(w: World, vars: Vars, message: Text, text: Text) {
    if |message| > 0 && message[0] == 36 && message[1..] in vars then text == w.show(vars[message[1..]])
    else text == message
  }

  predicate Refuses(w: World, trace: seq<Call>, call: Call, code: nat) {
    match call
    case ReadRow(_, _) => w.read(trace, call) == Refused(code)
    case CallOut(_, _) => w.call(trace, call) == Refused(code)
    case _ => w.write(trace, call) == Refused(code)
  }

  // --------------------------------------------------- the interpreter does so

  lemma ResolvesTo(vars: Vars, v: Value, x: Value)
    ensures StandsFor(vars, v, x) <==> Resolve(vars, v) == x
  {
  }

  lemma ResolvesAll(vars: Vars, args: map<Text, Value>, xs: map<Text, Value>)
    ensures AllStand(vars, args, xs) <==> ResolveAll(vars, args) == xs
  {
    hide StandsFor, Resolve;
    forall k | k in args && k in xs { ResolvesTo(vars, args[k], xs[k]); }
    var ys := ResolveAll(vars, args);
    assert ys.Keys == args.Keys && forall k :: k in args ==> ys[k] == Resolve(vars, args[k]);
    if AllStand(vars, args, xs) {
      forall k | k in args ensures ys[k] == xs[k] { ResolvesTo(vars, args[k], xs[k]); }
    }
    if ys == xs {
      forall k | k in args ensures StandsFor(vars, args[k], xs[k]) { ResolvesTo(vars, args[k], xs[k]); }
    }
  }

  lemma ResolvesRow(vars: Vars, v: Value)
    ensures match ResolveId(vars, v)
            case Ok(row) =>
              && (forall n :: StandsForRow(vars, v, n) <==> n == row)
              && (forall x :: StandsFor(vars, v, x) ==> IsRowNumber(x, row))
            case Err(e) =>
              && e.BadRowId? && (forall x :: StandsFor(vars, v, x) <==> x == e.got)
              && (forall n :: !IsRowNumber(e.got, n))
    ensures ResolveId(vars, v).Err? ==> forall n :: !StandsForRow(vars, v, n)
  {
    var x := Resolve(vars, v);
    ResolvesTo(vars, v, x);
    forall y ensures StandsFor(vars, v, y) <==> y == x { ResolvesTo(vars, v, y); }
  }

  lemma ReadsRow(vars: Vars, after: Vars, into: Text, row: U64, columns: map<Text, Value>)
    ensures HoldsRow(vars, after, into, row, columns) <==> after == vars + RowVars(into, row, columns)
  {
    var goal := vars + RowVars(into, row, columns);
    forall x ensures Bound(goal, x) == AfterRead(vars, into, row, columns, x) {
      ReadsVariable(vars, into, row, columns, x);
    }
    if HoldsRow(vars, after, into, row, columns) {
      forall x ensures (x in after <==> x in goal) && (x in goal ==> after[x] == goal[x]) {
        assert Bound(after, x) == Bound(goal, x);
      }
    }
  }

  lemma ReadsVariable(vars: Vars, into: Text, row: U64, columns: map<Text, Value>, x: Text)
    ensures Bound(vars + RowVars(into, row, columns), x) == AfterRead(vars, into, row, columns, x)
  {
    FieldIsOf(into, x);
    match FieldOf(into, x)
    case Some(c) =>
      assert x == Field(into, c);
      assert c in columns <==> x in Fields(into, columns);
      assert c == ID <==> x == Field(into, ID_FIELD) by { FieldIsOf(into, Field(into, ID_FIELD)); }
    case None =>
  }

  lemma FieldIsOf(into: Text, x: Text)
    ensures FieldOf(into, x).Some? ==> x == Field(into, FieldOf(into, x).value)
    ensures forall c :: FieldOf(into, Field(into, c)) == Some(c)
  {
    if into + [46] <= x { assert x == x[..|into| + 1] + x[|into| + 1..]; }
    forall c ensures FieldOf(into, Field(into, c)) == Some(c) {
      assert Field(into, c)[|into| + 1..] == c;
    }
  }

  predicate Plain(step: Step) { !step.If? && !step.Return? }

  lemma CallDoes(w: World, fuel: nat, st: State, step: Step, after: State, v: Value)
    requires step.CallFunction? || step.Insert?
    ensures RunStep(w, fuel, st, step) == Ran(after, Ok(Next(v))) <==> Did(w, step, st, after, v)
    ensures forall e :: RunStep(w, fuel, st, step) == Ran(after, Err(e)) <==> Stopped(w, step, st, after, e)
  {
    hide AllStand, ResolveAll, StandsFor, Says, HoldsRow;
    var args := if step.Insert? then step.values else step.args;
    var xs := ResolveAll(st.vars, args);
    var call := if step.Insert? then InsertRow(step.table, xs) else CallOut(step.callee, xs);
    forall ys ensures AllStand(st.vars, args, ys) <==> ys == xs { ResolvesAll(st.vars, args, ys); }
    assert forall c :: Asks(step, st.vars, c) <==> c == call;
  }

  lemma ReadDoes(w: World, fuel: nat, st: State, step: Step, after: State, v: Value)
    requires step.Read?
    ensures RunStep(w, fuel, st, step) == Ran(after, Ok(Next(v))) <==> Did(w, step, st, after, v)
    ensures forall e :: RunStep(w, fuel, st, step) == Ran(after, Err(e)) <==> Stopped(w, step, st, after, e)
  {
    hide StandsFor, StandsForRow, ResolveId, IsRowNumber, Says, HoldsRow, RowVars;
    ResolvesRow(st.vars, step.id);
    match ResolveId(st.vars, step.id)
    case Ok(row) =>
      var call := ReadRow(step.table, row);
      assert forall c :: Asks(step, st.vars, c) <==> c == call;
      var answer := w.read(st.trace, call);
      if answer.Gave? && answer.value.Some? {
        ReadsRow(st.vars, after.vars, step.into, row, answer.value.value);
      }
    case Err(bad) => assert forall c :: !Asks(step, st.vars, c);
  }

  lemma UpdateDoes(w: World, fuel: nat, st: State, step: Step, after: State, v: Value)
    requires step.Update?
    ensures RunStep(w, fuel, st, step) == Ran(after, Ok(Next(v))) <==> Did(w, step, st, after, v)
    ensures forall e :: RunStep(w, fuel, st, step) == Ran(after, Err(e)) <==> Stopped(w, step, st, after, e)
  {
    hide AllStand, ResolveAll, StandsFor, StandsForRow, ResolveId, IsRowNumber, Says, HoldsRow;
    ResolvesRow(st.vars, step.id);
    var xs := ResolveAll(st.vars, step.values);
    forall ys ensures AllStand(st.vars, step.values, ys) <==> ys == xs { ResolvesAll(st.vars, step.values, ys); }
    match ResolveId(st.vars, step.id)
    case Ok(row) =>
      assert forall c :: Asks(step, st.vars, c) <==> c == UpdateRow(step.table, row, xs);
      assert st.vars + map[] == st.vars;
    case Err(bad) => assert forall c :: !Asks(step, st.vars, c);
  }

  lemma DeleteDoes(w: World, fuel: nat, st: State, step: Step, after: State, v: Value)
    requires step.Delete?
    ensures RunStep(w, fuel, st, step) == Ran(after, Ok(Next(v))) <==> Did(w, step, st, after, v)
    ensures forall e :: RunStep(w, fuel, st, step) == Ran(after, Err(e)) <==> Stopped(w, step, st, after, e)
  {
    hide StandsFor, StandsForRow, ResolveId, IsRowNumber, Says, HoldsRow;
    ResolvesRow(st.vars, step.id);
    match ResolveId(st.vars, step.id)
    case Ok(row) =>
      assert forall c :: Asks(step, st.vars, c) <==> c == DeleteRow(step.table, row);
      assert st.vars + map[] == st.vars;
    case Err(bad) => assert forall c :: !Asks(step, st.vars, c);
  }

  lemma OtherDoes(w: World, fuel: nat, st: State, step: Step, after: State, v: Value)
    requires step.SetVariable? || step.Fail?
    ensures RunStep(w, fuel, st, step) == Ran(after, Ok(Next(v))) <==> Did(w, step, st, after, v)
    ensures forall e :: RunStep(w, fuel, st, step) == Ran(after, Err(e)) <==> Stopped(w, step, st, after, e)
  {
    if step.SetVariable? {
      var x := Resolve(st.vars, step.value);
      ResolvesTo(st.vars, step.value, v);
      assert st.vars + map[step.name := x] == st.vars[step.name := x];
    }
  }

  /** A step without branches succeeds, and fails, exactly as the relations say. */
  lemma StepDoes(w: World, fuel: nat, st: State, step: Step, after: State, v: Value)
    requires Plain(step)
    ensures RunStep(w, fuel, st, step) == Ran(after, Ok(Next(v))) <==> Did(w, step, st, after, v)
    ensures forall e :: RunStep(w, fuel, st, step) == Ran(after, Err(e)) <==> Stopped(w, step, st, after, e)
  {
    hide Did, Stopped, RunStep;
    match step
    case CallFunction(_, _) => CallDoes(w, fuel, st, step, after, v);
    case Insert(_, _, _) => CallDoes(w, fuel, st, step, after, v);
    case Read(_, _, _) => ReadDoes(w, fuel, st, step, after, v);
    case Update(_, _, _) => UpdateDoes(w, fuel, st, step, after, v);
    case Delete(_, _) => DeleteDoes(w, fuel, st, step, after, v);
    case _ => OtherDoes(w, fuel, st, step, after, v);
  }

  // ------------------------------------------------------------- whole runs

  predicate PlainSteps(steps: seq<Step>) { forall i :: 0 <= i < |steps| ==> Plain(steps[i]) }

  function Charged(st: State): State { st.(burned := st.burned + 1) }

  /** Steps one after another, a unit of fuel each: the states before, between and after them, and their values. */
  ghost predicate DidAll(w: World, steps: seq<Step>, states: seq<State>, values: seq<Value>) {
    && |states| == |steps| + 1 && |values| == |steps|
    && forall i :: 0 <= i < |steps| ==> Did(w, steps[i], Charged(states[i]), states[i + 1], values[i])
  }

  function LastOf(values: seq<Value>, last: Value): Value { if values == [] then last else values[|values| - 1] }

  lemma DidMore(w: World, steps: seq<Step>, st: State, x: Value, states: seq<State>, values: seq<Value>)
    requires steps != [] && DidAll(w, steps[1..], states, values) && Did(w, steps[0], Charged(st), states[0], x)
    ensures DidAll(w, steps, [st] + states, [x] + values)
    ensures forall last :: LastOf([x] + values, last) == LastOf(values, x)
  {
    hide Did;
    var ss, vs := [st] + states, [x] + values;
    forall i | 0 <= i < |steps| ensures Did(w, steps[i], Charged(ss[i]), ss[i + 1], vs[i]) {
      if i > 0 { assert Did(w, steps[1..][i - 1], Charged(states[i - 1]), states[i], values[i - 1]); }
    }
  }

  lemma DidLess(w: World, steps: seq<Step>, states: seq<State>, values: seq<Value>)
    requires steps != [] && DidAll(w, steps, states, values)
    ensures Did(w, steps[0], Charged(states[0]), states[1], values[0])
    ensures DidAll(w, steps[1..], states[1..], values[1..])
    ensures forall last :: LastOf(values, last) == LastOf(values[1..], values[0])
  {
    hide Did;
    forall i | 0 <= i < |steps| - 1
      ensures Did(w, steps[1..][i], Charged(states[1..][i]), states[1..][i + 1], values[1..][i])
    {
      assert Did(w, steps[i + 1], Charged(states[i + 1]), states[i + 2], values[i + 1]);
    }
  }

  /** A run without branches that succeeds has gone step by step. */
  lemma {:induction false} PlainRunGoes(w: World, fuel: nat, st: State, last: Value, steps: seq<Step>)
    returns (states: seq<State>, values: seq<Value>)
    requires PlainSteps(steps) && RunSteps(w, fuel, st, last, steps).r.Ok?
    ensures DidAll(w, steps, states, values) && states[0] == st && (steps == [] || st.burned + |steps| <= fuel)
    ensures RunSteps(w, fuel, st, last, steps) == Ran(states[|steps|], Ok(LastOf(values, last)))
    decreases |steps|
  {
    hide Did, RunStep, RunSteps, Plain;
    RunUnfolds(w, fuel, st, last, steps);
    states, values := [st], [];
    if steps != [] {
      var r := RunStep(w, fuel, Charged(st), steps[0]);
      NeverEnds(w, fuel, Charged(st), steps[0]);
      var x := r.r.value.value;
      StepDoes(w, fuel, Charged(st), steps[0], r.st, x);
      BurnsNothing(w, steps[0], Charged(st), r.st, x);
      states, values := PlainRunGoes(w, fuel, r.st, x, steps[1..]);
      DidMore(w, steps, st, x, states, values);
      states, values := [st] + states, [x] + values;
    }
  }

  /** And what the steps do one by one is what the run does, given the fuel. */
  lemma {:induction false} StepsMakeRun(w: World, fuel: nat, last: Value, steps: seq<Step>,
                                        states: seq<State>, values: seq<Value>)
    requires PlainSteps(steps) && DidAll(w, steps, states, values)
    requires steps == [] || states[0].burned + |steps| <= fuel
    ensures RunSteps(w, fuel, states[0], last, steps) == Ran(states[|steps|], Ok(LastOf(values, last)))
    decreases |steps|
  {
    hide Did, RunStep, RunSteps, Plain;
    RunUnfolds(w, fuel, states[0], last, steps);
    if steps != [] {
      DidLess(w, steps, states, values);
      StepDoes(w, fuel, Charged(states[0]), steps[0], states[1], values[0]);
      BurnsNothing(w, steps[0], Charged(states[0]), states[1], values[0]);
      StepsMakeRun(w, fuel, values[0], steps[1..], states[1..], values[1..]);
    }
  }

  /** Without branches, a run succeeds exactly when its steps do, one after another, and the fuel lasts. */
  lemma PlainRunIff(w: World, fuel: nat, st: State, last: Value, steps: seq<Step>, end: State, v: Value)
    requires PlainSteps(steps)
    ensures RunSteps(w, fuel, st, last, steps) == Ran(end, Ok(v)) <==>
            (steps == [] || st.burned + |steps| <= fuel)
            && exists states, values :: DidAll(w, steps, states, values) && states[0] == st
                                        && end == states[|steps|] && v == LastOf(values, last)
  {
    hide Did, RunSteps;
    if RunSteps(w, fuel, st, last, steps) == Ran(end, Ok(v)) {
      var states, values := PlainRunGoes(w, fuel, st, last, steps);
    }
    forall states, values | (steps == [] || st.burned + |steps| <= fuel) && DidAll(w, steps, states, values)
                            && states[0] == st
      ensures RunSteps(w, fuel, st, last, steps) == Ran(states[|steps|], Ok(LastOf(values, last)))
    {
      StepsMakeRun(w, fuel, last, steps, states, values);
    }
  }

  lemma RunUnfolds(w: World, fuel: nat, st: State, last: Value, steps: seq<Step>)
    ensures steps == [] ==> RunSteps(w, fuel, st, last, steps) == Ran(st, Ok(last))
    ensures steps != [] && st.burned >= fuel ==> RunSteps(w, fuel, st, last, steps).r.Err?
    ensures steps != [] && st.burned < fuel ==>
      var x := RunStep(w, fuel, Charged(st), steps[0]);
      && (x.r.Err? ==> RunSteps(w, fuel, st, last, steps).r.Err?)
      && (x.r.Ok? && x.r.value.Next? ==>
            RunSteps(w, fuel, st, last, steps) == RunSteps(w, fuel, x.st, x.r.value.value, steps[1..]))
  {
    hide RunStep;
  }

  lemma BurnsNothing(w: World, step: Step, st: State, after: State, v: Value)
    ensures Did(w, step, st, after, v) ==> after.burned == st.burned
  {
  }

  lemma NeverEnds(w: World, fuel: nat, st: State, step: Step)
    requires Plain(step)
    ensures RunStep(w, fuel, st, step).r.Ok? ==> RunStep(w, fuel, st, step).r.value.Next?
  {
  }

  /** The one call that the step asks for, or none if it asks for none. */
  ghost predicate OneCall(step: Step, before: State, after: State) {
    if IsCaller(step) then exists call :: after.trace == before.trace + [call] && Asks(step, before.vars, call)
    else after.trace == before.trace
  }

  /**
   A run without branches that succeeds makes, for each step that asks for one and in their
   order, one call: the one that the step asks for with the variables as they are then.
   */
  lemma CallsInOrder(w: World, fuel: nat, st: State, last: Value, steps: seq<Step>)
    returns (states: seq<State>)
    requires PlainSteps(steps) && RunSteps(w, fuel, st, last, steps).r.Ok?
    ensures |states| == |steps| + 1 && states[0] == st
    ensures forall i :: 0 <= i < |steps| ==> OneCall(steps[i], states[i], states[i + 1])
    ensures RunSteps(w, fuel, st, last, steps).st == states[|steps|]
    ensures forall i :: 0 <= i <= |steps| ==> states[i].burned == st.burned + i
  {
    hide RunSteps, Asks, Plain, HoldsRow;
    var values;
    states, values := PlainRunGoes(w, fuel, st, last, steps);
    forall i | 0 <= i < |steps|
      ensures OneCall(steps[i], states[i], states[i + 1])
      ensures states[i + 1].burned == states[i].burned + 1
    {
      assert Did(w, steps[i], Charged(states[i]), states[i + 1], values[i]);
    }
    CountsUp(states);
  }

  lemma {:induction false} CountsUp(states: seq<State>)
    requires states != [] && forall i :: 0 <= i < |states| - 1 ==> states[i + 1].burned == states[i].burned + 1
    ensures forall i :: 0 <= i < |states| ==> states[i].burned == states[0].burned + i
    decreases |states|
  {
    var n := |states| - 1;
    if n > 0 {
      var init := states[..n];
      forall i | 0 <= i < n - 1 ensures init[i + 1].burned == init[i].burned + 1 {
        assert states[i + 1].burned == states[i].burned + 1;
      }
      CountsUp(init);
      assert states[n - 1 + 1].burned == states[n - 1].burned + 1 && states[n - 1] == init[n - 1];
    }
  }

  /** The step stands somewhere in the tree. */
  predicate InTree(step: Step, steps: seq<Step>)
    decreases steps
  {
    steps != [] && (steps[0] == step || InTree(step, steps[1..])
                    || (steps[0].If? && (InTree(step, steps[0].thenSteps) || InTree(step, steps[0].elseSteps))))
  }

  /** Some step of the tree asks for the call. */
  ghost predicate AskedInTree(steps: seq<Step>, call: Call) {
    exists step, vars :: InTree(step, steps) && Asks(step, vars, call)
  }

  ghost predicate NewCallsAsked(steps: seq<Step>, before: seq<Call>, after: seq<Call>) {
    before <= after && forall k :: |before| <= k < |after| ==> AskedInTree(steps, after[k])
  }

  lemma SmallerTree(small: seq<Step>, large: seq<Step>, before: seq<Call>, after: seq<Call>)
    requires NewCallsAsked(small, before, after) && forall step :: InTree(step, small) ==> InTree(step, large)
    ensures NewCallsAsked(large, before, after)
  {
    hide InTree, Asks;
    forall k | |before| <= k < |after| ensures AskedInTree(large, after[k]) {
      var step, vars :| InTree(step, small) && Asks(step, vars, after[k]);
      assert InTree(step, large);
    }
  }

  lemma OneStepAsks(w: World, fuel: nat, st: State, step: Step)
    requires Plain(step) || step.Return?
    ensures AskedByOne(step, st, RunStep(w, fuel, st, step).st)
  {
    if Plain(step) {
      hide RunStep, Did, Stopped, AskedByOne;
      var x := RunStep(w, fuel, st, step);
      NeverEnds(w, fuel, st, step);
      StepDoes(w, fuel, st, step, x.st, if x.r.Ok? then x.r.value.value else Null);
      if x.r.Ok? {
        DidAsks(w, step, st, x.st, x.r.value.value);
      } else {
        StoppedAsks(w, step, st, x.st, x.r.error);
      }
    }
  }

  ghost predicate AskedByOne(step: Step, before: State, after: State) {
    after.trace == before.trace || exists call :: after.trace == before.trace + [call] && Asks(step, before.vars, call)
  }

  lemma DidAsks(w: World, step: Step, st: State, after: State, v: Value)
    requires Did(w, step, st, after, v)
    ensures AskedByOne(step, st, after)
  {
    hide Asks, HoldsRow;
  }

  lemma StoppedAsks(w: World, step: Step, st: State, after: State, e: Error)
    requires Stopped(w, step, st, after, e)
    ensures AskedByOne(step, st, after)
  {
    hide Asks, Says, Refuses;
    if e.Backend? {
      var call :| after.trace == st.trace + [call] && Asks(step, st.vars, call) && Refuses(w, st.trace, call, e.code);
    } else if e.RowNotFound? {
      assert Asks(step, st.vars, ReadRow(e.table, e.row));
    }
  }

  /** Whatever the branches, every call of a run is one that a step of the procedure asks for. */
  lemma {:induction false} CallsAreAsked(w: World, fuel: nat, st: State, last: Value, steps: seq<Step>)
    ensures NewCallsAsked(steps, st.trace, RunSteps(w, fuel, st, last, steps).st.trace)
    decreases steps
  {
    hide RunStep, Asks, Holds, AskedInTree;
    if steps != [] && st.burned < fuel {
      var charged, step := st.(burned := st.burned + 1), steps[0];
      var x := RunStep(w, fuel, charged, step);
      if step.If? {
        var inner := if Holds(w, st.vars, step.condition) then step.thenSteps else step.elseSteps;
        CallsAreAsked(w, fuel, charged, Null, inner);
        BranchRuns(w, fuel, charged, step);
        SmallerTree(inner, steps, st.trace, x.st.trace);
      } else {
        OneStepAsks(w, fuel, charged, step);
        HeadAsks(steps, st.vars);
      }
      if x.r.Ok? && x.r.value.Next? {
        CallsAreAsked(w, fuel, x.st, x.r.value.value, steps[1..]);
        SmallerTree(steps[1..], steps, x.st.trace, RunSteps(w, fuel, st, last, steps).st.trace);
      }
    }
  }

  lemma HeadAsks(steps: seq<Step>, vars: Vars)
    requires steps != []
    ensures forall call :: Asks(steps[0], vars, call) ==> AskedInTree(steps, call)
  {
    hide Asks;
    assert InTree(steps[0], steps);
  }

  lemma BranchRuns(w: World, fuel: nat, st: State, step: Step)
    requires step.If?
    ensures RunStep(w, fuel, st, step).st
         == RunSteps(w, fuel, st, Null, if Holds(w, st.vars, step.condition) then step.thenSteps else step.elseSteps).st
  {
  }

  // ------------------------------------------------- over a store of rows

  type Store = map<(Text, U64), map<Text, Value>>

  /**
   The rows a backend holds after the calls it has taken: inserted rows under ids of its
   own choosing, updated rows overwritten, deleted rows gone. A refused call does nothing.
   */
  function Rows(w: World, newId: seq<Call> -> U64, start: Store, trace: seq<Call>): Store
    decreases |trace|
  {
    if trace == [] then start else
    var init, call := trace[..|trace| - 1], trace[|trace| - 1];
    var rows := Rows(w, newId, start, init);
    if call.ReadRow? || call.CallOut? || w.write(init, call).Refused? then rows else
    match call
    case InsertRow(t, values) => rows[(t, newId(init)) := values]
    case UpdateRow(t, row, values) =>
      if (t, row) in rows then rows[(t, row) := rows[(t, row)] + values] else rows
    case DeleteRow(t, row) => rows - {(t, row)}
    case _ => rows
  }

  /** The backend answers from its rows, its own earlier writes included, and refuses to write to a missing one. */
  ghost predicate Backed(w: World, newId: seq<Call> -> U64, start: Store) {
    forall trace, t: Text, row: U64 ::
      && w.read(trace, ReadRow(t, row)) == Gave(Find(Rows(w, newId, start, trace), t, row))
      && (w.write(trace, DeleteRow(t, row)).Gave? ==> (t, row) in Rows(w, newId, start, trace))
      && forall values :: w.write(trace, UpdateRow(t, row, values)).Gave? ==> (t, row) in Rows(w, newId, start, trace)
  }

  function Find(rows: Store, t: Text, row: U64): Option<map<Text, Value>> {
    if (t, row) in rows then Some(rows[(t, row)]) else None
  }

  lemma RowsAfter(w: World, newId: seq<Call> -> U64, start: Store, trace: seq<Call>, call: Call)
    ensures var rows, after := Rows(w, newId, start, trace), Rows(w, newId, start, trace + [call]);
      && (call.ReadRow? || call.CallOut? ==> after == rows)
      && (call.DeleteRow? && w.write(trace, call).Gave? ==> after == rows - {(call.table, call.row)})
      && (call.UpdateRow? && w.write(trace, call).Gave? && (call.table, call.row) in rows ==>
            after == rows[(call.table, call.row) := rows[(call.table, call.row)] + call.values])
  {
    assert (trace + [call])[..|trace|] == trace;
  }

  /** A delete that succeeds removes the row its id stands for, which was there, and no other. */
  lemma DeleteRemoves(w: World, newId: seq<Call> -> U64, start: Store, fuel: nat, st: State, t: Text, id: Value,
                      row: U64)
    requires Backed(w, newId, start) && StandsForRow(st.vars, id, row)
    requires RunStep(w, fuel, st, Delete(t, id)).r.Ok?
    ensures var rows := Rows(w, newId, start, st.trace);
      (t, row) in rows && Rows(w, newId, start, RunStep(w, fuel, st, Delete(t, id)).st.trace) == rows - {(t, row)}
  {
    hide RunStep, Rows, StandsForRow, Backed;
    var step, x := Delete(t, id), RunStep(w, fuel, st, Delete(t, id));
    NeverEnds(w, fuel, st, step);
    StepDoes(w, fuel, st, step, x.st, x.r.value.value);
    ResolvesRow(st.vars, id);
    var call :| x.st.trace == st.trace + [call] && Answered(w, step, st, x.st.vars, call, x.r.value.value);
    assert call == DeleteRow(t, row);
    RowsAfter(w, newId, start, st.trace, call);
    WriteHits(w, newId, start, st.trace, t, row, map[]);
  }

  lemma WriteHits(w: World, newId: seq<Call> -> U64, start: Store, trace: seq<Call>, t: Text, row: U64,
                  values: map<Text, Value>)
    requires Backed(w, newId, start)
    ensures w.write(trace, DeleteRow(t, row)).Gave? || w.write(trace, UpdateRow(t, row, values)).Gave? ==>
            (t, row) in Rows(w, newId, start, trace)
    ensures w.read(trace, ReadRow(t, row)) == Gave(Find(Rows(w, newId, start, trace), t, row))
  {
  }

  /** An update that succeeds overwrites the row its id stands for with what its values stand for. */
  lemma UpdateOverwrites(w: World, newId: seq<Call> -> U64, start: Store, fuel: nat, st: State, t: Text, id: Value,
                         row: U64, values: map<Text, Value>, xs: map<Text, Value>)
    requires Backed(w, newId, start) && StandsForRow(st.vars, id, row) && AllStand(st.vars, values, xs)
    requires RunStep(w, fuel, st, Update(t, id, values)).r.Ok?
    ensures var rows := Rows(w, newId, start, st.trace);
      && (t, row) in rows
      && Rows(w, newId, start, RunStep(w, fuel, st, Update(t, id, values)).st.trace)
      == rows[(t, row) := rows[(t, row)] + xs]
  {
    hide RunStep, Rows, StandsForRow, AllStand, Backed;
    var step, x := Update(t, id, values), RunStep(w, fuel, st, Update(t, id, values));
    NeverEnds(w, fuel, st, step);
    StepDoes(w, fuel, st, step, x.st, x.r.value.value);
    ResolvesRow(st.vars, id);
    var call :| x.st.trace == st.trace + [call] && Answered(w, step, st, x.st.vars, call, x.r.value.value);
    ResolvesAll(st.vars, values, xs);
    ResolvesAll(st.vars, values, call.values);
    assert call == UpdateRow(t, row, xs);
    RowsAfter(w, newId, start, st.trace, call);
    WriteHits(w, newId, start, st.trace, t, row, xs);
  }

  /** A read that succeeds found the row as it is, and leaves its columns in variables. */
  lemma ReadFinds(w: World, newId: seq<Call> -> U64, start: Store, fuel: nat, st: State, t: Text, id: Value, into: Text,
                  row: U64, c: Text)
    requires Backed(w, newId, start) && StandsForRow(st.vars, id, row)
    ensures var x, found := RunStep(w, fuel, st, Read(t, id, into)), Find(Rows(w, newId, start, st.trace), t, row);
      && (x.r.Ok? <==> found.Some?) && (found.None? ==> x.r == Err(RowNotFound(t, row)))
      && (found.Some? && c in found.value ==> Bound(x.st.vars, into + [46] + c) == Some(found.value[c]))
      && Rows(w, newId, start, x.st.trace) == Rows(w, newId, start, st.trace)
  {
    hide RunStep, Rows, StandsForRow, Backed;
    var step, x := Read(t, id, into), RunStep(w, fuel, st, Read(t, id, into));
    NeverEnds(w, fuel, st, step);
    StepDoes(w, fuel, st, step, x.st, if x.r.Ok? then x.r.value.value else Null);
    ResolvesRow(st.vars, id);
    WriteHits(w, newId, start, st.trace, t, row, map[]);
    RowsAfter(w, newId, start, st.trace, ReadRow(t, row));
    FieldIsOf(into, into + [46] + c);
    if x.r.Ok? {
      var call :| x.st.trace == st.trace + [call] && Answered(w, step, st, x.st.vars, call, x.r.value.value);
      assert call == ReadRow(t, row);
      assert Bound(x.st.vars, into + [46] + c)
          == AfterRead(st.vars, into, row, w.read(st.trace, call).value.value, into + [46] + c);
    } else {
      assert Stopped(w, step, st, x.st, x.r.error);
    }
  }

  /** What a procedure has written it reads back: the columns it updated, and nothing of a row it deleted. */
  lemma WrittenIsRead(w: World, newId: seq<Call> -> U64, start: Store, fuel: nat, args: Vars, write: Step, into: Text,
                      row: U64, xs: map<Text, Value>, c: Text)
    requires fuel >= 2 && Backed(w, newId, start)
    requires write.Update? || write.Delete?
    requires StandsForRow(args, write.id, row) && (write.Update? ==> AllStand(args, write.values, xs) && c in xs)
    requires RunProcedure(w, fuel, args, [write]).r.Ok?
    ensures var x := RunProcedure(w, fuel, args, [write, Read(write.table, write.id, into)]);
      if write.Delete? then x.r == Err(RowNotFound(write.table, row))
      else x.r == Ok(UInt64(row)) && Bound(x.st.vars, into + [46] + c) == Some(xs[c])
  {
    hide RunStep, RunSteps, Rows, StandsForRow, AllStand, Backed, Bound, Find;
    var st, read := Charged(State(args, 0, [])), Read(write.table, write.id, into);
    var x := RunStep(w, fuel, st, write);
    NeverEnds(w, fuel, st, write);
    RunUnfolds(w, fuel, State(args, 0, []), Null, [write]);
    RunUnfolds(w, fuel, State(args, 0, []), Null, [write, read]);
    assert [write, read][1..] == [read];
    WriteKeepsVars(w, fuel, st, write);
    var table, rows := write.table, Rows(w, newId, start, st.trace);
    if write.Delete? {
      DeleteRemoves(w, newId, start, fuel, st, table, write.id, row);
      FindGone(rows, table, row);
    } else {
      UpdateOverwrites(w, newId, start, fuel, st, table, write.id, row, write.values, xs);
      FindUpdated(rows, table, row, xs);
    }
    ReadFinds(w, newId, start, fuel, Charged(x.st), table, write.id, into, row, c);
    LastStep(w, fuel, x.st, x.r.value.value, read);
    ReadIs(w, fuel, Charged(x.st), read, row);
  }

  lemma FindGone(rows: Store, t: Text, row: U64)
    ensures Find(rows - {(t, row)}, t, row) == None
  {
  }

  lemma FindUpdated(rows: Store, t: Text, row: U64, xs: map<Text, Value>)
    requires (t, row) in rows
    ensures Find(rows[(t, row) := rows[(t, row)] + xs], t, row) == Some(rows[(t, row)] + xs)
  {
  }

  lemma WriteKeepsVars(w: World, fuel: nat, st: State, step: Step)
    requires (step.Update? || step.Delete?) && RunStep(w, fuel, st, step).r.Ok?
    ensures var x := RunStep(w, fuel, st, step).st; x.vars == st.vars && x.burned == st.burned
  {
  }

  lemma ReadIs(w: World, fuel: nat, st: State, step: Step, row: U64)
    requires step.Read? && StandsForRow(st.vars, step.id, row)
    ensures RunStep(w, fuel, st, step).r.Ok? ==> RunStep(w, fuel, st, step).r.value == Next(UInt64(row))
  {
    hide StandsForRow, ResolveId;
    ResolvesRow(st.vars, step.id);
  }

  lemma LastStep(w: World, fuel: nat, st: State, last: Value, step: Step)
    requires st.burned < fuel && Plain(step)
    ensures var x := RunStep(w, fuel, Charged(st), step);
      RunSteps(w, fuel, st, last, [step]) == Ran(x.st, if x.r.Ok? then Ok(x.r.value.value) else Err(x.r.error))
  {
    hide RunStep;
    NeverEnds(w, fuel, Charged(st), step);
    assert [step][1..] == [];
  }

  // ---------------------------------------------------------------- branches

  /** The order of values puts integers by size. */
  ghost predicate OrdersIntegers(w: World) { forall m: I64, n: I64 :: w.less(Int64(m), Int64(n)) <==> m < n }

  /** What the conditions on an integer variable say, and on one that is not there. */
  lemma ConditionsSay(w: World, vars: Vars, x: Text, m: I64, n: I64)
    requires OrdersIntegers(w) && Bound(vars, x) == Some(Int64(m))
    ensures Holds(w, vars, Equals(x, Int64(n))) <==> m == n
    ensures Holds(w, vars, NotEquals(x, Int64(n))) <==> m != n
    ensures Holds(w, vars, GreaterOrEqual(x, Int64(n))) <==> m >= n
    ensures Holds(w, vars, LessThan(x, Int64(n))) <==> m < n
    ensures Holds(w, vars, IsNotNull(x))
  {
  }

  lemma UnboundFails(w: World, vars: Vars, x: Text, v: Value)
    requires x !in vars || vars[x] == Null
    ensures !Holds(w, vars, IsNotNull(x))
    ensures x !in vars ==> !Holds(w, vars, Equals(x, v)) && !Holds(w, vars, NotEquals(x, v))
    ensures x !in vars ==> !Holds(w, vars, GreaterOrEqual(x, v)) && !Holds(w, vars, LessThan(x, v))
  {
  }

  /** Conditions compare with what their value stands for, not with the reference. */
  lemma ComparesResolved(w: World, vars: Vars, x: Text, v: Value, y: Value)
    requires StandsFor(vars, v, y) && !IsReference(y)
    ensures Holds(w, vars, Equals(x, v)) <==> Holds(w, vars, Equals(x, y))
    ensures Holds(w, vars, NotEquals(x, v)) <==> Holds(w, vars, NotEquals(x, y))
    ensures Holds(w, vars, GreaterOrEqual(x, v)) <==> Holds(w, vars, GreaterOrEqual(x, y))
    ensures Holds(w, vars, LessThan(x, v)) <==> Holds(w, vars, LessThan(x, y))
  {
    ResolvesTo(vars, v, y);
  }

  /** One false condition fails a conjunction, one true condition makes a disjunction; empty ones hold and fail. */
  lemma {:induction false} AllAndAny(w: World, vars: Vars, cs: seq<Condition>, c: Condition)
    ensures Holds(w, vars, All([])) && !Holds(w, vars, Any([]))
    ensures Holds(w, vars, All(cs + [c])) <==> Holds(w, vars, All(cs)) && Holds(w, vars, c)
    ensures Holds(w, vars, Any(cs + [c])) <==> Holds(w, vars, Any(cs)) || Holds(w, vars, c)
  {
    var more := cs + [c];
    assert more[|cs|] == c && forall i :: 0 <= i < |cs| ==> more[i] == cs[i];
    if Holds(w, vars, Any(cs)) {
      var i :| 0 <= i < |cs| && Holds(w, vars, cs[i]);
      assert Holds(w, vars, more[i]);
    }
    if Holds(w, vars, c) { assert Holds(w, vars, more[|cs|]); }
  }

  /** An If runs its first branch when the condition holds and its second when not, and has that branch's value. */
  lemma IfRunsBranch(w: World, fuel: nat, st: State, x: Text, m: I64, n: I64, whenTrue: seq<Step>, whenFalse: seq<Step>)
    requires OrdersIntegers(w) && Bound(st.vars, x) == Some(Int64(m)) && st.burned < fuel
    ensures RunSteps(w, fuel, st, Null, [If(GreaterOrEqual(x, Int64(n)), whenTrue, whenFalse)])
         == RunSteps(w, fuel, Charged(st), Null, if m >= n then whenTrue else whenFalse)
  {
    var step := If(GreaterOrEqual(x, Int64(n)), whenTrue, whenFalse);
    hide Holds;
    ConditionsSay(w, st.vars, x, m, n);
    assert [step][1..] == [];
  }
}
