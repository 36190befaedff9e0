/** The two interpreters as the objects they are, tied to what running steps means. */
module ProcedureRunner {
  import opened Types
  import opened P = Procedures

  class Runner {
    const world: World
    const fuel: nat
    var variables: Vars
    var burned: nat
    var trace: seq<Call>

    constructor (world: World, fuel: nat, args: Vars)
      ensures this.world == world && this.fuel == fuel && Now() == State(args, 0, [])
    {
      this.world, this.fuel := world, fuel;
      variables, burned, trace := args, 0, [];
    }

    ghost function Now(): State
      reads this
    { State(variables, burned, trace) }

    method Charge() returns (r: Result<()>)
      modifies this`burned
      ensures burned == old(burned) + 1
      ensures r == if burned > fuel then Err(FuelExhausted(burned)) else Ok(())
    {
      burned := burned + 1;
      r := if burned > fuel then Err(FuelExhausted(burned)) else Ok(());
    }

    method Evaluate(c: Condition) returns (r: bool)
      ensures r == Holds(world, variables, c)
      decreases c
    {
      match c
      case Equals(x, e) => r := x in variables && variables[x] == P.Resolve(variables, e);
      case NotEquals(x, e) => r := x in variables && variables[x] != P.Resolve(variables, e);
      case IsNotNull(x) => r := x in variables && variables[x] != Null;
      case GreaterOrEqual(x, e) => r := x in variables && !world.less(variables[x], P.Resolve(variables, e));
      case LessThan(x, e) => r := x in variables && world.less(variables[x], P.Resolve(variables, e));
      case All(cs) =>
        for i := 0 to |cs|
          invariant forall j :: 0 <= j < i ==> Holds(world, variables, cs[j])
        {
          var one := Evaluate(cs[i]);
          if !one { return false; }
        }
        r := true;
      case Any(cs) =>
        for i := 0 to |cs|
          invariant forall j :: 0 <= j < i ==> !Holds(world, variables, cs[j])
        {
          var one := Evaluate(cs[i]);
          if one { return true; }
        }
        r := false;
    }

    /** Stores every column of a row, in whatever order the columns come. */
    method StoreColumns(into: Text, columns: map<Text, Value>)
      modifies this`variables
      ensures variables == old(variables) + ColumnVars(into, columns)
    {
      hide *;
      ghost var kept, stored: Vars := {}, map[];
      var left := columns.Keys;
      OnlyNoneAndAll(columns);
      NoColumns(into);
      OverNothing(variables);
      while left != {}
        invariant kept !! left && kept + left == columns.Keys
        invariant variables == old(variables) + stored && stored == ColumnVars(into, Only(columns, kept))
        decreases |left|
      {
        var c :| c in left;
        OneMoreColumn(into, columns, kept, c);
        OverThenOver(old(variables), stored, Field(into, c), columns[c]);
        variables := variables[Field(into, c) := columns[c]];
        stored := stored[Field(into, c) := columns[c]];
        kept, left := kept + {c}, left - {c};
      }
    }

    method StoreRow(into: Text, row: U64, columns: map<Text, Value>)
      modifies this`variables
      ensures variables == old(variables) + RowVars(into, row, columns)
    {
      hide ColumnVars, Field;
      variables := variables[Field(into, ID_FIELD) := UInt64(row)];
      StoreColumns(into, columns);
      OverOver(old(variables), map[Field(into, ID_FIELD) := UInt64(row)], ColumnVars(into, columns));
    }

    method ReadInto(table: Text, id: Value, into: Text) returns (r: Result<Flow>)
      modifies this
      ensures Ran(Now(), r) == ReadStep(world, old(Now()), table, id, into)
    {
      hide RowVars;
      var row: U64;
      match ResolveId(variables, id) {
        case Err(e) => return Err(e);
        case Ok(n) => row := n;
      }
      var a := world.read(trace, ReadRow(table, row));
      trace := trace + [ReadRow(table, row)];
      match a
      case Refused(code) => return Err(Backend(code));
      case Gave(None) => return Err(RowNotFound(table, row));
      case Gave(Some(columns)) =>
        StoreRow(into, row, columns);
        return Ok(Next(UInt64(row)));
    }

    method Buffer(call: Call, v: Value) returns (r: Result<Flow>)
      modifies this`trace
      ensures trace == old(trace) + [call]
      ensures r == match world.write(old(trace), call)
                   case Refused(code) => Err(Backend(code))
                   case Gave(_) => Ok(Next(v))
    {
      var a := world.write(trace, call);
      trace := trace + [call];
      r := match a case Refused(code) => Err(Backend(code)) case Gave(_) => Ok(Next(v));
    }

    method RunStep(step: Step) returns (r: Result<Flow>)
      modifies this
      ensures Ran(Now(), r) == P.RunStep(world, fuel, old(Now()), step)
      decreases step
    {
      hide P.RunSteps, Holds, ReadStep, FailMessage, P.Resolve, ResolveAll, ResolveId;
      match step
      case SetVariable(name, value) =>
        var v := P.Resolve(variables, value);
        variables := variables[name := v];
        r := Ok(Next(v));
      case CallFunction(f, args) =>
        var call := CallOut(f, ResolveAll(variables, args));
        var a := world.call(trace, call);
        trace := trace + [call];
        r := match a case Gave(v) => Ok(Next(v)) case Refused(code) => Err(Backend(code));
      case If(c, whenTrue, whenFalse) =>
        var holds := Evaluate(c);
        var v: Result<Value>;
        if holds { v := RunSteps(whenTrue); } else { v := RunSteps(whenFalse); }
        r := match v case Ok(x) => Ok(Next(x)) case Err(e) => Err(e);
      case Read(table, id, into) =>
        r := ReadInto(table, id, into);
      case Insert(table, values, into) =>
        r := Buffer(InsertRow(table, ResolveAll(variables, values)), UInt64(0));
        if r.Ok? { variables := variables[into := UInt64(0)]; }
      case Update(table, id, values) =>
        match ResolveId(variables, id) {
          case Err(e) => r := Err(e);
          case Ok(row) => r := Buffer(UpdateRow(table, row, ResolveAll(variables, values)), UInt64(row));
        }
      case Delete(table, id) =>
        match ResolveId(variables, id) {
          case Err(e) => r := Err(e);
          case Ok(row) => r := Buffer(DeleteRow(table, row), UInt64(row));
        }
      case Return(value) =>
        r := Ok(Ended(P.Resolve(variables, value)));
      case Fail(message) =>
        r := Err(Abort(FailMessage(world, variables, message)));
    }

    method RunSteps(steps: seq<Step>) returns (r: Result<Value>)
      modifies this
      ensures Ran(Now(), r) == P.RunSteps(world, fuel, old(Now()), Null, steps)
      decreases steps
    {
      hide P.RunStep;
      var last := Null;
      for i := 0 to |steps|
        invariant P.RunSteps(world, fuel, old(Now()), Null, steps) == P.RunSteps(world, fuel, Now(), last, steps[i..])
      {
        assert steps[i..][0] == steps[i] && steps[i..][1..] == steps[i + 1..];
        var charge := Charge();
        if charge.Err? { return Err(charge.error); }
        var flow := RunStep(steps[i]);
        match flow {
          case Err(e) => return Err(e);
          case Ok(Ended(v)) => return Ok(v);
          case Ok(Next(v)) => last := v;
        }
      }
      r := Ok(last);
    }
  }

  /** A call of a procedure on a backend. */
  method CallProcedure(world: World, fuel: nat, args: Vars, steps: seq<Step>)
    returns (r: Result<Value>, variables: Vars, trace: seq<Call>)
    ensures var x := RunProcedure(world, fuel, args, steps); r == x.r && variables == x.st.vars && trace == x.st.trace
  {
    var runner := new Runner(world, fuel, args);
    r := runner.RunSteps(steps);
    variables, trace := runner.variables, runner.trace;
  }

  function Only(columns: map<Text, Value>, keys: set<Text>): map<Text, Value> {
    map c | c in columns && c in keys :: columns[c]
  }

  /** What a variable of a read row holds: the column it is named after. */
  lemma ColumnVarsAt(into: Text, columns: map<Text, Value>, x: Text)
    ensures x in ColumnVars(into, columns) <==>
            |x| > |into| && x[|into| + 1..] in columns && x == Field(into, x[|into| + 1..])
    ensures x in ColumnVars(into, columns) ==> ColumnVars(into, columns)[x] == columns[x[|into| + 1..]]
  {
    if x in ColumnVars(into, columns) {
      var c :| c in columns.Keys && Field(into, c) == x;
      FieldColumn(into, c);
    }
  }

  lemma FieldColumn(into: Text, c: Text)
    ensures |Field(into, c)| > |into| && Field(into, c)[|into| + 1..] == c
  {
  }

  lemma OneMoreColumn(into: Text, columns: map<Text, Value>, keys: set<Text>, c: Text)
    requires c in columns && c !in keys && keys <= columns.Keys
    ensures ColumnVars(into, Only(columns, keys + {c}))
            == ColumnVars(into, Only(columns, keys))[Field(into, c) := columns[c]]
  {
    hide ColumnVars, Field;
    var x, y := ColumnVars(into, Only(columns, keys + {c})),
      ColumnVars(into, Only(columns, keys))[Field(into, c) := columns[c]];
    FieldColumn(into, c);
    forall k ensures (k in x <==> k in y) && (k in x ==> x[k] == y[k]) {
      ColumnVarsAt(into, Only(columns, keys + {c}), k);
      ColumnVarsAt(into, Only(columns, keys), k);
    }
    assert x.Keys == y.Keys;
  }

  lemma NoColumns(into: Text)
    ensures ColumnVars(into, map[]) == map[]
  {
  }

  lemma OnlyNoneAndAll(columns: map<Text, Value>)
    ensures Only(columns, {}) == map[] && Only(columns, columns.Keys) == columns
  {
  }

  lemma OverNothing(x: Vars)
    ensures x + map[] == x
  {
  }

  lemma OverOver(x: Vars, y: Vars, z: Vars)
    ensures (x + y) + z == x + (y + z)
  {
  }

  lemma OverThenOver(base: Vars, vars: Vars, k: Text, v: Value)
    ensures (base + vars)[k := v] == base + vars[k := v]
  {
  }

  class RuntimeExecutor {
    const world: World
    var procedures: map<Text, seq<Step>>
    var variables: Vars
    var trace: seq<Call>

    constructor (world: World)
      ensures this.world == world && procedures == map[] && Now() == State(map[], 0, [])
    {
      this.world := world;
      procedures, variables, trace := map[], map[], [];
    }

    ghost function Now(): State
      reads this
    { State(variables, 0, trace) }

    method RegisterProcedure(name: Text, steps: seq<Step>)
      modifies this`procedures
      ensures procedures == old(procedures)[name := steps]
    {
      procedures := procedures[name := steps];
    }

    method EvaluateCondition(c: Condition) returns (r: bool)
      ensures r == Holds(world, variables, c)
      decreases c
    {
      match c
      case Equals(x, e) => r := x in variables && variables[x] == P.Resolve(variables, e);
      case NotEquals(x, e) => r := x in variables && variables[x] != P.Resolve(variables, e);
      case GreaterOrEqual(x, e) => r := x in variables && !world.less(variables[x], P.Resolve(variables, e));
      case LessThan(x, e) => r := x in variables && world.less(variables[x], P.Resolve(variables, e));
      case IsNotNull(x) => r := x in variables && variables[x] != Null;
      case All(cs) =>
        for i := 0 to |cs|
          invariant forall j :: 0 <= j < i ==> Holds(world, variables, cs[j])
        {
          var one := EvaluateCondition(cs[i]);
          if !one { return false; }
        }
        r := true;
      case Any(cs) =>
        for i := 0 to |cs|
          invariant forall j :: 0 <= j < i ==> !Holds(world, variables, cs[j])
        {
          var one := EvaluateCondition(cs[i]);
          if one { return true; }
        }
        r := false;
    }

    method ExecuteStep(step: Step) returns (r: Result<Value>)
      modifies this`variables, this`trace
      ensures Ran(Now(), r) == P.ExecuteStep(world, old(Now()), step)
      decreases step, 0
    {
      match step
      case SetVariable(name, value) =>
        variables := variables[name := value];
        r := Ok(value);
      case CallFunction(f, args) =>
        var call := CallOut(f, ResolveAll(variables, args));
        var a := world.call(trace, call);
        trace := trace + [call];
        r := match a case Gave(v) => Ok(v) case Refused(code) => Err(Backend(code));
      case If(c, whenTrue, whenFalse) =>
        var holds := EvaluateCondition(c);
        r := ExecuteSteps(if holds then whenTrue else whenFalse);
      case Return(value) =>
        r := Ok(P.Resolve(variables, value));
      case Fail(message) =>
        r := Err(Abort(message));
      case _ =>
        r := Err(NeedsTransaction(step));
    }

    method ExecuteSteps(steps: seq<Step>) returns (r: Result<Value>)
      modifies this`variables, this`trace
      ensures Ran(Now(), r) == P.ExecuteSteps(world, old(Now()), Null, steps)
      decreases steps
    {
      hide P.ExecuteStep;
      var last := Null;
      for i := 0 to |steps|
        invariant P.ExecuteSteps(world, old(Now()), Null, steps) == P.ExecuteSteps(world, Now(), last, steps[i..])
      {
        assert steps[i..][0] == steps[i] && steps[i..][1..] == steps[i + 1..];
        var v := ExecuteStep(steps[i]);
        if v.Err? { return v; }
        last := v.value;
      }
      r := Ok(last);
    }

    method ExecuteProcedure(name: Text) returns (r: Result<Value>)
      modifies this`variables, this`trace
      ensures name !in procedures ==> r == Err(FunctionNotFound(name)) && Now() == old(Now())
      ensures name in procedures ==> Ran(Now(), r) == P.ExecuteSteps(world, old(Now()), Null, procedures[name])
    {
      if name !in procedures { return Err(FunctionNotFound(name)); }
      r := ExecuteSteps(procedures[name]);
    }
  }
}
