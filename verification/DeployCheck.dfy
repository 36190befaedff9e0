/**
 What a procedure is checked for when it is deployed, and what the check buys when the
 procedure runs. Lengths of names and texts are in bytes.
 */
module DeployCheck {
  import opened Types
  import opened Procedures
  import ProcedureCalls

  const MAX_DEPLOY_STEPS := 256
  const MAX_DEPLOY_DEPTH := 16
  const MAX_NAME_LEN := 128
  const MAX_TEXT_LEN := 1024
  const DEFAULT_FUEL := 10_000

  datatype Reason =
    | BadName | BadTable | TextTooLong | NoSteps | TooManySteps | TooDeep | UnknownFunction(name: Text)
    | TooManyEntries | BranchTooLarge | ConditionTooLarge | ValueTooLarge

  /** None: the check passes. */
  type Verdict = Option<Reason>

  function Then(first: Verdict, second: Verdict): Verdict { if first.Some? then first else second }

  predicate NameByte(c: byte) {
    48 <= c <= 57 || 65 <= c <= 90 || 97 <= c <= 122 || c == 95 || c == 58 || c == 46 || c == 45 || c == 47
  }

  function CheckName(name: Text): Verdict {
    if 0 < |name| <= MAX_NAME_LEN && forall i :: 0 <= i < |name| ==> NameByte(name[i]) then None else Some(BadName)
  }

  function CheckTable(table: Text): Verdict { if 0 < |table| <= MAX_NAME_LEN then None else Some(BadTable) }

  function CheckValue(v: Value): Verdict {
    match v
    case String(s) => if |s| > 65536 then Some(ValueTooLarge) else None
    case Bytes(b) => if |b| > 262_144 then Some(ValueTooLarge) else None
    case Array(items) => if |items| > 1024 then Some(ValueTooLarge) else None
    case _ => None
  }

  function CheckValues(values: map<Text, Value>): Verdict {
    if |values| > 256 then Some(TooManyEntries)
    else if forall k :: k in values ==> CheckValue(values[k]) == None then None
    else Some(ValueTooLarge)
  }

  function CheckCondition(c: Condition): Verdict
    decreases c
  {
    match c
    case Equals(x, e) => Then(CheckName(x), CheckValue(e))
    case NotEquals(x, e) => Then(CheckName(x), CheckValue(e))
    case IsNotNull(x) => CheckName(x)
    case GreaterOrEqual(x, e) => Then(CheckName(x), CheckValue(e))
    case LessThan(x, e) => Then(CheckName(x), CheckValue(e))
    case All(cs) => if |cs| > 64 then Some(ConditionTooLarge) else CheckConditions(cs)
    case Any(cs) => if |cs| > 64 then Some(ConditionTooLarge) else CheckConditions(cs)
  }

  function CheckConditions(cs: seq<Condition>): Verdict
    decreases cs
  {
    if cs == [] then None else Then(CheckCondition(cs[0]), CheckConditions(cs[1..]))
  }

  function CheckStep(known: set<Text>, step: Step, depth: nat): Verdict
    decreases step
  {
    if depth > MAX_DEPLOY_DEPTH + 1 then Some(TooDeep) else
    match step
    case CallFunction(f, args) =>
      if f !in known then Some(UnknownFunction(f)) else if |args| > 256 then Some(TooManyEntries) else None
    case SetVariable(name, value) => Then(CheckName(name), CheckValue(value))
    case If(c, whenTrue, whenFalse) =>
      Then(CheckCondition(c),
           if |whenTrue| + |whenFalse| > MAX_DEPLOY_STEPS then Some(BranchTooLarge)
           else Then(CheckSteps(known, whenTrue, depth + 1), CheckSteps(known, whenFalse, depth + 1)))
    case Read(table, _, into) => Then(CheckTable(table), CheckName(into))
    case Insert(table, values, into) => Then(CheckTable(table), Then(CheckName(into), CheckValues(values)))
    case Update(table, _, values) => Then(CheckTable(table), CheckValues(values))
    case Delete(table, _) => CheckTable(table)
    case Return(value) => CheckValue(value)
    case Fail(message) => if |message| > MAX_TEXT_LEN then Some(TextTooLong) else None
  }

  function CheckSteps(known: set<Text>, steps: seq<Step>, depth: nat): Verdict
    decreases steps
  {
    if steps == [] then None else Then(CheckStep(known, steps[0], depth), CheckSteps(known, steps[1..], depth))
  }

  function Validate(known: set<Text>, name: Text, description: Text, steps: seq<Step>): Verdict {
    Then(CheckName(name),
         if |description| > MAX_TEXT_LEN then Some(TextTooLong)
         else if steps == [] then Some(NoSteps)
         else if |steps| > MAX_DEPLOY_STEPS then Some(TooManySteps)
         else CheckSteps(known, steps, 1))
  }

  // ------------------------------------------------------------ the checker

  method CheckConditionTree(c: Condition) returns (r: Verdict)
    ensures r == CheckCondition(c)
    decreases c
  {
    match c
    case All(cs) => r := CheckConditionList(cs);
    case Any(cs) => r := CheckConditionList(cs);
    case _ => r := CheckCondition(c);
  }

  method CheckConditionList(cs: seq<Condition>) returns (r: Verdict)
    ensures r == if |cs| > 64 then Some(ConditionTooLarge) else CheckConditions(cs)
    decreases cs
  {
    if |cs| > 64 { return Some(ConditionTooLarge); }
    for i := 0 to |cs|
      invariant CheckConditions(cs) == CheckConditions(cs[i..])
    {
      assert cs[i..][0] == cs[i] && cs[i..][1..] == cs[i + 1..];
      r := CheckConditionTree(cs[i]);
      if r.Some? { return; }
    }
    r := None;
  }

  method CheckStepTree(known: set<Text>, step: Step, depth: nat) returns (r: Verdict)
    ensures r == CheckStep(known, step, depth)
    decreases step, 0
  {
    hide CheckName, CheckTable, CheckValue, CheckValues, CheckSteps, CheckCondition;
    if depth > MAX_DEPLOY_DEPTH + 1 { return Some(TooDeep); }
    match step
    case If(c, whenTrue, whenFalse) =>
      r := CheckConditionTree(c);
      if r.Some? { return; }
      if |whenTrue| + |whenFalse| > MAX_DEPLOY_STEPS { return Some(BranchTooLarge); }
      r := CheckStepList(known, whenTrue, depth + 1);
      if r.Some? { return; }
      r := CheckStepList(known, whenFalse, depth + 1);
    case _ => r := CheckStep(known, step, depth);
  }

  method CheckStepList(known: set<Text>, steps: seq<Step>, depth: nat) returns (r: Verdict)
    ensures r == CheckSteps(known, steps, depth)
    decreases steps
  {
    hide CheckStep;
    for i := 0 to |steps|
      invariant CheckSteps(known, steps, depth) == CheckSteps(known, steps[i..], depth)
    {
      assert steps[i..][0] == steps[i] && steps[i..][1..] == steps[i + 1..];
      r := CheckStepTree(known, steps[i], depth);
      if r.Some? { return; }
    }
    r := None;
  }

  method ValidateProcedure(known: set<Text>, name: Text, description: Text, steps: seq<Step>) returns (r: Verdict)
    ensures r == Validate(known, name, description, steps)
  {
    hide CheckSteps, CheckName;
    r := CheckName(name);
    if r.Some? { return; }
    if |description| > MAX_TEXT_LEN { return Some(TextTooLong); }
    if steps == [] { return Some(NoSteps); }
    if |steps| > MAX_DEPLOY_STEPS { return Some(TooManySteps); }
    r := CheckStepList(known, steps, 1);
  }

  // ------------------------------------------------- what the check buys

  /** A call that only a checked procedure makes: a known function, a proper table name, few entries. */
  predicate Vetted(known: set<Text>, call: Call) {
    match call
    case CallOut(f, args) => f in known && |args| <= 256
    case ReadRow(table, _) => CheckTable(table) == None
    case InsertRow(table, values) => CheckTable(table) == None && |values| <= 256
    case UpdateRow(table, _, values) => CheckTable(table) == None && |values| <= 256
    case DeleteRow(table, _) => CheckTable(table) == None
  }

  predicate AllVetted(known: set<Text>, trace: seq<Call>) {
    forall i :: 0 <= i < |trace| ==> Vetted(known, trace[i])
  }

  lemma SameKeysSameSize(args: map<Text, Value>, xs: map<Text, Value>)
    requires xs.Keys == args.Keys
    ensures |xs| == |args|
  {
    assert |xs| == |xs.Keys| && |args| == |args.Keys|;
  }

  /** What a checked step asks for is vetted. */
  lemma AskedIsVetted(known: set<Text>, step: Step, vars: Vars, call: Call, depth: nat)
    requires CheckStep(known, step, depth) == None && ProcedureCalls.Asks(step, vars, call)
    ensures Vetted(known, call)
  {
    hide CheckSteps, CheckName, CheckTable, CheckCondition, CheckValue, ProcedureCalls.StandsForRow,
      ProcedureCalls.StandsFor;
    match step
    case CallFunction(_, args) => SameKeysSameSize(args, call.args);
    case Insert(_, values, _) => SameKeysSameSize(values, call.values);
    case Update(_, _, values) => SameKeysSameSize(values, call.values);
    case _ =>
  }

  lemma {:induction false} StepCallsVetted(known: set<Text>, w: World, fuel: nat, st: State, step: Step, depth: nat)
    requires CheckStep(known, step, depth) == None && AllVetted(known, st.trace)
    ensures AllVetted(known, RunStep(w, fuel, st, step).st.trace)
    decreases step
  {
    if step.If? {
      hide RunSteps, CheckSteps, CheckCondition, Holds, AllVetted;
      var inner := if Holds(w, st.vars, step.condition) then step.thenSteps else step.elseSteps;
      CallsVetted(known, w, fuel, st, Null, inner, depth + 1);
    } else {
      hide RunStep, CheckStep, ProcedureCalls.Asks, Vetted;
      ProcedureCalls.OneStepAsks(w, fuel, st, step);
      var x := RunStep(w, fuel, st, step).st;
      if call :| x.trace == st.trace + [call] && ProcedureCalls.Asks(step, st.vars, call) {
        AskedIsVetted(known, step, st.vars, call, depth);
      }
    }
  }

  lemma {:induction false} CallsVetted(known: set<Text>, w: World, fuel: nat, st: State, last: Value, steps: seq<Step>,
                                       depth: nat)
    requires CheckSteps(known, steps, depth) == None && AllVetted(known, st.trace)
    ensures AllVetted(known, RunSteps(w, fuel, st, last, steps).st.trace)
    decreases steps
  {
    hide RunStep, CheckStep, Vetted;
    if steps != [] && st.burned < fuel {
      var charged := st.(burned := st.burned + 1);
      StepCallsVetted(known, w, fuel, charged, steps[0], depth);
      var x := RunStep(w, fuel, charged, steps[0]);
      if x.r.Ok? && x.r.value.Next? { CallsVetted(known, w, fuel, x.st, x.r.value.value, steps[1..], depth); }
    }
  }

  /** Levels of the step tree that hold a step. */
  function Levels(steps: seq<Step>): nat {
    if steps == [] then 0 else
    var inside := if steps[0].If? then Max(Levels(steps[0].thenSteps), Levels(steps[0].elseSteps)) else 0;
    Max(1 + inside, Levels(steps[1..]))
  }

  lemma {:induction false} LevelsBounded(known: set<Text>, steps: seq<Step>, depth: nat)
    requires CheckSteps(known, steps, depth) == None
    ensures steps != [] ==> depth + Levels(steps) <= MAX_DEPLOY_DEPTH + 2
    decreases steps
  {
    hide CheckCondition, CheckName, CheckTable, CheckValue, CheckValues;
    if steps != [] {
      if steps[0].If? {
        LevelsBounded(known, steps[0].thenSteps, depth + 1);
        LevelsBounded(known, steps[0].elseSteps, depth + 1);
      }
      LevelsBounded(known, steps[1..], depth);
    }
  }

  /**
   A procedure that passes runs on any backend, with any fuel and arguments, calling only
   known functions and proper tables, and nests no deeper than the limit.
   */
  lemma ValidatedRunsVetted(known: set<Text>, name: Text, description: Text, steps: seq<Step>, w: World, fuel: nat,
                            args: Vars)
    requires Validate(known, name, description, steps) == None
    ensures AllVetted(known, RunProcedure(w, fuel, args, steps).st.trace)
    ensures Levels(steps) <= MAX_DEPLOY_DEPTH + 1
  {
    hide RunSteps, CheckSteps, CheckName, Levels;
    CallsVetted(known, w, fuel, State(args, 0, []), Null, steps, 1);
    LevelsBounded(known, steps, 1);
  }

  // --------------------------------------------------------- what passes

  predicate LegalChar(x: char) {
    'A' <= x <= 'Z' || 'a' <= x <= 'z' || '0' <= x <= '9' || x in {'_', ':', '.', '-', '/'}
  }

  /** One to 128 characters, each a letter, a digit or one of five marks. */
  predicate ProperName(name: Text) {
    0 < |name| <= 128 && forall i :: 0 <= i < |name| ==> LegalChar((name[i] as int) as char)
  }

  predicate ProperValue(v: Value) {
    (v.String? ==> |v.s| <= 65536) && (v.Bytes? ==> |v.raw| <= 262_144) && (v.Array? ==> |v.items| <= 1024)
  }

  predicate ProperValues(values: map<Text, Value>) {
    |values| <= 256 && forall k :: k in values ==> ProperValue(values[k])
  }

  predicate ProperCondition(c: Condition)
    decreases c
  {
    match c
    case All(cs) => |cs| <= 64 && forall i :: 0 <= i < |cs| ==> ProperCondition(cs[i])
    case Any(cs) => |cs| <= 64 && forall i :: 0 <= i < |cs| ==> ProperCondition(cs[i])
    case IsNotNull(x) => ProperName(x)
    case _ => ProperName(c.name) && ProperValue(c.expected)
  }

  /** What a step must be by itself, its branches aside. */
  predicate ProperStep(known: set<Text>, step: Step) {
    && (step.Read? || step.Insert? || step.Update? || step.Delete? ==> 0 < |step.table| <= 128)
    && (step.Read? || step.Insert? ==> ProperName(step.into))
    && (step.Insert? || step.Update? ==> ProperValues(step.values))
    && (step.CallFunction? ==> step.callee in known && |step.args| <= 256)
    && (step.SetVariable? ==> ProperName(step.name))
    && (step.SetVariable? || step.Return? ==> ProperValue(step.value))
    && (step.If? ==> ProperCondition(step.condition) && |step.thenSteps| + |step.elseSteps| <= 256)
    && (step.Fail? ==> |step.message| <= 1024)
  }

  /** `step` stands at level `level` of the tree whose top steps stand at level `top`. */
  predicate StandsAt(steps: seq<Step>, top: nat, step: Step, level: nat)
    decreases steps
  {
    steps != [] && (
      || (step == steps[0] && level == top)
      || StandsAt(steps[1..], top, step, level)
      || (steps[0].If? && (StandsAt(steps[0].thenSteps, top + 1, step, level)
                           || StandsAt(steps[0].elseSteps, top + 1, step, level))))
  }

  ghost predicate AllProper(known: set<Text>, steps: seq<Step>, top: nat) {
    forall step, level :: StandsAt(steps, top, step, level) ==> ProperStep(known, step) && level <= 17
  }

  lemma LegalBytes(c: byte)
    ensures NameByte(c) <==> LegalChar((c as int) as char)
  {
  }

  lemma NamePasses(name: Text)
    ensures CheckName(name) == None <==> ProperName(name)
  {
    hide NameByte, LegalChar;
    forall i | 0 <= i < |name| ensures NameByte(name[i]) <==> LegalChar((name[i] as int) as char) {
      LegalBytes(name[i]);
    }
  }

  lemma ValuePasses(v: Value)
    ensures CheckValue(v) == None <==> ProperValue(v)
  {
  }

  lemma ValuesPass(values: map<Text, Value>)
    ensures CheckValues(values) == None <==> ProperValues(values)
  {
    hide CheckValue, ProperValue;
    forall k | k in values { ValuePasses(values[k]); }
  }

  lemma {:induction false} ConditionPasses(c: Condition)
    ensures CheckCondition(c) == None <==> ProperCondition(c)
    decreases c
  {
    hide CheckName, ProperName, CheckValue, ProperValue;
    match c
    case All(cs) => if |cs| <= 64 { ConditionsPass(cs); }
    case Any(cs) => if |cs| <= 64 { ConditionsPass(cs); }
    case IsNotNull(x) => NamePasses(x);
    case _ =>
      NamePasses(c.name);
      ValuePasses(c.expected);
  }

  lemma {:induction false} ConditionsPass(cs: seq<Condition>)
    ensures CheckConditions(cs) == None <==> forall i :: 0 <= i < |cs| ==> ProperCondition(cs[i])
    decreases cs
  {
    hide CheckCondition, ProperCondition;
    if cs != [] {
      ConditionPasses(cs[0]);
      ConditionsPass(cs[1..]);
      assert forall i :: 1 <= i < |cs| ==> cs[i] == cs[1..][i - 1];
    }
  }

  lemma {:induction false} StepPasses(known: set<Text>, step: Step, depth: nat)
    ensures CheckStep(known, step, depth) == None <==>
            && depth <= 17 && ProperStep(known, step)
            && (step.If? ==> AllProper(known, step.thenSteps, depth + 1) && AllProper(known, step.elseSteps, depth + 1))
    decreases step
  {
    hide CheckName, ProperName, CheckValue, ProperValue, CheckValues, ProperValues, CheckCondition, ProperCondition,
      CheckSteps, AllProper;
    match step
    case CallFunction(_, _) =>
    case SetVariable(name, value) => NamePasses(name); ValuePasses(value);
    case If(c, whenTrue, whenFalse) =>
      ConditionPasses(c);
      StepsPass(known, whenTrue, depth + 1);
      StepsPass(known, whenFalse, depth + 1);
    case Read(_, _, into) => NamePasses(into);
    case Insert(_, values, into) => NamePasses(into); ValuesPass(values);
    case Update(_, _, values) => ValuesPass(values);
    case Delete(_, _) =>
    case Return(value) => ValuePasses(value);
    case Fail(_) =>
  }

  lemma StandsIff(steps: seq<Step>, top: nat, step: Step, level: nat)
    requires steps != []
    ensures StandsAt(steps, top, step, level) <==>
      || (step == steps[0] && level == top)
      || StandsAt(steps[1..], top, step, level)
      || (steps[0].If? && StandsAt(steps[0].thenSteps, top + 1, step, level))
      || (steps[0].If? && StandsAt(steps[0].elseSteps, top + 1, step, level))
  {
  }

  /** Whatever stands in `part` stands in the whole. */
  lemma PartIsProper(known: set<Text>, part: seq<Step>, inner: nat, steps: seq<Step>, top: nat)
    requires forall step, level :: StandsAt(part, inner, step, level) ==> StandsAt(steps, top, step, level)
    requires AllProper(known, steps, top)
    ensures AllProper(known, part, inner)
  {
    hide StandsAt, ProperStep;
  }

  lemma PartsAreProper(known: set<Text>, steps: seq<Step>, top: nat)
    requires steps != [] && AllProper(known, steps, top)
    ensures top <= 17 && ProperStep(known, steps[0]) && AllProper(known, steps[1..], top)
    ensures steps[0].If? ==>
              AllProper(known, steps[0].thenSteps, top + 1) && AllProper(known, steps[0].elseSteps, top + 1)
  {
    assert StandsAt(steps, top, steps[0], top);
    assert forall step, level :: StandsAt(steps[1..], top, step, level) ==> StandsAt(steps, top, step, level);
    PartIsProper(known, steps[1..], top, steps, top);
    if steps[0].If? {
      var whenTrue, whenFalse := steps[0].thenSteps, steps[0].elseSteps;
      assert forall step, level :: StandsAt(whenTrue, top + 1, step, level) ==> StandsAt(steps, top, step, level);
      PartIsProper(known, whenTrue, top + 1, steps, top);
      assert forall step, level :: StandsAt(whenFalse, top + 1, step, level) ==> StandsAt(steps, top, step, level);
      PartIsProper(known, whenFalse, top + 1, steps, top);
    }
  }

  lemma WholeIsProper(known: set<Text>, steps: seq<Step>, top: nat)
    requires steps != [] && top <= 17 && ProperStep(known, steps[0]) && AllProper(known, steps[1..], top)
    requires steps[0].If? ==>
               AllProper(known, steps[0].thenSteps, top + 1) && AllProper(known, steps[0].elseSteps, top + 1)
    ensures AllProper(known, steps, top)
  {
    hide ProperStep, StandsAt;
    forall step, level | StandsAt(steps, top, step, level) ensures ProperStep(known, step) && level <= 17 {
      StandsIff(steps, top, step, level);
    }
  }

  lemma NothingStands(known: set<Text>, top: nat)
    ensures AllProper(known, [], top)
  {
  }

  lemma {:induction false} StepsPass(known: set<Text>, steps: seq<Step>, depth: nat)
    ensures CheckSteps(known, steps, depth) == None <==> AllProper(known, steps, depth)
    decreases steps
  {
    hide CheckStep, AllProper, ProperStep;
    if steps == [] {
      NothingStands(known, depth);
    } else {
      StepPasses(known, steps[0], depth);
      StepsPass(known, steps[1..], depth);
      if AllProper(known, steps, depth) { PartsAreProper(known, steps, depth); }
      if CheckSteps(known, steps, depth) == None { WholeIsProper(known, steps, depth); }
    }
  }

  /**
   What passes the check: a legal name, a short description, one to 256 steps, and at every
   place of the step tree a proper step no deeper than level 17.
   */
  lemma PassesIff(known: set<Text>, name: Text, description: Text, steps: seq<Step>)
    ensures Validate(known, name, description, steps) == None <==>
            && ProperName(name) && |description| <= 1024 && 0 < |steps| <= 256
            && AllProper(known, steps, 1)
  {
    hide AllProper, CheckName, ProperName, CheckSteps, ProperStep;
    NamePasses(name);
    StepsPass(known, steps, 1);
  }

  /** The reason given for a whole procedure: name, description, number of steps, and only then the steps. */
  lemma FirstReason(known: set<Text>, name: Text, description: Text, steps: seq<Step>)
    ensures var v := Validate(known, name, description, steps);
      && (!ProperName(name) ==> v == Some(BadName))
      && (ProperName(name) && |description| > 1024 ==> v == Some(TextTooLong))
      && (ProperName(name) && |description| <= 1024 && steps == [] ==> v == Some(NoSteps))
      && (ProperName(name) && |description| <= 1024 && |steps| > 256 ==> v == Some(TooManySteps))
  {
    hide CheckName, ProperName, CheckSteps;
    NamePasses(name);
    BadNames(name);
  }

  lemma BadNames(name: Text)
    ensures CheckName(name) != None ==> CheckName(name) == Some(BadName)
  {
  }

  /** Of several steps the first that fails gives the reason. */
  lemma {:induction false} FirstStepFails(known: set<Text>, front: seq<Step>, step: Step, back: seq<Step>, depth: nat)
    requires CheckSteps(known, front, depth) == None && CheckStep(known, step, depth).Some?
    ensures CheckSteps(known, front + [step] + back, depth) == CheckStep(known, step, depth)
    decreases |front|
  {
    hide CheckStep;
    var all := front + [step] + back;
    if front != [] {
      assert all[1..] == front[1..] + [step] + back;
      FirstStepFails(known, front[1..], step, back, depth);
    }
  }

  /** The reason a single step gives: its depth, then its parts in turn. */
  lemma StepReason(known: set<Text>, step: Step, depth: nat)
    ensures depth > 17 ==> CheckStep(known, step, depth) == Some(TooDeep)
    ensures depth <= 17 ==> var v := CheckStep(known, step, depth);
      && (step.CallFunction? && step.callee !in known ==> v == Some(UnknownFunction(step.callee)))
      && (step.CallFunction? && step.callee in known && |step.args| > 256 ==> v == Some(TooManyEntries))
      && (step.If? && ProperCondition(step.condition) && |step.thenSteps| + |step.elseSteps| > 256 ==>
            v == Some(BranchTooLarge))
      && ((step.Read? || step.Insert? || step.Update? || step.Delete?) && !(0 < |step.table| <= 128) ==>
            v == Some(BadTable))
      && (step.SetVariable? && !ProperName(step.name) ==> v == Some(BadName))
      && (step.Return? && !ProperValue(step.value) ==> v == Some(ValueTooLarge))
      && (step.Fail? && |step.message| > 1024 ==> v == Some(TextTooLong))
  {
    hide CheckName, ProperName, CheckCondition, ProperCondition, CheckSteps, CheckValues;
    if step.If? { ConditionPasses(step.condition); }
    if step.SetVariable? {
      NamePasses(step.name);
      BadNames(step.name);
    }
  }

  // ------------------------------------------------------ fuel is not checked

  /** The procedure runs out of the default fuel. */
  ghost predicate Exhausts(w: World, args: Vars, steps: seq<Step>) {
    RunProcedure(w, DEFAULT_FUEL, args, steps).r == Err(FuelExhausted(DEFAULT_FUEL + 1))
  }

  lemma {:induction false} ShallowIsShort(steps: seq<Step>)
    requires Levels(steps) <= 1
    ensures Longest(steps) == |steps|
  {
    if steps != [] {
      if steps[0].If? {
        HasLevels(steps[0].thenSteps);
        HasLevels(steps[0].elseSteps);
        assert steps[0].thenSteps == [] && steps[0].elseSteps == [];
      }
      assert LongestInside(steps[0]) == 0;
      ShallowIsShort(steps[1..]);
    }
  }

  lemma HasLevels(steps: seq<Step>)
    ensures Levels(steps) == 0 ==> steps == []
  {
  }

  /** With one level of steps a procedure that passes never runs out of the default fuel. */
  lemma ShallowNeverExhausts(known: set<Text>, name: Text, description: Text, steps: seq<Step>, w: World, args: Vars)
    requires Validate(known, name, description, steps) == None && Levels(steps) <= 1
    ensures !Exhausts(w, args, steps)
  {
    hide CheckSteps, CheckName, RunProcedure, Levels;
    ShallowIsShort(steps);
    EnoughFuel(w, DEFAULT_FUEL, args, steps);
  }

  const X: Text := [97]

  function Sets(n: nat): seq<Step> { if n == 0 then [] else [SetVariable(X, Null)] + Sets(n - 1) }

  function Branches(n: nat, k: nat): seq<Step> {
    if n == 0 then [] else [If(All([]), Sets(k), [])] + Branches(n - 1, k)
  }

  lemma {:induction false} SetsPass(known: set<Text>, n: nat, depth: nat)
    requires depth <= MAX_DEPLOY_DEPTH + 1
    ensures |Sets(n)| == n && CheckSteps(known, Sets(n), depth) == None
  {
    if n > 0 {
      SetsPass(known, n - 1, depth);
      assert Sets(n)[1..] == Sets(n - 1);
    }
  }

  lemma {:induction false} BranchesPass(known: set<Text>, n: nat, k: nat)
    requires k <= MAX_DEPLOY_STEPS
    ensures |Branches(n, k)| == n && CheckSteps(known, Branches(n, k), 1) == None
    decreases n
  {
    if n > 0 {
      SetsPass(known, k, 2);
      BranchesPass(known, n - 1, k);
      hide Sets;
      assert Branches(n, k)[1..] == Branches(n - 1, k);
      assert CheckSteps(known, [], 2) == None && CheckCondition(All([])) == None;
    }
  }

  lemma {:induction false} SetsBurn(w: World, fuel: nat, st: State, last: Value, n: nat)
    requires st.burned + n <= fuel
    ensures RunSteps(w, fuel, st, last, Sets(n)).r.Ok?
    ensures RunSteps(w, fuel, st, last, Sets(n)).st.burned == st.burned + n
    decreases n
  {
    if n > 0 {
      assert Sets(n)[0] == SetVariable(X, Null) && Sets(n)[1..] == Sets(n - 1);
      var x := RunStep(w, fuel, st.(burned := st.burned + 1), Sets(n)[0]);
      SetsBurn(w, fuel, x.st, x.r.value.value, n - 1);
    }
  }

  lemma BranchBurns(w: World, fuel: nat, st: State, k: nat)
    requires st.burned + k <= fuel
    ensures var x := RunStep(w, fuel, st, If(All([]), Sets(k), []));
      x.r.Ok? && x.r.value.Next? && x.st.burned == st.burned + k
  {
    SetsBurn(w, fuel, st, Null, k);
    hide Sets, RunSteps;
    assert Holds(w, st.vars, All([]));
  }

  lemma {:induction false} BranchesBurn(w: World, fuel: nat, st: State, last: Value, n: nat, k: nat, all: nat)
    requires all == n * (k + 1) && st.burned + all <= fuel
    ensures RunSteps(w, fuel, st, last, Branches(n, k)).st.burned == st.burned + all
    decreases n
  {
    hide RunStep, RunSteps, Sets;
    var branches := Branches(n, k);
    ProcedureCalls.RunUnfolds(w, fuel, st, last, branches);
    if n > 0 {
      var branch, charged := If(All([]), Sets(k), []), ProcedureCalls.Charged(st);
      assert branches[0] == branch && branches[1..] == Branches(n - 1, k);
      assert all - (k + 1) == (n - 1) * (k + 1);
      assert all >= k + 1 by { Product(n - 1, k + 1); }
      BranchBurns(w, fuel, charged, k);
      var x := RunStep(w, fuel, charged, branch);
      BranchesBurn(w, fuel, x.st, x.r.value.value, n - 1, k, all - (k + 1));
    }
  }

  lemma Product(a: nat, b: nat)
    ensures a * b >= 0
  {
  }

  /** The limits on steps are per list: a procedure can pass and still need more than the default fuel. */
  lemma ValidatedMayExhaust(known: set<Text>, w: World, args: Vars, n: nat)
    requires n == MAX_DEPLOY_STEPS
    ensures Validate(known, X, [], Branches(n, n)) == None
    ensures Exhausts(w, args, Branches(n, n))
  {
    hide Branches, RunSteps, CheckSteps;
    BranchesPass(known, n, n);
    BranchesBurn(w, 70_000, State(args, 0, []), Null, n, n, n * (n + 1));
    FuelTruncates(w, DEFAULT_FUEL, 70_000, args, Branches(n, n));
  }

  lemma {:induction false} BranchesLevels(n: nat, k: nat)
    ensures Levels(Branches(n, k)) <= 2
    decreases n
  {
    if n > 0 {
      SetsLevels(k);
      BranchesLevels(n - 1, k);
      hide Sets;
      assert Branches(n, k)[0] == If(All([]), Sets(k), []) && Branches(n, k)[1..] == Branches(n - 1, k);
      assert Levels([]) == 0;
    }
  }

  lemma {:induction false} SetsLevels(n: nat)
    ensures Levels(Sets(n)) <= 1
  {
    if n > 0 {
      assert Sets(n)[0] == SetVariable(X, Null) && Sets(n)[1..] == Sets(n - 1);
      SetsLevels(n - 1);
    }
  }

  /** Every procedure that passes and nests at most `d` levels stays within the default fuel. */
  ghost predicate FuelSuffices(known: set<Text>, w: World, d: nat) {
    forall name: Text, description: Text, steps: seq<Step>, args: Vars ::
      Validate(known, name, description, steps) == None && Levels(steps) <= d ==> !Exhausts(w, args, steps)
  }

  /** The check keeps procedures within the default fuel up to one level of steps and no further, in any world. */
  lemma FuelSufficesIff(known: set<Text>, w: World, d: nat)
    ensures FuelSuffices(known, w, d) <==> d <= 1
  {
    hide Validate, Exhausts, Branches, Levels;
    if d <= 1 {
      forall name: Text, description: Text, steps: seq<Step>, args: Vars
        | Validate(known, name, description, steps) == None && Levels(steps) <= d
        ensures !Exhausts(w, args, steps)
      {
        ShallowNeverExhausts(known, name, description, steps, w, args);
      }
    } else {
      var none: Vars, n := map[], MAX_DEPLOY_STEPS;
      ValidatedMayExhaust(known, w, none, n);
      BranchesLevels(n, n);
      assert Validate(known, X, [], Branches(n, n)) == None && Exhausts(w, none, Branches(n, n));
    }
  }
}
