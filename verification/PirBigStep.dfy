/** The meaning of a PIR call as a recursive evaluation, and the proof that the explicit-stack machine computes it. */
module PirBigStep {
  import opened Slots
  import opened Pir
  import opened PirMachine

  datatype Result = Timeout | Done(value: Option<Value>) | Error(code: Code, trace: seq<nat>) | Stuck

  /** Where a frame goes on after the call it was at has returned: the value is in the register of that very call. */
  function Resumed(fr: StackFrame, into: Option<Expr>, value: Option<Value>): StackFrame {
    if into.Some? && value.Some? then fr.(regs := fr.regs[into.value := value.value]) else fr
  }

  /** Evaluates the rest of a function, a call by evaluating the callee; `depth` counts the active calls. */
  function Eval(exec: Program, maxDepth: nat, fr: StackFrame, depth: nat, fuel: nat): Result
    decreases fuel
  {
    if fuel == 0 then Timeout
    else
      match exec(fr)
      case Next(fr') => Eval(exec, maxDepth, fr', depth, fuel - 1)
      case Fail(_, code) => Error(code, [fr.func])
      case Crash => Stuck
      case Pop(value) => Done(value)
      case Push(fr', callee, into) =>
        if depth + 1 > maxDepth then Error(ExceededMaxCallDepth, [fr.func, callee.func])
        else
          match Eval(exec, maxDepth, callee, depth + 1, fuel - 1)
          case Timeout => Timeout
          case Stuck => Stuck
          case Error(code, trace) => Error(code, [fr.func] + trace)
          case Done(value) => Eval(exec, maxDepth, Resumed(fr', into, value), depth, fuel - 1)
  }

  // ---------- typing ----------

  /** What the reader and the builder assert about a statement of function f. */
  predicate StmtTyped(m: Module, f: nat, i: Instr)
    requires f < |m.funcs|
  {
    var blocks := m.funcs[f].blocks;
    match i
    case CallI(target, _) => target < |m.funcs| && m.funcs[target].hasResult
    case CallVoidI(target, _) => target < |m.funcs| && !m.funcs[target].hasResult
    case RetI(result) => result.Some? == m.funcs[f].hasResult
    case JumpI(target) => target in blocks
    case BranchI(_, t, e) => t in blocks && e in blocks
    case SwitchI(_, cases, d) => d in blocks && forall k :: 0 <= k < |cases| ==> cases[k].block in blocks
    case _ => true
  }

  ghost predicate WellTyped(m: Module) {
    forall f, b, k ::
      0 <= f < |m.funcs| && b in m.funcs[f].blocks && b in m.blocks && 0 <= k < |m.blocks[b]| && Has(m, m.blocks[b][k])
      ==> StmtTyped(m, f, Get(m, m.blocks[b][k]))
  }

  predicate InFunction(m: Module, fr: StackFrame) {
    fr.func < |m.funcs| && fr.block in m.funcs[fr.func].blocks
  }

  lemma {:induction false} PickedBlock(m: Module, sem: Semantics, params: seq<Value>, regs: Regs, cond: Value,
                                       cases: seq<Case>, default: nat)
    ensures var p := PickCase(m, sem, params, regs, cond, cases, default);
      p.Some? ==> p.value.block == default || exists k :: 0 <= k < |cases| && cases[k].block == p.value.block
    decreases |cases|
  {
    if cases == [] {
    } else {
      var r := Fetch(m, params, regs, cases[0].value);
      if r.Some? && !sem.same(cond, r.value.value) {
        PickedBlock(m, sem, params, r.value.regs, cond, cases[1..], default);
      }
    }
  }

  /** Well-typed code stays inside its function, returns what its function promises, and records its value calls. */
  ghost predicate StepTyped(m: Module, fr: StackFrame, step: FrameStep)
    requires fr.func < |m.funcs|
  {
    match step
    case Next(fr') => InFunction(m, fr') && fr'.func == fr.func
    case Fail(fr', _) => fr'.func == fr.func
    case Crash => true
    case Pop(value) => value.Some? == m.funcs[fr.func].hasResult
    case Push(fr', callee, into) =>
      && InFunction(m, fr') && fr'.func == fr.func && InFunction(m, callee)
      && (m.funcs[callee.func].hasResult ==> into.Some? && fr'.retValue == into)
  }

  ghost predicate Typed(m: Module, exec: Program) {
    forall fr :: InFunction(m, fr) ==> StepTyped(m, fr, exec(fr))
  }

  lemma InstrTyped(m: Module, sem: Semantics, fr: StackFrame, e: Expr, i: Instr)
    requires InFunction(m, fr) && StmtTyped(m, fr.func, i)
    ensures StepTyped(m, fr, Exec(m, sem, fr, e, i))
  {
    if i.SwitchI? {
      var r := Fetch(m, fr.params, fr.regs, i.cond);
      if r.Some? {
        PickedBlock(m, sem, fr.params, r.value.regs, r.value.value, i.cases, i.defaultBlock);
      }
    }
  }

  lemma WellTypedIsTyped(m: Module, sem: Semantics)
    requires WellTyped(m)
    ensures Typed(m, Behaviour(m, sem))
  {
    forall fr | InFunction(m, fr)
      ensures StepTyped(m, fr, ExecFrame(m, sem, fr))
    {
      if AtStmt(m, fr) && Has(m, StmtAt(m, fr)) {
        InstrTyped(m, sem, fr, StmtAt(m, fr), Get(m, StmtAt(m, fr)));
      }
    }
  }

  lemma {:induction false} EvalTyped(m: Module, exec: Program, maxDepth: nat, fr: StackFrame, depth: nat, fuel: nat)
    requires Typed(m, exec) && InFunction(m, fr)
    ensures var r := Eval(exec, maxDepth, fr, depth, fuel);
      r.Done? ==> r.value.Some? == m.funcs[fr.func].hasResult
    decreases fuel
  {
    if fuel == 0 {
    } else {
      assert StepTyped(m, fr, exec(fr));
      match exec(fr) {
        case Next(fr') => EvalTyped(m, exec, maxDepth, fr', depth, fuel - 1);
        case Push(fr', callee, into) =>
          var r := Eval(exec, maxDepth, callee, depth + 1, fuel - 1);
          if r.Done? {
            EvalTyped(m, exec, maxDepth, Resumed(fr', into, r.value), depth, fuel - 1);
          }
        case _ =>
      }
    }
  }

  // ---------- the machine follows the evaluation ----------

  /** The machine whose stack was `stack + [fr]` has come to the end of the evaluation of `fr`. */
  ghost predicate Ends(stack: seq<StackFrame>, r: Result, s: Machine) {
    match r
    case Timeout => false
    case Done(value) => s == PopInto(stack, value)
    case Error(code, trace) => s.out == Failed(code) && Trace(s.frames) == Trace(stack) + trace
    case Stuck => s.out == Crashed
  }

  lemma StepTop(exec: Program, maxDepth: nat, stack: seq<StackFrame>, fr: StackFrame)
    ensures Step(exec, maxDepth, Machine(stack + [fr], Running)) ==
      match exec(fr)
      case Next(fr') => Machine(stack + [fr'], Running)
      case Fail(fr', code) => Machine(stack + [fr'], Failed(code))
      case Crash => Machine(stack + [fr], Crashed)
      case Pop(value) => PopInto(stack, value)
      case Push(fr', callee, into) =>
        if |stack| + 2 > maxDepth
        then Machine(stack + [fr'.(index := fr'.index + 1), callee.(params := [])], Failed(ExceededMaxCallDepth))
        else Machine(stack + [fr', callee], Running)
  {
    assert (stack + [fr])[..|stack + [fr]| - 1] == stack;
  }

  lemma TraceAdd(a: seq<StackFrame>, b: seq<StackFrame>)
    ensures Trace(a + b) == Trace(a) + Trace(b)
  {
  }

  /** A value returned to well-typed code arrives in the register of the call that asked for it. */
  lemma PopResumes(stack: seq<StackFrame>, fr': StackFrame, into: Option<Expr>, value: Option<Value>)
    requires value.Some? ==> into.Some? && fr'.retValue == into
    ensures PopInto(stack + [fr'], value) == Machine(stack + [Resumed(fr', into, value)], Running)
  {
    var s := stack + [fr'];
    assert s[|s| - 1 := Resumed(fr', into, value)] == stack + [Resumed(fr', into, value)];
  }

  /** In k steps the machine ends as the evaluation of `fr` does; if that ran out of fuel, it is still running. */
  ghost predicate Tracks(exec: Program, maxDepth: nat, stack: seq<StackFrame>, fr: StackFrame, fuel: nat, k: nat) {
    var r := Eval(exec, maxDepth, fr, |stack| + 1, fuel);
    var s := Run(exec, maxDepth, Machine(stack + [fr], Running), k);
    if r.Timeout? then k >= fuel && s.out.Running? else Ends(stack, r, s)
  }

  /** In k steps the machine ends as the evaluation does; if that runs out of fuel, the machine is not done either. */
  lemma {:induction false} Follows(m: Module, exec: Program, maxDepth: nat, stack: seq<StackFrame>, fr: StackFrame,
                                   fuel: nat)
    returns (k: nat)
    requires Typed(m, exec) && InFunction(m, fr)
    ensures Tracks(exec, maxDepth, stack, fr, fuel, k)
    decreases fuel
  {
    if fuel == 0 { return 0; }
    var start := Machine(stack + [fr], Running);
    StepTop(exec, maxDepth, stack, fr);
    match exec(fr) {
      case Next(fr') =>
        var j := Follows(m, exec, maxDepth, stack, fr', fuel - 1);
        k := j + 1;
      case Push(fr', callee, into) =>
        if |stack| + 2 > maxDepth {
          TraceAdd(stack, [fr'.(index := fr'.index + 1), callee.(params := [])]);
          k := 1;
          RunOne(exec, maxDepth, start);
        } else {
          k := FollowsPush(m, exec, maxDepth, stack, fr, fr', callee, into, fuel);
        }
      case Fail(fr', code) =>
        TraceAdd(stack, [fr']);
        k := 1;
        RunOne(exec, maxDepth, start);
      case _ =>
        k := 1;
        RunOne(exec, maxDepth, start);
    }
  }

  lemma RunOne(exec: Program, maxDepth: nat, s: Machine)
    ensures Run(exec, maxDepth, s, 1) == Step(exec, maxDepth, s)
  {
    assert Run(exec, maxDepth, Step(exec, maxDepth, s), 0) == Step(exec, maxDepth, s);
  }

  lemma {:induction false} FollowsPush(m: Module, exec: Program, maxDepth: nat, stack: seq<StackFrame>, fr: StackFrame,
                                       fr': StackFrame, callee: StackFrame, into: Option<Expr>, fuel: nat)
    returns (k: nat)
    requires Typed(m, exec) && InFunction(m, fr) && InFunction(m, fr') && InFunction(m, callee) && fr'.func == fr.func
    requires fuel > 0 && exec(fr) == Push(fr', callee, into) && |stack| + 2 <= maxDepth
    ensures Tracks(exec, maxDepth, stack, fr, fuel, k)
    decreases fuel, 2
  {
    var inner := stack + [fr'];
    var j := Follows(m, exec, maxDepth, inner, callee, fuel - 1);
    k := FollowsCall(m, exec, maxDepth, stack, fr, fr', callee, into, fuel, j);
  }

  /** The case of a call, once the callee has been followed. */
  lemma {:induction false} FollowsCall(m: Module, exec: Program, maxDepth: nat, stack: seq<StackFrame>, fr: StackFrame,
                                       fr': StackFrame, callee: StackFrame, into: Option<Expr>, fuel: nat, j: nat)
    returns (k: nat)
    requires Typed(m, exec) && InFunction(m, fr) && InFunction(m, fr') && fr'.func == fr.func
    requires fuel > 0 && exec(fr) == Push(fr', callee, into) && |stack| + 2 <= maxDepth
    requires Tracks(exec, maxDepth, stack + [fr'], callee, fuel - 1, j)
    ensures Tracks(exec, maxDepth, stack, fr, fuel, k)
    decreases fuel, 1
  {
    if Eval(exec, maxDepth, callee, |stack| + 2, fuel - 1).Done? {
      PushTyped(m, exec, maxDepth, fr, fr', callee, into, |stack| + 2, fuel - 1);
      k := FollowsReturn(m, exec, maxDepth, stack, fr, fr', callee, into, fuel, j);
    } else {
      k := 1 + j;
      CallCut(exec, maxDepth, stack, fr, fr', callee, into, fuel, j);
    }
  }

  lemma PushTyped(m: Module, exec: Program, maxDepth: nat, fr: StackFrame, fr': StackFrame, callee: StackFrame,
                  into: Option<Expr>, depth: nat, fuel: nat)
    requires Typed(m, exec) && InFunction(m, fr) && exec(fr) == Push(fr', callee, into)
    ensures var r := Eval(exec, maxDepth, callee, depth, fuel); r.Done? && r.value.Some? ==>
            into.Some? && fr'.retValue == into
  {
    assert StepTyped(m, fr, exec(fr));
    EvalTyped(m, exec, maxDepth, callee, depth, fuel);
  }

  lemma {:induction false} FollowsReturn(m: Module, exec: Program, maxDepth: nat, stack: seq<StackFrame>,
                                         fr: StackFrame,
                                         fr': StackFrame, callee: StackFrame, into: Option<Expr>, fuel: nat, j: nat)
    returns (k: nat)
    requires Typed(m, exec) && InFunction(m, fr')
    requires fuel > 0 && exec(fr) == Push(fr', callee, into) && |stack| + 2 <= maxDepth
    requires Tracks(exec, maxDepth, stack + [fr'], callee, fuel - 1, j)
    requires var r := Eval(exec, maxDepth, callee, |stack| + 2, fuel - 1);
      r.Done? && (r.value.Some? ==> into.Some? && fr'.retValue == into)
    ensures Tracks(exec, maxDepth, stack, fr, fuel, k)
    decreases fuel, 0
  {
    var value := Eval(exec, maxDepth, callee, |stack| + 2, fuel - 1).value;
    PopResumes(stack, fr', into, value);
    var i := Follows(m, exec, maxDepth, stack, Resumed(fr', into, value), fuel - 1);
    k := 1 + (j + i);
    CallReturns(exec, maxDepth, stack, fr, fr', callee, into, fuel, j, i);
  }

  lemma PushStep(exec: Program, maxDepth: nat, stack: seq<StackFrame>, fr: StackFrame, fr': StackFrame,
                 callee: StackFrame, into: Option<Expr>, k: nat)
    requires exec(fr) == Push(fr', callee, into) && |stack| + 2 <= maxDepth
    ensures Run(exec, maxDepth, Machine(stack + [fr], Running), 1 + k)
            == Run(exec, maxDepth, Machine((stack + [fr']) + [callee], Running), k)
  {
    StepTop(exec, maxDepth, stack, fr);
    assert (stack + [fr']) + [callee] == stack + [fr', callee];
  }

  lemma CallReturns(exec: Program, maxDepth: nat, stack: seq<StackFrame>, fr: StackFrame, fr': StackFrame,
                    callee: StackFrame, into: Option<Expr>, fuel: nat, j: nat, i: nat)
    requires fuel > 0 && exec(fr) == Push(fr', callee, into) && |stack| + 2 <= maxDepth
    requires Tracks(exec, maxDepth, stack + [fr'], callee, fuel - 1, j)
    requires var r := Eval(exec, maxDepth, callee, |stack| + 2, fuel - 1);
      && r.Done?
      && PopInto(stack + [fr'], r.value) == Machine(stack + [Resumed(fr', into, r.value)], Running)
      && Tracks(exec, maxDepth, stack, Resumed(fr', into, r.value), fuel - 1, i)
    ensures Tracks(exec, maxDepth, stack, fr, fuel, 1 + (j + i))
  {
    PushStep(exec, maxDepth, stack, fr, fr', callee, into, j + i);
    RunAdd(exec, maxDepth, Machine((stack + [fr']) + [callee], Running), j, i);
  }

  lemma CallCut(exec: Program, maxDepth: nat, stack: seq<StackFrame>, fr: StackFrame, fr': StackFrame,
                callee: StackFrame, into: Option<Expr>, fuel: nat, j: nat)
    requires fuel > 0 && exec(fr) == Push(fr', callee, into) && |stack| + 2 <= maxDepth && fr'.func == fr.func
    requires Tracks(exec, maxDepth, stack + [fr'], callee, fuel - 1, j)
    requires !Eval(exec, maxDepth, callee, |stack| + 2, fuel - 1).Done?
    ensures Tracks(exec, maxDepth, stack, fr, fuel, 1 + j)
  {
    PushStep(exec, maxDepth, stack, fr, fr', callee, into, j);
    TraceAdd(stack, [fr']);
  }

  // ---------- a whole call ----------

  /** How the end of a run from one frame reads as a result. */
  function Shown(s: Machine): Result {
    match s.out
    case Running => Timeout
    case Returned(value) => Done(value)
    case Failed(code) => Error(code, Trace(s.frames))
    case Crashed => Stuck
  }

  ghost predicate Evaluates(exec: Program, maxDepth: nat, fr: StackFrame, r: Result) {
    exists fuel: nat :: Eval(exec, maxDepth, fr, 1, fuel) == r
  }

  ghost predicate RunsTo(exec: Program, maxDepth: nat, fr: StackFrame, r: Result) {
    exists k: nat :: Shown(Run(exec, maxDepth, Machine([fr], Running), k)) == r
  }

  /**
   The machine refines the recursive evaluation, both ways: it returns v, fails with a code and a stack trace, or gets
   stuck exactly when the evaluation does; hence it runs for ever exactly when the evaluation has no result.
   */
  lemma MachineIsEval(m: Module, exec: Program, maxDepth: nat, fr: StackFrame, r: Result)
    requires Typed(m, exec) && InFunction(m, fr) && !r.Timeout?
    ensures Evaluates(exec, maxDepth, fr, r) <==> RunsTo(exec, maxDepth, fr, r)
  {
    if Evaluates(exec, maxDepth, fr, r) {
      var fuel: nat :| Eval(exec, maxDepth, fr, 1, fuel) == r;
      var k := FollowsAlone(m, exec, maxDepth, fr, fuel);
    }
    if RunsTo(exec, maxDepth, fr, r) {
      var j: nat :| Shown(Run(exec, maxDepth, Machine([fr], Running), j)) == r;
      RunIsEval(m, exec, maxDepth, fr, j);
    }
  }

  lemma FollowsAlone(m: Module, exec: Program, maxDepth: nat, fr: StackFrame, fuel: nat) returns (k: nat)
    requires Typed(m, exec) && InFunction(m, fr)
    ensures Shown(Run(exec, maxDepth, Machine([fr], Running), k)) == Eval(exec, maxDepth, fr, 1, fuel)
    ensures Eval(exec, maxDepth, fr, 1, fuel).Timeout? ==> k >= fuel
  {
    assert [] + [fr] == [fr];
    k := Follows(m, exec, maxDepth, [], fr, fuel);
    var r := Eval(exec, maxDepth, fr, 1, fuel);
    if !r.Timeout? {
      EndsShown(r, Run(exec, maxDepth, Machine([fr], Running), k));
    }
  }

  /** A machine that has ended within j steps shows what the evaluation with fuel j + 1 gives. */
  lemma RunIsEval(m: Module, exec: Program, maxDepth: nat, fr: StackFrame, j: nat)
    requires Typed(m, exec) && InFunction(m, fr)
    requires !Run(exec, maxDepth, Machine([fr], Running), j).out.Running?
    ensures Shown(Run(exec, maxDepth, Machine([fr], Running), j)) == Eval(exec, maxDepth, fr, 1, j + 1)
  {
    var start := Machine([fr], Running);
    var k := FollowsAlone(m, exec, maxDepth, fr, j + 1);
    if Run(exec, maxDepth, start, k).out.Running? {
      RunStays(exec, maxDepth, start, j, k);
    } else {
      SameEnd(exec, maxDepth, start, j, k);
    }
  }

  lemma EndsShown(r: Result, s: Machine)
    requires Ends([], r, s)
    ensures Shown(s) == r
  {
    if r.Error? {
      assert Trace([]) + r.trace == r.trace;
    }
  }

  lemma SameEnd(exec: Program, maxDepth: nat, s: Machine, j: nat, k: nat)
    requires !Run(exec, maxDepth, s, j).out.Running? && !Run(exec, maxDepth, s, k).out.Running?
    ensures Run(exec, maxDepth, s, j) == Run(exec, maxDepth, s, k)
  {
    if j <= k {
      RunStays(exec, maxDepth, s, j, k);
    } else {
      RunStays(exec, maxDepth, s, k, j);
    }
  }

  /** The depth limit only cuts: under a smaller limit a call does the same, or fails with one frame too many. */
  lemma {:induction false} LimitOnlyCuts(exec: Program, low: nat, high: nat, fr: StackFrame, depth: nat, fuel: nat)
    requires 1 <= depth <= low <= high
    ensures var r := Eval(exec, low, fr, depth, fuel);
      || r == Eval(exec, high, fr, depth, fuel)
      || (r.Error? && r.code == ExceededMaxCallDepth && depth - 1 + |r.trace| == low + 1)
    decreases fuel
  {
    if fuel == 0 {
    } else {
      match exec(fr) {
        case Next(fr') => LimitOnlyCuts(exec, low, high, fr', depth, fuel - 1);
        case Push(fr', callee, into) =>
          if depth + 1 <= low {
            LimitOnlyCuts(exec, low, high, callee, depth + 1, fuel - 1);
            var r := Eval(exec, low, callee, depth + 1, fuel - 1);
            if r.Done? {
              LimitOnlyCuts(exec, low, high, Resumed(fr', into, r.value), depth, fuel - 1);
            }
          }
        case _ =>
      }
    }
  }

  // ---------- main result ----------

  /** Running f(args) on the explicit stack has exactly the outcome that evaluating it recursively has. */
  lemma CallRefines(m: Module, sem: Semantics, maxDepth: nat, func: nat, args: seq<Value>, fr: StackFrame, r: Result)
    requires WellTyped(m) && Entry(m, func, args) == Some(fr) && !r.Timeout?
    ensures Evaluates(Behaviour(m, sem), maxDepth, fr, r) <==> RunsTo(Behaviour(m, sem), maxDepth, fr, r)
  {
    WellTypedIsTyped(m, sem);
    MachineIsEval(m, Behaviour(m, sem), maxDepth, fr, r);
  }

  // ---------- why the typing is needed ----------

  const CALL := Expr(Call, 0)
  const CALL_VOID := Expr(CallVoid, 0)

  function Ret(k: nat): Expr { Expr(Kind.Ret, k) }

  /** x = call f1; call_void f2; ret x -- where f1 returns 1 and f2, called for no value, returns 2. */
  const STALE: Module := Module(
    [Function([0], true), Function([1], true), Function([2], true)],
    map[0 := [CALL, CALL_VOID, Ret(0)], 1 := [Ret(1)], 2 := [Ret(2)]],
    map[Call := Arena([Some(CallI(1, []))], []),
        CallVoid := Arena([Some(CallVoidI(2, []))], []),
        Kind.Ret := Arena([Some(RetI(Some(CALL))),
                           Some(RetI(Some(Expr(Number, 0)))),
                           Some(RetI(Some(Expr(Number, 1))))], []),
        Number := Arena([Some(NumberI(1)), Some(NumberI(2))], [])])

  function Main0(index: nat, regs: Regs, retValue: Option<Expr>): StackFrame {
    StackFrame(0, 0, None, index, [], regs, retValue)
  }

  function Sub(f: nat): StackFrame { StackFrame(f, f, None, 0, [], map[], None) }

  lemma StaleCalls(sem: Semantics)
    ensures ExecFrame(STALE, sem, Main0(0, map[], None)) == Push(Main0(1, map[], Some(CALL)), Sub(1), Some(CALL))
    ensures ExecFrame(STALE, sem, Main0(1, map[CALL := 1], Some(CALL)))
            == Push(Main0(2, map[CALL := 1], Some(CALL)), Sub(2), None)
  {
    StaleEntries();
    assert FetchAll(STALE, [], map[], []) == Some(ReadAll([], map[]));
    assert FetchAll(STALE, [], map[CALL := 1], []) == Some(ReadAll([], map[CALL := 1]));
  }

  lemma StaleEntries()
    ensures Entry(STALE, 1, []) == Some(Sub(1)) && Entry(STALE, 2, []) == Some(Sub(2))
  {
  }

  lemma StaleReturns(sem: Semantics, x: Value)
    ensures ExecFrame(STALE, sem, Main0(2, map[CALL := x], Some(CALL))) == Pop(Some(x))
    ensures ExecFrame(STALE, sem, Sub(1)) == Pop(Some(1)) && ExecFrame(STALE, sem, Sub(2)) == Pop(Some(2))
  {
  }

  /** Any program whose frames do these five things. */
  predicate StaleShape(exec: Program) {
    && exec(Main0(0, map[], None)) == Push(Main0(1, map[], Some(CALL)), Sub(1), Some(CALL))
    && exec(Main0(1, map[CALL := 1], Some(CALL))) == Push(Main0(2, map[CALL := 1], Some(CALL)), Sub(2), None)
    && exec(Main0(2, map[CALL := 1], Some(CALL))) == Pop(Some(1))
    && exec(Main0(2, map[CALL := 2], Some(CALL))) == Pop(Some(2))
    && exec(Sub(1)) == Pop(Some(1)) && exec(Sub(2)) == Pop(Some(2))
  }

  lemma StaleEval(exec: Program)
    requires StaleShape(exec)
    ensures Eval(exec, 2, Main0(0, map[], None), 1, 3) == Done(Some(1))
  {
    assert Eval(exec, 2, Main0(2, map[CALL := 1], Some(CALL)), 1, 1) == Done(Some(1));
    assert Eval(exec, 2, Main0(1, map[CALL := 1], Some(CALL)), 1, 2) == Done(Some(1));
  }

  /** The first call fills x; the second one finds x as the caller's ret_value still. */
  lemma StaleCall(exec: Program, before: StackFrame, after: StackFrame, f: nat, v: Value)
    requires exec(before) == Push(after, Sub(f), if f == 1 then Some(CALL) else None)
    requires exec(Sub(f)) == Pop(Some(v)) && after.retValue == Some(CALL)
    ensures Step(exec, 2, Step(exec, 2, Machine([before], Running)))
            == Machine([after.(regs := after.regs[CALL := v])], Running)
  {
    var b := Machine([after, Sub(f)], Running);
    assert [before][..0] == [] && [] + [after, Sub(f)] == [after, Sub(f)];
    assert Step(exec, 2, Machine([before], Running)) == b;
    assert b.frames[..1] == [after];
    assert [after][0 := after.(regs := after.regs[CALL := v])] == [after.(regs := after.regs[CALL := v])];
  }

  lemma StaleRun(exec: Program)
    requires StaleShape(exec)
    ensures Shown(Run(exec, 2, Machine([Main0(0, map[], None)], Running), 5)) == Done(Some(2))
  {
    assert map[CALL := 1][CALL := 2] == map[CALL := 2];
    var a := Machine([Main0(0, map[], None)], Running);
    StaleCall(exec, Main0(0, map[], None), Main0(1, map[], Some(CALL)), 1, 1);
    StaleCall(exec, Main0(1, map[CALL := 1], Some(CALL)), Main0(2, map[CALL := 1], Some(CALL)), 2, 2);
    RunFive(exec, a);
  }

  lemma RunFive(exec: Program, s: Machine)
    ensures Run(exec, 2, s, 5) == Step(exec, 2, Step(exec, 2, Step(exec, 2, Step(exec, 2, Step(exec, 2, s)))))
  {
    var t := Step(exec, 2, Step(exec, 2, s));
    assert Run(exec, 2, s, 5) == Run(exec, 2, t, 3);
    assert Run(exec, 2, Step(exec, 2, Step(exec, 2, t)), 1) == Step(exec, 2, Step(exec, 2, Step(exec, 2, t)));
  }

  /**
   In code that is not well typed the two differ: the ret_value left over from the first call makes the second one's
   value overwrite x, so the machine returns 2 where the recursive reading gives 1.
   */
  lemma StaleReturnValue(sem: Semantics)
    ensures Evaluates(Behaviour(STALE, sem), 2, Main0(0, map[], None), Done(Some(1)))
    ensures RunsTo(Behaviour(STALE, sem), 2, Main0(0, map[], None), Done(Some(2)))
  {
    StaleCalls(sem);
    StaleReturns(sem, 1);
    StaleReturns(sem, 2);
    StaleEval(Behaviour(STALE, sem));
    StaleRun(Behaviour(STALE, sem));
  }
}
