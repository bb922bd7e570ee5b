/** The PIR interpreter: an explicit stack of frames, one statement a step. */
module PirMachine {
  import opened Slots
  import opened Pir

  datatype Code = AbortCode | BreakpointCode | ExceededMaxCallDepth | OutOfBoundsAccess | NullptrAccess
                | ArithmeticWrap | UnknownException

  datatype OpResult = Ok(value: Value) | Err(code: Code)

  /**
   What the opcodes compute, left open: any functions of the operands' bits. `calcPtr` takes the pointed-to type, the
   literal indices (None where the index is an expression), and the values of the base and of those expressions.
   */
  datatype Semantics = Semantics(
    op: (nat, seq<Value>) -> OpResult,
    wrap: (nat, Value, Value) -> (Value, Value),
    calcPtr: (nat, seq<Option<int>>, seq<Value>) -> OpResult,
    truth: Value -> bool,
    same: (Value, Value) -> bool)

  type Regs = map<Expr, Value>

  datatype StackFrame = StackFrame(func: nat, block: nat, prev: Option<nat>, index: nat, params: seq<Value>,
                                   regs: Regs, retValue: Option<Expr>)

  // ---------- reading operands ----------

  /** The value of a constant or parameter. */
  function LeafValue(m: Module, params: seq<Value>, e: Expr): Option<Value>
    requires IsLeaf(e.kind)
  {
    match e.kind
    case Number => if Has(m, e) && Get(m, e).NumberI? then Some(Get(m, e).value) else None
    case Boolean => Some(if e.index != 0 then 1 else 0)
    case Param => if e.index < |params| then Some(params[e.index]) else None
  }

  datatype Read = Read(value: Value, regs: Regs)

  /** get_expr: constants and parameters are copied into a register at their first use and read from there after. */
  function Fetch(m: Module, params: seq<Value>, regs: Regs, e: Expr): Option<Read> {
    if IsLeaf(e.kind) then
      match LeafValue(m, params, e)
      case None => None
      case Some(v) => if e in regs then Some(Read(regs[e], regs)) else Some(Read(v, regs[e := v]))
    else if e in regs then Some(Read(regs[e], regs))
    else None
  }

  datatype ReadAll = ReadAll(values: seq<Value>, regs: Regs)

  function FetchAll(m: Module, params: seq<Value>, regs: Regs, es: seq<Expr>): Option<ReadAll>
    decreases |es|
  {
    if es == [] then Some(ReadAll([], regs))
    else
      match Fetch(m, params, regs, es[0])
      case None => None
      case Some(first) =>
        match FetchAll(m, params, first.regs, es[1..])
        case None => None
        case Some(rest) => Some(ReadAll([first.value] + rest.values, rest.regs))
  }

  // ---------- one statement ----------

  /**
   What one statement does to the frame that executes it, and to the stack. `into` is the register a call is to fill;
   the machine does not look at it.
   */
  datatype FrameStep =
    | Next(frame: StackFrame)
    | Push(frame: StackFrame, callee: StackFrame, into: Option<Expr>)
    | Pop(value: Option<Value>)
    | Fail(frame: StackFrame, code: Code)
    | Crash

  function Entry(m: Module, func: nat, args: seq<Value>): Option<StackFrame> {
    if func < |m.funcs| && m.funcs[func].blocks != []
    then Some(StackFrame(func, m.funcs[func].blocks[0], None, 0, args, map[], None))
    else None
  }

  function Goto(fr: StackFrame, regs: Regs, target: nat): FrameStep {
    Next(fr.(regs := regs, prev := Some(fr.block), block := target, index := 0))
  }

  function Assign(fr: StackFrame, regs: Regs, e: Expr, v: Value): FrameStep {
    Next(fr.(regs := regs[e := v], index := fr.index + 1))
  }

  function Finish(fr: StackFrame, regs: Regs, e: Expr, r: OpResult): FrameStep {
    match r
    case Ok(v) => Assign(fr, regs, e, v)
    case Err(code) => Fail(fr.(regs := regs, index := fr.index + 1), code)
  }

  function ChoosePred(preds: seq<Pred>, prev: Option<nat>): Option<Expr> {
    if preds == [] then None
    else if Some(preds[0].block) == prev then Some(preds[0].value)
    else ChoosePred(preds[1..], prev)
  }

  datatype Picked = Picked(block: nat, regs: Regs)

  /** The cases of a switch are evaluated in order up to the first that equals the condition. */
  function PickCase(m: Module, sem: Semantics, params: seq<Value>, regs: Regs, cond: Value, cases: seq<Case>,
                    default: nat)
    : Option<Picked>
    decreases |cases|
  {
    if cases == [] then Some(Picked(default, regs))
    else
      match Fetch(m, params, regs, cases[0].value)
      case None => None
      case Some(r) =>
        if sem.same(cond, r.value) then Some(Picked(cases[0].block, r.regs))
        else PickCase(m, sem, params, r.regs, cond, cases[1..], default)
  }

  function Literals(indices: seq<Index>): seq<Option<int>> {
    seq(|indices|, k requires 0 <= k < |indices| => if indices[k].ByInt? then Some(indices[k].i) else None)
  }

  function OpCode(k: Kind): nat {
    match k
    case Op(code) => code
    case Wrap(code) => code
    case _ => 0
  }

  /** Both results of a wrap instruction. */
  function FinishWrap(fr: StackFrame, regs: Regs, e: Expr, w: (Value, Value)): FrameStep {
    var code := OpCode(e.kind);
    var both := regs[Expr(WrapResult(code), e.index) := w.0][Expr(WrapWrapped(code), e.index) := w.1];
    Next(fr.(regs := both, index := fr.index + 1))
  }

  function Exec(m: Module, sem: Semantics, fr: StackFrame, e: Expr, i: Instr): FrameStep {
    match i
    case NumberI(_) => Crash
    case CallI(target, args) =>
      (match FetchAll(m, fr.params, fr.regs, args)
       case None => Crash
       case Some(r) =>
         Enter(m, fr.(regs := r.regs, retValue := Some(e), index := fr.index + 1), target, r.values, Some(e)))
    case CallVoidI(target, args) =>
      (match FetchAll(m, fr.params, fr.regs, args)
       case None => Crash
       case Some(r) => Enter(m, fr.(regs := r.regs, index := fr.index + 1), target, r.values, None))
    case RetI(None) => Pop(None)
    case RetI(Some(x)) =>
      (match Fetch(m, fr.params, fr.regs, x)
       case None => Crash
       case Some(r) => Pop(Some(r.value)))
    case JumpI(target) => Goto(fr, fr.regs, target)
    case BranchI(cond, thenBlock, elseBlock) =>
      (match Fetch(m, fr.params, fr.regs, cond)
       case None => Crash
       case Some(r) => Goto(fr, r.regs, if sem.truth(r.value) then thenBlock else elseBlock))
    case PhiI(preds) =>
      (match ChoosePred(preds, fr.prev)
       case None => Fail(fr.(index := fr.index + 1), UnknownException)
       case Some(x) =>
         match Fetch(m, fr.params, fr.regs, x)
         case None => Crash
         case Some(r) => Assign(fr, r.regs, e, r.value))
    case SwitchI(cond, cases, default) =>
      (match Fetch(m, fr.params, fr.regs, cond)
       case None => Crash
       case Some(r) =>
         match PickCase(m, sem, fr.params, r.regs, r.value, cases, default)
         case None => Crash
         case Some(p) => Goto(fr, p.regs, p.block))
    case CalcPtrI(ptrType, base, indices) =>
      (match FetchAll(m, fr.params, fr.regs, [base] + IndexExprs(indices))
       case None => Crash
       case Some(r) => Finish(fr, r.regs, e, sem.calcPtr(ptrType, Literals(indices), r.values)))
    case OpI(args) =>
      (match FetchAll(m, fr.params, fr.regs, args)
       case None => Crash
       case Some(r) => Finish(fr, r.regs, e, sem.op(OpCode(e.kind), r.values)))
    case WrapI(lhs, rhs) =>
      (match FetchAll(m, fr.params, fr.regs, [lhs, rhs])
       case None => Crash
       case Some(r) =>
         if |r.values| != 2 then Crash
         else FinishWrap(fr, r.regs, e, sem.wrap(OpCode(e.kind), r.values[0], r.values[1])))
  }

  function Enter(m: Module, fr: StackFrame, target: nat, args: seq<Value>, into: Option<Expr>): FrameStep {
    match Entry(m, target, args)
    case None => Crash
    case Some(callee) => Push(fr, callee, into)
  }

  /** The statement a frame is at. */
  predicate AtStmt(m: Module, fr: StackFrame) {
    fr.block in m.blocks && fr.index < |m.blocks[fr.block]|
  }

  function StmtAt(m: Module, fr: StackFrame): Expr
    requires AtStmt(m, fr)
  {
    m.blocks[fr.block][fr.index]
  }

  function ExecFrame(m: Module, sem: Semantics, fr: StackFrame): FrameStep {
    if !AtStmt(m, fr) then Crash
    else
      var e := StmtAt(m, fr);
      match e.kind
      case Abort => Fail(fr.(index := fr.index + 1), AbortCode)
      case Breakpoint => Fail(fr.(index := fr.index + 1), BreakpointCode)
      case Unreachable => Fail(fr.(index := fr.index + 1), UnknownException)
      case _ => if Has(m, e) then Exec(m, sem, fr, e, Get(m, e)) else Crash
  }

  // ---------- the machine ----------

  /** What the frames of a program do; the stack discipline does not depend on how. */
  type Program = StackFrame -> FrameStep

  function Behaviour(m: Module, sem: Semantics): Program {
    fr => ExecFrame(m, sem, fr)
  }

  datatype Outcome = Running | Returned(value: Option<Value>) | Failed(code: Code) | Crashed

  datatype Machine = Machine(frames: seq<StackFrame>, out: Outcome)

  /** The stack trace of a run that failed: the functions of the frames, outermost first. */
  function Trace(frames: seq<StackFrame>): seq<nat> {
    seq(|frames|, k requires 0 <= k < |frames| => frames[k].func)
  }

  /** RET: the value goes into the register named by the caller's ret_value. */
  function PopInto(frames: seq<StackFrame>, value: Option<Value>): Machine {
    if frames == [] then Machine([], Returned(value))
    else
      match value
      case None => Machine(frames, Running)
      case Some(v) =>
        var caller := frames[|frames| - 1];
        match caller.retValue
        case None => Machine(frames, Crashed)
        case Some(e) => Machine(frames[|frames| - 1 := caller.(regs := caller.regs[e := v])], Running)
  }

  function Step(exec: Program, maxDepth: nat, s: Machine): Machine {
    if !s.out.Running? || s.frames == [] then s
    else
      var below := s.frames[..|s.frames| - 1];
      match exec(s.frames[|s.frames| - 1])
      case Next(fr) => Machine(below + [fr], Running)
      case Fail(fr, code) => Machine(below + [fr], Failed(code))
      case Crash => Machine(s.frames, Crashed)
      case Pop(value) => PopInto(below, value)
      case Push(fr, callee, _) =>
        if |below| + 2 > maxDepth
        then Machine(below + [fr.(index := fr.index + 1), callee.(params := [])], Failed(ExceededMaxCallDepth))
        else Machine(below + [fr, callee], Running)
  }

  function Run(exec: Program, maxDepth: nat, s: Machine, k: nat): Machine
    decreases k
  {
    if k == 0 then s else Run(exec, maxDepth, Step(exec, maxDepth, s), k - 1)
  }

  lemma {:induction false} RunAdd(exec: Program, maxDepth: nat, s: Machine, j: nat, k: nat)
    ensures Run(exec, maxDepth, s, j + k) == Run(exec, maxDepth, Run(exec, maxDepth, s, j), k)
    decreases j
  {
    if j == 0 {
    } else {
      RunAdd(exec, maxDepth, Step(exec, maxDepth, s), j - 1, k);
    }
  }

  /** A run that has ended stays as it is. */
  lemma {:induction false} RunEnded(exec: Program, maxDepth: nat, s: Machine, k: nat)
    requires !s.out.Running?
    ensures Run(exec, maxDepth, s, k) == s
    decreases k
  {
    if k == 0 {
    } else {
      RunEnded(exec, maxDepth, s, k - 1);
    }
  }

  lemma RunStays(exec: Program, maxDepth: nat, s: Machine, j: nat, k: nat)
    requires !Run(exec, maxDepth, s, j).out.Running? && j <= k
    ensures Run(exec, maxDepth, s, k) == Run(exec, maxDepth, s, j)
  {
    RunAdd(exec, maxDepth, s, j, k - j);
    RunEnded(exec, maxDepth, Run(exec, maxDepth, s, j), k - j);
  }

  // ---------- the executor object ----------

  datatype StepOutput = Continue | Output(value: Option<Value>) | Halted

  class Executor {
    /** What the statements of the engine's module do. */
    const exec: Program
    const maxCallDepth: nat
    var stackFrames: seq<StackFrame>
    var lastError: Option<Code>

    constructor (m: Module, sem: Semantics, maxCallDepth: nat)
      ensures exec == Behaviour(m, sem) && this.maxCallDepth == maxCallDepth
      ensures stackFrames == [] && lastError == None
    {
      exec, this.maxCallDepth := Behaviour(m, sem), maxCallDepth;
      stackFrames, lastError := [], None;
    }

    /** What the machine's outcome looks like from run_function_impl, after a step with this output. */
    ghost predicate Shows(out: StepOutput, s: Machine)
      reads this
    {
      && stackFrames == s.frames
      && match s.out
         case Running => out == Continue && lastError == None
         case Returned(v) => out == Output(v) && lastError == None
         case Failed(code) => out == Continue && lastError == Some(code)
         case Crashed => out == Halted && lastError == None
    }

    /** run_step. */
    method RunStep() returns (out: StepOutput)
      requires stackFrames != [] && lastError == None
      modifies this
      ensures Shows(out, Step(exec, maxCallDepth, Machine(old(stackFrames), Running)))
    {
      var last := |stackFrames| - 1;
      out := Continue;
      match exec(stackFrames[last]) {
        case Next(fr) =>
          stackFrames := stackFrames[..last] + [fr];
        case Fail(fr, code) =>
          stackFrames := stackFrames[..last] + [fr];
          lastError := Some(code);
        case Crash =>
          out := Halted;
        case Push(fr, callee, _) =>
          stackFrames := stackFrames[..last] + [fr, callee];
          if |stackFrames| > maxCallDepth {
            lastError := Some(ExceededMaxCallDepth);
            stackFrames := stackFrames[..last] + [fr.(index := fr.index + 1), callee.(params := [])];
          }
        case Pop(value) =>
          stackFrames := stackFrames[..last];
          out := DeliverReturn(value);
      }
    }

    /** The end of RET, after the frame has been popped. */
    method DeliverReturn(value: Option<Value>) returns (out: StepOutput)
      requires lastError == None
      modifies this`stackFrames
      ensures Shows(out, PopInto(old(stackFrames), value))
    {
      if stackFrames == [] {
        return Output(value);
      }
      out := Continue;
      if value.Some? {
        var caller := stackFrames[|stackFrames| - 1];
        if caller.retValue.None? {
          return Halted;
        }
        var regs := caller.regs[caller.retValue.value := value.value];
        stackFrames := stackFrames[|stackFrames| - 1 := caller.(regs := regs)];
      }
    }

    /** run_function_impl, for at most `budget` steps; the result is the machine's outcome. */
    method RunFunctionImpl(budget: nat) returns (out: Outcome)
      requires stackFrames != [] && lastError == None
      modifies this
      ensures var s := Run(exec, maxCallDepth, Machine(old(stackFrames), Running), budget);
        out == s.out && stackFrames == s.frames
    {
      ghost var start := Machine(stackFrames, Running);
      ghost var k := 0;
      var left := budget;
      while left > 0 && lastError == None
        invariant k + left == budget
        invariant lastError == None ==> stackFrames != []
        invariant Run(exec, maxCallDepth, start, k) ==
                  Machine(stackFrames, if lastError == None then Running else Failed(lastError.value))
      {
        RunAdd(exec, maxCallDepth, start, k, 1);
        var output := RunStep();
        k, left := k + 1, left - 1;
        if output != Continue {
          RunStays(exec, maxCallDepth, start, k, budget);
          return if output.Output? then Returned(output.value) else Crashed;
        }
      }
      if lastError != None {
        RunStays(exec, maxCallDepth, start, k, budget);
        return Failed(lastError.value);
      }
      return Running;
    }
  }
}
