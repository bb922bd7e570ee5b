/** Where control and values go, along the edges between blocks and between functions. */
module PirControl {
  import opened Slots
  import opened Pir
  import opened PirMachine
  import opened PirBigStep
  import opened PirRewrite

  /** Control has moved to the start of `target`, and the block it left is remembered. */
  predicate Went(fr: StackFrame, step: FrameStep, target: nat) {
    && step.Next?
    && step.frame.block == target && step.frame.index == 0 && step.frame.prev == Some(fr.block)
    && step.frame.func == fr.func && step.frame.params == fr.params && step.frame.retValue == fr.retValue
  }

  /** The step has changed no register but by caching constants. */
  ghost predicate KeepsValues(m: Module, fr: StackFrame, step: FrameStep) {
    step.Next? && CacheOk(m, fr.params, step.frame.regs) && SameStmts(fr.regs, step.frame.regs)
  }

  /** A jump goes to its own target, and touches no register. */
  lemma JumpGoes(m: Module, sem: Semantics, fr: StackFrame, e: Expr, i: Instr)
    requires i.JumpI?
    ensures Went(fr, Exec(m, sem, fr, e, i), i.target) && Exec(m, sem, fr, e, i).frame.regs == fr.regs
  {
  }

  /** The branch by itself. */
  lemma BranchGoes(m: Module, sem: Semantics, fr: StackFrame, e: Expr, i: Instr)
    requires i.BranchI? && CacheOk(m, fr.params, fr.regs) && ValueOf(m, fr.params, fr.regs, i.cond).Some?
    ensures sem.truth(ValueOf(m, fr.params, fr.regs, i.cond).value) ==> Went(fr, Exec(m, sem, fr, e, i), i.thenBlock)
    ensures !sem.truth(ValueOf(m, fr.params, fr.regs, i.cond).value) ==> Went(fr, Exec(m, sem, fr, e, i), i.elseBlock)
    ensures KeepsValues(m, fr, Exec(m, sem, fr, e, i))
  {
    FetchIs(m, fr.params, fr.regs, i.cond);
  }

  /** Case k is the first whose value equals that of the condition; past the last case there is the default. */
  ghost predicate FirstEqual(m: Module, sem: Semantics, params: seq<Value>, regs: Regs, cond: Value,
                             cases: seq<Case>, k: nat) {
    && k <= |cases|
    && (forall j :: 0 <= j < |cases| && j <= k ==> ValueOf(m, params, regs, cases[j].value).Some?)
    && (forall j :: 0 <= j < k ==> !sem.same(cond, ValueOf(m, params, regs, cases[j].value).value))
    && (k < |cases| ==> sem.same(cond, ValueOf(m, params, regs, cases[k].value).value))
  }

  lemma {:induction false} PicksFirst(m: Module, sem: Semantics, params: seq<Value>, regs0: Regs, regs: Regs,
                                      cond: Value, cases: seq<Case>, default: nat, k: nat)
    requires FirstEqual(m, sem, params, regs0, cond, cases, k)
    requires CacheOk(m, params, regs) && SameStmts(regs0, regs)
    ensures var p := PickCase(m, sem, params, regs, cond, cases, default);
      p.Some? && p.value.block == (if k < |cases| then cases[k].block else default)
      && CacheOk(m, params, p.value.regs) && SameStmts(regs0, p.value.regs)
    decreases |cases|
  {
    if cases == [] {
    } else {
      FetchIs(m, params, regs, cases[0].value);
      if k > 0 {
        var r := Fetch(m, params, regs, cases[0].value).value.regs;
        assert forall j :: 0 <= j < |cases| - 1 ==> cases[1..][j] == cases[j + 1];
        PicksFirst(m, sem, params, regs0, r, cond, cases[1..], default, k - 1);
      }
    }
  }

  /** A switch goes to the first case that equals the condition, and to the default if none does. */
  lemma SwitchGoes(m: Module, sem: Semantics, fr: StackFrame, e: Expr, i: Instr, k: nat)
    requires i.SwitchI? && CacheOk(m, fr.params, fr.regs) && ValueOf(m, fr.params, fr.regs, i.cond).Some?
    requires FirstEqual(m, sem, fr.params, fr.regs, ValueOf(m, fr.params, fr.regs, i.cond).value, i.cases, k)
    ensures Went(fr, Exec(m, sem, fr, e, i), if k < |i.cases| then i.cases[k].block else i.defaultBlock)
    ensures KeepsValues(m, fr, Exec(m, sem, fr, e, i))
  {
    FetchIs(m, fr.params, fr.regs, i.cond);
    var r := Fetch(m, fr.params, fr.regs, i.cond).value;
    PicksFirst(m, sem, fr.params, fr.regs, r.regs, r.value, i.cases, i.defaultBlock, k);
  }

  lemma {:induction false} ChoosesFirst(preds: seq<Pred>, prev: Option<nat>, k: nat)
    requires k <= |preds| && (k < |preds| ==> Some(preds[k].block) == prev)
    requires forall j :: 0 <= j < k ==> Some(preds[j].block) != prev
    ensures ChoosePred(preds, prev) == if k < |preds| then Some(preds[k].value) else None
  {
    if k == 0 {
    } else {
      assert forall j :: 0 <= j < |preds| - 1 ==> preds[1..][j] == preds[j + 1];
      ChoosesFirst(preds[1..], prev, k - 1);
    }
  }

  /** A phi takes the value given for the block it was entered from, and fails when there is none. */
  lemma PhiTakes(m: Module, sem: Semantics, fr: StackFrame, e: Expr, i: Instr, k: nat)
    requires i.PhiI? && CacheOk(m, fr.params, fr.regs)
    requires k <= |i.preds| && (k < |i.preds| ==> Some(i.preds[k].block) == fr.prev)
    requires forall j :: 0 <= j < k ==> Some(i.preds[j].block) != fr.prev
    ensures var step := Exec(m, sem, fr, e, i);
      if k == |i.preds| then step.Fail? && step.code == UnknownException
      else var v := ValueOf(m, fr.params, fr.regs, i.preds[k].value);
        if v.None? then step == Crash
        else step.Next? && e in step.frame.regs && step.frame.regs[e] == v.value && step.frame.index == fr.index + 1 &&
             step.frame.block == fr.block
  {
    ChoosesFirst(i.preds, fr.prev, k);
    if k < |i.preds| {
      FetchIs(m, fr.params, fr.regs, i.preds[k].value);
    }
  }

  /**
   The call by itself: it enters the first block of its target with the values of the arguments, and is to go on at
   the next statement.
   */
  lemma CallEnters(m: Module, sem: Semantics, fr: StackFrame, e: Expr, i: Instr)
    requires (i.CallI? || i.CallVoidI?) && CacheOk(m, fr.params, fr.regs)
    requires i.target < |m.funcs| && m.funcs[i.target].blocks != [] && ValuesOf(m, fr.params, fr.regs, i.args).Some?
    ensures var step := Exec(m, sem, fr, e, i);
      && step.Push? && step.callee.func == i.target && step.callee.block == m.funcs[i.target].blocks[0]
      && step.callee.index == 0 && step.callee.prev == None && step.callee.regs == map[]
      && step.callee.params == ValuesOf(m, fr.params, fr.regs, i.args).value
      && step.frame.index == fr.index + 1 && step.frame.block == fr.block && SameStmts(fr.regs, step.frame.regs)
      && (i.CallI? ==> step.into == Some(e) && step.frame.retValue == Some(e))
      && (i.CallVoidI? ==> step.into == None && step.frame.retValue == fr.retValue)
  {
    FetchAllIs(m, fr.params, fr.regs, i.args);
  }

  /** The operands' values in order, each that of its own operand. */
  lemma {:induction false} ValuesInOrder(m: Module, params: seq<Value>, regs: Regs, es: seq<Expr>)
    ensures var vs := ValuesOf(m, params, regs, es);
      && (vs.Some? <==> forall k :: 0 <= k < |es| ==> ValueOf(m, params, regs, es[k]).Some?)
      && (vs.Some? ==> |vs.value| == |es| && forall k :: 0 <= k < |es| ==>
          ValueOf(m, params, regs, es[k]) == Some(vs.value[k]))
    decreases |es|
  {
    if es == [] {
    } else {
      ValuesInOrder(m, params, regs, es[1..]);
      assert forall k :: 0 < k < |es| ==> es[k] == es[1..][k - 1];
    }
  }

  /** A wrap instruction leaves its two results in the registers that the two extracting expressions name. */
  lemma WrapLeavesBoth(m: Module, sem: Semantics, fr: StackFrame, code: nat, index: nat, i: Instr)
    requires i.WrapI? && CacheOk(m, fr.params, fr.regs)
    requires ValueOf(m, fr.params, fr.regs, i.lhs).Some? && ValueOf(m, fr.params, fr.regs, i.rhs).Some?
    ensures var step := Exec(m, sem, fr, Expr(Wrap(code), index), i);
      var w := sem.wrap(code, ValueOf(m, fr.params, fr.regs, i.lhs).value, ValueOf(m, fr.params, fr.regs, i.rhs).value);
      && step.Next? && ValueOf(m, fr.params, step.frame.regs, Expr(WrapResult(code), index)) == Some(w.0)
      && ValueOf(m, fr.params, step.frame.regs, Expr(WrapWrapped(code), index)) == Some(w.1)
  {
    var es := [i.lhs, i.rhs];
    FetchAllIs(m, fr.params, fr.regs, es);
    ValuesInOrder(m, fr.params, fr.regs, es);
  }

  // ---------- along edges ----------

  /** Block `target` begins with the phi y, whose entry k is the first for block `from`. */
  predicate BeginsWithPhi(m: Module, target: nat, from: nat, y: Expr, k: nat) {
    && target in m.blocks && m.blocks[target] != [] && m.blocks[target][0] == y && Has(m, y) && Get(m, y).PhiI?
    && k < |Get(m, y).preds| && Get(m, y).preds[k].block == from
    && forall j :: 0 <= j < k ==> Get(m, y).preds[j].block != from
  }

  /**
   The phi at the head of the block that control comes to takes the value that the block it came from gives it: the
   value as it was before the edge was taken.
   */
  lemma PhiAfterEdge(m: Module, sem: Semantics, fr: StackFrame, step: FrameStep, target: nat, y: Expr, k: nat)
    requires CacheOk(m, fr.params, fr.regs) && Went(fr, step, target) && KeepsValues(m, fr, step)
    requires BeginsWithPhi(m, target, fr.block, y, k)
    requires ValueOf(m, fr.params, fr.regs, Get(m, y).preds[k].value).Some?
    ensures var next := ExecFrame(m, sem, step.frame);
      && next.Next? && next.frame.block == target && next.frame.index == 1 && next.frame.prev == Some(fr.block)
      && y in next.frame.regs && Some(next.frame.regs[y]) == ValueOf(m, fr.params, fr.regs, Get(m, y).preds[k].value)
  {
    PhiTakes(m, sem, step.frame, y, Get(m, y), k);
  }

  /** Two steps of the machine that stay within the frame on top. */
  lemma TwoSteps(exec: Program, maxDepth: nat, stack: seq<StackFrame>, a: StackFrame, b: StackFrame, c: StackFrame)
    requires exec(a) == Next(b) && exec(b) == Next(c)
    ensures Run(exec, maxDepth, Machine(stack + [a], Running), 2) == Machine(stack + [c], Running)
  {
    var s := Machine(stack + [a], Running);
    assert Step(exec, maxDepth, s) == Machine(stack + [b], Running);
    assert Step(exec, maxDepth, Machine(stack + [b], Running)) == Machine(stack + [c], Running);
    assert Run(exec, maxDepth, s, 2) == Run(exec, maxDepth, Machine(stack + [b], Running), 1);
  }

  /** After two steps the frame on top is past the phi y at the head of `target`, and y's register holds v. */
  ghost predicate EntersWith(m: Module, sem: Semantics, maxDepth: nat, stack: seq<StackFrame>, fr: StackFrame,
                             target: nat, y: Expr, v: Value) {
    var s := Run(Behaviour(m, sem), maxDepth, Machine(stack + [fr], Running), 2);
    && s.out == Running && |s.frames| == |stack| + 1 && s.frames[..|stack|] == stack
    && var top := s.frames[|stack|];
       top.func == fr.func && top.block == target && top.index == 1 && top.prev == Some(fr.block)
       && y in top.regs && top.regs[y] == v
  }

  lemma EdgeThenPhi(m: Module, sem: Semantics, maxDepth: nat, stack: seq<StackFrame>, fr: StackFrame, target: nat,
                    y: Expr, k: nat)
    requires CacheOk(m, fr.params, fr.regs) && AtStmt(m, fr)
    requires Went(fr, ExecFrame(m, sem, fr), target) && KeepsValues(m, fr, ExecFrame(m, sem, fr))
    requires BeginsWithPhi(m, target, fr.block, y, k)
    requires ValueOf(m, fr.params, fr.regs, Get(m, y).preds[k].value).Some?
    ensures EntersWith(m, sem, maxDepth, stack, fr, target, y,
                       ValueOf(m, fr.params, fr.regs, Get(m, y).preds[k].value).value)
  {
    var first := ExecFrame(m, sem, fr);
    PhiAfterEdge(m, sem, fr, first, target, y, k);
    var second := ExecFrame(m, sem, first.frame);
    TwoSteps(Behaviour(m, sem), maxDepth, stack, fr, first.frame, second.frame);
    assert (stack + [second.frame])[..|stack|] == stack;
  }

  /** A jump to a block that begins with a phi: the phi's register gets the value given for the block jumped from. */
  lemma JumpThenPhi(m: Module, sem: Semantics, maxDepth: nat, stack: seq<StackFrame>, fr: StackFrame, y: Expr, k: nat)
    requires CacheOk(m, fr.params, fr.regs) && AtStmt(m, fr) && Has(m, StmtAt(m, fr)) && Get(m, StmtAt(m, fr)).JumpI?
    requires BeginsWithPhi(m, Get(m, StmtAt(m, fr)).target, fr.block, y, k)
    requires ValueOf(m, fr.params, fr.regs, Get(m, y).preds[k].value).Some?
    ensures EntersWith(m, sem, maxDepth, stack, fr, Get(m, StmtAt(m, fr)).target, y,
                       ValueOf(m, fr.params, fr.regs, Get(m, y).preds[k].value).value)
  {
    var i := Get(m, StmtAt(m, fr));
    JumpGoes(m, sem, fr, StmtAt(m, fr), i);
    EdgeThenPhi(m, sem, maxDepth, stack, fr, i.target, y, k);
  }

  /**
   A branch whose two targets begin with a phi chooses between values: after it and the phi, the phi's register has the
   value that the branch's own block gives it in the target the condition selects.
   */
  lemma BranchThenPhi(m: Module, sem: Semantics, maxDepth: nat, stack: seq<StackFrame>, fr: StackFrame, target: nat,
                      y: Expr, k: nat)
    requires CacheOk(m, fr.params, fr.regs) && AtStmt(m, fr) && Has(m, StmtAt(m, fr)) && Get(m, StmtAt(m, fr)).BranchI?
    requires ValueOf(m, fr.params, fr.regs, Get(m, StmtAt(m, fr)).cond).Some?
    requires var i := Get(m, StmtAt(m, fr));
      target == if sem.truth(ValueOf(m, fr.params, fr.regs, i.cond).value) then i.thenBlock else i.elseBlock
    requires BeginsWithPhi(m, target, fr.block, y, k)
    requires ValueOf(m, fr.params, fr.regs, Get(m, y).preds[k].value).Some?
    ensures EntersWith(m, sem, maxDepth, stack, fr, target, y,
                       ValueOf(m, fr.params, fr.regs, Get(m, y).preds[k].value).value)
  {
    BranchGoes(m, sem, fr, StmtAt(m, fr), Get(m, StmtAt(m, fr)));
    EdgeThenPhi(m, sem, maxDepth, stack, fr, target, y, k);
  }

  /** The same for a switch and the block of its first equal case, or its default. */
  lemma SwitchThenPhi(m: Module, sem: Semantics, maxDepth: nat, stack: seq<StackFrame>, fr: StackFrame, n: nat,
                      target: nat, y: Expr, k: nat)
    requires CacheOk(m, fr.params, fr.regs) && AtStmt(m, fr) && Has(m, StmtAt(m, fr)) && Get(m, StmtAt(m, fr)).SwitchI?
    requires ValueOf(m, fr.params, fr.regs, Get(m, StmtAt(m, fr)).cond).Some?
    requires var i := Get(m, StmtAt(m, fr));
      && FirstEqual(m, sem, fr.params, fr.regs, ValueOf(m, fr.params, fr.regs, i.cond).value, i.cases, n)
      && target == if n < |i.cases| then i.cases[n].block else i.defaultBlock
    requires BeginsWithPhi(m, target, fr.block, y, k)
    requires ValueOf(m, fr.params, fr.regs, Get(m, y).preds[k].value).Some?
    ensures EntersWith(m, sem, maxDepth, stack, fr, target, y,
                       ValueOf(m, fr.params, fr.regs, Get(m, y).preds[k].value).value)
  {
    SwitchGoes(m, sem, fr, StmtAt(m, fr), Get(m, StmtAt(m, fr)), n);
    EdgeThenPhi(m, sem, maxDepth, stack, fr, target, y, k);
  }

  /** Function `func` returns x at once. */
  predicate ReturnsAtOnce(m: Module, func: nat, x: Expr) {
    && func < |m.funcs| && m.funcs[func].blocks != []
    && var b := m.funcs[func].blocks[0];
    && b in m.blocks && m.blocks[b] != [] && Has(m, m.blocks[b][0]) && Get(m, m.blocks[b][0]) == RetI(Some(x))
  }

  lemma ReturnOf(m: Module, sem: Semantics, fr: StackFrame, e: Expr, x: Expr)
    requires AtStmt(m, fr) && StmtAt(m, fr) == e && Has(m, e) && Get(m, e) == RetI(Some(x))
    requires CacheOk(m, fr.params, fr.regs) && ValueOf(m, fr.params, fr.regs, x).Some?
    ensures ExecFrame(m, sem, fr) == Pop(ValueOf(m, fr.params, fr.regs, x))
  {
    FetchIs(m, fr.params, fr.regs, x);
  }

  /** A call and, at once, the return of its callee, for any program. */
  lemma CallThenPop(exec: Program, maxDepth: nat, stack: seq<StackFrame>, fr: StackFrame, fr': StackFrame,
                    callee: StackFrame, v: Option<Value>)
    requires exec(fr).Push? && exec(fr).frame == fr' && exec(fr).callee == callee && exec(callee) == Pop(v)
    requires |stack| + 2 <= maxDepth && (v.Some? ==> fr'.retValue.Some?)
    ensures Run(exec, maxDepth, Machine(stack + [fr], Running), 2) ==
            Machine(stack + [if v.Some? then fr'.(regs := fr'.regs[fr'.retValue.value := v.value]) else fr'], Running)
  {
    var s := Machine(stack + [fr], Running);
    var s1 := Machine(stack + [fr', callee], Running);
    assert s.frames[..|stack|] == stack && s1.frames[..|stack| + 1] == stack + [fr'];
    assert Step(exec, maxDepth, s) == s1;
    assert Step(exec, maxDepth, s1) == PopInto(stack + [fr'], v);
    if v.Some? {
      var last := fr'.(regs := fr'.regs[fr'.retValue.value := v.value]);
      assert (stack + [fr'])[|stack| := last] == stack + [last];
    }
    assert Run(exec, maxDepth, s, 2) == Run(exec, maxDepth, s1, 1);
  }

  /**
   A call and the return of what it calls, across the two frames: the caller goes on at the next statement, with the
   register of this very call holding what x means among the arguments.
   */
  lemma CallRoundTrip(m: Module, sem: Semantics, maxDepth: nat, stack: seq<StackFrame>, fr: StackFrame, x: Expr)
    requires CacheOk(m, fr.params, fr.regs) && AtStmt(m, fr) && Has(m, StmtAt(m, fr)) && Get(m, StmtAt(m, fr)).CallI?
    requires |stack| + 2 <= maxDepth && ReturnsAtOnce(m, Get(m, StmtAt(m, fr)).target, x)
    requires ValuesOf(m, fr.params, fr.regs, Get(m, StmtAt(m, fr)).args).Some?
    requires ValueOf(m, ValuesOf(m, fr.params, fr.regs, Get(m, StmtAt(m, fr)).args).value, map[], x).Some?
    ensures var args := ValuesOf(m, fr.params, fr.regs, Get(m, StmtAt(m, fr)).args).value;
      var s := Run(Behaviour(m, sem), maxDepth, Machine(stack + [fr], Running), 2);
      && s.out == Running && |s.frames| == |stack| + 1 && s.frames[..|stack|] == stack
      && s.frames[|stack|].index == fr.index + 1 && StmtAt(m, fr) in s.frames[|stack|].regs
      && Some(s.frames[|stack|].regs[StmtAt(m, fr)]) == ValueOf(m, args, map[], x)
  {
    var e := StmtAt(m, fr);
    var exec := Behaviour(m, sem);
    CallEnters(m, sem, fr, e, Get(m, e));
    var step := Exec(m, sem, fr, e, Get(m, e));
    ReturnOf(m, sem, step.callee, m.blocks[step.callee.block][0], x);
    CallThenPop(exec, maxDepth, stack, fr, step.frame, step.callee, ValueOf(m, step.callee.params, map[], x));
  }

  /** The call of a function that returns no value: the caller goes on at the next statement with what it had. */
  lemma CallVoidRoundTrip(m: Module, sem: Semantics, maxDepth: nat, stack: seq<StackFrame>, fr: StackFrame, b: nat)
    requires CacheOk(m, fr.params, fr.regs) && AtStmt(m, fr)
    requires Has(m, StmtAt(m, fr)) && Get(m, StmtAt(m, fr)).CallVoidI?
    requires |stack| + 2 <= maxDepth && ValuesOf(m, fr.params, fr.regs, Get(m, StmtAt(m, fr)).args).Some?
    requires var target := Get(m, StmtAt(m, fr)).target;
      target < |m.funcs| && m.funcs[target].blocks != [] && m.funcs[target].blocks[0] == b
    requires b in m.blocks && m.blocks[b] != [] && Has(m, m.blocks[b][0]) && Get(m, m.blocks[b][0]) == RetI(None)
    ensures var s := Run(Behaviour(m, sem), maxDepth, Machine(stack + [fr], Running), 2);
      && s.out == Running && |s.frames| == |stack| + 1 && s.frames[..|stack|] == stack
      && s.frames[|stack|].index == fr.index + 1 && s.frames[|stack|].block == fr.block
      && s.frames[|stack|].retValue == fr.retValue && SameStmts(fr.regs, s.frames[|stack|].regs)
  {
    var e := StmtAt(m, fr);
    var exec := Behaviour(m, sem);
    CallEnters(m, sem, fr, e, Get(m, e));
    var step := Exec(m, sem, fr, e, Get(m, e));
    CallThenPop(exec, maxDepth, stack, fr, step.frame, step.callee, None);
  }
}
