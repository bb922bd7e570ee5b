/** What each instruction computes, in terms of its operands' values and of nothing that the interpreter defines. */
module PirInstrs {
  import opened Slots
  import opened Pir
  import opened PirMachine
  import opened PirBigStep
  import opened PirRewrite
  import opened PirControl

  // ---------- operands ----------

  /**
   What an operand means: a number its stored value, `true` 1 and `false` 0, a parameter the argument at its position,
   anything else what its register holds.
   */
  lemma OperandMeans(m: Module, params: seq<Value>, regs: Regs, e: Expr)
    ensures e.kind == Number && Has(m, e) && Get(m, e).NumberI? ==>
              ValueOf(m, params, regs, e) == Some(Get(m, e).value)
    ensures e.kind == Number && !Has(m, e) ==> ValueOf(m, params, regs, e) == None
    ensures ValueOf(m, params, regs, Expr(Boolean, 0)) == Some(0)
    ensures forall k: nat :: k != 0 ==> ValueOf(m, params, regs, Expr(Boolean, k)) == Some(1)
    ensures forall k: nat :: k < |params| ==> ValueOf(m, params, regs, Expr(Param, k)) == Some(params[k])
    ensures forall k: nat :: k >= |params| ==> ValueOf(m, params, regs, Expr(Param, k)) == None
    ensures e.kind != Number && e.kind != Boolean && e.kind != Param ==>
              ValueOf(m, params, regs, e) == if e in regs then Some(regs[e]) else None
  {
  }

  /** These are the values of these operands, one for one. */
  predicate AreValues(m: Module, params: seq<Value>, regs: Regs, es: seq<Expr>, vs: seq<Value>) {
    |vs| == |es| && forall k :: 0 <= k < |es| ==> ValueOf(m, params, regs, es[k]) == Some(vs[k])
  }

  lemma ValuesAre(m: Module, params: seq<Value>, regs: Regs, es: seq<Expr>, vs: seq<Value>)
    requires AreValues(m, params, regs, es, vs)
    ensures ValuesOf(m, params, regs, es) == Some(vs)
  {
    ValuesInOrder(m, params, regs, es);
    var us := ValuesOf(m, params, regs, es).value;
    assert forall k :: 0 <= k < |es| ==> us[k] == vs[k];
    assert us == vs;
  }

  // ---------- one-result instructions ----------

  /** The statement e has this result: its register holds the value, or the run fails with the code. */
  ghost predicate Gives(fr: StackFrame, step: FrameStep, e: Expr, r: OpResult) {
    match r
    case Ok(v) =>
      && step.Next? && e in step.frame.regs && step.frame.regs[e] == v
      && step.frame.block == fr.block && step.frame.index == fr.index + 1 && SameBut(fr.regs, step.frame.regs, e)
    case Err(code) => step.Fail? && step.code == code
  }

  /** A value instruction is its own opcode applied to its operands' values in order, and fills its own register. */
  lemma OpComputes(m: Module, sem: Semantics, fr: StackFrame, code: nat, index: nat, args: seq<Expr>, vs: seq<Value>)
    requires CacheOk(m, fr.params, fr.regs) && AreValues(m, fr.params, fr.regs, args, vs)
    ensures var e := Expr(Op(code), index); Gives(fr, Exec(m, sem, fr, e, OpI(args)), e, sem.op(code, vs))
  {
    ValuesAre(m, fr.params, fr.regs, args, vs);
    FetchAllIs(m, fr.params, fr.regs, args);
  }

  /** The expressions among the indices are listed in order, and only they. */
  lemma {:induction false} IndexExprsAppend(a: seq<Index>, b: seq<Index>)
    ensures IndexExprs(a + b) == IndexExprs(a) + IndexExprs(b)
  {
    if a == [] {
      assert a + b == b;
    } else {
      assert (a + b)[0] == a[0] && (a + b)[1..] == a[1..] + b;
      IndexExprsAppend(a[1..], b);
    }
  }

  lemma IndexExprsOne(e: Expr, i: int)
    ensures IndexExprs([ByExpr(e)]) == [e] && IndexExprs([ByInt(i)]) == [] && IndexExprs([]) == []
  {
    assert IndexExprs([ByExpr(e)][1..]) == [];
    assert IndexExprs([ByInt(i)][1..]) == [];
  }

  /** The value of an index: the integer itself, or what the expression means. */
  function IndexValue(m: Module, params: seq<Value>, regs: Regs, i: Index): Option<Value> {
    match i
    case ByInt(n) => Some(n)
    case ByExpr(e) => ValueOf(m, params, regs, e)
  }

  /** The literals and the computed values put together again, index by index. */
  function Merged(literals: seq<Option<int>>, vs: seq<Value>): seq<Value>
    decreases |literals|
  {
    if literals == [] then []
    else
      match literals[0]
      case Some(n) => [n] + Merged(literals[1..], vs)
      case None => if vs == [] then [] else [vs[0]] + Merged(literals[1..], vs[1..])
  }

  lemma {:induction false} MergedIs(m: Module, params: seq<Value>, regs: Regs, indices: seq<Index>, vs: seq<Value>)
    requires ValuesOf(m, params, regs, IndexExprs(indices)) == Some(vs)
    ensures var all := Merged(Literals(indices), vs);
      |all| == |indices| && forall k :: 0 <= k < |indices| ==> IndexValue(m, params, regs, indices[k]) == Some(all[k])
    decreases |indices|
  {
    if indices == [] {
    } else {
      assert Literals(indices)[1..] == Literals(indices[1..]);
      if indices[0].ByExpr? {
        assert ([indices[0].e] + IndexExprs(indices[1..]))[1..] == IndexExprs(indices[1..]);
        MergedIs(m, params, regs, indices[1..], vs[1..]);
      } else {
        assert [] + IndexExprs(indices[1..]) == IndexExprs(indices[1..]);
        MergedIs(m, params, regs, indices[1..], vs);
      }
    }
  }

  /**
   CALC_PTR hands its base's value and its indices on: put together again, the literals and the values it hands on are
   those of its indices in their order.
   */
  lemma CalcPtrComputes(m: Module, sem: Semantics, fr: StackFrame, e: Expr, t: nat, base: Expr, indices: seq<Index>,
                        b: Value, vs: seq<Value>)
    requires CacheOk(m, fr.params, fr.regs) && ValueOf(m, fr.params, fr.regs, base) == Some(b)
    requires AreValues(m, fr.params, fr.regs, IndexExprs(indices), vs)
    ensures Gives(fr, Exec(m, sem, fr, e, CalcPtrI(t, base, indices)), e, sem.calcPtr(t, Literals(indices), [b] + vs))
    ensures var all := Merged(Literals(indices), vs);
      |all| == |indices| &&
      forall k :: 0 <= k < |indices| ==> IndexValue(m, fr.params, fr.regs, indices[k]) == Some(all[k])
  {
    var es := [base] + IndexExprs(indices);
    assert AreValues(m, fr.params, fr.regs, es, [b] + vs);
    ValuesAre(m, fr.params, fr.regs, es, [b] + vs);
    FetchAllIs(m, fr.params, fr.regs, es);
    ValuesAre(m, fr.params, fr.regs, IndexExprs(indices), vs);
    MergedIs(m, fr.params, fr.regs, indices, vs);
  }

  // ---------- the ends of a run ----------

  /** ABORT, BREAKPOINT and UNREACHABLE stop the run, each with its own code, wherever they stand. */
  lemma Stops(m: Module, sem: Semantics, maxDepth: nat, stack: seq<StackFrame>, fr: StackFrame)
    requires AtStmt(m, fr)
    ensures var k := StmtAt(m, fr).kind; var s := Run(Behaviour(m, sem), maxDepth, Machine(stack + [fr], Running), 1);
      && (k == Abort ==> s.out == Failed(AbortCode))
      && (k == Breakpoint ==> s.out == Failed(BreakpointCode))
      && (k == Unreachable ==> s.out == Failed(UnknownException))
      && (k == Abort || k == Breakpoint || k == Unreachable ==> Trace(s.frames) == Trace(stack) + [fr.func])
  {
    var s := Machine(stack + [fr], Running);
    var s' := Step(Behaviour(m, sem), maxDepth, s);
    assert s.frames[..|stack|] == stack;
    assert Run(Behaviour(m, sem), maxDepth, s, 1) == s';
  }

  /** A RET on the last frame ends the run with what its operand means, or with no value. */
  lemma ReturnEnds(m: Module, sem: Semantics, maxDepth: nat, fr: StackFrame, result: Option<Expr>)
    requires CacheOk(m, fr.params, fr.regs) && AtStmt(m, fr) && Has(m, StmtAt(m, fr))
    requires Get(m, StmtAt(m, fr)) == RetI(result) && StmtAt(m, fr).kind == Kind.Ret
    requires result.Some? ==> ValueOf(m, fr.params, fr.regs, result.value).Some?
    ensures var s := Run(Behaviour(m, sem), maxDepth, Machine([fr], Running), 1);
      && s.frames == []
      && s.out == Returned(if result.None? then None else ValueOf(m, fr.params, fr.regs, result.value))
  {
    var s := Machine([fr], Running);
    if result.Some? {
      FetchIs(m, fr.params, fr.regs, result.value);
    }
    assert s.frames[..0] == [];
    assert Run(Behaviour(m, sem), maxDepth, s, 1) == Step(Behaviour(m, sem), maxDepth, s);
  }

  /** A call goes one frame deeper as long as that is within max_call_depth, and fails otherwise. */
  lemma CallDepth(m: Module, sem: Semantics, maxDepth: nat, stack: seq<StackFrame>, fr: StackFrame)
    requires CacheOk(m, fr.params, fr.regs) && AtStmt(m, fr) && Has(m, StmtAt(m, fr))
    requires Get(m, StmtAt(m, fr)).CallI? || Get(m, StmtAt(m, fr)).CallVoidI?
    requires var i := Get(m, StmtAt(m, fr)); i.target < |m.funcs| && m.funcs[i.target].blocks != []
    requires ValuesOf(m, fr.params, fr.regs, Get(m, StmtAt(m, fr)).args).Some?
    ensures var s := Run(Behaviour(m, sem), maxDepth, Machine(stack + [fr], Running), 1);
      && |s.frames| == |stack| + 2
      && s.out == if |stack| + 2 <= maxDepth then Running else Failed(ExceededMaxCallDepth)
  {
    var e := StmtAt(m, fr);
    CallEnters(m, sem, fr, e, Get(m, e));
    var s := Machine(stack + [fr], Running);
    assert s.frames[..|stack|] == stack;
    assert Run(Behaviour(m, sem), maxDepth, s, 1) == Step(Behaviour(m, sem), maxDepth, s);
  }
}
