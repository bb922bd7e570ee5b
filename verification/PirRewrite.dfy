/** replaceExpr preserves meaning: the rewritten program runs in step with the old one. */
module PirRewrite {
  import opened Slots
  import opened Pir
  import opened PirMachine
  import opened PirHandler
  import opened PirSafety
  import opened PirBigStep

  // ---------- reading operands, without the register cache of constants ----------

  /** The value of an operand, whether or not a constant has been cached yet. */
  function ValueOf(m: Module, params: seq<Value>, regs: Regs, e: Expr): Option<Value> {
    if IsLeaf(e.kind) then LeafValue(m, params, e) else if e in regs then Some(regs[e]) else None
  }

  function ValuesOf(m: Module, params: seq<Value>, regs: Regs, es: seq<Expr>): Option<seq<Value>>
    decreases |es|
  {
    if es == [] then Some([])
    else
      match ValueOf(m, params, regs, es[0])
      case None => None
      case Some(v) =>
        match ValuesOf(m, params, regs, es[1..])
        case None => None
        case Some(vs) => Some([v] + vs)
  }

  /** A cached constant or parameter has its value. */
  ghost predicate CacheOk(m: Module, params: seq<Value>, regs: Regs) {
    forall e :: e in regs && IsLeaf(e.kind) ==> LeafValue(m, params, e) == Some(regs[e])
  }

  /** The registers of statements agree, except perhaps that of `but`. */
  ghost predicate SameBut(a: Regs, b: Regs, but: Expr) {
    forall e: Expr :: !IsLeaf(e.kind) && e != but ==> (e in a <==> e in b) && (e in a ==> a[e] == b[e])
  }

  ghost predicate SameStmts(a: Regs, b: Regs) {
    forall e: Expr :: !IsLeaf(e.kind) ==> (e in a <==> e in b) && (e in a ==> a[e] == b[e])
  }

  lemma FetchIs(m: Module, params: seq<Value>, regs: Regs, e: Expr)
    requires CacheOk(m, params, regs)
    ensures var r := Fetch(m, params, regs, e); var v := ValueOf(m, params, regs, e);
      && (r.None? <==> v.None?)
      && (r.Some? ==> r.value.value == v.value && CacheOk(m, params, r.value.regs) && SameStmts(regs, r.value.regs))
  {
  }

  lemma {:induction false} FetchAllIs(m: Module, params: seq<Value>, regs: Regs, es: seq<Expr>)
    requires CacheOk(m, params, regs)
    ensures var r := FetchAll(m, params, regs, es); var v := ValuesOf(m, params, regs, es);
      && (r.None? <==> v.None?)
      && (r.Some? ==> r.value.values == v.value && CacheOk(m, params, r.value.regs) && SameStmts(regs, r.value.regs))
    decreases |es|
  {
    if es == [] {
    } else {
      FetchIs(m, params, regs, es[0]);
      var r := Fetch(m, params, regs, es[0]);
      if r.Some? {
        FetchAllIs(m, params, r.value.regs, es[1..]);
        ValuesSame(m, params, regs, r.value.regs, es[1..]);
      }
    }
  }

  lemma {:induction false} ValuesSame(m: Module, params: seq<Value>, a: Regs, b: Regs, es: seq<Expr>)
    requires SameStmts(a, b)
    ensures ValuesOf(m, params, a, es) == ValuesOf(m, params, b, es)
    decreases |es|
  {
    if es == [] {
    } else {
      ValuesSame(m, params, a, b, es[1..]);
    }
  }

  // ---------- the two programs ----------

  /** What the simulation needs of the two modules. */
  ghost predicate Rewritten(m: Module, m': Module, o: Expr, r: Expr) {
    && o != r && (IsLeaf(o.kind) ==> forall b :: b in m.blocks ==> o !in m.blocks[b])
    && m'.funcs == m.funcs && m'.blocks.Keys == m.blocks.Keys
    && (forall b :: b in m.blocks ==> m'.blocks[b] == Without(m.blocks[b], o))
    && (forall b, k :: b in m.blocks && 0 <= k < |m.blocks[b]| && m.blocks[b][k] != o ==>
        StmtRewritten(m, m', o, r, m.blocks[b][k]))
    && SameNumbers(m, m', o)
  }

  /** The constants other than `but` are the same. */
  ghost predicate SameNumbers(m: Module, m': Module, but: Expr) {
    forall e: Expr :: e.kind.Number? && e != but ==>
      (Has(m', e) <==> Has(m, e)) && (Has(m, e) ==> Get(m', e) == Get(m, e))
  }

  predicate StmtRewritten(m: Module, m': Module, o: Expr, r: Expr, x: Expr) {
    && IsStmt(x.kind)
    && (Has(m', x) <==> Has(m, x))
    && (Has(m, x) ==> Get(m', x) == Subst(Get(m, x), o, r) && !BaseAndIndex(Get(m, x), o))
  }

  /** Registers of the old and the new program. */
  ghost predicate RegsRel(m: Module, m': Module, o: Expr, params: seq<Value>, regs: Regs, regs': Regs) {
    CacheOk(m, params, regs) && CacheOk(m', params, regs') && SameBut(regs, regs', o)
  }

  /** Where `o` and `r` are both defined and equal, either may be read. */
  predicate Interchangeable(m: Module, params: seq<Value>, regs: Regs, o: Expr, r: Expr) {
    ValueOf(m, params, regs, o).Some? && ValueOf(m, params, regs, o) == ValueOf(m, params, regs, r)
  }

  lemma {:induction false} ValuesSubst(m: Module, m': Module, o: Expr, r: Expr, params: seq<Value>, regs: Regs,
                                       regs': Regs, es: seq<Expr>)
    requires Rewritten(m, m', o, r) && RegsRel(m, m', o, params, regs, regs')
    requires o in es ==> Interchangeable(m, params, regs, o, r)
    ensures ValuesOf(m', params, regs', SubstAll(es, o, r)) == ValuesOf(m, params, regs, es)
    decreases |es|
  {
    if es == [] {
    } else {
      ValuesSubst(m, m', o, r, params, regs, regs', es[1..]);
      assert SubstAll(es, o, r)[1..] == SubstAll(es[1..], o, r);
    }
  }

  /** Both programs read the same values, or both get stuck. */
  ghost predicate ReadsRel(m: Module, m': Module, o: Expr, params: seq<Value>, a: Option<ReadAll>,
                           a': Option<ReadAll>) {
    && (a.None? <==> a'.None?)
    && (a.Some? ==> a.value.values == a'.value.values && RegsRel(m, m', o, params, a.value.regs, a'.value.regs))
  }

  lemma FetchAllRel(m: Module, m': Module, o: Expr, r: Expr, params: seq<Value>, regs: Regs, regs': Regs, es: seq<Expr>)
    requires Rewritten(m, m', o, r) && RegsRel(m, m', o, params, regs, regs')
    requires o in es ==> Interchangeable(m, params, regs, o, r)
    ensures ReadsRel(m, m', o, params, FetchAll(m, params, regs, es), FetchAll(m', params, regs', SubstAll(es, o, r)))
    ensures var a := FetchAll(m, params, regs, es); a.Some? ==> SameStmts(regs, a.value.regs)
  {
    FetchAllIs(m, params, regs, es);
    FetchAllIs(m', params, regs', SubstAll(es, o, r));
    ValuesSubst(m, m', o, r, params, regs, regs', es);
  }

  ghost predicate ReadRel(m: Module, m': Module, o: Expr, params: seq<Value>, a: Option<Read>, a': Option<Read>) {
    && (a.None? <==> a'.None?)
    && (a.Some? ==> a.value.value == a'.value.value && RegsRel(m, m', o, params, a.value.regs, a'.value.regs))
  }

  lemma FetchRel(m: Module, m': Module, o: Expr, r: Expr, params: seq<Value>, regs: Regs, regs': Regs, e: Expr)
    requires Rewritten(m, m', o, r) && RegsRel(m, m', o, params, regs, regs')
    requires e == o ==> Interchangeable(m, params, regs, o, r)
    ensures ReadRel(m, m', o, params, Fetch(m, params, regs, e), Fetch(m', params, regs', SubstExpr(e, o, r)))
    ensures var a := Fetch(m, params, regs, e); a.Some? ==> SameStmts(regs, a.value.regs)
  {
    FetchIs(m, params, regs, e);
    FetchIs(m', params, regs', SubstExpr(e, o, r));
  }

  lemma {:induction false} PickRel(m: Module, m': Module, sem: Semantics, o: Expr, r: Expr, params: seq<Value>,
                                   regs: Regs, regs': Regs, cond: Value, cases: seq<Case>, default: nat)
    requires Rewritten(m, m', o, r) && RegsRel(m, m', o, params, regs, regs')
    requires o in CaseValues(cases) ==> Interchangeable(m, params, regs, o, r)
    ensures var p := PickCase(m, sem, params, regs, cond, cases, default);
      var p' := PickCase(m', sem, params, regs', cond, SubstCases(cases, o, r), default);
      && (p.None? <==> p'.None?)
      && (p.Some? ==> p.value.block == p'.value.block && RegsRel(m, m', o, params, p.value.regs, p'.value.regs))
    decreases |cases|
  {
    if cases == [] {
    } else {
      assert CaseValues(cases)[0] == cases[0].value;
      FetchRel(m, m', o, r, params, regs, regs', cases[0].value);
      var cases' := SubstCases(cases, o, r);
      assert cases'[1..] == SubstCases(cases[1..], o, r);
      var a := Fetch(m, params, regs, cases[0].value);
      var a' := Fetch(m', params, regs', cases'[0].value);
      if a.Some? && !sem.same(cond, a.value.value) {
        if o in CaseValues(cases[1..]) {
          assert CaseValues(cases)[1..] == CaseValues(cases[1..]);
        }
        PickRel(m, m', sem, o, r, params, a.value.regs, a'.value.regs, cond, cases[1..], default);
      }
    }
  }

  lemma {:induction false} PredSubst(preds: seq<Pred>, prev: Option<nat>, o: Expr, r: Expr)
    ensures var p := ChoosePred(preds, prev); var p' := ChoosePred(SubstPreds(preds, o, r), prev);
      && (p.None? <==> p'.None?)
      && (p.Some? ==> p'.value == SubstExpr(p.value, o, r))
  {
    if preds == [] {
    } else {
      assert SubstPreds(preds, o, r)[1..] == SubstPreds(preds[1..], o, r);
      PredSubst(preds[1..], prev, o, r);
    }
  }

  // ---------- frames ----------

  /** Where a block position is once `o` has been removed from the block. */
  function NewIndex(m: Module, o: Expr, b: nat, i: nat): nat {
    if b in m.blocks && i <= |m.blocks[b]| then |Without(m.blocks[b][..i], o)| else i
  }

  ghost predicate FrameRel(m: Module, m': Module, o: Expr, fr: StackFrame, fr': StackFrame) {
    && fr'.func == fr.func && fr'.block == fr.block && fr'.prev == fr.prev && fr'.params == fr.params
    && fr'.retValue == fr.retValue
    && (fr.retValue.Some? ==> fr.retValue.value != o && !IsLeaf(fr.retValue.value.kind))
    && fr'.index == NewIndex(m, o, fr.block, fr.index)
    && RegsRel(m, m', o, fr.params, fr.regs, fr'.regs)
  }

  lemma WithoutAtIndex(es: seq<Expr>, e: Expr, i: nat)
    requires i < |es|
    ensures var j := |Without(es[..i], e)|;
      if es[i] == e then |Without(es[..i + 1], e)| == j
      else |Without(es[..i + 1], e)| == j + 1 && j < |Without(es, e)| && Without(es, e)[j] == es[i]
  {
    assert es[..i + 1][..i] == es[..i];
    WithoutSplit(es[..i + 1], es[i + 1..], e);
    assert es[..i + 1] + es[i + 1..] == es;
  }

  lemma WithoutLength(es: seq<Expr>, e: Expr)
    ensures |Without(es, e)| <= |es|
    decreases |es|
  {
  }

  lemma SameIndex(es: seq<Expr>, o: Expr, i: nat)
    requires i <= |es|
    ensures var j := |Without(es[..i], o)|;
      && (i == |es| ==> j >= |Without(es, o)|)
      && (i < |es| && es[i] != o ==>
            j < |Without(es, o)| && Without(es, o)[j] == es[i] && |Without(es[..i + 1], o)| == j + 1)
      && (i < |es| && es[i] == o ==> |Without(es[..i + 1], o)| == j)
  {
    if i < |es| {
      WithoutAtIndex(es, o, i);
    } else {
      assert es[..i] == es;
    }
  }

  /** A frame at a statement other than `o` is at the same statement in the new program. */
  lemma SameStmt(m: Module, m': Module, o: Expr, r: Expr, fr: StackFrame, fr': StackFrame)
    requires Rewritten(m, m', o, r) && FrameRel(m, m', o, fr, fr')
    ensures !AtStmt(m, fr) ==> !AtStmt(m', fr')
    ensures AtStmt(m, fr) && StmtAt(m, fr) != o ==>
              && AtStmt(m', fr') && StmtAt(m', fr') == StmtAt(m, fr)
              && NewIndex(m, o, fr.block, fr.index + 1) == fr'.index + 1
    ensures AtStmt(m, fr) && StmtAt(m, fr) == o ==> NewIndex(m, o, fr.block, fr.index + 1) == fr'.index
  {
    if fr.block in m.blocks {
      assert m'.blocks[fr.block] == Without(m.blocks[fr.block], o);
      SamePlace(m, m', o, fr.block, fr.index);
    }
  }

  lemma SamePlace(m: Module, m': Module, o: Expr, b: nat, i: nat)
    requires b in m.blocks && b in m'.blocks && m'.blocks[b] == Without(m.blocks[b], o)
    ensures var es := m.blocks[b]; var es' := m'.blocks[b]; var j := NewIndex(m, o, b, i);
      && (i >= |es| ==> j >= |es'|)
      && (i < |es| && es[i] != o ==> j < |es'| && es'[j] == es[i] && NewIndex(m, o, b, i + 1) == j + 1)
      && (i < |es| && es[i] == o ==> NewIndex(m, o, b, i + 1) == j)
  {
    WithoutLength(m.blocks[b], o);
    if i <= |m.blocks[b]| {
      SameIndex(m.blocks[b], o, i);
    }
  }

  /** What the two programs do at the same statement. */
  ghost predicate StepRel(m: Module, m': Module, o: Expr, a: FrameStep, b: FrameStep) {
    match a
    case Next(f) => b.Next? && FrameRel(m, m', o, f, b.frame)
    case Push(f, g, _) => b.Push? && FrameRel(m, m', o, f, b.frame) && FrameRel(m, m', o, g, b.callee)
    case Pop(v) => b == Pop(v)
    case Fail(f, code) => b.Fail? && b.code == code && b.frame.func == f.func
    case Crash => b.Crash?
  }

  /** `o` is read by the instruction; of a phi only the value for the block it was entered from. */
  predicate Uses(i: Instr, prev: Option<nat>, o: Expr) {
    if i.PhiI? then ChoosePred(i.preds, prev) == Some(o) else o in Operands(i)
  }

  /** Two frames at the same place of the old and the new program, where either of `o` and `r` may be read. */
  ghost predicate At(m: Module, m': Module, o: Expr, r: Expr, fr: StackFrame, fr': StackFrame, i: Instr) {
    && Rewritten(m, m', o, r) && FrameRel(m, m', o, fr, fr')
    && NewIndex(m, o, fr.block, fr.index + 1) == fr'.index + 1
    && (Uses(i, fr.prev, o) ==> Interchangeable(m, fr.params, fr.regs, o, r))
  }

  lemma AssignRel(m: Module, m': Module, o: Expr, fr: StackFrame, fr': StackFrame, regs: Regs, regs': Regs, e: Expr,
                  v: Value)
    requires FrameRel(m, m', o, fr, fr') && NewIndex(m, o, fr.block, fr.index + 1) == fr'.index + 1
    requires RegsRel(m, m', o, fr.params, regs, regs') && !IsLeaf(e.kind)
    ensures StepRel(m, m', o, Assign(fr, regs, e, v), Assign(fr', regs', e, v))
  {
  }

  lemma FinishRel(m: Module, m': Module, o: Expr, fr: StackFrame, fr': StackFrame, regs: Regs, regs': Regs, e: Expr,
                  res: OpResult)
    requires FrameRel(m, m', o, fr, fr') && NewIndex(m, o, fr.block, fr.index + 1) == fr'.index + 1
    requires RegsRel(m, m', o, fr.params, regs, regs') && !IsLeaf(e.kind)
    ensures StepRel(m, m', o, Finish(fr, regs, e, res), Finish(fr', regs', e, res))
  {
    if res.Ok? {
      AssignRel(m, m', o, fr, fr', regs, regs', e, res.value);
    }
  }

  lemma GotoRel(m: Module, m': Module, o: Expr, fr: StackFrame, fr': StackFrame, regs: Regs, regs': Regs, target: nat)
    requires FrameRel(m, m', o, fr, fr') && RegsRel(m, m', o, fr.params, regs, regs')
    ensures StepRel(m, m', o, Goto(fr, regs, target), Goto(fr', regs', target))
  {
    if target in m.blocks {
      assert m.blocks[target][..0] == [];
    }
  }

  // ---------- the same statement in both programs ----------

  lemma CallRel(m: Module, m': Module, sem: Semantics, o: Expr, r: Expr, fr: StackFrame, fr': StackFrame, x: Expr,
                i: Instr)
    requires At(m, m', o, r, fr, fr', i) && x != o && !IsLeaf(x.kind) && (i.CallI? || i.CallVoidI?)
    ensures StepRel(m, m', o, Exec(m, sem, fr, x, i), Exec(m', sem, fr', x, Subst(i, o, r)))
  {
    FetchAllRel(m, m', o, r, fr.params, fr.regs, fr'.regs, i.args);
    var a := FetchAll(m, fr.params, fr.regs, i.args);
    var a' := FetchAll(m', fr.params, fr'.regs, SubstAll(i.args, o, r));
    if a.Some? {
      var ret := if i.CallI? then Some(x) else fr.retValue;
      var f := fr.(regs := a.value.regs, retValue := ret, index := fr.index + 1);
      var f' := fr'.(regs := a'.value.regs, retValue := ret, index := fr'.index + 1);
    }
  }

  lemma RetRel(m: Module, m': Module, sem: Semantics, o: Expr, r: Expr, fr: StackFrame, fr': StackFrame, x: Expr,
               i: Instr)
    requires At(m, m', o, r, fr, fr', i) && i.RetI?
    ensures StepRel(m, m', o, Exec(m, sem, fr, x, i), Exec(m', sem, fr', x, Subst(i, o, r)))
  {
    if i.result.Some? {
      FetchRel(m, m', o, r, fr.params, fr.regs, fr'.regs, i.result.value);
    }
  }

  lemma BranchRel(m: Module, m': Module, sem: Semantics, o: Expr, r: Expr, fr: StackFrame, fr': StackFrame, x: Expr,
                  i: Instr)
    requires At(m, m', o, r, fr, fr', i) && i.BranchI?
    ensures StepRel(m, m', o, Exec(m, sem, fr, x, i), Exec(m', sem, fr', x, Subst(i, o, r)))
  {
    FetchRel(m, m', o, r, fr.params, fr.regs, fr'.regs, i.cond);
    var a := Fetch(m, fr.params, fr.regs, i.cond);
    var a' := Fetch(m', fr.params, fr'.regs, SubstExpr(i.cond, o, r));
    if a.Some? {
      var target := if sem.truth(a.value.value) then i.thenBlock else i.elseBlock;
      GotoRel(m, m', o, fr, fr', a.value.regs, a'.value.regs, target);
    }
  }

  lemma SwitchRel(m: Module, m': Module, sem: Semantics, o: Expr, r: Expr, fr: StackFrame, fr': StackFrame, x: Expr,
                  i: Instr)
    requires At(m, m', o, r, fr, fr', i) && i.SwitchI?
    ensures StepRel(m, m', o, Exec(m, sem, fr, x, i), Exec(m', sem, fr', x, Subst(i, o, r)))
  {
    FetchRel(m, m', o, r, fr.params, fr.regs, fr'.regs, i.cond);
    var a := Fetch(m, fr.params, fr.regs, i.cond);
    var a' := Fetch(m', fr.params, fr'.regs, SubstExpr(i.cond, o, r));
    if a.Some? {
      PickRel(m, m', sem, o, r, fr.params, a.value.regs, a'.value.regs, a.value.value, i.cases, i.defaultBlock);
      var p := PickCase(m, sem, fr.params, a.value.regs, a.value.value, i.cases, i.defaultBlock);
      var p' := PickCase(m', sem, fr.params, a'.value.regs, a.value.value, SubstCases(i.cases, o, r), i.defaultBlock);
      if p.Some? {
        GotoRel(m, m', o, fr, fr', p.value.regs, p'.value.regs, p.value.block);
      }
    }
  }

  lemma PhiRel(m: Module, m': Module, sem: Semantics, o: Expr, r: Expr, fr: StackFrame, fr': StackFrame, x: Expr,
               i: Instr)
    requires At(m, m', o, r, fr, fr', i) && !IsLeaf(x.kind) && i.PhiI?
    ensures StepRel(m, m', o, Exec(m, sem, fr, x, i), Exec(m', sem, fr', x, Subst(i, o, r)))
  {
    PredSubst(i.preds, fr.prev, o, r);
    var p := ChoosePred(i.preds, fr.prev);
    if p.Some? {
      FetchRel(m, m', o, r, fr.params, fr.regs, fr'.regs, p.value);
      var a := Fetch(m, fr.params, fr.regs, p.value);
      var a' := Fetch(m', fr.params, fr'.regs, SubstExpr(p.value, o, r));
      if a.Some? {
        AssignRel(m, m', o, fr, fr', a.value.regs, a'.value.regs, x, a.value.value);
      }
    }
  }

  lemma OpRel(m: Module, m': Module, sem: Semantics, o: Expr, r: Expr, fr: StackFrame, fr': StackFrame, x: Expr,
              i: Instr)
    requires At(m, m', o, r, fr, fr', i) && !IsLeaf(x.kind) && i.OpI?
    ensures StepRel(m, m', o, Exec(m, sem, fr, x, i), Exec(m', sem, fr', x, Subst(i, o, r)))
  {
    FetchAllRel(m, m', o, r, fr.params, fr.regs, fr'.regs, i.args);
    var a := FetchAll(m, fr.params, fr.regs, i.args);
    var a' := FetchAll(m', fr.params, fr'.regs, SubstAll(i.args, o, r));
    if a.Some? {
      FinishRel(m, m', o, fr, fr', a.value.regs, a'.value.regs, x, sem.op(OpCode(x.kind), a.value.values));
    }
  }

  lemma CalcPtrRel(m: Module, m': Module, sem: Semantics, o: Expr, r: Expr, fr: StackFrame, fr': StackFrame, x: Expr,
                   i: Instr)
    requires At(m, m', o, r, fr, fr', i) && !IsLeaf(x.kind) && i.CalcPtrI? && !BaseAndIndex(i, o)
    ensures StepRel(m, m', o, Exec(m, sem, fr, x, i), Exec(m', sem, fr', x, Subst(i, o, r)))
  {
    var i' := Subst(i, o, r);
    SubstComplete(i, o, r);
    assert Literals(i'.indices) == Literals(i.indices);
    FetchAllRel(m, m', o, r, fr.params, fr.regs, fr'.regs, Operands(i));
    var a := FetchAll(m, fr.params, fr.regs, Operands(i));
    var a' := FetchAll(m', fr.params, fr'.regs, Operands(i'));
    if a.Some? {
      FinishRel(m, m', o, fr, fr', a.value.regs, a'.value.regs, x,
          sem.calcPtr(i.ptrType, Literals(i.indices), a.value.values));
    }
  }

  lemma SetRel(m: Module, m': Module, o: Expr, params: seq<Value>, regs: Regs, regs': Regs, e: Expr, v: Value)
    requires RegsRel(m, m', o, params, regs, regs') && !IsLeaf(e.kind)
    ensures RegsRel(m, m', o, params, regs[e := v], regs'[e := v])
  {
  }

  lemma FinishWrapRel(m: Module, m': Module, o: Expr, fr: StackFrame, fr': StackFrame, regs: Regs, regs': Regs, e: Expr,
                      w: (Value, Value))
    requires FrameRel(m, m', o, fr, fr') && NewIndex(m, o, fr.block, fr.index + 1) == fr'.index + 1
    requires RegsRel(m, m', o, fr.params, regs, regs')
    ensures StepRel(m, m', o, FinishWrap(fr, regs, e, w), FinishWrap(fr', regs', e, w))
  {
    var e1, e2 := Expr(WrapResult(OpCode(e.kind)), e.index), Expr(WrapWrapped(OpCode(e.kind)), e.index);
    SetRel(m, m', o, fr.params, regs, regs', e1, w.0);
    SetRel(m, m', o, fr.params, regs[e1 := w.0], regs'[e1 := w.0], e2, w.1);
  }

  lemma WrapRel(m: Module, m': Module, sem: Semantics, o: Expr, r: Expr, fr: StackFrame, fr': StackFrame, x: Expr,
                i: Instr)
    requires At(m, m', o, r, fr, fr', i) && i.WrapI?
    ensures StepRel(m, m', o, Exec(m, sem, fr, x, i), Exec(m', sem, fr', x, Subst(i, o, r)))
  {
    var es := [i.lhs, i.rhs];
    FetchAllRel(m, m', o, r, fr.params, fr.regs, fr'.regs, es);
    assert SubstAll(es, o, r) == [SubstExpr(i.lhs, o, r), SubstExpr(i.rhs, o, r)];
    var a := FetchAll(m, fr.params, fr.regs, es);
    var a' := FetchAll(m', fr.params, fr'.regs, [SubstExpr(i.lhs, o, r), SubstExpr(i.rhs, o, r)]);
    if a.Some? && |a.value.values| == 2 {
      FinishWrapRel(m, m', o, fr, fr', a.value.regs, a'.value.regs, x,
                    sem.wrap(OpCode(x.kind), a.value.values[0], a.value.values[1]));
    }
  }

  lemma InstrRel(m: Module, m': Module, sem: Semantics, o: Expr, r: Expr, fr: StackFrame, fr': StackFrame, x: Expr,
                 i: Instr)
    requires At(m, m', o, r, fr, fr', i) && x != o && !IsLeaf(x.kind) && !BaseAndIndex(i, o)
    ensures StepRel(m, m', o, Exec(m, sem, fr, x, i), Exec(m', sem, fr', x, Subst(i, o, r)))
  {
    match i {
      case NumberI(_) =>
      case CallI(_, _) => CallRel(m, m', sem, o, r, fr, fr', x, i);
      case CallVoidI(_, _) => CallRel(m, m', sem, o, r, fr, fr', x, i);
      case RetI(_) => RetRel(m, m', sem, o, r, fr, fr', x, i);
      case JumpI(target) => GotoRel(m, m', o, fr, fr', fr.regs, fr'.regs, target);
      case BranchI(_, _, _) => BranchRel(m, m', sem, o, r, fr, fr', x, i);
      case PhiI(_) => PhiRel(m, m', sem, o, r, fr, fr', x, i);
      case SwitchI(_, _, _) => SwitchRel(m, m', sem, o, r, fr, fr', x, i);
      case CalcPtrI(_, _, _) => CalcPtrRel(m, m', sem, o, r, fr, fr', x, i);
      case OpI(_) => OpRel(m, m', sem, o, r, fr, fr', x, i);
      case WrapI(_, _) => WrapRel(m, m', sem, o, r, fr, fr', x, i);
    }
  }

  // ---------- one step ----------

  /** Instructions that only compute a value for their own register. */
  predicate Pure(i: Instr) { i.OpI? || i.CalcPtrI? || i.PhiI? }

  /**
   What the replacement relies on at a state of the old run: `original` is effect-free and does not fail, and wherever
   it is used both it and `replacement` have a value, the same.
   */
  ghost predicate MayRewrite(m: Module, sem: Semantics, o: Expr, r: Expr, fr: StackFrame) {
    AtStmt(m, fr) && Has(m, StmtAt(m, fr)) ==>
      var x := StmtAt(m, fr);
      if x == o then Pure(Get(m, o)) && ExecFrame(m, sem, fr).Next?
      else Uses(Get(m, x), fr.prev, o) ==> Interchangeable(m, fr.params, fr.regs, o, r)
  }

  /** A step that only sets the register of `o`, apart from caching constants. */
  ghost predicate OnlySets(m: Module, o: Expr, fr: StackFrame, step: FrameStep) {
    step.Next? ==>
      && step.frame == fr.(regs := step.frame.regs, index := fr.index + 1)
      && CacheOk(m, fr.params, step.frame.regs) && SameBut(fr.regs, step.frame.regs, o)
  }

  lemma PureOnlySets(m: Module, sem: Semantics, o: Expr, fr: StackFrame, i: Instr)
    requires Pure(i) && !IsLeaf(o.kind) && CacheOk(m, fr.params, fr.regs)
    ensures OnlySets(m, o, fr, Exec(m, sem, fr, o, i))
  {
    match i {
      case OpI(args) =>
        FetchAllIs(m, fr.params, fr.regs, args);
        var a := FetchAll(m, fr.params, fr.regs, args);
        if a.Some? {
          FinishOnlySets(m, o, fr, a.value.regs, sem.op(OpCode(o.kind), a.value.values));
        }
      case CalcPtrI(ptrType, base, indices) =>
        FetchAllIs(m, fr.params, fr.regs, [base] + IndexExprs(indices));
        var a := FetchAll(m, fr.params, fr.regs, [base] + IndexExprs(indices));
        if a.Some? {
          FinishOnlySets(m, o, fr, a.value.regs, sem.calcPtr(ptrType, Literals(indices), a.value.values));
        }
      case PhiI(preds) =>
        var p := ChoosePred(preds, fr.prev);
        if p.Some? {
          FetchIs(m, fr.params, fr.regs, p.value);
        }
    }
  }

  lemma FinishOnlySets(m: Module, o: Expr, fr: StackFrame, regs: Regs, res: OpResult)
    requires !IsLeaf(o.kind) && CacheOk(m, fr.params, regs) && SameStmts(fr.regs, regs)
    ensures OnlySets(m, o, fr, Finish(fr, regs, o, res))
  {
  }

  /** The new program has nothing to do where the old one executes `original`. */
  lemma OriginalStutters(m: Module, m': Module, sem: Semantics, o: Expr, r: Expr, fr: StackFrame, fr': StackFrame)
    requires Rewritten(m, m', o, r) && FrameRel(m, m', o, fr, fr') && MayRewrite(m, sem, o, r, fr)
    requires AtStmt(m, fr) && StmtAt(m, fr) == o && Has(m, o)
    ensures var step := ExecFrame(m, sem, fr);
      && step.Next? && FrameRel(m, m', o, step.frame, fr')
      && step.frame.block == fr.block && step.frame.index == fr.index + 1
  {
    SameStmt(m, m', o, r, fr, fr');
    PureOnlySets(m, sem, o, fr, Get(m, o));
    assert ExecFrame(m, sem, fr) == Exec(m, sem, fr, o, Get(m, o));
  }

  lemma OthersFollow(m: Module, m': Module, sem: Semantics, o: Expr, r: Expr, fr: StackFrame, fr': StackFrame)
    requires Rewritten(m, m', o, r) && FrameRel(m, m', o, fr, fr') && MayRewrite(m, sem, o, r, fr)
    requires !(AtStmt(m, fr) && StmtAt(m, fr) == o)
    ensures StepRel(m, m', o, ExecFrame(m, sem, fr), ExecFrame(m', sem, fr'))
  {
    SameStmt(m, m', o, r, fr, fr');
    if AtStmt(m, fr) {
      var x := StmtAt(m, fr);
      assert StmtRewritten(m, m', o, r, x);
      if Has(m, x) {
        InstrRel(m, m', sem, o, r, fr, fr', x, Get(m, x));
      }
    }
  }

  // ---------- runs ----------

  /** Two machines at the same point, frame by frame; once they have stopped, with the same outcome and stack trace. */
  ghost predicate MachineRel(m: Module, m': Module, o: Expr, s: Machine, s': Machine) {
    && s'.out == s.out && |s'.frames| == |s.frames|
    && (forall k :: 0 <= k < |s.frames| ==> s'.frames[k].func == s.frames[k].func)
    && (s.out.Running? ==> forall k :: 0 <= k < |s.frames| ==> FrameRel(m, m', o, s.frames[k], s'.frames[k]))
  }

  function Top(s: Machine): StackFrame
    requires s.frames != []
  {
    s.frames[|s.frames| - 1]
  }

  predicate Going(s: Machine) { s.out.Running? && s.frames != [] }

  lemma StepSim(m: Module, m': Module, exec: Program, exec': Program, o: Expr, maxDepth: nat, s: Machine, s': Machine)
    requires MachineRel(m, m', o, s, s') && Going(s)
    requires StepRel(m, m', o, exec(Top(s)), exec'(Top(s')))
    ensures MachineRel(m, m', o, Step(exec, maxDepth, s), Step(exec', maxDepth, s'))
  {
    var n := |s.frames| - 1;
    var below, below' := s.frames[..n], s'.frames[..n];
    assert FrameRel(m, m', o, Top(s), Top(s'));
    assert forall k :: 0 <= k < n ==> FrameRel(m, m', o, below[k], below'[k]);
    match exec(Top(s)) {
      case Pop(v) => PopSim(m, m', o, below, below', v);
      case _ =>
    }
  }

  lemma PopSim(m: Module, m': Module, o: Expr, below: seq<StackFrame>, below': seq<StackFrame>, v: Option<Value>)
    requires |below'| == |below| && forall k :: 0 <= k < |below| ==> FrameRel(m, m', o, below[k], below'[k])
    ensures MachineRel(m, m', o, PopInto(below, v), PopInto(below', v))
  {
    if below != [] {
      var c, c' := below[|below| - 1], below'[|below| - 1];
      assert FrameRel(m, m', o, c, c');
      if v.Some? && c.retValue.Some? {
        SetRel(m, m', o, c.params, c.regs, c'.regs, c.retValue.value, v.value);
      }
    }
  }

  /** The old program is about to execute `original`. */
  predicate Skips(m: Module, o: Expr, s: Machine) {
    Going(s) && AtStmt(m, Top(s)) && StmtAt(m, Top(s)) == o
  }

  /** How many steps of the new program correspond to k steps of the old. */
  function NewSteps(m: Module, exec: Program, maxDepth: nat, o: Expr, s: Machine, k: nat): nat
    decreases k
  {
    if k == 0 then 0
    else (if Skips(m, o, s) then 0 else 1) + NewSteps(m, exec, maxDepth, o, Step(exec, maxDepth, s), k - 1)
  }

  ghost predicate MayAt(m: Module, sem: Semantics, o: Expr, r: Expr, s: Machine) {
    Going(s) ==> MayRewrite(m, sem, o, r, Top(s)) && (Skips(m, o, s) ==> Has(m, o))
  }

  /** The replacement is justified at every state of the old run. */
  ghost predicate Justified(m: Module, sem: Semantics, o: Expr, r: Expr, maxDepth: nat, s: Machine) {
    forall k: nat :: MayAt(m, sem, o, r, Run(Behaviour(m, sem), maxDepth, s, k))
  }

  /** A step that the old program alone takes, within the frame on top. */
  lemma StutterRel(m: Module, m': Module, o: Expr, exec: Program, maxDepth: nat, s: Machine, s': Machine)
    requires MachineRel(m, m', o, s, s') && Going(s)
    requires exec(Top(s)).Next? && FrameRel(m, m', o, exec(Top(s)).frame, Top(s'))
    ensures MachineRel(m, m', o, Step(exec, maxDepth, s), s')
  {
    var n := |s.frames| - 1;
    var t := Step(exec, maxDepth, s);
    assert t.frames == s.frames[..n] + [exec(Top(s)).frame];
    forall k | 0 <= k < |t.frames|
      ensures FrameRel(m, m', o, t.frames[k], s'.frames[k])
    {
      assert k < n ==> t.frames[k] == s.frames[k];
    }
  }

  lemma OneStep(m: Module, m': Module, sem: Semantics, o: Expr, r: Expr, maxDepth: nat, s: Machine, s': Machine)
    requires Rewritten(m, m', o, r) && MachineRel(m, m', o, s, s') && MayAt(m, sem, o, r, s)
    ensures var t := Step(Behaviour(m, sem), maxDepth, s);
      if Skips(m, o, s) then MachineRel(m, m', o, t, s')
      else MachineRel(m, m', o, t, Step(Behaviour(m', sem), maxDepth, s'))
  {
    if Going(s) {
      assert FrameRel(m, m', o, Top(s), Top(s'));
      if Skips(m, o, s) {
        OriginalStutters(m, m', sem, o, r, Top(s), Top(s'));
        StutterRel(m, m', o, Behaviour(m, sem), maxDepth, s, s');
      } else {
        OthersFollow(m, m', sem, o, r, Top(s), Top(s'));
        StepSim(m, m', Behaviour(m, sem), Behaviour(m', sem), o, maxDepth, s, s');
      }
    }
  }

  /** From related states, one step of each program, or of the old one alone, leads to related states again. */
  predicate StaysRelated(m: Module, o: Expr, rel: (Machine, Machine) -> bool, exec: Program, exec': Program,
                         maxDepth: nat, s: Machine, s': Machine) {
    rel(s, s') ==> rel(Step(exec, maxDepth, s), if Skips(m, o, s) then s' else Step(exec', maxDepth, s'))
  }

  ghost predicate InStep(m: Module, o: Expr, rel: (Machine, Machine) -> bool, exec: Program, exec': Program,
                         maxDepth: nat, s: Machine) {
    forall k: nat, s': Machine :: StaysRelated(m, o, rel, exec, exec', maxDepth, Run(exec, maxDepth, s, k), s')
  }

  lemma InStepNext(m: Module, o: Expr, rel: (Machine, Machine) -> bool, exec: Program, exec': Program, maxDepth: nat,
                   s: Machine, s': Machine)
    requires InStep(m, o, rel, exec, exec', maxDepth, s)
    ensures StaysRelated(m, o, rel, exec, exec', maxDepth, s, s')
    ensures InStep(m, o, rel, exec, exec', maxDepth, Step(exec, maxDepth, s))
  {
    assert StaysRelated(m, o, rel, exec, exec', maxDepth, Run(exec, maxDepth, s, 0), s');
    forall k: nat, t': Machine
      ensures StaysRelated(m, o, rel, exec, exec', maxDepth, Run(exec, maxDepth, Step(exec, maxDepth, s), k), t')
    {
      assert StaysRelated(m, o, rel, exec, exec', maxDepth, Run(exec, maxDepth, s, k + 1), t');
    }
  }

  lemma {:induction false} InStepRuns(m: Module, o: Expr, rel: (Machine, Machine) -> bool, exec: Program,
                                      exec': Program, maxDepth: nat, s: Machine, s': Machine, k: nat)
    requires InStep(m, o, rel, exec, exec', maxDepth, s) && rel(s, s')
    ensures rel(Run(exec, maxDepth, s, k), Run(exec', maxDepth, s', NewSteps(m, exec, maxDepth, o, s, k)))
    decreases k
  {
    if k == 0 {
    } else {
      InStepNext(m, o, rel, exec, exec', maxDepth, s, s');
      InStepRuns(m, o, rel, exec, exec', maxDepth, Step(exec, maxDepth, s),
                 if Skips(m, o, s) then s' else Step(exec', maxDepth, s'), k - 1);
    }
  }

  /**
   The new program goes through the same frames, blocks and positions as the old one, without the steps at `original`.
   */
  lemma RunSim(m: Module, m': Module, sem: Semantics, o: Expr, r: Expr, maxDepth: nat, s: Machine, s': Machine, k: nat)
    requires Rewritten(m, m', o, r) && MachineRel(m, m', o, s, s') && Justified(m, sem, o, r, maxDepth, s)
    ensures MachineRel(m, m', o, Run(Behaviour(m, sem), maxDepth, s, k),
                       Run(Behaviour(m', sem), maxDepth, s', NewSteps(m, Behaviour(m, sem), maxDepth, o, s, k)))
  {
    var exec, exec' := Behaviour(m, sem), Behaviour(m', sem);
    var rel := (a: Machine, b: Machine) => MachineRel(m, m', o, a, b);
    forall j: nat, t': Machine
      ensures StaysRelated(m, o, rel, exec, exec', maxDepth, Run(exec, maxDepth, s, j), t')
    {
      var t := Run(exec, maxDepth, s, j);
      assert MayAt(m, sem, o, r, t);
      if MachineRel(m, m', o, t, t') {
        OneStep(m, m', sem, o, r, maxDepth, t, t');
      }
    }
    InStepRuns(m, o, rel, exec, exec', maxDepth, s, s', k);
  }

  // ---------- no infinite stuttering ----------

  ghost predicate OccursOnce(m: Module, o: Expr) {
    forall b, i, j ::
      (b in m.blocks && 0 <= i < |m.blocks[b]| && 0 <= j < |m.blocks[b]| && m.blocks[b][i] == o && m.blocks[b][j] == o)
      ==> i == j
  }

  ghost predicate NeverSkipsTwice(m: Module, exec: Program, maxDepth: nat, o: Expr, s: Machine) {
    forall k: nat :: Skips(m, o, Run(exec, maxDepth, s, k)) ==>
        !Skips(m, o, Step(exec, maxDepth, Run(exec, maxDepth, s, k)))
  }

  lemma NeverSkipsTwiceNext(m: Module, exec: Program, maxDepth: nat, o: Expr, s: Machine)
    requires NeverSkipsTwice(m, exec, maxDepth, o, s)
    ensures Skips(m, o, s) ==> !Skips(m, o, Step(exec, maxDepth, s))
    ensures NeverSkipsTwice(m, exec, maxDepth, o, Step(exec, maxDepth, s))
  {
    assert Run(exec, maxDepth, s, 0) == s;
    var t := Step(exec, maxDepth, s);
    forall k: nat | Skips(m, o, Run(exec, maxDepth, t, k))
      ensures !Skips(m, o, Step(exec, maxDepth, Run(exec, maxDepth, t, k)))
    {
      assert Run(exec, maxDepth, s, k + 1) == Run(exec, maxDepth, t, k);
    }
  }

  /** In 2k steps of the old program the new one makes at least k. */
  lemma {:induction false} NewStepsGrow(m: Module, exec: Program, maxDepth: nat, o: Expr, s: Machine, k: nat)
    requires NeverSkipsTwice(m, exec, maxDepth, o, s)
    ensures NewSteps(m, exec, maxDepth, o, s, 2 * k) >= k
    decreases k
  {
    if k == 0 {
    } else {
      NeverSkipsTwiceNext(m, exec, maxDepth, o, s);
      var t := Step(exec, maxDepth, s);
      NeverSkipsTwiceNext(m, exec, maxDepth, o, t);
      NewStepsGrow(m, exec, maxDepth, o, Step(exec, maxDepth, t), k - 1);
      NewStepsTwo(m, exec, maxDepth, o, s, 2 * (k - 1));
    }
  }

  lemma NewStepsTwo(m: Module, exec: Program, maxDepth: nat, o: Expr, s: Machine, k: nat)
    requires Skips(m, o, s) ==> !Skips(m, o, Step(exec, maxDepth, s))
    ensures NewSteps(m, exec, maxDepth, o, s, k + 2)
            >= 1 + NewSteps(m, exec, maxDepth, o, Step(exec, maxDepth, Step(exec, maxDepth, s)), k)
  {
    var t := Step(exec, maxDepth, s);
    assert NewSteps(m, exec, maxDepth, o, t, k + 1)
        == (if Skips(m, o, t) then 0 else 1) + NewSteps(m, exec, maxDepth, o, Step(exec, maxDepth, t), k);
  }

  // ---------- the two modules of a replaceExpr ----------

  lemma {:induction false} IndicesIdentity(indices: seq<Index>, o: Expr, r: Expr)
    requires o !in IndexExprs(indices)
    ensures SubstIndices(indices, o, r) == indices
    decreases |indices|
  {
    if indices == [] {
    } else {
      IndicesIdentity(indices[1..], o, r);
      assert SubstIndices(indices, o, r)[1..] == SubstIndices(indices[1..], o, r);
      assert SubstIndices(indices, o, r) == [SubstIndices(indices, o, r)[0]] + SubstIndices(indices, o, r)[1..];
    }
  }

  lemma SubstIdentity(i: Instr, o: Expr, r: Expr)
    requires o !in Operands(i)
    ensures Subst(i, o, r) == i
  {
    match i {
      case CallI(_, args) => assert SubstAll(args, o, r) == args;
      case CallVoidI(_, args) => assert SubstAll(args, o, r) == args;
      case OpI(args) => assert SubstAll(args, o, r) == args;
      case PhiI(preds) =>
        forall k | 0 <= k < |preds|
          ensures SubstPreds(preds, o, r)[k] == preds[k]
        {
          assert PredValues(preds)[k] != o;
        }
        assert SubstPreds(preds, o, r) == preds;
      case SwitchI(_, cases, _) =>
        forall k | 0 <= k < |cases|
          ensures SubstCases(cases, o, r)[k] == cases[k]
        {
          assert CaseValues(cases)[k] != o;
        }
        assert SubstCases(cases, o, r) == cases;
      case CalcPtrI(_, base, indices) =>
        assert base != o;
        IndicesIdentity(indices, o, r);
      case _ =>
    }
  }

  lemma ReplacedStmt(m: Module, m': Module, f: nat, o: Expr, r: Expr, b: nat, x: Expr)
    requires Closed(m) && f < |m.funcs| && IsReplaced(m, m', f, o, r)
    requires NeverBaseAndIndex(m, f, o) && NotElsewhere(m, f, o)
    requires b in m.blocks && x in m.blocks[b] && x != o
    ensures StmtRewritten(m, m', o, r, x)
  {
    assert Owned(m, b);
    var g :| 0 <= g < |m.funcs| && b in m.funcs[g].blocks;
    assert x in FuncStmts(m, g);
    if Has(m, x) && g != f {
      DisjointFunctions(m, f, g, x);
      SubstIdentity(Get(m, x), o, r);
    }
  }

  lemma ReplacedRewritten(m: Module, m': Module, f: nat, o: Expr, r: Expr)
    requires Closed(m) && f < |m.funcs| && IsReplaced(m, m', f, o, r) && o != r
    requires NeverBaseAndIndex(m, f, o) && NotElsewhere(m, f, o)
    ensures Rewritten(m, m', o, r)
  {
    forall b, k | b in m.blocks && 0 <= k < |m.blocks[b]| && m.blocks[b][k] != o
      ensures StmtRewritten(m, m', o, r, m.blocks[b][k])
    {
      ReplacedStmt(m, m', f, o, r, b, m.blocks[b][k]);
    }
  }

  // ---------- main result ----------

  /**
   replaceExpr preserves meaning: f(args) returns the same value, fails with the same code and stack trace, gets stuck,
   or runs for ever, exactly as before, provided `original` is effect-free and does not fail, and `replacement` has its
   value wherever it is used.
   */
  lemma ReplacePreservesMeaning(h: Editor, o: Expr, r: Expr, sem: Semantics, maxDepth: nat, func: nat, args: seq<Value>,
                                fr: StackFrame, result: Result)
    requires CanReplace(h, o, r) && NeverBaseAndIndex(h.m, h.func, o) && NotElsewhere(h.m, h.func, o)
    requires Entry(h.m, func, args) == Some(fr) && !result.Timeout?
    requires Justified(h.m, sem, o, r, maxDepth, Machine([fr], Running))
    ensures var m' := Replaced(h, o, r).m;
      && Entry(m', func, args) == Some(fr)
      && (RunsTo(Behaviour(h.m, sem), maxDepth, fr, result) <==> RunsTo(Behaviour(m', sem), maxDepth, fr, result))
  {
    var m, m' := h.m, Replaced(h, o, r).m;
    ReplacedIs(h, o, r);
    ReplacedRewritten(m, m', h.func, o, r);
    RewrittenRunsTo(m, m', sem, o, r, maxDepth, fr, result);
  }

  lemma RewrittenRunsTo(m: Module, m': Module, sem: Semantics, o: Expr, r: Expr, maxDepth: nat, fr: StackFrame,
                        result: Result)
    requires Rewritten(m, m', o, r) && OccursOnce(m, o) && FrameRel(m, m', o, fr, fr) && !result.Timeout?
    requires Justified(m, sem, o, r, maxDepth, Machine([fr], Running))
    ensures RunsTo(Behaviour(m, sem), maxDepth, fr, result) <==> RunsTo(Behaviour(m', sem), maxDepth, fr, result)
  {
    var s := Machine([fr], Running);
    assert MachineRel(m, m', o, s, s);
    if RunsTo(Behaviour(m, sem), maxDepth, fr, result) {
      var k: nat :| Shown(Run(Behaviour(m, sem), maxDepth, s, k)) == result;
      NewShows(m, m', sem, o, r, maxDepth, s, k);
    }
    if RunsTo(Behaviour(m', sem), maxDepth, fr, result) {
      var j: nat :| Shown(Run(Behaviour(m', sem), maxDepth, s, j)) == result;
      OldEnds(m, m', sem, o, r, maxDepth, s, j);
    }
  }

  lemma NewShows(m: Module, m': Module, sem: Semantics, o: Expr, r: Expr, maxDepth: nat, s: Machine, k: nat)
    requires Rewritten(m, m', o, r) && MachineRel(m, m', o, s, s) && Justified(m, sem, o, r, maxDepth, s)
    ensures Shown(Run(Behaviour(m', sem), maxDepth, s, NewSteps(m, Behaviour(m, sem), maxDepth, o, s, k)))
            == Shown(Run(Behaviour(m, sem), maxDepth, s, k))
  {
    var n := NewSteps(m, Behaviour(m, sem), maxDepth, o, s, k);
    RunSim(m, m', sem, o, r, maxDepth, s, s, k);
  }

  lemma SkipOnce(m: Module, sem: Semantics, o: Expr, r: Expr, maxDepth: nat, t: Machine)
    requires MayAt(m, sem, o, r, t) && OccursOnce(m, o) && Skips(m, o, t)
    ensures !Skips(m, o, Step(Behaviour(m, sem), maxDepth, t))
  {
  }

  lemma SkipsOnce(m: Module, sem: Semantics, o: Expr, r: Expr, maxDepth: nat, s: Machine)
    requires Justified(m, sem, o, r, maxDepth, s) && OccursOnce(m, o)
    ensures NeverSkipsTwice(m, Behaviour(m, sem), maxDepth, o, s)
  {
    forall k: nat | Skips(m, o, Run(Behaviour(m, sem), maxDepth, s, k))
      ensures !Skips(m, o, Step(Behaviour(m, sem), maxDepth, Run(Behaviour(m, sem), maxDepth, s, k)))
    {
      assert MayAt(m, sem, o, r, Run(Behaviour(m, sem), maxDepth, s, k));
      SkipOnce(m, sem, o, r, maxDepth, Run(Behaviour(m, sem), maxDepth, s, k));
    }
  }

  /** If the new program has ended within j steps, the old one has within 2j, and in the same way. */
  lemma OldEnds(m: Module, m': Module, sem: Semantics, o: Expr, r: Expr, maxDepth: nat, s: Machine, j: nat)
    requires Rewritten(m, m', o, r) && MachineRel(m, m', o, s, s)
    requires Justified(m, sem, o, r, maxDepth, s) && OccursOnce(m, o)
    requires !Run(Behaviour(m', sem), maxDepth, s, j).out.Running?
    ensures Shown(Run(Behaviour(m, sem), maxDepth, s, 2 * j)) == Shown(Run(Behaviour(m', sem), maxDepth, s, j))
  {
    SkipsOnce(m, sem, o, r, maxDepth, s);
    NewStepsGrow(m, Behaviour(m, sem), maxDepth, o, s, j);
    NewShows(m, m', sem, o, r, maxDepth, s, 2 * j);
    RunStays(Behaviour(m', sem), maxDepth, s, j, NewSteps(m, Behaviour(m, sem), maxDepth, o, s, 2 * j));
  }
}
