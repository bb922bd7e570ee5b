/**
 The part of PIR that the rewriting and the interpreter models share: expressions, instructions, arenas, modules.
 An expression is a kind and an index; for most kinds the index is an ID in that kind's arena.
 */
module Pir {
  import opened Slots

  /** The bits of a register, as a number. */
  type Value = int

  /** `Op` stands for the one-result value instructions, `Wrap` for the two-result ones, one code for each opcode. */
  datatype Kind =
    | Number | Boolean | Param
    | Call | CallVoid | Ret | Jump | Branch | Phi | Switch
    | Abort | Breakpoint | Unreachable
    | CalcPtr | Op(code: nat) | Wrap(code: nat) | WrapResult(code: nat) | WrapWrapped(code: nat)

  datatype Expr = Expr(kind: Kind, index: nat)

  datatype Index = ByInt(i: int) | ByExpr(e: Expr)

  datatype Pred = Pred(block: nat, value: Expr)

  datatype Case = Case(value: Expr, block: nat)

  datatype Instr =
    | NumberI(value: Value)
    | CallI(target: nat, args: seq<Expr>)
    | CallVoidI(target: nat, args: seq<Expr>)
    | RetI(result: Option<Expr>)
    | JumpI(target: nat)
    | BranchI(cond: Expr, thenBlock: nat, elseBlock: nat)
    | PhiI(preds: seq<Pred>)
    | SwitchI(cond: Expr, cases: seq<Case>, defaultBlock: nat)
    | CalcPtrI(ptrType: nat, base: Expr, indices: seq<Index>)
    | OpI(args: seq<Expr>)
    | WrapI(lhs: Expr, rhs: Expr)

  /** A function: its basic blocks, the first being the entry, and whether it returns a value. */
  datatype Function = Function(blocks: seq<nat>, hasResult: bool)

  datatype Module = Module(funcs: seq<Function>, blocks: map<nat, seq<Expr>>, arenas: map<Kind, Arena<Instr>>)

  // ---------- kinds ----------

  /** Kinds whose value does not come from executing a statement. */
  predicate IsLeaf(k: Kind) { k.Number? || k.Boolean? || k.Param? }

  predicate IsExtract(k: Kind) { k.WrapResult? || k.WrapWrapped? }

  /** Kinds whose index is an ID in the arena of that kind. */
  predicate InArena(k: Kind) {
    !(k.Boolean? || k.Param? || k.Abort? || k.Breakpoint? || k.Unreachable? || IsExtract(k))
  }

  predicate IsStmt(k: Kind) { !IsLeaf(k) && !IsExtract(k) }

  /** The statement behind an expression: an extracted result belongs to its wrap instruction. */
  function Behind(e: Expr): Expr {
    match e.kind
    case WrapResult(c) => Expr(Wrap(c), e.index)
    case WrapWrapped(c) => Expr(Wrap(c), e.index)
    case _ => e
  }

  // ---------- lookup ----------

  predicate Has(m: Module, e: Expr) {
    InArena(e.kind) && e.kind in m.arenas && Live(m.arenas[e.kind], e.index)
  }

  function Get(m: Module, e: Expr): Instr
    requires Has(m, e)
  {
    m.arenas[e.kind].cells[e.index].value
  }

  /** The slot of `e` overwritten in place. */
  function WithInstr(m: Module, e: Expr, i: Instr): Module
    requires Has(m, e)
  {
    var a := m.arenas[e.kind];
    m.(arenas := m.arenas[e.kind := a.(cells := a.cells[e.index := Some(i)])])
  }

  // ---------- operands ----------

  function IndexExprs(indices: seq<Index>): seq<Expr> {
    if indices == [] then []
    else (if indices[0].ByExpr? then [indices[0].e] else []) + IndexExprs(indices[1..])
  }

  function PredValues(preds: seq<Pred>): seq<Expr> {
    seq(|preds|, k requires 0 <= k < |preds| => preds[k].value)
  }

  function CaseValues(cases: seq<Case>): seq<Expr> {
    seq(|cases|, k requires 0 <= k < |cases| => cases[k].value)
  }

  /** Every expression an instruction mentions. */
  function Operands(i: Instr): seq<Expr> {
    match i
    case NumberI(_) => []
    case CallI(_, args) => args
    case CallVoidI(_, args) => args
    case RetI(result) => if result.Some? then [result.value] else []
    case JumpI(_) => []
    case BranchI(cond, _, _) => [cond]
    case PhiI(preds) => PredValues(preds)
    case SwitchI(cond, cases, _) => [cond] + CaseValues(cases)
    case CalcPtrI(_, base, indices) => [base] + IndexExprs(indices)
    case OpI(args) => args
    case WrapI(lhs, rhs) => [lhs, rhs]
  }

  // ---------- substitution ----------

  function SubstExpr(e: Expr, original: Expr, replacement: Expr): Expr {
    if e == original then replacement else e
  }

  function SubstAll(es: seq<Expr>, original: Expr, replacement: Expr): seq<Expr> {
    seq(|es|, k requires 0 <= k < |es| => SubstExpr(es[k], original, replacement))
  }

  function SubstIndices(indices: seq<Index>, original: Expr, replacement: Expr): seq<Index> {
    seq(|indices|, k requires 0 <= k < |indices| =>
      if indices[k].ByExpr? then ByExpr(SubstExpr(indices[k].e, original, replacement)) else indices[k])
  }

  function SubstPreds(preds: seq<Pred>, original: Expr, replacement: Expr): seq<Pred> {
    seq(|preds|, k requires 0 <= k < |preds| => preds[k].(value := SubstExpr(preds[k].value, original, replacement)))
  }

  function SubstCases(cases: seq<Case>, original: Expr, replacement: Expr): seq<Case> {
    seq(|cases|, k requires 0 <= k < |cases| => cases[k].(value := SubstExpr(cases[k].value, original, replacement)))
  }

  /** What replaceExpr does to one statement. Note CalcPtr: when the base matches, the indices are left alone. */
  function Subst(i: Instr, original: Expr, replacement: Expr): Instr {
    match i
    case NumberI(_) => i
    case CallI(target, args) => CallI(target, SubstAll(args, original, replacement))
    case CallVoidI(target, args) => CallVoidI(target, SubstAll(args, original, replacement))
    case RetI(result) => if result == Some(original) then RetI(Some(replacement)) else i
    case JumpI(_) => i
    case BranchI(cond, t, e) => BranchI(SubstExpr(cond, original, replacement), t, e)
    case PhiI(preds) => PhiI(SubstPreds(preds, original, replacement))
    case SwitchI(cond, cases, d) =>
      SwitchI(SubstExpr(cond, original, replacement), SubstCases(cases, original, replacement), d)
    case CalcPtrI(t, base, indices) =>
      if base == original then CalcPtrI(t, replacement, indices)
      else CalcPtrI(t, base, SubstIndices(indices, original, replacement))
    case OpI(args) => OpI(SubstAll(args, original, replacement))
    case WrapI(lhs, rhs) => WrapI(SubstExpr(lhs, original, replacement), SubstExpr(rhs, original, replacement))
  }

  /** A CalcPtr whose base and one of whose indices are both `e`. */
  predicate BaseAndIndex(i: Instr, e: Expr) {
    i.CalcPtrI? && i.base == e && e in IndexExprs(i.indices)
  }

  lemma {:induction false} IndexExprsSubst(indices: seq<Index>, original: Expr, replacement: Expr)
    ensures IndexExprs(SubstIndices(indices, original, replacement))
            == SubstAll(IndexExprs(indices), original, replacement)
  {
    if indices == [] {
    } else {
      IndexExprsSubst(indices[1..], original, replacement);
      assert SubstIndices(indices, original, replacement)[1..] == SubstIndices(indices[1..], original, replacement);
    }
  }

  /** Every instruction but CalcPtr has all its operands replaced. */
  lemma SubstOther(i: Instr, original: Expr, replacement: Expr)
    requires !i.CalcPtrI?
    ensures Operands(Subst(i, original, replacement)) == SubstAll(Operands(i), original, replacement)
  {
    var s, t := Operands(Subst(i, original, replacement)), SubstAll(Operands(i), original, replacement);
    assert |s| == |t|;
    assert forall k :: 0 <= k < |s| ==> s[k] == t[k];
  }

  lemma SubstCalcPtr(base: Expr, indices: seq<Index>, t: nat, original: Expr, replacement: Expr)
    requires original != replacement
    ensures var i := CalcPtrI(t, base, indices); var ops := Operands(Subst(i, original, replacement));
      && (ops == SubstAll(Operands(i), original, replacement) <==> !BaseAndIndex(i, original))
      && (original in ops <==> BaseAndIndex(i, original))
  {
    var es := IndexExprs(indices);
    IndexExprsSubst(indices, original, replacement);
    SubstAllHead(base, es, original, replacement);
  }

  lemma SubstAllHead(e: Expr, es: seq<Expr>, original: Expr, replacement: Expr)
    ensures SubstAll([e] + es, original, replacement)
            == [SubstExpr(e, original, replacement)] + SubstAll(es, original, replacement)
    ensures forall xs: seq<Expr>, x: Expr ::
              [x] + xs == SubstAll([e] + es, original, replacement) <==>
              x == SubstExpr(e, original, replacement) && xs == SubstAll(es, original, replacement)
  {
    forall xs: seq<Expr>, x: Expr
      ensures [x] + xs == [SubstExpr(e, original, replacement)] + SubstAll(es, original, replacement) <==>
              x == SubstExpr(e, original, replacement) && xs == SubstAll(es, original, replacement)
    {
      assert ([x] + xs)[0] == x && ([x] + xs)[1..] == xs;
      var r := [SubstExpr(e, original, replacement)] + SubstAll(es, original, replacement);
      assert r[0] == SubstExpr(e, original, replacement) && r[1..] == SubstAll(es, original, replacement);
    }
  }

  /**
   The substitution reaches every operand, and changes nothing else, exactly when the instruction is not a CalcPtr
   with `original` both as its base and among its indices.
   */
  lemma SubstComplete(i: Instr, original: Expr, replacement: Expr)
    requires original != replacement
    ensures Operands(Subst(i, original, replacement)) == SubstAll(Operands(i), original, replacement)
            <==> !BaseAndIndex(i, original)
    ensures original in Operands(Subst(i, original, replacement)) <==> BaseAndIndex(i, original)
  {
    if i.CalcPtrI? {
      SubstCalcPtr(i.base, i.indices, i.ptrType, original, replacement);
    } else {
      SubstOther(i, original, replacement);
    }
  }
}
