/** Whole histories of edits: with typed operands no handle ever dangles, and no new one is already mentioned. */
module PirEdits {
  import opened Slots
  import opened Pir
  import opened PirHandler
  import opened PirSafety

  // ---------- types ----------

  /** Which expressions are pointers, function by function: a parameter has a type in each. */
  type Typing = (nat, Expr) -> bool

  /** A pointer as the base, and no pointer among the indices; createCalcPtr asserts it of the later indices only. */
  ghost predicate CalcPtrTyped(ty: Typing, f: nat, i: Instr) {
    i.CalcPtrI? ==> ty(f, i.base) && forall e :: e in IndexExprs(i.indices) ==> !ty(f, e)
  }

  ghost predicate Typed(m: Module, ty: Typing) {
    forall f, x :: 0 <= f < |m.funcs| && x in FuncStmts(m, f) && Has(m, x) ==> CalcPtrTyped(ty, f, Get(m, x))
  }

  /** A handle is given to something new; the results extracted from a statement are integers. */
  function Retyped(ty: Typing, e: Expr, isPtr: bool): Typing {
    (f: nat, x: Expr) => if Behind(x) == e then isPtr && x == e else ty(f, x)
  }

  // ---------- creates keep the types ----------

  lemma OldStmtTyped(m: Module, ty: Typing, k: Kind, isPtr: bool, f: nat, x: Expr)
    requires Closed(m) && Typed(m, ty) && InArena(k) && f < |m.funcs| && x in FuncStmts(m, f) && Has(m, x)
    ensures CalcPtrTyped(Retyped(ty, NextExpr(m, k), isPtr), f, Get(m, x))
  {
    forall e | e in Operands(Get(m, x))
      ensures Behind(e) != NextExpr(m, k)
    {
      ClosedUsable(m, f, x, e);
    }
  }

  lemma NewStmtTyped(h: Editor, ty: Typing, k: Kind, i: Instr, isPtr: bool)
    requires CanCreate(h, k, i) && CalcPtrTyped(ty, h.func, i)
    ensures CalcPtrTyped(Retyped(ty, NextExpr(h.m, k), isPtr), h.func, i)
  {
    forall e | e in Operands(i)
      ensures Behind(e) != NextExpr(h.m, k)
    {
    }
  }

  lemma CreateKeepsTyped(h: Editor, ty: Typing, k: Kind, i: Instr, isPtr: bool)
    requires CanCreate(h, k, i) && Typed(h.m, ty) && CalcPtrTyped(ty, h.func, i)
    ensures Typed(Created(h, k, i).m, Retyped(ty, NextExpr(h.m, k), isPtr))
  {
    var m' := Created(h, k, i).m;
    var e := NextExpr(h.m, k);
    NewStmtTyped(h, ty, k, i, isPtr);
    forall f, x | 0 <= f < |m'.funcs| && x in FuncStmts(m', f) && Has(m', x)
      ensures CalcPtrTyped(Retyped(ty, e, isPtr), f, Get(m', x))
    {
      CreatedStmt(h, k, i, f, x);
      if x != e {
        OldStmtTyped(h.m, ty, k, isPtr, f, x);
      }
    }
  }

  /** A statement after a create is the new one, of the target function, or an old one as it was. */
  lemma CreatedStmt(h: Editor, k: Kind, i: Instr, f: nat, x: Expr)
    requires CanCreate(h, k, i) && f < |Created(h, k, i).m.funcs|
    requires x in FuncStmts(Created(h, k, i).m, f) && Has(Created(h, k, i).m, x)
    ensures Created(h, k, i).m.funcs == h.m.funcs
    ensures if x == NextExpr(h.m, k) then f == h.func && Get(Created(h, k, i).m, x) == i
            else x in FuncStmts(h.m, f) && Has(h.m, x) && Get(Created(h, k, i).m, x) == Get(h.m, x)
  {
    var p := CreatedShape(h, k, i);
    CreatedStmts(h, k, i, f);
    NewGets(h.m, k, i);
    assert Has(WithNew(h.m, k, i), x);
  }

  lemma NumberKeepsTyped(m: Module, ty: Typing, i: Instr)
    requires Closed(m) && Typed(m, ty)
    ensures Typed(WithNew(m, Number, i), Retyped(ty, NextExpr(m, Number), false))
  {
    var m' := WithNew(m, Number, i);
    NewGets(m, Number, i);
    forall f, x | 0 <= f < |m'.funcs| && x in FuncStmts(m', f) && Has(m', x)
      ensures CalcPtrTyped(Retyped(ty, NextExpr(m, Number), false), f, Get(m', x))
    {
      assert FuncStmts(m', f) == FuncStmts(m, f);
      assert Has(m, x);
      OldStmtTyped(m, ty, Number, false, f, x);
    }
  }

  // ---------- replaceExpr keeps the types ----------

  lemma SubstTyped(ty: Typing, f: nat, i: Instr, original: Expr, replacement: Expr)
    requires CalcPtrTyped(ty, f, i) && ty(f, original) == ty(f, replacement)
    ensures CalcPtrTyped(ty, f, Subst(i, original, replacement))
  {
    if i.CalcPtrI? && i.base != original {
      var es := IndexExprs(i.indices);
      IndexExprsSubst(i.indices, original, replacement);
      forall e | e in SubstAll(es, original, replacement)
        ensures !ty(f, e)
      {
        var k :| 0 <= k < |es| && SubstAll(es, original, replacement)[k] == e;
        assert es[k] in es;
      }
    }
  }

  lemma ReplacedTyped(m: Module, m': Module, ty: Typing, f: nat, original: Expr, replacement: Expr)
    requires f < |m.funcs| && Structured(m) && IsReplaced(m, m', f, original, replacement)
    requires Typed(m, ty) && ty(f, original) == ty(f, replacement)
    ensures Typed(m', ty)
  {
    forall g, x | 0 <= g < |m'.funcs| && x in FuncStmts(m', g) && Has(m', x)
      ensures CalcPtrTyped(ty, g, Get(m', x))
    {
      ReplacedStmts(m, m', m.funcs[g].blocks, original);
      StmtStaysTyped(m, m', ty, f, original, replacement, g, x);
    }
  }

  lemma StmtStaysTyped(m: Module, m': Module, ty: Typing, f: nat, original: Expr, replacement: Expr, g: nat, x: Expr)
    requires f < |m.funcs| && g < |m.funcs| && Structured(m) && InstrsReplaced(m, m', f, original, replacement)
    requires Typed(m, ty) && ty(f, original) == ty(f, replacement) && x in FuncStmts(m, g) && Has(m', x)
    ensures CalcPtrTyped(ty, g, Get(m', x))
  {
    assert CalcPtrTyped(ty, g, Get(m, x));
    if g == f {
      SubstTyped(ty, f, Get(m, x), original, replacement);
    } else {
      DisjointFunctions(m, f, g, x);
    }
  }

  /**
   Typed code is safe: when a value is replaced by one of its type, and is no constant that another function shares,
   everything is still closed and typed. A statement, a result extracted from one, or a constant is mentioned nowhere
   any more; a parameter of that number may be, in another function.
   */
  lemma TypedReplace(h: Editor, ty: Typing, original: Expr, replacement: Expr)
    requires CanReplace(h, original, replacement) && (original.kind.Number? ==> NotElsewhere(h.m, h.func, original))
    requires Typed(h.m, ty) && ty(h.func, original) == ty(h.func, replacement)
    ensures var m' := Replaced(h, original, replacement).m;
      && m'.funcs == h.m.funcs && Closed(m') && Typed(m', ty)
      && (!original.kind.Boolean? && !original.kind.Param? ==> NowhereMentioned(m', original))
  {
    var m' := Replaced(h, original, replacement).m;
    if !IsLeaf(original.kind) {
      StmtNotElsewhere(h.m, h.func, original);
    }
    ReplaceKeepsClosed(h, original, replacement);
    ReplacedIs(h, original, replacement);
    ReplacedTyped(h.m, m', ty, h.func, original, replacement);
    if !original.kind.Boolean? && !original.kind.Param? {
      Unmentioned(h.m, m', h.func, original, replacement);
    }
  }

  // ---------- histories ----------

  /** The handler, and the types of the handles given out so far. */
  datatype Session = Session(h: Editor, ty: Typing)

  datatype Edit =
    | Aim(func: nat, block: nat, cursor: Option<nat>)
    | NewNumber(value: Value)
    | NewStmt(kind: Kind, instr: Instr, isPtr: bool)
    | Replace(original: Expr, replacement: Expr)

  /**
   What the code demands of its callers: a create has usable and typed operands; a replacement has the type of the
   original, as replaceExpr asserts; a constant that is to go is not shared.
   */
  ghost predicate LegalEdit(s: Session, edit: Edit) {
    match edit
    case Aim(f, b, c) => f < |s.h.m.funcs| && b in s.h.m.funcs[f].blocks && CursorOk(Editor(s.h.m, f, b, c))
    case NewNumber(_) => InBounds(ArenaOf(s.h.m, Number))
    case NewStmt(k, i, _) => CreateGuard(s.h, k, i) && CalcPtrTyped(s.ty, s.h.func, i)
    case Replace(o, r) =>
      && ReplaceGuard(s.h, o, r) && s.ty(s.h.func, o) == s.ty(s.h.func, r)
      && (o.kind.Number? ==> NotElsewhere(s.h.m, s.h.func, o))
  }

  ghost function Edited(s: Session, edit: Edit): Session
    requires LegalEdit(s, edit)
  {
    match edit
    case Aim(f, b, c) => Session(Editor(s.h.m, f, b, c), s.ty)
    case NewNumber(v) =>
      Session(s.h.(m := WithNew(s.h.m, Number, NumberI(v))), Retyped(s.ty, NextExpr(s.h.m, Number), false))
    case NewStmt(k, i, isPtr) => Session(Created(s.h, k, i), Retyped(s.ty, NextExpr(s.h.m, k), isPtr))
    case Replace(o, r) => Session(Replaced(s.h, o, r), s.ty)
  }

  ghost predicate LegalEdits(s: Session, edits: seq<Edit>)
    decreases |edits|
  {
    edits == [] || (LegalEdit(s, edits[0]) && LegalEdits(Edited(s, edits[0]), edits[1..]))
  }

  ghost function AfterEdits(s: Session, edits: seq<Edit>): Session
    requires LegalEdits(s, edits)
    decreases |edits|
  {
    if edits == [] then s else AfterEdits(Edited(s, edits[0]), edits[1..])
  }

  ghost predicate Good(s: Session) { Closed(s.h.m) && Typed(s.h.m, s.ty) }

  lemma EditKeepsGood(s: Session, edit: Edit)
    requires Good(s) && LegalEdit(s, edit)
    ensures Good(Edited(s, edit))
  {
    match edit {
      case Aim(_, _, _) =>
      case NewNumber(v) =>
        NewNumberKeepsClosed(s.h.m, NumberI(v));
        NumberKeepsTyped(s.h.m, s.ty, NumberI(v));
      case NewStmt(k, i, isPtr) =>
        CreateKeepsClosed(s.h, k, i);
        CreateKeepsTyped(s.h, s.ty, k, i, isPtr);
      case Replace(o, r) =>
        TypedReplace(s.h, s.ty, o, r);
    }
  }

  /** Over any sequence of edits every operand of every statement stays live and local, and the code stays typed. */
  lemma {:induction false} EditsKeepClosed(s: Session, edits: seq<Edit>)
    requires Good(s) && LegalEdits(s, edits)
    ensures Good(AfterEdits(s, edits))
    decreases |edits|
  {
    if edits == [] {
      assert AfterEdits(s, edits) == s;
    } else {
      EditKeepsGood(s, edits[0]);
      EditsKeepClosed(Edited(s, edits[0]), edits[1..]);
    }
  }

  /** So after any sequence of edits the next handle of any kind is no statement, and no statement mentions it. */
  lemma EditsNeverAlias(s: Session, edits: seq<Edit>, k: Kind, f: nat, x: Expr, e: Expr)
    requires Good(s) && LegalEdits(s, edits) && InArena(k)
    ensures var m := AfterEdits(s, edits).h.m;
      && (f < |m.funcs| && x in FuncStmts(m, f) ==> x != NextExpr(m, k))
      && (f < |m.funcs| && x in FuncStmts(m, f) && Has(m, x) && e in Operands(Get(m, x)) ==>
            LiveOperand(m, e) && Behind(e) != NextExpr(m, k))
  {
    EditsKeepClosed(s, edits);
    var m := AfterEdits(s, edits).h.m;
    if f < |m.funcs| && x in FuncStmts(m, f) {
      FreshNotMentioned(m, k, f, x, e);
    }
  }
}
