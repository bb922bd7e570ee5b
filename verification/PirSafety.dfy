/** No dangling or aliased handles: what every sequence of edits through a handler keeps. */
module PirSafety {
  import opened Slots
  import opened Pir
  import opened PirHandler

  /** e may be an operand in function f: a constant, a parameter, or a value of one of the function's own statements. */
  ghost predicate Usable(m: Module, f: nat, e: Expr)
    requires f < |m.funcs|
  {
    if IsLeaf(e.kind) then e.kind.Number? ==> Has(m, e)
    else !e.kind.Wrap? && InArena(Behind(e).kind) && Behind(e) in FuncStmts(m, f)
  }

  ghost predicate OperandsUsable(m: Module, f: nat, i: Instr)
    requires f < |m.funcs|
  {
    forall e :: e in Operands(i) ==> Usable(m, f, e)
  }

  ghost predicate Owned(m: Module, b: nat) {
    exists f :: 0 <= f < |m.funcs| && b in m.funcs[f].blocks
  }

  /** Every operand of every statement is one of its own function's values, and still there. */
  ghost predicate Closed(m: Module) {
    && Structured(m) && (forall b :: b in m.blocks ==> Owned(m, b))
    && forall f, x :: 0 <= f < |m.funcs| && x in FuncStmts(m, f) && Has(m, x) ==> OperandsUsable(m, f, Get(m, x))
  }

  /** The slot that an operand refers to. */
  predicate LiveOperand(m: Module, e: Expr) {
    (IsLeaf(e.kind) && !e.kind.Number?) || Has(m, Behind(e))
  }

  /**
   A handle about to be handed out is no statement of any function, and no statement mentions it or a result extracted
   from it, even when its slot was used before.
   */
  lemma FreshNotMentioned(m: Module, k: Kind, f: nat, x: Expr, e: Expr)
    requires Closed(m) && InArena(k) && f < |m.funcs| && x in FuncStmts(m, f)
    ensures x != NextExpr(m, k)
    ensures Has(m, x) && e in Operands(Get(m, x)) ==> Behind(e) != NextExpr(m, k)
  {
  }

  // ---------- create ----------

  lemma NewGets(m: Module, k: Kind, i: Instr)
    requires ArenasOk(m) && InArena(k)
    ensures var e := NextExpr(m, k); var m' := WithNew(m, k, i);
      && ArenasOk(m') && Has(m', e) && Get(m', e) == i
      && (forall x :: x != e ==> (Has(m', x) <==> Has(m, x)))
      && (forall x :: x != e && Has(m, x) ==> Get(m', x) == Get(m, x))
  {
    var a := ArenaOf(m, k);
    EmplaceRefines(a, i);
    EmplacedCells(a, i);
  }

  lemma EmplacedCells<T>(a: Arena<T>, value: T)
    requires WellFormed(a)
    ensures var a' := Emplaced(a, value); var n := NextId(a);
      && Live(a', n) && a'.cells[n].value == value
      && (forall id: nat :: id != n ==> (Live(a', id) <==> Live(a, id)))
      && (forall id: nat :: id != n && Live(a, id) ==> a'.cells[id] == a.cells[id])
  {
  }

  /** Adding a number changes no statement. */
  lemma NewNumberKeepsClosed(m: Module, i: Instr)
    requires Closed(m)
    ensures Closed(WithNew(m, Number, i))
  {
    var m' := WithNew(m, Number, i);
    NewGets(m, Number, i);
    assert m'.blocks == m.blocks && m'.funcs == m.funcs;
    forall f, x | 0 <= f < |m'.funcs| && x in FuncStmts(m', f) && Has(m', x)
      ensures OperandsUsable(m', f, Get(m', x))
    {
      assert FuncStmts(m', f) == FuncStmts(m, f);
      assert Has(m, x) && OperandsUsable(m, f, Get(m, x));
      forall e | e in Operands(Get(m', x))
        ensures Usable(m', f, e)
      {
        assert Usable(m, f, e);
      }
    }
  }

  /** An insertion, seen index by index. */
  ghost predicate InsertedAt(es: seq<Expr>, es': seq<Expr>, p: nat, e: Expr) {
    && p <= |es| && |es'| == |es| + 1
    && forall j {:trigger es'[j]} :: 0 <= j < |es'| ==>
        es'[j] == if j < p then es[j] else if j == p then e else es[j - 1]
  }

  /** What a create demands of its caller: a place to insert at, and operands that the target function may use. */
  ghost predicate CreateGuard(h: Editor, k: Kind, i: Instr) {
    && CursorOk(h) && InArena(k) && IsStmt(k) && InBounds(ArenaOf(h.m, k))
    && h.func < |h.m.funcs| && h.block in h.m.funcs[h.func].blocks
    && OperandsUsable(h.m, h.func, i)
  }

  ghost predicate CanCreate(h: Editor, k: Kind, i: Instr) { Closed(h.m) && CreateGuard(h, k, i) }

  lemma CreatedShape(h: Editor, k: Kind, i: Instr) returns (p: nat)
    requires CanCreate(h, k, i)
    ensures var e := NextExpr(h.m, k); var h' := Created(h, k, i);
      && h'.m == WithNew(h.m, k, i).(blocks := h'.m.blocks)
      && BlockGrew(h.m, h'.m, h.block, p, e)
      && CursorOk(h')
    ensures p == if h.cursor.None? then |h.m.blocks[h.block]| else h.cursor.value + 1
  {
    p := if h.cursor.None? then |h.m.blocks[h.block]| else h.cursor.value + 1;
  }

  lemma CreatedStructured(h: Editor, k: Kind, i: Instr)
    requires CanCreate(h, k, i)
    ensures Structured(Created(h, k, i).m)
  {
    var m' := Created(h, k, i).m;
    var e := NextExpr(h.m, k);
    var p := CreatedShape(h, k, i);
    NewGets(h.m, k, i);
    forall x
      ensures Has(m', x) <==> Has(WithNew(h.m, k, i), x)
    {}
    CreatedUnique(h.m, m', h.block, p, e);
  }

  /** One block of m has had `e` inserted at p. */
  ghost predicate BlockGrew(m: Module, m': Module, b: nat, p: nat, e: Expr) {
    && b in m.blocks && m'.blocks.Keys == m.blocks.Keys
    && (forall c :: c in m.blocks && c != b ==> m'.blocks[c] == m.blocks[c])
    && InsertedAt(m.blocks[b], m'.blocks[b], p, e)
  }

  lemma CreatedUnique(m: Module, m': Module, b: nat, p: nat, e: Expr)
    requires Unique(m) && StmtsLive(m) && !Has(m, e) && InArena(e.kind) && BlockGrew(m, m', b, p, e)
    ensures Unique(m')
  {
    forall b1, i1, b2, i2 |
      b1 in m'.blocks && 0 <= i1 < |m'.blocks[b1]| && b2 in m'.blocks && 0 <= i2 < |m'.blocks[b2]|
      && m'.blocks[b1][i1] == m'.blocks[b2][i2] && InArena(m'.blocks[b1][i1].kind)
      ensures b1 == b2 && i1 == i2
    {
      var j1 := if b1 == b && i1 > p then i1 - 1 else i1;
      var j2 := if b2 == b && i2 > p then i2 - 1 else i2;
      if !(b1 == b && i1 == p) {
        assert m.blocks[b1][j1] == m'.blocks[b1][i1];
      }
      if !(b2 == b && i2 == p) {
        assert m.blocks[b2][j2] == m'.blocks[b2][i2];
      }
    }
  }

  lemma InsertedHas(es: seq<Expr>, es': seq<Expr>, p: nat, e: Expr, x: Expr)
    requires InsertedAt(es, es', p, e)
    ensures x in es' <==> x in es || x == e
  {
    assert es'[p] == e;
    if x in es {
      var j :| 0 <= j < |es| && es[j] == x;
      assert es'[if j < p then j else j + 1] == x;
    }
  }

  lemma GrownStmts(m: Module, m': Module, bs: seq<nat>, b: nat, p: nat, e: Expr)
    requires BlockGrew(m, m', b, p, e)
    ensures StmtsOf(m', bs) == StmtsOf(m, bs) + if b in bs then {e} else {}
  {
    forall x
      ensures x in StmtsOf(m', bs) <==> x in StmtsOf(m, bs) || (b in bs && x == e)
    {
      InsertedHas(m.blocks[b], m'.blocks[b], p, e, x);
      if x in StmtsOf(m, bs) {
        var c :| c in bs && c in m.blocks && x in m.blocks[c];
        assert x in m'.blocks[c];
      }
    }
  }

  lemma CreatedStmts(h: Editor, k: Kind, i: Instr, f: nat)
    requires CanCreate(h, k, i) && f < |h.m.funcs|
    ensures var m' := Created(h, k, i).m;
      && m'.funcs == h.m.funcs
      && FuncStmts(m', f) == FuncStmts(h.m, f) + if f == h.func then {NextExpr(h.m, k)} else {}
  {
    var p := CreatedShape(h, k, i);
    GrownStmts(h.m, Created(h, k, i).m, h.m.funcs[f].blocks, h.block, p, NextExpr(h.m, k));
  }

  /** A statement created over operands that may be used keeps everything closed. */
  lemma CreateKeepsClosed(h: Editor, k: Kind, i: Instr)
    requires CanCreate(h, k, i)
    ensures var h' := Created(h, k, i);
      Closed(h'.m) && CursorOk(h') && Has(h'.m, NextExpr(h.m, k)) && Get(h'.m, NextExpr(h.m, k)) == i
  {
    var m' := Created(h, k, i).m;
    CreatedStructured(h, k, i);
    NewGets(h.m, k, i);
    var p := CreatedShape(h, k, i);
    forall f, x | 0 <= f < |m'.funcs| && x in FuncStmts(m', f) && Has(m', x)
      ensures OperandsUsable(m', f, Get(m', x))
    {
      CreatedStmts(h, k, i, f);
      CreatedOperands(h, k, i, f, x);
    }
  }

  lemma CreatedOperands(h: Editor, k: Kind, i: Instr, f: nat, x: Expr)
    requires CanCreate(h, k, i) && f < |h.m.funcs|
    requires var m' := Created(h, k, i).m;
      && m'.funcs == h.m.funcs && m'.arenas == WithNew(h.m, k, i).arenas
      && FuncStmts(m', f) == FuncStmts(h.m, f) + if f == h.func then {NextExpr(h.m, k)} else {}
    requires x in FuncStmts(Created(h, k, i).m, f) && Has(Created(h, k, i).m, x)
    ensures OperandsUsable(Created(h, k, i).m, f, Get(Created(h, k, i).m, x))
  {
    var m' := Created(h, k, i).m;
    NewGets(h.m, k, i);
    assert Has(WithNew(h.m, k, i), x);
    forall y | y in Operands(Get(m', x))
      ensures Usable(m', f, y)
    {
      assert Usable(h.m, f, y);
      assert Has(m', y) <==> Has(WithNew(h.m, k, i), y);
    }
  }

  // ---------- replaceExpr ----------

  /** Not a statement whose slot is never given back, nor a wrap instruction, which is no value itself. */
  predicate Replaceable(k: Kind) {
    !(k.CallVoid? || k.Jump? || k.Switch? || k.Abort? || k.Breakpoint? || k.Unreachable? || k.Wrap?)
  }

  /**
   What replaceExpr demands: a value that the target function may use -- of a statement, extracted from one, a constant
   or a parameter -- and another one to stand in its place.
   */
  ghost predicate ReplaceGuard(h: Editor, original: Expr, replacement: Expr) {
    && CursorOk(h) && h.func < |h.m.funcs| && original != replacement
    && Usable(h.m, h.func, original) && Usable(h.m, h.func, replacement)
    && Replaceable(original.kind)
    && (Erasable(original.kind) ==> Has(h.m, original))
  }

  ghost predicate CanReplace(h: Editor, original: Expr, replacement: Expr) {
    Closed(h.m) && ReplaceGuard(h, original, replacement)
  }

  /** No calc_ptr of the function has `original` both as its base and among its indices. */
  ghost predicate NeverBaseAndIndex(m: Module, f: nat, original: Expr)
    requires f < |m.funcs|
  {
    forall x :: x in FuncStmts(m, f) && Has(m, x) && x != original ==> !BaseAndIndex(Get(m, x), original)
  }

  /** No statement of another function mentions `original`; only a constant can be shared. */
  ghost predicate NotElsewhere(m: Module, f: nat, original: Expr)
    requires f < |m.funcs|
  {
    forall g, x :: 0 <= g < |m.funcs| && g != f && x in FuncStmts(m, g) && Has(m, x) ==>
        original !in Operands(Get(m, x))
  }

  /** Nothing is given back, or nothing that is left mentions it. */
  ghost predicate SafeToErase(m: Module, f: nat, original: Expr)
    requires f < |m.funcs|
  {
    !Erasable(original.kind) || (NeverBaseAndIndex(m, f, original) && NotElsewhere(m, f, original))
  }

  lemma ErasedGets(m: Module, e: Expr)
    requires ArenasOk(m) && Has(m, e)
    ensures var m' := WithoutSlot(m, e);
      && ArenasOk(m')
      && (forall x :: Has(m', x) <==> Has(m, x) && x != e)
      && (forall x :: Has(m', x) ==> Get(m', x) == Get(m, x))
  {
    var a := m.arenas[e.kind];
    EraseRefines(a, e.index);
    forall i: nat
      ensures Live(Erased(a, e.index), i) <==> Live(a, i) && i != e.index
      ensures Live(Erased(a, e.index), i) ==> Erased(a, e.index).cells[i] == a.cells[i]
    {
      assert i in Contents(Erased(a, e.index)) <==> Live(Erased(a, e.index), i);
      assert i in Contents(a) <==> Live(a, i);
    }
  }

  /** The instructions after replaceExpr: those of the function substituted, `original` gone, the rest as before. */
  ghost predicate InstrsReplaced(m: Module, m': Module, f: nat, original: Expr, replacement: Expr)
    requires f < |m.funcs|
  {
    && (forall x :: Has(m', x) <==> Has(m, x) && x != original)
    && (forall x :: Has(m', x) ==>
          Get(m', x) == if x in FuncStmts(m, f) then Subst(Get(m, x), original, replacement) else Get(m, x))
  }

  lemma SubstArenasOk(m: Module, done: set<Expr>, original: Expr, replacement: Expr)
    requires ArenasOk(m)
    ensures ArenasOk(SubstitutedIn(m, done, original, replacement))
  {
    forall k | k in m.arenas
      ensures WellFormed(SubstArena(m.arenas[k], k, done, original, replacement))
    {
    }
  }

  /** The module before and after replaceExpr. */
  ghost predicate IsReplaced(m: Module, m': Module, f: nat, original: Expr, replacement: Expr)
    requires f < |m.funcs|
  {
    && ArenasOk(m') && m'.funcs == m.funcs && InstrsReplaced(m, m', f, original, replacement)
    && m'.blocks.Keys == m.blocks.Keys
    && (forall b :: b in m.blocks ==> m'.blocks[b] == Without(m.blocks[b], original))
  }

  /** Only the function's own blocks can hold `original`, so all blocks become the old ones without it. */
  lemma RemovedBlocks(m: Module, f: nat, original: Expr)
    requires Structured(m) && f < |m.funcs| && Usable(m, f, original)
    requires IsStmt(original.kind) ==> InArena(original.kind)
    ensures forall b :: b in m.blocks ==> Removed(m, f, original).blocks[b] == Without(m.blocks[b], original)
  {
    forall b | b in m.blocks && b !in m.funcs[f].blocks
      ensures Without(m.blocks[b], original) == m.blocks[b]
    {
      WithoutAbsent(m.blocks[b], original);
    }
  }

  /**
   What replaceExpr makes of a module: the blocks without `original`, its slot gone, the instructions of the function
   substituted, and the rest as before.
   */
  lemma ReplacedIs(h: Editor, original: Expr, replacement: Expr)
    requires CanReplace(h, original, replacement)
    ensures IsReplaced(h.m, Replaced(h, original, replacement).m, h.func, original, replacement)
  {
    var done := FuncStmts(h.m, h.func);
    var m1 := SubstitutedIn(h.m, done, original, replacement);
    var m2 := Removed(m1, h.func, original);
    RemovedBlocks(h.m, h.func, original);
    SubstArenasOk(h.m, done, original, replacement);
    forall x
      ensures Has(m2, x) <==> Has(h.m, x)
      ensures Has(h.m, x) ==>
        Get(m2, x) == if x in done && x != original then Subst(Get(h.m, x), original, replacement) else Get(h.m, x)
    {
      SubstitutedGets(h.m, done, original, replacement, x);
    }
    if Erasable(original.kind) {
      ErasedGets(m2, original);
    }
  }

  lemma ReplacedStmts(m: Module, m': Module, bs: seq<nat>, original: Expr)
    requires m'.blocks.Keys == m.blocks.Keys
    requires forall b :: b in m.blocks ==> m'.blocks[b] == Without(m.blocks[b], original)
    ensures StmtsOf(m', bs) == StmtsOf(m, bs) - {original}
  {
    forall x
      ensures x in StmtsOf(m', bs) <==> x in StmtsOf(m, bs) && x != original
    {
      forall b | b in m.blocks
        ensures x in m'.blocks[b] <==> x in m.blocks[b] && x != original
      {
        WithoutHas(m.blocks[b], original, x);
      }
    }
  }

  /** The statements left in a block come in their old order; where each one was. */
  lemma {:induction false} WithoutFrom(es: seq<Expr>, e: Expr, i: nat) returns (j: nat)
    requires i < |Without(es, e)|
    ensures j < |es| && es[j] == Without(es, e)[i] && es[j] != e && |Without(es[..j], e)| == i
    decreases |es|
  {
    var n := |es| - 1;
    if es[n] != e && i == |Without(es[..n], e)| {
      j := n;
    } else {
      j := WithoutFrom(es[..n], e, i);
      assert es[..n][..j] == es[..j];
    }
  }

  lemma ReplacedUnique(m: Module, m': Module, original: Expr)
    requires Unique(m) && m'.blocks.Keys == m.blocks.Keys
    requires forall b :: b in m.blocks ==> m'.blocks[b] == Without(m.blocks[b], original)
    ensures Unique(m')
  {
    forall b1, i1, b2, i2 |
      b1 in m'.blocks && 0 <= i1 < |m'.blocks[b1]| && b2 in m'.blocks && 0 <= i2 < |m'.blocks[b2]|
      && m'.blocks[b1][i1] == m'.blocks[b2][i2] && InArena(m'.blocks[b1][i1].kind)
      ensures b1 == b2 && i1 == i2
    {
      var j1 := WithoutFrom(m.blocks[b1], original, i1);
      var j2 := WithoutFrom(m.blocks[b2], original, i2);
    }
  }

  lemma ReplacedStructured(m: Module, m': Module, f: nat, original: Expr, replacement: Expr)
    requires Structured(m) && f < |m.funcs| && IsReplaced(m, m', f, original, replacement)
    ensures Structured(m')
  {
    ReplacedUnique(m, m', original);
    forall b, i | b in m'.blocks && 0 <= i < |m'.blocks[b]|
      ensures IsStmt(m'.blocks[b][i].kind) && (InArena(m'.blocks[b][i].kind) ==> Has(m', m'.blocks[b][i]))
    {
      var j := WithoutFrom(m.blocks[b], original, i);
    }
  }

  /** In the target function every operand that was `original` is now `replacement`, and no other has changed. */
  lemma SubstitutionComplete(h: Editor, original: Expr, replacement: Expr, x: Expr)
    requires CanReplace(h, original, replacement)
    requires x in FuncStmts(h.m, h.func) && Has(h.m, x) && x != original
    ensures var m' := Replaced(h, original, replacement).m;
      && Has(m', x)
      && (original in Operands(Get(m', x)) <==> BaseAndIndex(Get(h.m, x), original))
      && (Operands(Get(m', x)) == SubstAll(Operands(Get(h.m, x)), original, replacement) <==>
          !BaseAndIndex(Get(h.m, x), original))
  {
    ReplacedIs(h, original, replacement);
    SubstComplete(Get(h.m, x), original, replacement);
  }

  /** A statement of another function has no operand that is a value of one of this function's statements. */
  lemma StmtNotElsewhere(m: Module, f: nat, original: Expr)
    requires Closed(m) && f < |m.funcs| && !IsLeaf(original.kind) && Usable(m, f, original)
    ensures NotElsewhere(m, f, original)
  {
    forall g, x | 0 <= g < |m.funcs| && g != f && x in FuncStmts(m, g) && Has(m, x)
      ensures original !in Operands(Get(m, x))
    {
      assert OperandsUsable(m, g, Get(m, x));
      DisjointFunctions(m, f, g, Behind(original));
    }
  }

  lemma DisjointFunctions(m: Module, f: nat, g: nat, x: Expr)
    requires Structured(m) && f < |m.funcs| && g < |m.funcs| && f != g && InArena(x.kind)
    ensures x !in FuncStmts(m, f) || x !in FuncStmts(m, g)
  {
  }

  lemma StillUsable(m: Module, m': Module, f: nat, original: Expr, replacement: Expr, g: nat, e: Expr)
    requires f < |m.funcs| && IsReplaced(m, m', f, original, replacement) && g < |m.funcs|
    requires !original.kind.Wrap? && Usable(m, g, e)
    requires e == original ==> !InArena(e.kind)
    ensures Usable(m', g, e)
  {
    ReplacedStmts(m, m', m.funcs[g].blocks, original);
  }

  /** Where the operands of a statement come from after the substitution. */
  lemma SubstFrom(i: Instr, original: Expr, replacement: Expr, e: Expr)
    requires original != replacement && e in Operands(Subst(i, original, replacement))
    ensures e == replacement || e in Operands(i)
    ensures e == original ==> BaseAndIndex(i, original)
  {
    SubstComplete(i, original, replacement);
    if BaseAndIndex(i, original) {
      assert Operands(Subst(i, original, replacement)) == [replacement] + IndexExprs(i.indices);
    }
  }

  /** What the lemmas about the two modules of a replacement start from. */
  ghost predicate Replacing(m: Module, m': Module, f: nat, original: Expr, replacement: Expr) {
    && Closed(m) && f < |m.funcs| && IsReplaced(m, m', f, original, replacement)
    && original != replacement && Usable(m, f, original) && Usable(m, f, replacement)
    && (InArena(original.kind) ==> Erasable(original.kind))
  }

  lemma ReplacedOperands(m: Module, m': Module, f: nat, original: Expr, replacement: Expr, g: nat, x: Expr)
    requires Replacing(m, m', f, original, replacement) && SafeToErase(m, f, original)
    requires g < |m.funcs| && x in FuncStmts(m, g) && x != original && Has(m, x)
    ensures OperandsUsable(m', g, Get(m', x))
  {
    if g != f {
      DisjointFunctions(m, f, g, x);
    }
    forall e | e in Operands(Get(m', x))
      ensures Usable(m', g, e)
    {
      if g == f {
        SubstFrom(Get(m, x), original, replacement, e);
      }
      StillUsable(m, m', f, original, replacement, g, e);
    }
  }

  lemma ReplacedClosed(m: Module, m': Module, f: nat, original: Expr, replacement: Expr)
    requires Replacing(m, m', f, original, replacement) && SafeToErase(m, f, original)
    ensures Closed(m')
  {
    ReplacedStructured(m, m', f, original, replacement);
    forall g, x | 0 <= g < |m'.funcs| && x in FuncStmts(m', g) && Has(m', x)
      ensures OperandsUsable(m', g, Get(m', x))
    {
      ReplacedStmts(m, m', m.funcs[g].blocks, original);
      ReplacedOperands(m, m', f, original, replacement, g, x);
    }
  }

  lemma ClosedUsable(m: Module, f: nat, x: Expr, e: Expr)
    requires Closed(m) && f < |m.funcs| && x in FuncStmts(m, f) && Has(m, x) && e in Operands(Get(m, x))
    ensures Usable(m, f, e)
  {
  }

  lemma GoneNotUsable(m: Module, m': Module, f: nat, original: Expr, replacement: Expr, g: nat)
    requires f < |m.funcs| && g < |m.funcs| && IsReplaced(m, m', f, original, replacement) && Erasable(original.kind)
    ensures !Usable(m', g, original)
  {
    ReplacedStmts(m, m', m.funcs[g].blocks, original);
  }

  /** A mention that is left dangles. */
  lemma ReplacedDangles(m: Module, m': Module, f: nat, original: Expr, replacement: Expr, g: nat, x: Expr)
    requires f < |m.funcs| && IsReplaced(m, m', f, original, replacement) && original != replacement
    requires g < |m.funcs| && x in FuncStmts(m, g) && Has(m, x) && x != original && Erasable(original.kind)
    requires if g == f then BaseAndIndex(Get(m, x), original)
            else x !in FuncStmts(m, f) && original in Operands(Get(m, x))
    ensures !Closed(m')
  {
    SubstComplete(Get(m, x), original, replacement);
    ReplacedStmts(m, m', m.funcs[g].blocks, original);
    GoneNotUsable(m, m', f, original, replacement, g);
    if Closed(m') {
      ClosedUsable(m', g, x, original);
    }
  }

  lemma UnsafeDangles(m: Module, m': Module, f: nat, original: Expr, replacement: Expr)
    requires Replacing(m, m', f, original, replacement) && !SafeToErase(m, f, original)
    ensures !Closed(m')
  {
    if !NeverBaseAndIndex(m, f, original) {
      var x :| x in FuncStmts(m, f) && Has(m, x) && x != original && BaseAndIndex(Get(m, x), original);
      ReplacedDangles(m, m', f, original, replacement, f, x);
    } else {
      MentionDangles(m, m', f, original, replacement);
    }
  }

  lemma MentionDangles(m: Module, m': Module, f: nat, original: Expr, replacement: Expr)
    requires Structured(m) && f < |m.funcs| && IsReplaced(m, m', f, original, replacement) && original != replacement
    requires Erasable(original.kind) && !NotElsewhere(m, f, original) && Usable(m, f, original)
    ensures !Closed(m')
  {
    var g, x :| 0 <= g < |m.funcs| && g != f && x in FuncStmts(m, g) && Has(m, x) && original in Operands(Get(m, x));
    DisjointFunctions(m, f, g, x);
    if !IsLeaf(original.kind) {
      DisjointFunctions(m, f, g, original);
    }
    ReplacedDangles(m, m', f, original, replacement, g, x);
  }

  /**
   replaceExpr keeps every operand of every statement live and local exactly when the slot of `original` is not given
   back, or no calc_ptr of the function has it both as base and as index and no other function shares it.
   */
  lemma ReplaceKeepsClosed(h: Editor, original: Expr, replacement: Expr)
    requires CanReplace(h, original, replacement)
    ensures Closed(Replaced(h, original, replacement).m) <==> SafeToErase(h.m, h.func, original)
  {
    var m' := Replaced(h, original, replacement).m;
    ReplacedIs(h, original, replacement);
    if SafeToErase(h.m, h.func, original) {
      ReplacedClosed(h.m, m', h.func, original, replacement);
    } else {
      UnsafeDangles(h.m, m', h.func, original, replacement);
    }
  }

  ghost predicate NowhereMentioned(m: Module, original: Expr) {
    forall g, x :: 0 <= g < |m.funcs| && x in FuncStmts(m, g) && Has(m, x) ==> original !in Operands(Get(m, x))
  }

  lemma Unmentioned(m: Module, m': Module, f: nat, original: Expr, replacement: Expr)
    requires Replacing(m, m', f, original, replacement)
    requires NeverBaseAndIndex(m, f, original) && NotElsewhere(m, f, original)
    ensures NowhereMentioned(m', original)
  {
    forall g, x | 0 <= g < |m'.funcs| && x in FuncStmts(m', g) && Has(m', x)
      ensures original !in Operands(Get(m', x))
    {
      ReplacedStmts(m, m', m.funcs[g].blocks, original);
      UnmentionedBy(m, m', f, original, replacement, g, x);
    }
  }

  lemma UnmentionedBy(m: Module, m': Module, f: nat, original: Expr, replacement: Expr, g: nat, x: Expr)
    requires Structured(m) && f < |m.funcs| && g < |m.funcs| && original != replacement
    requires InstrsReplaced(m, m', f, original, replacement)
    requires NeverBaseAndIndex(m, f, original) && NotElsewhere(m, f, original)
    requires x in FuncStmts(m, g) && Has(m', x)
    ensures original !in Operands(Get(m', x))
  {
    if g == f {
      SubstComplete(Get(m, x), original, replacement);
    } else {
      DisjointFunctions(m, f, g, x);
    }
  }

  /**
   delete_expr gives back the slots of numbers, calls with a result, returns, branches, phis, calc_ptrs, operations and
   wraps, and of nothing else; whatever else was live still is, and is what it was.
   */
  lemma DeleteGivesBack(h: Editor, e: Expr)
    requires ArenasOk(h.m) && (Erasable(e.kind) ==> Has(h.m, e))
    ensures var m' := Deleted(h, e).m;
      && m'.blocks == h.m.blocks && m'.funcs == h.m.funcs
      && (forall x :: Has(m', x) ==> Has(h.m, x) && Get(m', x) == Get(h.m, x))
      && (forall x :: Has(h.m, x) && x != e ==> Has(m', x))
      && (Has(m', e) <==>
          Has(h.m, e) && match e.kind
                         case CallVoid => true
                         case Jump => true
                         case Switch => true
                         case _ => false)
  {
    if Erasable(e.kind) {
      ErasedGets(h.m, e);
    }
  }

  // ---------- the cursor ----------

  predicate CursorIn(c: Option<nat>, es: seq<Expr>) { c.Some? ==> c.value < |es| }

  /** The statements of a block that come before the point where the next one goes. */
  function BeforeCursor(c: Option<nat>, es: seq<Expr>): seq<Expr>
    requires CursorIn(c, es)
  {
    if c.None? then es else es[..c.value + 1]
  }

  function AfterCursor(c: Option<nat>, es: seq<Expr>): seq<Expr>
    requires CursorIn(c, es)
  {
    if c.None? then [] else es[c.value + 1..]
  }

  /**
   A create puts its statement between what came before the insertion point and what came after it, and the insertion
   point is then past it; no other block changes.
   */
  lemma CreateAtCursor(h: Editor, k: Kind, i: Instr)
    requires CursorOk(h) && InBounds(ArenaOf(h.m, k))
    ensures var h' := Created(h, k, i); var es, es' := h.m.blocks[h.block], h'.m.blocks[h.block];
      && CursorOk(h') && h'.block == h.block && h'.func == h.func && (h'.cursor.None? <==> h.cursor.None?)
      && BeforeCursor(h'.cursor, es') == BeforeCursor(h.cursor, es) + [NextExpr(h.m, k)]
      && AfterCursor(h'.cursor, es') == AfterCursor(h.cursor, es)
      && es' == BeforeCursor(h'.cursor, es') + AfterCursor(h'.cursor, es')
      && forall b :: b in h.m.blocks && b != h.block ==> b in h'.m.blocks && h'.m.blocks[b] == h.m.blocks[b]
  {
  }

  datatype NewStmt = NewStmt(kind: Kind, instr: Instr)

  /** The arenas have room for them all. */
  predicate CanCreateAll(h: Editor, stmts: seq<NewStmt>)
    decreases |stmts|
  {
    && CursorOk(h)
    && (stmts == [] ||
        (InBounds(ArenaOf(h.m, stmts[0].kind)) && CanCreateAll(Created(h, stmts[0].kind, stmts[0].instr), stmts[1..])))
  }

  function CreatedAll(h: Editor, stmts: seq<NewStmt>): Editor
    requires CanCreateAll(h, stmts)
    decreases |stmts|
  {
    if stmts == [] then h else CreatedAll(Created(h, stmts[0].kind, stmts[0].instr), stmts[1..])
  }

  /** The handles they get, first to last. */
  function NewHandles(h: Editor, stmts: seq<NewStmt>): seq<Expr>
    requires CanCreateAll(h, stmts)
    decreases |stmts|
  {
    if stmts == [] then []
    else [NextExpr(h.m, stmts[0].kind)] + NewHandles(Created(h, stmts[0].kind, stmts[0].instr), stmts[1..])
  }

  /** Any number of creates in a row come out in the order created, all at the one insertion point. */
  lemma {:induction false} CreatesInOrder(h: Editor, stmts: seq<NewStmt>)
    requires CanCreateAll(h, stmts)
    ensures var h' := CreatedAll(h, stmts); var es := h.m.blocks[h.block];
      && CursorOk(h') && h'.block == h.block
      && BeforeCursor(h'.cursor, h'.m.blocks[h.block]) == BeforeCursor(h.cursor, es) + NewHandles(h, stmts)
      && h'.m.blocks[h.block] == BeforeCursor(h.cursor, es) + NewHandles(h, stmts) + AfterCursor(h.cursor, es)
    decreases |stmts|
  {
    if stmts == [] {
    } else {
      CreateAtCursor(h, stmts[0].kind, stmts[0].instr);
      CreatesInOrder(Created(h, stmts[0].kind, stmts[0].instr), stmts[1..]);
    }
  }

  /** At the end; or past the statement that goes, and not at 0; or at 0 with nothing else after the first statement. */
  predicate CursorSafe(c: Option<nat>, es: seq<Expr>, original: Expr)
    requires CursorIn(c, es)
  {
    || c.None?
    || (c.value > 0 && original in es[..c.value + 1])
    || (c.value == 0 && forall j :: 1 <= j < |es| ==> es[j] == original)
  }

  lemma {:induction false} WithoutSplit(a: seq<Expr>, b: seq<Expr>, e: Expr)
    ensures Without(a + b, e) == Without(a, e) + Without(b, e)
    decreases |b|
  {
    if b == [] {
      assert a + b == a;
    } else {
      WithoutSplit(a, b[..|b| - 1], e);
      assert (a + b)[..|a + b| - 1] == a + b[..|b| - 1];
    }
  }

  /** Removing a statement that occurs once shortens the sequence by one. */
  lemma WithoutShorter(es: seq<Expr>, e: Expr)
    requires forall j, k :: 0 <= j < |es| && 0 <= k < |es| && es[j] == e && es[k] == e ==> j == k
    ensures |Without(es, e)| == |es| - if e in es then 1 else 0
  {
    if e in es {
      var i :| 0 <= i < |es| && es[i] == e;
      WithoutAt(es, e, i);
    } else {
      WithoutAbsent(es, e);
    }
  }

  /**
   delete_expr moves the cursor back one whatever it deletes, and from 0 to "at the end". So the insertion point stays
   where it was among the remaining statements exactly in the cases of CursorSafe.
   */
  lemma CursorStays(h: Editor, original: Expr, replacement: Expr)
    requires CanReplace(h, original, replacement) && Erasable(original.kind)
    ensures var h' := Replaced(h, original, replacement); var es := h.m.blocks[h.block];
      && CursorOk(h')
      && (BeforeCursor(h'.cursor, h'.m.blocks[h'.block]) == Without(BeforeCursor(h.cursor, es), original)
          <==> CursorSafe(h.cursor, es, original))
  {
    ReplacedIs(h, original, replacement);
    CursorCase(h.cursor, h.m.blocks[h.block], original);
  }

  lemma CursorCase(c: Option<nat>, es: seq<Expr>, e: Expr)
    requires CursorIn(c, es)
    requires forall j, k :: 0 <= j < |es| && 0 <= k < |es| && es[j] == e && es[k] == e ==> j == k
    ensures var es' := Without(es, e); var c' := CursorBack(c);
      && CursorIn(c', es')
      && (BeforeCursor(c', es') == Without(BeforeCursor(c, es), e) <==> CursorSafe(c, es, e))
  {
    if c.Some? {
      CursorCut(es, e, c.value + 1);
    }
  }

  lemma CursorCut(es: seq<Expr>, e: Expr, c: nat)
    requires 0 < c <= |es|
    requires forall j, k :: 0 <= j < |es| && 0 <= k < |es| && es[j] == e && es[k] == e ==> j == k
    ensures var es' := Without(es, e);
      && |es'| >= c - 1
      && (es'[..c - 1] == Without(es[..c], e) <==> e in es[..c])
      && (c == 1 ==> (es' == Without(es[..c], e) <==> forall j :: 1 <= j < |es| ==> es[j] == e))
  {
    WithoutSplit(es[..c], es[c..], e);
    assert es[..c] + es[c..] == es;
    WithoutShorter(es, e);
    WithoutShorter(es[..c], e);
    WithoutShorter(es[c..], e);
  }
}
