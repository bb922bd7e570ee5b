/** InstrHandler: creating statements at a cursor, and replacing an expression by another throughout a function. */
module PirHandler {
  import opened Slots
  import opened Pir

  /** The handler's view: the module it edits, its target function and block, and where new statements go. */
  datatype Editor = Editor(m: Module, func: nat, block: nat, cursor: Option<nat>)

  // ---------- single edits ----------

  function ArenaOf(m: Module, k: Kind): Arena<Instr> {
    if k in m.arenas then m.arenas[k] else Arena([], [])
  }

  /** The handle that the next instruction of this kind gets. */
  function NextExpr(m: Module, k: Kind): Expr { Expr(k, NextId(ArenaOf(m, k))) }

  function WithNew(m: Module, k: Kind, i: Instr): Module
    requires InBounds(ArenaOf(m, k))
  {
    m.(arenas := m.arenas[k := Emplaced(ArenaOf(m, k), i)])
  }

  predicate CursorOk(h: Editor) {
    h.block in h.m.blocks && (h.cursor.Some? ==> h.cursor.value < |h.m.blocks[h.block]|)
  }

  /** insert_stmt: at the end, or just after the statement at the cursor, which then moves onto the new one. */
  function Inserted(h: Editor, e: Expr): Editor
    requires CursorOk(h)
  {
    var es := h.m.blocks[h.block];
    match h.cursor
    case None => h.(m := h.m.(blocks := h.m.blocks[h.block := es + [e]]))
    case Some(i) =>
      h.(m := h.m.(blocks := h.m.blocks[h.block := es[..i + 1] + [e] + es[i + 1..]]), cursor := Some(i + 1))
  }

  function Created(h: Editor, k: Kind, i: Instr): Editor
    requires CursorOk(h) && InBounds(ArenaOf(h.m, k))
  {
    Inserted(h.(m := WithNew(h.m, k, i)), NextExpr(h.m, k))
  }

  /** The kinds whose slot delete_expr gives back. */
  predicate Erasable(k: Kind) {
    k.Number? || k.Call? || k.Ret? || k.Branch? || k.Phi? || k.CalcPtr? || k.Op? || k.Wrap?
  }

  function WithoutSlot(m: Module, e: Expr): Module
    requires Has(m, e)
  {
    m.(arenas := m.arenas[e.kind := Erased(m.arenas[e.kind], e.index)])
  }

  /** The cursor is a size_t whose largest value means "at the end", so 0 - 1 is "at the end". */
  function CursorBack(c: Option<nat>): Option<nat> {
    if c.None? || c.value == 0 then None else Some(c.value - 1)
  }

  /** delete_expr. */
  function Deleted(h: Editor, e: Expr): Editor
    requires Erasable(e.kind) ==> Has(h.m, e)
  {
    if !Erasable(e.kind) then h
    else h.(m := WithoutSlot(h.m, e), cursor := CursorBack(h.cursor))
  }

  // ---------- replaceExpr as a function ----------

  function Without(es: seq<Expr>, e: Expr): seq<Expr> {
    if es == [] then []
    else if es[|es| - 1] == e then Without(es[..|es| - 1], e)
    else Without(es[..|es| - 1], e) + [es[|es| - 1]]
  }

  ghost function StmtSet(es: seq<Expr>): set<Expr> { set e | e in es }

  /** The statements of the blocks in `bs`. */
  ghost function StmtsOf(m: Module, bs: seq<nat>): set<Expr> {
    set b, e | b in bs && b in m.blocks && e in m.blocks[b] :: e
  }

  ghost function FuncStmts(m: Module, f: nat): set<Expr>
    requires f < |m.funcs|
  {
    StmtsOf(m, m.funcs[f].blocks)
  }

  /** Every instruction of the statements in `done` but `original` itself, with the substitution made. */
  ghost function SubstitutedIn(m: Module, done: set<Expr>, original: Expr, replacement: Expr): Module {
    m.(arenas := map k | k in m.arenas :: SubstArena(m.arenas[k], k, done, original, replacement))
  }

  ghost function SubstArena(a: Arena<Instr>, k: Kind, done: set<Expr>, original: Expr,
                            replacement: Expr): Arena<Instr> {
    a.(cells := seq(|a.cells|, i requires 0 <= i < |a.cells| =>
      if a.cells[i].Some? && Expr(k, i) in done && Expr(k, i) != original
      then Some(Subst(a.cells[i].value, original, replacement)) else a.cells[i]))
  }

  lemma SubstitutedGets(m: Module, done: set<Expr>, original: Expr, replacement: Expr, x: Expr)
    ensures var m' := SubstitutedIn(m, done, original, replacement);
      && (Has(m', x) <==> Has(m, x))
      && (Has(m, x) ==>
          Get(m', x) == if x in done && x != original then Subst(Get(m, x), original, replacement) else Get(m, x))
  {
  }

  lemma SubstitutedNone(m: Module, original: Expr, replacement: Expr)
    ensures SubstitutedIn(m, {}, original, replacement) == m
  {
    forall k | k in m.arenas
      ensures SubstArena(m.arenas[k], k, {}, original, replacement) == m.arenas[k]
    {
      assert SubstArena(m.arenas[k], k, {}, original, replacement).cells == m.arenas[k].cells;
    }
    assert SubstitutedIn(m, {}, original, replacement).arenas == m.arenas;
  }

  /** One more statement visited. */
  lemma SubstitutedOne(m: Module, done: set<Expr>, original: Expr, replacement: Expr, x: Expr)
    requires Has(m, x) && x !in done && x != original
    ensures var m1 := SubstitutedIn(m, done, original, replacement);
      Has(m1, x) && Get(m1, x) == Get(m, x)
      && SubstitutedIn(m, done + {x}, original, replacement)
          == WithInstr(m1, x, Subst(Get(m, x), original, replacement))
  {
    SubstitutedGets(m, done, original, replacement, x);
    var m1 := SubstitutedIn(m, done, original, replacement);
    var m2 := WithInstr(m1, x, Subst(Get(m, x), original, replacement));
    var m3 := SubstitutedIn(m, done + {x}, original, replacement);
    forall k | k in m.arenas
      ensures m2.arenas[k] == m3.arenas[k]
    {
      assert m2.arenas[k].cells == m3.arenas[k].cells;
    }
    assert m2.arenas == m3.arenas;
  }

  lemma SubstitutedSame(m: Module, done: set<Expr>, original: Expr, replacement: Expr, x: Expr)
    requires !Has(m, x) || x == original
    requires forall k :: k in m.arenas ==> InArena(k)
    ensures SubstitutedIn(m, done + {x}, original, replacement) == SubstitutedIn(m, done, original, replacement)
  {
    var m2 := SubstitutedIn(m, done, original, replacement);
    var m3 := SubstitutedIn(m, done + {x}, original, replacement);
    forall k | k in m.arenas
      ensures m2.arenas[k] == m3.arenas[k]
    {
      assert m2.arenas[k].cells == m3.arenas[k].cells;
    }
    assert m2.arenas == m3.arenas;
  }

  /** The function's blocks without `original`. */
  ghost function Removed(m: Module, f: nat, original: Expr): Module
    requires f < |m.funcs|
  {
    m.(blocks := map b | b in m.blocks ::
         if b in m.funcs[f].blocks then Without(m.blocks[b], original) else m.blocks[b])
  }

  ghost function Replaced(h: Editor, original: Expr, replacement: Expr): Editor
    requires h.func < |h.m.funcs| && (Erasable(original.kind) ==> Has(h.m, original))
  {
    SubstitutedGets(h.m, FuncStmts(h.m, h.func), original, replacement, original);
    var m1 := SubstitutedIn(h.m, FuncStmts(h.m, h.func), original, replacement);
    Deleted(h.(m := Removed(m1, h.func, original)), original)
  }

  // ---------- removing ----------

  lemma {:induction false} WithoutAt(es: seq<Expr>, e: Expr, i: nat)
    requires i < |es| && es[i] == e
    requires forall j :: 0 <= j < |es| && es[j] == e ==> j == i
    ensures Without(es, e) == es[..i] + es[i + 1..]
    decreases |es|
  {
    var n := |es| - 1;
    if i == n {
      WithoutAbsent(es[..n], e);
    } else {
      WithoutAt(es[..n], e, i);
      assert es[..n][..i] == es[..i] && es[i + 1..n] + [es[n]] == es[i + 1..];
    }
  }

  lemma {:induction false} WithoutAbsent(es: seq<Expr>, e: Expr)
    requires e !in es
    ensures Without(es, e) == es
    decreases |es|
  {
    if es == [] {
    } else {
      WithoutAbsent(es[..|es| - 1], e);
      assert es[..|es| - 1] + [es[|es| - 1]] == es;
    }
  }

  lemma {:induction false} WithoutHas(es: seq<Expr>, e: Expr, x: Expr)
    ensures x in Without(es, e) <==> x in es && x != e
    decreases |es|
  {
    if es == [] {
    } else {
      WithoutHas(es[..|es| - 1], e, x);
      assert es == es[..|es| - 1] + [es[|es| - 1]];
    }
  }

  // ---------- the handler object ----------

  /** Statements with a slot occur once in a function's blocks, and their slots are live. */
  ghost predicate Unique(m: Module) {
    forall b1, i1, b2, i2 ::
      (b1 in m.blocks && 0 <= i1 < |m.blocks[b1]| && b2 in m.blocks && 0 <= i2 < |m.blocks[b2]|
       && m.blocks[b1][i1] == m.blocks[b2][i2] && InArena(m.blocks[b1][i1].kind))
      ==> b1 == b2 && i1 == i2
  }

  /** Every statement is one, and has its slot. */
  ghost predicate StmtsLive(m: Module) {
    forall b, i :: b in m.blocks && 0 <= i < |m.blocks[b]| ==>
      IsStmt(m.blocks[b][i].kind) && (InArena(m.blocks[b][i].kind) ==> Has(m, m.blocks[b][i]))
  }

  /** A block belongs to just one function, and every block of a function exists. */
  ghost predicate BlocksOwned(m: Module) {
    && (forall f, n :: 0 <= f < |m.funcs| && 0 <= n < |m.funcs[f].blocks| ==> m.funcs[f].blocks[n] in m.blocks)
    && (forall f1, n1, f2, n2 ::
          (0 <= f1 < |m.funcs| && 0 <= n1 < |m.funcs[f1].blocks|
           && 0 <= f2 < |m.funcs| && 0 <= n2 < |m.funcs[f2].blocks|
           && m.funcs[f1].blocks[n1] == m.funcs[f2].blocks[n2])
          ==> f1 == f2 && n1 == n2)
  }

  ghost predicate ArenasOk(m: Module) {
    forall k :: k in m.arenas ==> InArena(k) && WellFormed(m.arenas[k])
  }

  ghost predicate Structured(m: Module) {
    Unique(m) && StmtsLive(m) && BlocksOwned(m) && ArenasOk(m)
  }

  /** What visiting the statements of block b needs, once those in `done` have been visited. */
  ghost predicate BlockReady(m: Module, b: nat, done: set<Expr>) {
    && b in m.blocks
    && (forall k :: k in m.arenas ==> InArena(k))
    && (forall i :: 0 <= i < |m.blocks[b]| && InArena(m.blocks[b][i].kind) ==>
        Has(m, m.blocks[b][i]) && m.blocks[b][i] !in done)
    && (forall i, j :: 0 <= i < j < |m.blocks[b]| && InArena(m.blocks[b][i].kind) ==> m.blocks[b][i] != m.blocks[b][j])
  }

  datatype Location = Location(block: nat, index: nat)

  class InstrHandler {
    var m: Module
    var func: nat
    var block: nat
    var insertIndex: Option<nat>

    constructor (m: Module, func: nat, block: nat)
      ensures State() == Editor(m, func, block, None)
    {
      this.m, this.func, this.block, insertIndex := m, func, block, None;
    }

    ghost function State(): Editor
      reads this
    {
      Editor(m, func, block, insertIndex)
    }

    method InsertStmt(e: Expr)
      requires CursorOk(State())
      modifies this
      ensures State() == Inserted(old(State()), e)
    {
      var es := m.blocks[block];
      if insertIndex.None? {
        m := m.(blocks := m.blocks[block := es + [e]]);
      } else {
        m := m.(blocks := m.blocks[block := es[..insertIndex.value + 1] + [e] + es[insertIndex.value + 1..]]);
        insertIndex := Some(insertIndex.value + 1);
      }
    }

    /** The create functions: emplace into the arena of the kind, insert the statement, and return its handle. */
    method Create(k: Kind, i: Instr) returns (e: Expr)
      requires CursorOk(State()) && InBounds(ArenaOf(m, k))
      modifies this
      ensures e == NextExpr(old(m), k) && State() == Created(old(State()), k, i)
    {
      e := NextExpr(m, k);
      m := WithNew(m, k, i);
      InsertStmt(e);
    }

    method DeleteExpr(e: Expr)
      requires Erasable(e.kind) ==> Has(m, e)
      modifies this
      ensures State() == Deleted(old(State()), e)
    {
      if !Erasable(e.kind) {
        return;
      }
      m := WithoutSlot(m, e);
      if insertIndex.Some? {
        insertIndex := if insertIndex.value == 0 then None else Some(insertIndex.value - 1);
      }
    }

    /** The inner loop of replaceExpr, over the statements of one block. */
    method RewriteBlock(b: nat, original: Expr, replacement: Expr, ghost m0: Module, ghost done: set<Expr>)
      returns (at: Option<nat>)
      requires BlockReady(m0, b, done) && m == SubstitutedIn(m0, done, original, replacement)
      modifies this`m
      ensures m == SubstitutedIn(m0, done + StmtSet(m0.blocks[b]), original, replacement)
      ensures at.Some? ==> at.value < |m0.blocks[b]| && m0.blocks[b][at.value] == original
      ensures at.None? ==> original !in m0.blocks[b]
    {
      at := None;
      var i := 0;
      assert done + StmtSet(m0.blocks[b][..0]) == done;
      while i < |m.blocks[b]|
        invariant m.blocks == m0.blocks && i <= |m0.blocks[b]|
        invariant m == SubstitutedIn(m0, done + StmtSet(m0.blocks[b][..i]), original, replacement)
        invariant at.Some? ==> at.value < i && m0.blocks[b][at.value] == original
        invariant at.None? ==> original !in m0.blocks[b][..i]
      {
        var stmt := m.blocks[b][i];
        ghost var seen := done + StmtSet(m0.blocks[b][..i]);
        assert seen + {stmt} == done + StmtSet(m0.blocks[b][..i + 1]);
        if stmt == original {
          at := Some(i);
          SubstitutedSame(m0, seen, original, replacement, stmt);
        } else if InArena(stmt.kind) {
          assert stmt !in seen;
          SubstitutedOne(m0, seen, original, replacement, stmt);
          m := WithInstr(m, stmt, Subst(Get(m, stmt), original, replacement));
        } else {
          SubstitutedSame(m0, seen, original, replacement, stmt);
        }
        i := i + 1;
      }
      assert m0.blocks[b][..i] == m0.blocks[b];
    }

    method ReplaceExpr(original: Expr, replacement: Expr)
      requires Structured(m) && func < |m.funcs| && original != replacement
      requires if InArena(original.kind) then Has(m, original) else !IsStmt(original.kind)
      modifies this
      ensures State() == Replaced(old(State()), original, replacement)
    {
      ghost var m0 := m;
      var bs := m.funcs[func].blocks;
      var location: Option<Location> := None;
      var n := 0;
      SubstitutedNone(m, original, replacement);
      assert StmtsOf(m0, bs[..0]) == {};
      while n < |bs|
        invariant n <= |bs| && func == old(func) && block == old(block) && insertIndex == old(insertIndex)
        invariant m == SubstitutedIn(m0, StmtsOf(m0, bs[..n]), original, replacement)
        invariant IsLocation(m0, bs[..n], original, location)
      {
        StmtsOfNext(m0, bs, n);
        var at := RewriteBlock(bs[n], original, replacement, m0, StmtsOf(m0, bs[..n]));
        if at.Some? {
          location := Some(Location(bs[n], at.value));
        }
        assert bs[..n + 1] == bs[..n] + [bs[n]];
        n := n + 1;
      }
      assert bs[..n] == bs;
      SubstitutedGets(m0, FuncStmts(m0, func), original, replacement, original);
      RemoveFrom(location, original, m0);
      DeleteExpr(original);
    }

    /** The removal from the block, once the search is over. */
    method RemoveFrom(location: Option<Location>, original: Expr, ghost m0: Module)
      requires Structured(m0) && func < |m0.funcs| && IsLocation(m0, m0.funcs[func].blocks, original, location)
      requires m.blocks == m0.blocks && m.funcs == m0.funcs && (InArena(original.kind) || !IsStmt(original.kind))
      modifies this`m
      ensures m == Removed(old(m), func, original)
    {
      RemovedAtLocation(m0, m, func, original, location);
      if location.Some? {
        var es := m.blocks[location.value.block];
        var rest := es[..location.value.index] + es[location.value.index + 1..];
        m := m.(blocks := m.blocks[location.value.block := rest]);
      }
    }
  }

  /** What the search for `original` through the blocks `bs` has found. */
  ghost predicate IsLocation(m: Module, bs: seq<nat>, original: Expr, location: Option<Location>) {
    match location
    case Some(l) =>
      && l.block in bs && l.block in m.blocks
      && l.index < |m.blocks[l.block]| && m.blocks[l.block][l.index] == original
    case None => forall b :: b in bs && b in m.blocks ==> original !in m.blocks[b]
  }

  lemma StmtsOfNext(m: Module, bs: seq<nat>, n: nat)
    requires n < |bs| && bs[n] in m.blocks
    ensures StmtsOf(m, bs[..n + 1]) == StmtsOf(m, bs[..n]) + StmtSet(m.blocks[bs[n]])
  {
    assert bs[..n + 1] == bs[..n] + [bs[n]];
  }

  lemma RemovedAtLocation(m0: Module, m: Module, f: nat, original: Expr, location: Option<Location>)
    requires Structured(m0) && f < |m0.funcs| && IsLocation(m0, m0.funcs[f].blocks, original, location)
    requires m.blocks == m0.blocks && m.funcs == m0.funcs && (InArena(original.kind) || !IsStmt(original.kind))
    ensures location.None? ==> Removed(m, f, original) == m
    ensures location.Some? ==>
              var l := location.value; var es := m.blocks[l.block];
              Removed(m, f, original) == m.(blocks := m.blocks[l.block := es[..l.index] + es[l.index + 1..]])
  {
    var m' := Removed(m, f, original);
    forall b | b in m.blocks && b in m.funcs[f].blocks && (location.None? || b != location.value.block)
      ensures m'.blocks[b] == m.blocks[b]
    {
      WithoutAbsent(m.blocks[b], original);
    }
    if location.None? {
      assert m'.blocks == m.blocks;
    } else {
      var l := location.value;
      var es := m.blocks[l.block];
      WithoutAt(es, original, l.index);
      assert m'.blocks == m.blocks[l.block := es[..l.index] + es[l.index + 1..]];
    }
  }
}
