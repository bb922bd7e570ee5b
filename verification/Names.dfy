/** The names of a function's parameters, allocas, blocks and statement results, and the search for a fresh one. */
module Names {
  /** A statement has no result, one, or several. */
  datatype NamedStmt = NamedStmt(results: seq<string>)

  datatype NamedBlock = NamedBlock(name: string, stmts: seq<NamedStmt>)

  datatype NamedFunction = NamedFunction(params: seq<string>, allocas: seq<string>, blocks: seq<NamedBlock>)

  // ---------- names in use ----------

  function Flat(lists: seq<seq<string>>): seq<string> {
    if lists == [] then [] else lists[0] + Flat(lists[1..])
  }

  function ResultLists(stmts: seq<NamedStmt>): seq<seq<string>> {
    seq(|stmts|, i requires 0 <= i < |stmts| => stmts[i].results)
  }

  function StmtsNames(stmts: seq<NamedStmt>): seq<string> { Flat(ResultLists(stmts)) }

  function BlockNames(block: NamedBlock): seq<string> { [block.name] + StmtsNames(block.stmts) }

  function NameLists(blocks: seq<NamedBlock>): seq<seq<string>> {
    seq(|blocks|, i requires 0 <= i < |blocks| => BlockNames(blocks[i]))
  }

  function BlocksNames(blocks: seq<NamedBlock>): seq<string> { Flat(NameLists(blocks)) }

  /** Every name of the function, as often as it occurs. */
  function AllNames(f: NamedFunction): seq<string> {
    f.params + f.allocas + BlocksNames(f.blocks)
  }

  function Count(names: seq<string>, x: string): nat { multiset(names)[x] }

  lemma CountAdd(a: seq<string>, b: seq<string>, x: string)
    ensures Count(a + b, x) == Count(a, x) + Count(b, x)
  {
  }

  ghost function Used(f: NamedFunction, forward: seq<string>): set<string> {
    (set x | x in AllNames(f)) + (set x | x in forward)
  }

  ghost predicate Unique(f: NamedFunction) {
    forall x :: Count(AllNames(f), x) <= 1
  }

  lemma {:induction false} FlatHas(lists: seq<seq<string>>, x: string)
    ensures x in Flat(lists) <==> exists i :: 0 <= i < |lists| && x in lists[i]
  {
    if lists == [] {
    } else {
      FlatHas(lists[1..], x);
      if x in Flat(lists[1..]) {
        var i :| 0 <= i < |lists| - 1 && x in lists[1..][i];
        assert x in lists[i + 1];
      }
      assert forall i :: 1 <= i < |lists| ==> lists[i] == lists[1..][i - 1];
    }
  }

  lemma {:induction false} FlatConcat(a: seq<seq<string>>, b: seq<seq<string>>)
    ensures Flat(a + b) == Flat(a) + Flat(b)
  {
    if a == [] {
      assert a + b == b;
    } else {
      FlatConcat(a[1..], b);
      assert (a + b)[1..] == a[1..] + b;
    }
  }

  lemma FlatOne(a: seq<string>)
    ensures Flat([a]) == a
  {
    assert [a][1..] == [];
  }

  lemma FlatInsert(lists: seq<seq<string>>, p: nat, a: seq<string>, x: string)
    requires p <= |lists|
    ensures Count(Flat(lists[..p] + [a] + lists[p..]), x) == Count(Flat(lists), x) + Count(a, x)
  {
    FlatCount(lists[..p] + [a], lists[p..], x);
    FlatCount(lists[..p], [a], x);
    FlatOne(a);
    FlatCount(lists[..p], lists[p..], x);
    assert lists[..p] + lists[p..] == lists;
  }

  lemma FlatCount(a: seq<seq<string>>, b: seq<seq<string>>, x: string)
    ensures Count(Flat(a + b), x) == Count(Flat(a), x) + Count(Flat(b), x)
  {
    FlatConcat(a, b);
    CountAdd(Flat(a), Flat(b), x);
  }

  lemma FlatUpdate(lists: seq<seq<string>>, p: nat, a: seq<string>, x: string)
    requires p < |lists|
    ensures Count(Flat(lists[p := a]), x) + Count(lists[p], x) == Count(Flat(lists), x) + Count(a, x)
  {
    var rest := lists[..p] + lists[p + 1..];
    FlatInsert(rest, p, a, x);
    FlatInsert(rest, p, lists[p], x);
    assert rest[..p] == lists[..p] && rest[p..] == lists[p + 1..];
    assert lists[p := a] == lists[..p] + [a] + lists[p + 1..] && lists == lists[..p] + [lists[p]] + lists[p + 1..];
  }

  /** name_exists_in_func. */
  method NameExistsInFunc(f: NamedFunction, name: string) returns (found: bool)
    ensures found <==> name in AllNames(f)
  {
    for i := 0 to |f.params|
      invariant name !in f.params[..i]
    {
      if f.params[i] == name { return true; }
    }
    for i := 0 to |f.allocas|
      invariant name !in f.allocas[..i]
    {
      if f.allocas[i] == name { return true; }
    }
    found := NameExistsInBlocks(f.blocks, name);
  }

  method NameExistsInBlocks(blocks: seq<NamedBlock>, name: string) returns (found: bool)
    ensures found <==> name in BlocksNames(blocks)
  {
    ghost var lists := NameLists(blocks);
    FlatHas(lists, name);
    for b := 0 to |blocks|
      invariant forall j :: 0 <= j < b ==> name !in lists[j]
    {
      found := NameExistsInBlock(blocks[b], name);
      assert lists[b] == BlockNames(blocks[b]);
      if found { return; }
    }
    return false;
  }

  method NameExistsInBlock(block: NamedBlock, name: string) returns (found: bool)
    ensures found <==> name in BlockNames(block)
  {
    if block.name == name { return true; }
    ghost var lists := ResultLists(block.stmts);
    FlatHas(lists, name);
    for i := 0 to |block.stmts|
      invariant forall j :: 0 <= j < i ==> name !in lists[j]
    {
      if name in block.stmts[i].results {
        assert name in lists[i];
        return true;
      }
    }
    return false;
  }

  /** The names of a function are those of its parameters, allocas and blocks, and of the results of its statements. */
  lemma AllNamesHas(f: NamedFunction, x: string)
    ensures x in AllNames(f) <==>
            || x in f.params || x in f.allocas
            || exists b :: 0 <= b < |f.blocks| && NamedIn(f.blocks[b], x)
  {
    FlatHas(NameLists(f.blocks), x);
    forall b | 0 <= b < |f.blocks|
      ensures x in NameLists(f.blocks)[b] <==> NamedIn(f.blocks[b], x)
    {
      var lists := ResultLists(f.blocks[b].stmts);
      FlatHas(lists, x);
      assert forall i :: 0 <= i < |lists| ==> lists[i] == f.blocks[b].stmts[i].results;
    }
  }

  predicate NamedIn(block: NamedBlock, x: string) {
    block.name == x || exists i :: 0 <= i < |block.stmts| && x in block.stmts[i].results
  }

  // ---------- candidates ----------

  function Digit(d: nat): char
    requires d < 10
  {
    "0123456789"[d]
  }

  function Decimal(n: nat): string {
    if n < 10 then [Digit(n)] else Decimal(n / 10) + [Digit(n % 10)]
  }

  lemma {:induction false} DecimalInjective(a: nat, b: nat)
    requires Decimal(a) == Decimal(b)
    ensures a == b
    decreases a
  {
    var x, y := Decimal(a), Decimal(b);
    assert x[|x| - 1] == Digit(a % 10) && y[|y| - 1] == Digit(b % 10);
    DecimalLength(a);
    DecimalLength(b);
    if a >= 10 && b >= 10 {
      assert x[..|x| - 1] == Decimal(a / 10) && y[..|y| - 1] == Decimal(b / 10);
      DecimalInjective(a / 10, b / 10);
    }
  }

  lemma DecimalLength(n: nat)
    ensures |Decimal(n)| == 1 <==> n < 10
    ensures |Decimal(n)| > 0
  {
  }

  /** What a string of decimal digits is worth. */
  function Worth(digits: string): int {
    if digits == "" then 0
    else 10 * Worth(digits[..|digits| - 1]) + (digits[|digits| - 1] as int - '0' as int)
  }

  /** A decimal is worth its number, and has digits only, without leading zeros. */
  lemma {:induction false} DecimalIsWorth(n: nat)
    ensures Worth(Decimal(n)) == n && |Decimal(n)| > 0 && (n > 0 ==> Decimal(n)[0] != '0')
    ensures forall c :: c in Decimal(n) ==> '0' <= c <= '9'
  {
    var s := Decimal(n);
    if n < 10 {
      assert s[..0] == "";
    } else {
      DecimalIsWorth(n / 10);
      assert s[..|s| - 1] == Decimal(n / 10);
      assert s[0] == Decimal(n / 10)[0];
    }
  }

  /** std::format("{}.{}", name, n). */
  function Suffixed(name: string, n: nat): string { name + "." + Decimal(n) }

  /** The k-th name that is tried: the name itself and then name.1, name.2, ...; an empty name starts at .1. */
  function Candidate(name: string, k: nat): string {
    if name == "" then Suffixed(name, k + 1)
    else if k == 0 then name
    else Suffixed(name, k)
  }

  lemma SuffixedInjective(name: string, a: nat, b: nat)
    requires Suffixed(name, a) == Suffixed(name, b)
    ensures a == b
  {
    var x, y := Suffixed(name, a), Suffixed(name, b);
    assert x[|name| + 1..] == Decimal(a) && y[|name| + 1..] == Decimal(b);
    DecimalInjective(a, b);
  }

  lemma CandidatesDistinct(name: string, a: nat, b: nat)
    requires Candidate(name, a) == Candidate(name, b)
    ensures a == b
  {
    var x, y := if name == "" then a + 1 else a, if name == "" then b + 1 else b;
    if x != 0 && y != 0 {
      SuffixedInjective(name, x, y);
    } else {
      assert |Suffixed(name, x)| > |name| && |Suffixed(name, y)| > |name|;
    }
  }

  /** The names that are tried: the name as it is, then name.1, name.2 and so on; for an empty name from .1 on. */
  lemma CandidatesAre(name: string, k: nat)
    ensures name != "" ==> Candidate(name, 0) == name
    ensures name != "" && k > 0 ==> exists d :: Candidate(name, k) == name + "." + d && Worth(d) == k
    ensures exists d :: Candidate("", k) == "." + d && Worth(d) == k + 1
  {
    DecimalIsWorth(k);
    DecimalIsWorth(k + 1);
    assert "" + "." + Decimal(k + 1) == "." + Decimal(k + 1);
  }

  ghost function Image(f: nat -> string, k: nat): set<string> {
    set j: nat | j < k :: f(j)
  }

  lemma {:induction false} ImageSize(f: nat -> string, k: nat)
    requires forall a: nat, b: nat :: f(a) == f(b) ==> a == b
    ensures |Image(f, k)| == k
  {
    if k == 0 {
      assert Image(f, 0) == {};
    } else {
      ImageSize(f, k - 1);
      assert Image(f, k) == Image(f, k - 1) + {f(k - 1)};
    }
  }

  lemma {:induction false} SubsetSize(a: set<string>, b: set<string>)
    requires a <= b
    ensures |a| <= |b|
  {
    if a == {} {
    } else {
      var x :| x in a;
      SubsetSize(a - {x}, b - {x});
    }
  }

  ghost predicate AllTaken(used: set<string>, name: string, k: nat) {
    forall j: nat :: j < k ==> Candidate(name, j) in used
  }

  /** Suffixed candidates are pairwise distinct, so no more of them can be taken than there are names. */
  lemma TakenBound(used: set<string>, name: string, k: nat)
    requires AllTaken(used, name, k)
    ensures k <= |used|
  {
    var f := (j: nat) => Candidate(name, j);
    forall a: nat, b: nat | f(a) == f(b)
      ensures a == b
    {
      CandidatesDistinct(name, a, b);
    }
    ImageSize(f, k);
    SubsetSize(Image(f, k), used);
  }

  // ---------- the search ----------

  /** The first candidate from the k-th on that is free. */
  ghost function FirstFree(used: set<string>, name: string, k: nat): nat
    requires AllTaken(used, name, k)
    decreases |used| - k
  {
    TakenBound(used, name, k);
    if Candidate(name, k) !in used then k
    else
      assert AllTaken(used, name, k + 1);
      TakenBound(used, name, k + 1);
      FirstFree(used, name, k + 1)
  }

  lemma TakenMore(used: set<string>, name: string, k: nat)
    requires AllTaken(used, name, k) && Candidate(name, k) in used
    ensures AllTaken(used, name, k + 1) && FirstFree(used, name, k + 1) == FirstFree(used, name, k) && k + 1 <= |used|
  {
    assert AllTaken(used, name, k + 1);
    TakenBound(used, name, k + 1);
  }

  ghost function FreshName(used: set<string>, name: string): string {
    Candidate(name, FirstFree(used, name, 0))
  }

  lemma {:induction false} FirstFreeIs(used: set<string>, name: string, k: nat)
    requires AllTaken(used, name, k)
    ensures var n := FirstFree(used, name, k);
      Candidate(name, n) !in used && AllTaken(used, name, n) && k <= n <= |used|
    decreases |used| - k
  {
    TakenBound(used, name, k);
    if Candidate(name, k) in used {
      assert AllTaken(used, name, k + 1);
      TakenBound(used, name, k + 1);
      FirstFreeIs(used, name, k + 1);
    }
  }

  /** The name found is unused, and it is found after at most one candidate more than there are names in use. */
  lemma FreshNameIsFresh(used: set<string>, name: string)
    ensures FreshName(used, name) !in used
    ensures exists k: nat :: k <= |used| && FreshName(used, name) == Candidate(name, k) && AllTaken(used, name, k)
  {
    FirstFreeIs(used, name, 0);
  }

  /** get_stmt_name_with_forward_include. */
  method GetStmtNameWithForwardInclude(f: NamedFunction, name: string, forward: seq<string>) returns (converted: string)
    ensures converted == FreshName(Used(f, forward), name)
  {
    ghost var used := Used(f, forward);
    ghost var k := 0;
    var suffix := 1;
    if name == "" {
      suffix := suffix + 1;
      converted := Suffixed(name, 1);
    } else {
      converted := name;
    }
    var inFunc := NameExistsInFunc(f, converted);
    while inFunc || converted in forward
      invariant suffix == if name == "" then k + 2 else k + 1
      invariant converted == Candidate(name, k) && (inFunc <==> converted in AllNames(f))
      invariant AllTaken(used, name, k) && FirstFree(used, name, k) == FirstFree(used, name, 0)
      decreases |used| + 1 - k
    {
      TakenMore(used, name, k);
      converted := Suffixed(name, suffix);
      suffix := suffix + 1;
      k := k + 1;
      inFunc := NameExistsInFunc(f, converted);
    }
  }

  // ---------- creating ----------

  /** A statement with these result names inserted into block b at position p. */
  function WithStmt(f: NamedFunction, b: nat, p: nat, results: seq<string>): NamedFunction
    requires b < |f.blocks| && p <= |f.blocks[b].stmts|
  {
    var block := f.blocks[b];
    f.(blocks := f.blocks[b := block.(stmts := block.stmts[..p] + [NamedStmt(results)] + block.stmts[p..])])
  }

  /** Where the statement goes, and what stays as it is. */
  lemma WithStmtAt(f: NamedFunction, b: nat, p: nat, results: seq<string>)
    requires b < |f.blocks| && p <= |f.blocks[b].stmts|
    ensures var f' := WithStmt(f, b, p, results);
      && f'.params == f.params && f'.allocas == f.allocas && |f'.blocks| == |f.blocks|
      && (forall c :: 0 <= c < |f.blocks| && c != b ==> f'.blocks[c] == f.blocks[c])
      && f'.blocks[b].name == f.blocks[b].name && |f'.blocks[b].stmts| == |f.blocks[b].stmts| + 1
      && f'.blocks[b].stmts[p].results == results
      && f'.blocks[b].stmts[..p] == f.blocks[b].stmts[..p] && f'.blocks[b].stmts[p + 1..] == f.blocks[b].stmts[p..]
  {
  }

  lemma StmtsInsert(stmts: seq<NamedStmt>, p: nat, s: NamedStmt, x: string)
    requires p <= |stmts|
    ensures Count(StmtsNames(stmts[..p] + [s] + stmts[p..]), x) == Count(StmtsNames(stmts), x) + Count(s.results, x)
  {
    var t := stmts[..p] + [s] + stmts[p..];
    var lists := ResultLists(stmts);
    FlatInsert(lists, p, s.results, x);
    assert ResultLists(t) == lists[..p] + [s.results] + lists[p..];
  }

  lemma BlocksUpdate(blocks: seq<NamedBlock>, b: nat, block: NamedBlock, x: string)
    requires b < |blocks|
    ensures Count(BlocksNames(blocks[b := block]), x) + Count(BlockNames(blocks[b]), x)
            == Count(BlocksNames(blocks), x) + Count(BlockNames(block), x)
  {
    FlatUpdate(NameLists(blocks), b, BlockNames(block), x);
    assert NameLists(blocks[b := block]) == NameLists(blocks)[b := BlockNames(block)];
  }

  lemma BlocksInsert(blocks: seq<NamedBlock>, at: nat, block: NamedBlock, x: string)
    requires at <= |blocks|
    ensures Count(BlocksNames(blocks[..at] + [block] + blocks[at..]), x)
            == Count(BlocksNames(blocks), x) + Count(BlockNames(block), x)
  {
    var lists := NameLists(blocks);
    FlatInsert(lists, at, BlockNames(block), x);
    NameListsConcat(blocks[..at] + [block], blocks[at..]);
    NameListsConcat(blocks[..at], [block]);
    NameListsConcat(blocks[..at], blocks[at..]);
    assert blocks[..at] + blocks[at..] == blocks;
    assert lists[..at] == NameLists(blocks[..at]) && lists[at..] == NameLists(blocks[at..]);
    assert NameLists([block]) == [BlockNames(block)];
  }

  lemma NameListsConcat(a: seq<NamedBlock>, b: seq<NamedBlock>)
    ensures NameLists(a + b) == NameLists(a) + NameLists(b)
  {
  }

  lemma CountAll(f: NamedFunction, x: string)
    ensures Count(AllNames(f), x) == Count(f.params, x) + Count(f.allocas, x) + Count(BlocksNames(f.blocks), x)
  {
    CountAdd(f.params, f.allocas, x);
    CountAdd(f.params + f.allocas, BlocksNames(f.blocks), x);
  }

  lemma WithStmtCount(f: NamedFunction, b: nat, p: nat, results: seq<string>, x: string)
    requires b < |f.blocks| && p <= |f.blocks[b].stmts|
    ensures Count(AllNames(WithStmt(f, b, p, results)), x) == Count(AllNames(f), x) + Count(results, x)
  {
    var block := f.blocks[b];
    var stmts' := block.stmts[..p] + [NamedStmt(results)] + block.stmts[p..];
    StmtsInsert(block.stmts, p, NamedStmt(results), x);
    BlocksUpdate(f.blocks, b, block.(stmts := stmts'), x);
    CountAdd([block.name], StmtsNames(block.stmts), x);
    CountAdd([block.name], StmtsNames(stmts'), x);
    CountAll(f, x);
    CountAll(WithStmt(f, b, p, results), x);
  }

  ghost function WrapNames(f: NamedFunction, resultName: string, wrappedName: string): (string, string) {
    var r := FreshName(Used(f, []), resultName);
    (r, FreshName(Used(f, [r]), wrappedName))
  }

  /** createSAddWrap, as far as names go. */
  method CreateSAddWrap(f: NamedFunction, b: nat, p: nat, resultName: string, wrappedName: string)
    returns (f': NamedFunction)
    requires b < |f.blocks| && p <= |f.blocks[b].stmts|
    ensures var names := WrapNames(f, resultName, wrappedName); f' == WithStmt(f, b, p, [names.0, names.1])
  {
    var r := GetStmtNameWithForwardInclude(f, resultName, []);
    var w := GetStmtNameWithForwardInclude(f, wrappedName, [r]);
    f' := WithStmt(f, b, p, [r, w]);
  }

  /** The two names of a wrap instruction differ from each other and from every other name. */
  lemma WrapNamesFresh(f: NamedFunction, resultName: string, wrappedName: string)
    ensures var names := WrapNames(f, resultName, wrappedName);
      names.0 != names.1 && names.0 !in AllNames(f) && names.1 !in AllNames(f)
  {
    var r := FreshName(Used(f, []), resultName);
    FreshNameIsFresh(Used(f, []), resultName);
    FreshNameIsFresh(Used(f, [r]), wrappedName);
  }

  // ---------- histories ----------

  datatype Create =
    | NewAlloca(name: string)
    | NewBlock(name: string, at: nat)
    | NewStmt(block: nat, at: nat, name: string)
    | NewVoid(block: nat, at: nat)
    | NewWrap(block: nat, at: nat, resultName: string, wrappedName: string)

  predicate InRange(f: NamedFunction, c: Create) {
    match c
    case NewAlloca(_) => true
    case NewBlock(_, at) => at <= |f.blocks|
    case NewStmt(b, p, _) => b < |f.blocks| && p <= |f.blocks[b].stmts|
    case NewVoid(b, p) => b < |f.blocks| && p <= |f.blocks[b].stmts|
    case NewWrap(b, p, _, _) => b < |f.blocks| && p <= |f.blocks[b].stmts|
  }

  ghost function Created(f: NamedFunction, c: Create): NamedFunction
    requires InRange(f, c)
  {
    match c
    case NewAlloca(name) => f.(allocas := f.allocas + [FreshName(Used(f, []), name)])
    case NewBlock(name, at) =>
      f.(blocks := f.blocks[..at] + [NamedBlock(FreshName(Used(f, []), name), [])] + f.blocks[at..])
    case NewStmt(b, p, name) => WithStmt(f, b, p, [FreshName(Used(f, []), name)])
    case NewVoid(b, p) => WithStmt(f, b, p, [])
    case NewWrap(b, p, r, w) => var names := WrapNames(f, r, w); WithStmt(f, b, p, [names.0, names.1])
  }

  /** The names that a create adds. */
  ghost function NewNames(f: NamedFunction, c: Create): seq<string> {
    match c
    case NewVoid(_, _) => []
    case NewWrap(_, _, r, w) => [WrapNames(f, r, w).0, WrapNames(f, r, w).1]
    case _ => [FreshName(Used(f, []), c.name)]
  }

  lemma NewNamesFresh(f: NamedFunction, c: Create, x: string)
    ensures Count(NewNames(f, c), x) <= 1 && (x in NewNames(f, c) ==> x !in AllNames(f))
  {
    match c {
      case NewVoid(_, _) =>
      case NewWrap(_, _, r, w) => WrapNamesFresh(f, r, w);
      case _ => FreshNameIsFresh(Used(f, []), c.name);
    }
  }

  lemma CreatedCount(f: NamedFunction, c: Create, x: string)
    requires InRange(f, c)
    ensures Count(AllNames(Created(f, c)), x) == Count(AllNames(f), x) + Count(NewNames(f, c), x)
  {
    var names := NewNames(f, c);
    match c {
      case NewAlloca(_) =>
        CountAll(f, x);
        CountAll(Created(f, c), x);
        CountAdd(f.allocas, names, x);
      case NewBlock(_, at) =>
        CountAll(f, x);
        CountAll(Created(f, c), x);
        BlocksInsert(f.blocks, at, NamedBlock(names[0], []), x);
        assert BlockNames(NamedBlock(names[0], [])) == names;
      case NewStmt(b, p, _) => WithStmtCount(f, b, p, names, x);
      case NewVoid(b, p) => WithStmtCount(f, b, p, names, x);
      case NewWrap(b, p, _, _) => WithStmtCount(f, b, p, names, x);
    }
  }

  /** Creating anything keeps all names of the function distinct. */
  lemma CreateKeepsUnique(f: NamedFunction, c: Create)
    requires Unique(f) && InRange(f, c)
    ensures Unique(Created(f, c))
  {
    forall x
      ensures Count(AllNames(Created(f, c)), x) <= 1
    {
      CreatedCount(f, c, x);
      NewNamesFresh(f, c, x);
    }
  }

  ghost predicate AllInRange(f: NamedFunction, cs: seq<Create>)
    decreases |cs|
  {
    cs == [] || (InRange(f, cs[0]) && AllInRange(Created(f, cs[0]), cs[1..]))
  }

  ghost function AfterCreates(f: NamedFunction, cs: seq<Create>): NamedFunction
    requires AllInRange(f, cs)
    decreases |cs|
  {
    if cs == [] then f else AfterCreates(Created(f, cs[0]), cs[1..])
  }

  lemma {:induction false} CreatesKeepUnique(f: NamedFunction, cs: seq<Create>)
    requires Unique(f) && AllInRange(f, cs)
    ensures Unique(AfterCreates(f, cs))
    decreases |cs|
  {
    if cs == [] {
    } else {
      CreateKeepsUnique(f, cs[0]);
      CreatesKeepUnique(Created(f, cs[0]), cs[1..]);
    }
  }

  // ---------- two names without a forward include ----------

  /** A decimal has no dot. */
  lemma {:induction false} DecimalNoDot(n: nat)
    ensures '.' !in Decimal(n)
  {
    if n < 10 {
      assert Decimal(n) == [Digit(n)];
    } else {
      DecimalNoDot(n / 10);
    }
  }

  /** Suffixes of different names never meet: the last dot tells where the name ends. */
  lemma SuffixedApart(r: string, a: nat, w: string, b: nat)
    requires Suffixed(r, a) == Suffixed(w, b)
    ensures r == w && a == b
  {
    DecimalNoDot(a);
    DecimalNoDot(b);
    LastDot(r, Decimal(a), w, Decimal(b));
    DecimalInjective(a, b);
  }

  lemma LastDot(r: string, x: string, w: string, y: string)
    requires '.' !in x && '.' !in y && r + "." + x == w + "." + y
    ensures r == w && x == y
  {
    var s := r + "." + x;
    assert s[|w|] == '.' && s[|r|] == '.';
    assert s[..|r|] == r && s[|r| + 1..] == x && s[..|w|] == w && s[|w| + 1..] == y;
  }

  /** Names that createCmpXchg asks for one after the other: the second search does not know of the first result. */
  ghost function BlindNames(f: NamedFunction, r: string, w: string): (string, string) {
    (FreshName(Used(f, []), r), FreshName(Used(f, []), w))
  }

  /** w is unused, and is the suffixed candidate of r that the search for r comes to after only taken ones. */
  ghost predicate IsNextOf(used: set<string>, w: string, r: string) {
    w !in used && exists k: nat :: w == Candidate(r, k) && AllTaken(used, r, k)
  }

  /** One name asked for twice, or one that is just what the search for the other comes to. */
  ghost predicate Collide(used: set<string>, r: string, w: string) {
    r == w || IsNextOf(used, w, r) || IsNextOf(used, r, w)
  }

  lemma {:induction false} FirstFreeFrom(used: set<string>, r: string, i: nat, k: nat)
    requires i <= k && AllTaken(used, r, k) && Candidate(r, k) !in used && AllTaken(used, r, i)
    ensures FirstFree(used, r, i) == k
    decreases k - i
  {
    if i == k {
      assert Candidate(r, i) !in used;
    } else {
      assert Candidate(r, i) in used && AllTaken(used, r, i + 1);
      FirstFreeFrom(used, r, i + 1, k);
    }
  }

  lemma NextIsFresh(used: set<string>, w: string, r: string)
    requires IsNextOf(used, w, r)
    ensures FreshName(used, r) == w && FreshName(used, w) == w
  {
    var k: nat :| w == Candidate(r, k) && AllTaken(used, r, k);
    FirstFreeFrom(used, r, 0, k);
    assert w != "" by {
      assert Candidate(r, k) == r || |Candidate(r, k)| > 0;
    }
  }

  /** Both searches end at one name only if that is how they collide. */
  lemma SameNameCollides(used: set<string>, r: string, w: string)
    requires FreshName(used, r) == FreshName(used, w)
    ensures Collide(used, r, w)
  {
    FirstFreeIs(used, r, 0);
    FirstFreeIs(used, w, 0);
    var i, j := FirstFree(used, r, 0), FirstFree(used, w, 0);
    if r != w {
      if i == 0 && r != "" {
        assert r == Candidate(w, j);
      } else if j == 0 && w != "" {
        assert w == Candidate(r, i);
      } else {
        SuffixedApart(r, if r == "" then i + 1 else i, w, if w == "" then j + 1 else j);
      }
    }
  }

  /**
   Without the forward include, as in createCmpXchg, the two names break the distinctness of the function's names
   exactly when the names asked for collide: they are equal, or one is unused and is where the search for the other
   ends, as "x.1" is for "x" where only "x" is in use.
   */
  lemma NoForwardIncludeRepeats(f: NamedFunction, b: nat, p: nat, r: string, w: string)
    requires Unique(f) && b < |f.blocks| && p <= |f.blocks[b].stmts|
    ensures var names := BlindNames(f, r, w);
      !Unique(WithStmt(f, b, p, [names.0, names.1])) <==> Collide(Used(f, []), r, w)
  {
    var used := Used(f, []);
    var names := BlindNames(f, r, w);
    TwoNamesUnique(f, b, p, r, w);
    if IsNextOf(used, w, r) {
      NextIsFresh(used, w, r);
    } else if IsNextOf(used, r, w) {
      NextIsFresh(used, r, w);
    } else if names.0 == names.1 {
      SameNameCollides(used, r, w);
    }
  }

  /** Two fresh names keep the names distinct just if they differ. */
  lemma TwoNamesUnique(f: NamedFunction, b: nat, p: nat, r: string, w: string)
    requires Unique(f) && b < |f.blocks| && p <= |f.blocks[b].stmts|
    ensures var names := BlindNames(f, r, w); Unique(WithStmt(f, b, p, [names.0, names.1])) <==> names.0 != names.1
  {
    var x, y := BlindNames(f, r, w).0, BlindNames(f, r, w).1;
    FreshNameIsFresh(Used(f, []), r);
    FreshNameIsFresh(Used(f, []), w);
    AddedTwo(f, b, p, x, y, x);
    forall z
      ensures x != y ==> Count(AllNames(WithStmt(f, b, p, [x, y])), z) <= 1
    {
      AddedTwo(f, b, p, x, y, z);
    }
  }

  lemma AddedTwo(f: NamedFunction, b: nat, p: nat, x: string, y: string, z: string)
    requires b < |f.blocks| && p <= |f.blocks[b].stmts|
    ensures Count(AllNames(WithStmt(f, b, p, [x, y])), z)
            == Count(AllNames(f), z) + (if x == z then 1 else 0) + (if y == z then 1 else 0)
  {
    WithStmtCount(f, b, p, [x, y], z);
  }
}
