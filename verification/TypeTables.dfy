/** The type tables: handles for array and struct types, and what they denote. */
module TypeTables {
  import opened Slots
  import opened Bits
  import opened Multiples
  import opened Layout

  /** A type as code passes it around: array and struct types are positions in a table. */
  datatype Handle =
    | VoidH | BoolH | PtrH | FuncH
    | IntH(width: nat)
    | FloatH(width: nat)
    | ArrayH(index: nat)
    | StructH(index: nat)
    | UnionH(index: nat)

  /** `born` numbers the entries of all tables in the order in which they were made. */
  datatype ArrayType = ArrayType(elem: Handle, length: nat, born: nat)

  datatype StructType = StructType(members: seq<Handle>, alignment: nat, packed: bool, born: nat)

  datatype UnionType = UnionType(fields: seq<Handle>, alignment: nat, born: nat)

  datatype Tables = Tables(arrays: seq<ArrayType>, structs: seq<StructType>, unions: seq<UnionType>)

  const EMPTY: Tables := Tables([], [], [])

  function Clock(t: Tables): nat { |t.arrays| + |t.structs| + |t.unions| }

  predicate Known(t: Tables, h: Handle) {
    && (h.ArrayH? ==> h.index < |t.arrays|)
    && (h.StructH? ==> h.index < |t.structs|)
    && (h.UnionH? ==> h.index < |t.unions|)
  }

  /** When a handle was made; 0 for the types that need no table. */
  function Born(t: Tables, h: Handle): nat
    requires Known(t, h)
  {
    match h
    case ArrayH(i) => t.arrays[i].born + 1
    case StructH(i) => t.structs[i].born + 1
    case UnionH(i) => t.unions[i].born + 1
    case _ => 0
  }

  /** The handle was known before the entry numbered `born` was made. */
  predicate Earlier(t: Tables, h: Handle, born: nat) { Known(t, h) && Born(t, h) <= born }

  predicate ArrayOk(t: Tables, a: ArrayType) { a.born < Clock(t) && Earlier(t, a.elem, a.born) }

  predicate AllEarlier(t: Tables, hs: seq<Handle>, born: nat) {
    forall k :: 0 <= k < |hs| ==> Earlier(t, hs[k], born)
  }

  predicate StructOk(t: Tables, s: StructType) { s.born < Clock(t) && AllEarlier(t, s.members, s.born) }

  predicate UnionOk(t: Tables, u: UnionType) { u.born < Clock(t) && AllEarlier(t, u.fields, u.born) }

  /** Every entry mentions only handles made before it. */
  predicate Ordered(t: Tables) {
    && (forall i :: 0 <= i < |t.arrays| ==> ArrayOk(t, t.arrays[i]))
    && (forall i :: 0 <= i < |t.structs| ==> StructOk(t, t.structs[i]))
    && (forall i :: 0 <= i < |t.unions| ==> UnionOk(t, t.unions[i]))
  }

  /** The type behind a handle; the recursion through the tables ends because of the order of creation. */
  function Denote(t: Tables, h: Handle): Ty
    requires Ordered(t) && Known(t, h)
    decreases Born(t, h)
  {
    match h
    case VoidH => Void
    case BoolH => Bool
    case PtrH => Ptr
    case FuncH => Func
    case IntH(w) => Int(w)
    case FloatH(w) => Float(w)
    case ArrayH(i) =>
      assert ArrayOk(t, t.arrays[i]);
      Array(Denote(t, t.arrays[i].elem), t.arrays[i].length)
    case StructH(i) =>
      assert StructOk(t, t.structs[i]);
      var s := t.structs[i];
      Struct(seq(|s.members|, k requires 0 <= k < |s.members| => Denote(t, s.members[k])), s.alignment, s.packed)
    case UnionH(i) =>
      assert UnionOk(t, t.unions[i]);
      var u := t.unions[i];
      Union(seq(|u.fields|, k requires 0 <= k < |u.fields| => Denote(t, u.fields[k])), u.alignment)
  }

  // ---------- creating types ----------

  /** The first entry from i on with this element type and length. */
  function FindArray(t: Tables, elem: Handle, length: nat, i: nat): nat
    requires i <= |t.arrays|
    decreases |t.arrays| - i
  {
    if i == |t.arrays| || (t.arrays[i].elem == elem && t.arrays[i].length == length) then i
    else FindArray(t, elem, length, i + 1)
  }

  function WithArray(t: Tables, elem: Handle, length: nat): Tables {
    if FindArray(t, elem, length, 0) < |t.arrays| then t
    else t.(arrays := t.arrays + [ArrayType(elem, length, Clock(t))])
  }

  function WithStruct(t: Tables, members: seq<Handle>, alignment: nat, packed: bool): Tables {
    t.(structs := t.structs + [StructType(members, alignment, packed, Clock(t))])
  }

  function WithUnion(t: Tables, fields: seq<Handle>, alignment: nat): Tables {
    t.(unions := t.unions + [UnionType(fields, alignment, Clock(t))])
  }

  datatype Create =
    | NewArray(elem: Handle, length: nat)
    | NewStruct(members: seq<Handle>, packed: bool, alignment: nat)
    | NewUnion(fields: seq<Handle>, alignment: nat)

  predicate AllKnown(t: Tables, hs: seq<Handle>) { forall k :: 0 <= k < |hs| ==> Known(t, hs[k]) }

  predicate Legal(t: Tables, c: Create) {
    match c
    case NewArray(elem, _) => Known(t, elem)
    case NewStruct(members, _, _) => AllKnown(t, members)
    case NewUnion(fields, _) => AllKnown(t, fields)
  }

  function After(t: Tables, c: Create): Tables {
    match c
    case NewArray(elem, length) => WithArray(t, elem, length)
    case NewStruct(members, packed, alignment) => WithStruct(t, members, alignment, packed)
    case NewUnion(fields, alignment) => WithUnion(t, fields, alignment)
  }

  /** Tables only grow. */
  predicate Extends(t: Tables, u: Tables) {
    && |t.arrays| <= |u.arrays| && u.arrays[..|t.arrays|] == t.arrays
    && |t.structs| <= |u.structs| && u.structs[..|t.structs|] == t.structs
    && |t.unions| <= |u.unions| && u.unions[..|t.unions|] == t.unions
  }

  lemma KnownIsEarlier(t: Tables, h: Handle)
    requires Ordered(t) && Known(t, h)
    ensures Earlier(t, h, Clock(t))
  {
    match h {
      case ArrayH(i) => assert ArrayOk(t, t.arrays[i]);
      case StructH(i) => assert StructOk(t, t.structs[i]);
      case UnionH(i) => assert UnionOk(t, t.unions[i]);
      case _ =>
    }
  }

  lemma StillEarlier(t: Tables, u: Tables, hs: seq<Handle>, born: nat)
    requires Ordered(t) && Extends(t, u)
    requires AllEarlier(t, hs, born) || (AllKnown(t, hs) && Clock(t) <= born)
    ensures AllEarlier(u, hs, born)
  {
    forall k | 0 <= k < |hs|
      ensures Earlier(u, hs[k], born)
    {
      assert AllEarlier(t, hs, born) ==> Earlier(t, hs[k], born);
      KnownIsEarlier(t, hs[k]);
    }
  }

  /** Every entry, old or new, mentions only handles made before it. */
  lemma CreateKeepsOrdered(t: Tables, c: Create)
    requires Ordered(t) && Legal(t, c)
    ensures Extends(t, After(t, c)) && Ordered(After(t, c))
  {
    var u := After(t, c);
    forall i | 0 <= i < |u.arrays|
      ensures ArrayOk(u, u.arrays[i])
    {
      assert i < |t.arrays| ==> ArrayOk(t, t.arrays[i]);
      assert AllEarlier(t, [u.arrays[i].elem], u.arrays[i].born) || AllKnown(t, [u.arrays[i].elem]);
      StillEarlier(t, u, [u.arrays[i].elem], u.arrays[i].born);
      assert Earlier(u, [u.arrays[i].elem][0], u.arrays[i].born);
    }
    forall i | 0 <= i < |u.structs|
      ensures StructOk(u, u.structs[i])
    {
      assert i < |t.structs| ==> StructOk(t, t.structs[i]);
      StillEarlier(t, u, u.structs[i].members, u.structs[i].born);
    }
    forall i | 0 <= i < |u.unions|
      ensures UnionOk(u, u.unions[i])
    {
      assert i < |t.unions| ==> UnionOk(t, t.unions[i]);
      StillEarlier(t, u, u.unions[i].fields, u.unions[i].born);
    }
  }

  /** A handle keeps its meaning whatever is created later. */
  lemma {:induction false} DenoteStable(t: Tables, u: Tables, h: Handle)
    requires Ordered(t) && Ordered(u) && Extends(t, u) && Known(t, h)
    ensures Known(u, h) && Denote(u, h) == Denote(t, h)
    decreases Born(t, h)
  {
    match h {
      case ArrayH(i) =>
        assert ArrayOk(t, t.arrays[i]) && u.arrays[..|t.arrays|][i] == u.arrays[i];
        DenoteStable(t, u, t.arrays[i].elem);
      case StructH(i) =>
        assert StructOk(t, t.structs[i]) && u.structs[..|t.structs|][i] == u.structs[i];
        var s := t.structs[i];
        forall k | 0 <= k < |s.members|
          ensures Known(u, s.members[k]) && Denote(u, s.members[k]) == Denote(t, s.members[k])
        {
          assert Earlier(t, s.members[k], s.born);
          DenoteStable(t, u, s.members[k]);
        }
        assert Denote(u, h).members == Denote(t, h).members;
      case UnionH(i) =>
        assert UnionOk(t, t.unions[i]) && u.unions[..|t.unions|][i] == u.unions[i];
        var n := t.unions[i];
        forall k | 0 <= k < |n.fields|
          ensures Known(u, n.fields[k]) && Denote(u, n.fields[k]) == Denote(t, n.fields[k])
        {
          assert Earlier(t, n.fields[k], n.born);
          DenoteStable(t, u, n.fields[k]);
        }
        assert Denote(u, h).fields == Denote(t, h).fields;
      case _ =>
    }
  }

  // ---------- one handle for each array type ----------

  predicate NoTwoArrays(t: Tables) {
    forall i, j ::
      (0 <= i < |t.arrays| && 0 <= j < |t.arrays|
       && t.arrays[i].elem == t.arrays[j].elem && t.arrays[i].length == t.arrays[j].length)
      ==> i == j
  }

  lemma {:induction false} FindArrayIs(t: Tables, elem: Handle, length: nat, i: nat)
    requires i <= |t.arrays|
    ensures var j := FindArray(t, elem, length, i);
      && i <= j <= |t.arrays|
      && (j < |t.arrays| ==> t.arrays[j].elem == elem && t.arrays[j].length == length)
      && (forall k :: i <= k < j ==> !(t.arrays[k].elem == elem && t.arrays[k].length == length))
    decreases |t.arrays| - i
  {
    if i < |t.arrays| && !(t.arrays[i].elem == elem && t.arrays[i].length == length) {
      FindArrayIs(t, elem, length, i + 1);
    }
  }

  lemma CreateKeepsNoTwo(t: Tables, c: Create)
    requires NoTwoArrays(t)
    ensures NoTwoArrays(After(t, c))
  {
    if c.NewArray? {
      FindArrayIs(t, c.elem, c.length, 0);
    }
  }

  predicate AllLegal(t: Tables, cs: seq<Create>)
    decreases |cs|
  {
    cs == [] || (Legal(t, cs[0]) && AllLegal(After(t, cs[0]), cs[1..]))
  }

  function AfterAll(t: Tables, cs: seq<Create>): Tables
    decreases |cs|
  {
    if cs == [] then t else AfterAll(After(t, cs[0]), cs[1..])
  }

  lemma {:induction false} CreatesKeep(t: Tables, cs: seq<Create>)
    requires Ordered(t) && NoTwoArrays(t) && AllLegal(t, cs)
    ensures Ordered(AfterAll(t, cs)) && NoTwoArrays(AfterAll(t, cs)) && Extends(t, AfterAll(t, cs))
    decreases |cs|
  {
    if cs == [] {
    } else {
      CreateKeepsOrdered(t, cs[0]);
      CreateKeepsNoTwo(t, cs[0]);
      CreatesKeep(After(t, cs[0]), cs[1..]);
    }
  }

  /**
   However many types are created between two requests for an array type, the handles are equal exactly when the element
   handles and the lengths are.
   */
  lemma ArrayHandlesEqualIff(t: Tables, e1: Handle, n1: nat, cs: seq<Create>, e2: Handle, n2: nat)
    requires Ordered(t) && NoTwoArrays(t) && Known(t, e1) && AllLegal(WithArray(t, e1, n1), cs)
    requires Known(AfterAll(WithArray(t, e1, n1), cs), e2)
    ensures var u := AfterAll(WithArray(t, e1, n1), cs);
      FindArray(t, e1, n1, 0) == FindArray(u, e2, n2, 0) <==> e1 == e2 && n1 == n2
  {
    var t1 := WithArray(t, e1, n1);
    CreateKeepsOrdered(t, NewArray(e1, n1));
    CreateKeepsNoTwo(t, NewArray(e1, n1));
    CreatesKeep(t1, cs);
    var u := AfterAll(t1, cs);
    FindArrayIs(t, e1, n1, 0);
    FindArrayIs(u, e2, n2, 0);
    var i := FindArray(t, e1, n1, 0);
    assert u.arrays[..|t1.arrays|][i] == u.arrays[i];
  }

  // ---------- what handles stand for ----------

  /** The handle that a create returns. */
  function NewHandle(t: Tables, c: Create): Handle {
    match c
    case NewArray(elem, length) => ArrayH(FindArray(t, elem, length, 0))
    case NewStruct(_, _, _) => StructH(|t.structs|)
    case NewUnion(_, _) => UnionH(|t.unions|)
  }

  /** These types are what these handles stand for, one for one. */
  predicate StandFor(t: Tables, hs: seq<Handle>, types: seq<Ty>)
    requires Ordered(t) && AllKnown(t, hs)
  {
    |types| == |hs| && forall k :: 0 <= k < |hs| ==> types[k] == Denote(t, hs[k])
  }

  /**
   An array of the given length of what the element handle stands for; a struct or union of what the parts' handles
   stand for, with the alignment and packing given.
   */
  predicate AskedFor(t: Tables, c: Create, ty: Ty)
    requires Ordered(t) && Legal(t, c)
  {
    match c
    case NewArray(elem, length) => ty == Array(Denote(t, elem), length)
    case NewStruct(members, packed, alignment) =>
      ty.Struct? && StandFor(t, members, ty.members) && ty.alignment == alignment && ty.packed == packed
    case NewUnion(fields, alignment) =>
      ty.Union? && StandFor(t, fields, ty.fields) && ty.alignment == alignment
  }

  /** The handle that a create returns stands for the type that was asked for. */
  lemma NewHandleMeans(t: Tables, c: Create)
    requires Ordered(t) && Legal(t, c)
    ensures Ordered(After(t, c)) && Known(After(t, c), NewHandle(t, c))
    ensures AskedFor(t, c, Denote(After(t, c), NewHandle(t, c)))
  {
    var u := After(t, c);
    CreateKeepsOrdered(t, c);
    match c {
      case NewArray(elem, length) =>
        FindArrayIs(t, elem, length, 0);
        DenoteStable(t, u, elem);
      case NewStruct(members, _, _) => StandForLater(t, u, members);
      case NewUnion(fields, _) => StandForLater(t, u, fields);
    }
  }

  lemma StandForLater(t: Tables, u: Tables, hs: seq<Handle>)
    requires Ordered(t) && Ordered(u) && Extends(t, u) && AllKnown(t, hs)
    ensures AllKnown(u, hs) && forall k :: 0 <= k < |hs| ==> Denote(u, hs[k]) == Denote(t, hs[k])
  {
    forall k | 0 <= k < |hs|
      ensures Known(u, hs[k]) && Denote(u, hs[k]) == Denote(t, hs[k])
    {
      DenoteStable(t, u, hs[k]);
    }
  }

  /** The types without a table stand for themselves. */
  lemma LeafHandlesMean(t: Tables, w: nat)
    requires Ordered(t)
    ensures Denote(t, VoidH) == Void && Denote(t, BoolH) == Bool && Denote(t, PtrH) == Ptr && Denote(t, FuncH) == Func
    ensures Denote(t, IntH(w)) == Int(w) && Denote(t, FloatH(w)) == Float(w)
  {
  }

  // ---------- the tables only hold types that Layout's results are about ----------

  /** No union, and of the types without a table those that keep alignment a divisor of size. */
  predicate PlainLeaf(p: nat, h: Handle) {
    !h.UnionH? && (h.IntH? ==> IntBytes(h.width) < 8 * p) && (h.FloatH? ==> FloatWidth(h.width))
  }

  ghost predicate PlainTables(p: nat, t: Tables) {
    && Ordered(t)
    && forall h :: Known(t, h) && PlainLeaf(p, h) ==> Plain(p, Denote(t, h))
  }

  /** createStructType's default alignment, or an explicit one it accepts. */
  ghost predicate GoodAlignment(p: nat, t: Tables, members: seq<Handle>, alignment: nat)
    requires Ordered(t) && AllKnown(t, members)
  {
    IsPow2(alignment) && forall k :: 0 <= k < |members| ==> Alignment(p, Denote(t, members[k])) <= alignment
  }

  ghost predicate PlainCreate(p: nat, t: Tables, c: Create)
    requires Ordered(t) && Legal(t, c)
  {
    match c
    case NewArray(elem, _) => PlainLeaf(p, elem)
    case NewStruct(members, _, a) =>
      GoodAlignment(p, t, members, a) && forall k :: 0 <= k < |members| ==> PlainLeaf(p, members[k])
    case NewUnion(_, _) => true
  }

  /** Every type made from plain parts is plain, so that its alignment divides its size. */
  lemma CreateKeepsPlain(p: nat, t: Tables, c: Create)
    requires PlainTables(p, t) && Legal(t, c) && PlainCreate(p, t, c)
    ensures PlainTables(p, After(t, c))
  {
    var u := After(t, c);
    CreateKeepsOrdered(t, c);
    forall h | Known(u, h) && PlainLeaf(p, h)
      ensures Plain(p, Denote(u, h))
    {
      if Known(t, h) {
        DenoteStable(t, u, h);
      } else {
        NewIsPlain(p, t, c, h);
      }
    }
  }

  lemma NewIsPlain(p: nat, t: Tables, c: Create, h: Handle)
    requires PlainTables(p, t) && Legal(t, c) && PlainCreate(p, t, c) && Ordered(After(t, c)) && Extends(t, After(t, c))
    requires Known(After(t, c), h) && !Known(t, h) && PlainLeaf(p, h)
    ensures Plain(p, Denote(After(t, c), h))
  {
    var u := After(t, c);
    match c {
      case NewArray(elem, _) => DenoteStable(t, u, elem);
      case NewStruct(members, _, _) =>
        forall k | 0 <= k < |members|
          ensures Known(u, members[k]) && Plain(p, Denote(u, members[k]))
          ensures Denote(u, members[k]) == Denote(t, members[k])
        {
          DenoteStable(t, u, members[k]);
        }
      case NewUnion(_, _) =>
    }
  }

  /** The alignment createStructType gives by default: the largest of the first k members, at least 1. */
  function DefaultAlignment(p: nat, t: Tables, members: seq<Handle>, k: nat): nat
    requires Ordered(t) && k <= |members| && AllKnown(t, members)
  {
    if k == 0 then 1 else Max(DefaultAlignment(p, t, members, k - 1), Alignment(p, Denote(t, members[k - 1])))
  }

  /** An explicit alignment is taken as it is. */
  function ChosenAlignment(p: nat, t: Tables, members: seq<Handle>, explicit: Option<nat>): nat
    requires Ordered(t) && AllKnown(t, members)
  {
    if explicit.Some? then explicit.value else DefaultAlignment(p, t, members, |members|)
  }

  /** An explicit alignment is taken; without one it is the least that is enough for 1 and for every member. */
  lemma ChosenIs(p: nat, t: Tables, members: seq<Handle>, explicit: Option<nat>)
    requires Ordered(t) && AllKnown(t, members)
    ensures var a := ChosenAlignment(p, t, members, explicit);
      if explicit.Some? then a == explicit.value
      else
        && a >= 1 && (forall k :: 0 <= k < |members| ==> Alignment(p, Denote(t, members[k])) <= a)
        && (a == 1 || exists k :: 0 <= k < |members| && Alignment(p, Denote(t, members[k])) == a)
  {
    DefaultAlignmentIs(p, t, members, |members|);
  }

  lemma {:induction false} DefaultAlignmentIs(p: nat, t: Tables, members: seq<Handle>, n: nat)
    requires Ordered(t) && n <= |members| && AllKnown(t, members)
    ensures var a := DefaultAlignment(p, t, members, n);
      && a >= 1 && (forall k :: 0 <= k < n ==> Alignment(p, Denote(t, members[k])) <= a)
      && (a == 1 || exists k :: 0 <= k < n && Alignment(p, Denote(t, members[k])) == a)
  {
    if n == 0 {
    } else {
      DefaultAlignmentIs(p, t, members, n - 1);
    }
  }

  /** The default is always acceptable. */
  lemma {:induction false} DefaultAlignmentGood(p: nat, t: Tables, members: seq<Handle>, k: nat)
    requires PtrSize(p) && PlainTables(p, t) && k <= |members|
    requires AllKnown(t, members) && forall i :: 0 <= i < |members| ==> PlainLeaf(p, members[i])
    ensures GoodAlignment(p, t, members[..k], DefaultAlignment(p, t, members, k))
  {
    if k == 0 {
      OneIsPow2();
    } else {
      DefaultAlignmentGood(p, t, members, k - 1);
      AlignmentIsPow2(p, Denote(t, members[k - 1]));
      assert forall i :: 0 <= i < k - 1 ==> members[..k][i] == members[..k - 1][i];
    }
  }

  // ---------- the module object ----------

  class TypeModule {
    const ptrBytes: nat
    var arrayTypes: seq<ArrayType>
    var structTypes: seq<StructType>
    var unionTypes: seq<UnionType>

    constructor (ptrBytes: nat)
      ensures this.ptrBytes == ptrBytes && View() == EMPTY
    {
      this.ptrBytes, arrayTypes, structTypes, unionTypes := ptrBytes, [], [], [];
    }

    function View(): Tables
      reads this
    {
      Tables(arrayTypes, structTypes, unionTypes)
    }

    method GetOrCreateArrayType(elem: Handle, length: nat) returns (h: Handle)
      modifies this`arrayTypes
      ensures View() == WithArray(old(View()), elem, length)
      ensures h == ArrayH(FindArray(old(View()), elem, length, 0))
    {
      for i := 0 to |arrayTypes|
        invariant arrayTypes == old(arrayTypes)
        invariant FindArray(View(), elem, length, 0) == FindArray(View(), elem, length, i)
      {
        if arrayTypes[i].elem == elem && arrayTypes[i].length == length {
          return ArrayH(i);
        }
      }
      h := ArrayH(|arrayTypes|);
      arrayTypes := arrayTypes + [ArrayType(elem, length, Clock(View()))];
    }

    /** getAlignment on a handle. */
    method GetAlignment(h: Handle) returns (alignment: nat)
      requires Ordered(View()) && Known(View(), h)
      ensures alignment == Alignment(ptrBytes, Denote(View(), h))
      decreases Born(View(), h)
    {
      match h {
        case ArrayH(i) =>
          assert ArrayOk(View(), arrayTypes[i]);
          alignment := GetAlignment(arrayTypes[i].elem);
        case StructH(i) => alignment := structTypes[i].alignment;
        case UnionH(i) => alignment := unionTypes[i].alignment;
        case IntH(w) => alignment := Min(BitCeil(IntBytes(w)), 2 * ptrBytes);
        case FloatH(w) => alignment := FloatBytes(w);
        case PtrH => alignment := ptrBytes;
        case FuncH => alignment := ptrBytes;
        case _ => alignment := 1;
      }
    }

    /** The loop of createStructType and createUnionType over the parts of the new type. */
    method MaxAlignment(parts: seq<Handle>) returns (alignment: nat)
      requires Ordered(View()) && AllKnown(View(), parts)
      ensures alignment == DefaultAlignment(ptrBytes, View(), parts, |parts|)
    {
      alignment := 1;
      for i := 0 to |parts|
        invariant alignment == DefaultAlignment(ptrBytes, View(), parts, i)
      {
        var a := GetAlignment(parts[i]);
        alignment := Max(alignment, a);
      }
    }

    method CreateStructType(members: seq<Handle>, packed: bool, explicit: Option<nat>) returns (h: Handle)
      requires Ordered(View()) && AllKnown(View(), members)
      modifies this`structTypes
      ensures h == StructH(|old(structTypes)|)
      ensures View()
              == WithStruct(old(View()), members, ChosenAlignment(ptrBytes, old(View()), members, explicit), packed)
    {
      var alignment: nat;
      if explicit.Some? {
        alignment := explicit.value;
      } else {
        alignment := MaxAlignment(members);
      }
      h := StructH(|structTypes|);
      structTypes := structTypes + [StructType(members, alignment, packed, Clock(View()))];
    }

    method CreateUnionType(fields: seq<Handle>, explicit: Option<nat>) returns (h: Handle)
      requires Ordered(View()) && AllKnown(View(), fields)
      modifies this`unionTypes
      ensures h == UnionH(|old(unionTypes)|)
      ensures View() == WithUnion(old(View()), fields, ChosenAlignment(ptrBytes, old(View()), fields, explicit))
    {
      var alignment: nat;
      if explicit.Some? {
        alignment := explicit.value;
      } else {
        alignment := MaxAlignment(fields);
      }
      h := UnionH(|unionTypes|);
      unionTypes := unionTypes + [UnionType(fields, alignment, Clock(View()))];
    }
  }

  /** So every struct that createStructType makes from plain members is plain. */
  lemma DefaultStructIsPlain(p: nat, t: Tables, members: seq<Handle>, packed: bool)
    requires PtrSize(p) && PlainTables(p, t)
    requires AllKnown(t, members) && forall i :: 0 <= i < |members| ==> PlainLeaf(p, members[i])
    ensures PlainTables(p, WithStruct(t, members, DefaultAlignment(p, t, members, |members|), packed))
  {
    DefaultAlignmentGood(p, t, members, |members|);
    assert members[..|members|] == members;
    CreateKeepsPlain(p, t, NewStruct(members, packed, DefaultAlignment(p, t, members, |members|)));
  }
}
