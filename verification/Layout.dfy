/** Sizes and alignments of PIR types, and the addresses that calc_ptr computes inside them. */
module Layout {
  import opened Bits
  import opened Multiples

  /** A type, with the array and struct tables followed to the end. */
  datatype Ty =
    | Void | Bool | Ptr | Func
    | Int(width: nat)
    | Float(width: nat)
    | Array(elem: Ty, length: nat)
    | Struct(members: seq<Ty>, alignment: nat, packed: bool)
    | Union(fields: seq<Ty>, alignment: nat)

  predicate FloatWidth(w: nat) { w == 16 || w == 32 || w == 64 || w == 80 || w == 128 }

  predicate PtrSize(p: nat) { p == 4 || p == 8 }

  // ---------- numBytes and getAlignment ----------

  function FloatBytes(w: nat): nat {
    match w
    case 16 => 2
    case 32 => 4
    case 64 => 8
    case _ => 16
  }

  function IntBytes(width: nat): nat { RoundUp(width, 8) / 8 }

  function Min(a: nat, b: nat): nat { if a < b then a else b }

  function Max(a: nat, b: nat): nat { if a < b then b else a }

  function Times(a: nat, b: nat): nat { a * b }

  /** `p` is the target's pointer size. */
  function Alignment(p: nat, t: Ty): nat {
    match t
    case Void => 1
    case Int(w) => Min(BitCeil(IntBytes(w)), 2 * p)
    case Bool => 1
    case Float(w) => FloatBytes(w)
    case Ptr => p
    case Array(elem, _) => Alignment(p, elem)
    case Struct(_, a, _) => a
    case Union(_, a) => a
    case Func => p
  }

  /** Alignments are positive; floats have one of the known widths. */
  predicate Sound(p: nat, t: Ty) {
    match t
    case Float(w) => FloatWidth(w)
    case Array(elem, _) => Sound(p, elem)
    case Struct(members, a, _) => a > 0 && forall m :: m in members ==> Sound(p, m)
    case Union(fields, a) => a > 0 && forall f :: f in fields ==> Sound(p, f)
    case _ => true
  }

  lemma AlignmentPositive(p: nat, t: Ty)
    requires p > 0 && Sound(p, t)
    ensures Alignment(p, t) > 0
  {
    if t.Int? {
      BitCeilLeast(IntBytes(t.width));
    }
  }

  function NumBytes(p: nat, t: Ty, padded: bool): nat
    requires p > 0 && Sound(p, t)
    decreases t, 1, 0
  {
    match t
    case Void => 0
    case Int(w) =>
      if !padded then IntBytes(w)
      else if IntBytes(w) < p * 8 then BitCeil(IntBytes(w))
      else RoundUp(IntBytes(w), p)
    case Bool => 1
    case Float(w) => FloatBytes(w)
    case Ptr => p
    case Array(elem, length) => Times(NumBytes(p, elem, true), length)
    case Struct(members, a, packed) =>
      var size := if packed then PackedEnd(p, t, |members|) else End(p, t, |members|);
      if padded then RoundUp(size, a) else size
    case Union(fields, _) => Largest(p, t, |fields|)
    case Func => p
  }

  /** Where member k starts once it is aligned. */
  function Offset(p: nat, t: Ty, k: nat): nat
    requires p > 0 && Sound(p, t) && t.Struct? && k < |t.members|
    decreases t, 0, 2 * k + 1
  {
    AlignmentPositive(p, t.members[k]);
    RoundUp(End(p, t, k), Alignment(p, t.members[k]))
  }

  /** The end of the first k members, each aligned. */
  function End(p: nat, t: Ty, k: nat): nat
    requires p > 0 && Sound(p, t) && t.Struct? && k <= |t.members|
    decreases t, 0, 2 * k
  {
    if k == 0 then 0 else Offset(p, t, k - 1) + NumBytes(p, t.members[k - 1], true)
  }

  /** The end of the first k members, one right after the other. */
  function PackedEnd(p: nat, t: Ty, k: nat): nat
    requires p > 0 && Sound(p, t) && t.Struct? && k <= |t.members|
    decreases t, 0, 2 * k
  {
    if k == 0 then 0 else PackedEnd(p, t, k - 1) + NumBytes(p, t.members[k - 1], false)
  }

  function Largest(p: nat, t: Ty, k: nat): nat
    requires p > 0 && Sound(p, t) && t.Union? && k <= |t.fields|
    decreases t, 0, 2 * k
  {
    if k == 0 then 1 else Max(Largest(p, t, k - 1), NumBytes(p, t.fields[k - 1], true))
  }

  // ---------- the loops ----------

  method ComputeNumBytes(p: nat, t: Ty, padded: bool) returns (size: nat)
    requires p > 0 && Sound(p, t)
    ensures size == NumBytes(p, t, padded)
    decreases t
  {
    match t {
      case Struct(members, a, packed) =>
        size := 0;
        for i := 0 to |members|
          invariant size == if packed then PackedEnd(p, t, i) else End(p, t, i)
        {
          if packed {
            var bytes := ComputeNumBytes(p, members[i], false);
            size := size + bytes;
          } else {
            AlignmentPositive(p, members[i]);
            size := RoundUp(size, Alignment(p, members[i]));
            var bytes := ComputeNumBytes(p, members[i], true);
            size := size + bytes;
          }
        }
        if padded {
          size := RoundUp(size, a);
        }
      case Union(fields, _) =>
        size := 1;
        for i := 0 to |fields|
          invariant size == Largest(p, t, i)
        {
          var bytes := ComputeNumBytes(p, fields[i], true);
          size := Max(size, bytes);
        }
      case Array(elem, length) =>
        var bytes := ComputeNumBytes(p, elem, true);
        size := bytes * length;
      case _ =>
        size := NumBytes(p, t, padded);
    }
  }

  /** createStructType without an explicit alignment: the largest alignment of a member. */
  method StructAlignment(p: nat, members: seq<Ty>) returns (alignment: nat)
    ensures alignment >= 1 && forall m :: m in members ==> Alignment(p, m) <= alignment
    ensures alignment == 1 || exists m :: m in members && alignment == Alignment(p, m)
  {
    alignment := 1;
    for i := 0 to |members|
      invariant alignment >= 1 && forall j :: 0 <= j < i ==> Alignment(p, members[j]) <= alignment
      invariant alignment == 1 || exists m :: m in members && alignment == Alignment(p, m)
    {
      alignment := Max(alignment, Alignment(p, members[i]));
    }
  }

  // ---------- calc_ptr ----------

  datatype Walked = Reached(t: Ty, addr: int) | OutOfBounds | Unknown | Nullptr

  /** What reading the base operand gives. */
  datatype Base = BadBase | Address(addr: int)

  /** One index after the first: into an array, into a struct member, or past whole values of any other type. */
  function Into(p: nat, t: Ty, index: int, addr: int): Walked
    requires p > 0 && Sound(p, t)
  {
    match t
    case Array(elem, length) =>
      if index < 0 || index + 1 > length then OutOfBounds
      else Reached(elem, addr + index * NumBytes(p, elem, true))
    case Struct(members, _, _) =>
      if index < 0 || index + 1 > |members| then Unknown
      else Reached(members[index], addr + Offset(p, t, index))
    case _ => Reached(t, addr + index * NumBytes(p, t, true))
  }

  function Walk(p: nat, t: Ty, path: seq<int>, addr: int): Walked
    requires p > 0 && Sound(p, t)
    decreases |path|
  {
    if path == [] then Reached(t, addr)
    else
      var w := Into(p, t, path[0], addr);
      if w.Reached? then Walk(p, w.t, path[1..], w.addr) else w
  }

  function CalcPtr(p: nat, t: Ty, path: seq<int>, base: Base): Walked
    requires p > 0 && Sound(p, t) && path != []
  {
    match base
    case BadBase => Unknown
    case Address(addr) => if addr == 0 then Nullptr else Walk(p, t, path[1..], addr + path[0] * NumBytes(p, t, true))
  }

  method RunCalcPtr(p: nat, t: Ty, path: seq<int>, base: Base) returns (w: Walked)
    requires p > 0 && Sound(p, t) && path != []
    ensures w == CalcPtr(p, t, path, base)
  {
    if base == BadBase {
      return Unknown;
    }
    if base.addr == 0 {
      return Nullptr;
    }
    var bytes := ComputeNumBytes(p, t, true);
    var ptrType, ptr := t, base.addr + path[0] * bytes;
    var i := 1;
    while i < |path|
      invariant 1 <= i <= |path| && Sound(p, ptrType)
      invariant Walk(p, ptrType, path[i..], ptr) == CalcPtr(p, t, path, base)
    {
      var index := path[i];
      assert path[i..][1..] == path[i + 1..];
      if ptrType.Array? {
        if index < 0 || index + 1 > ptrType.length {
          return OutOfBounds;
        }
        ptrType := ptrType.elem;
        bytes := ComputeNumBytes(p, ptrType, true);
        ptr := ptr + index * bytes;
      } else if ptrType.Struct? {
        if index < 0 || index + 1 > |ptrType.members| {
          return Unknown;
        }
        var offset := RunOffset(p, ptrType, index);
        ptrType, ptr := ptrType.members[index], ptr + offset;
      } else {
        bytes := ComputeNumBytes(p, ptrType, true);
        ptr := ptr + index * bytes;
      }
      i := i + 1;
    }
    return Reached(ptrType, ptr);
  }

  method RunOffset(p: nat, t: Ty, index: nat) returns (offset: nat)
    requires p > 0 && Sound(p, t) && t.Struct? && index < |t.members|
    ensures offset == Offset(p, t, index)
  {
    offset := 0;
    for j := 0 to index
      invariant offset == End(p, t, j)
    {
      AlignmentPositive(p, t.members[j]);
      var bytes := ComputeNumBytes(p, t.members[j], true);
      offset := RoundUp(offset, Alignment(p, t.members[j])) + bytes;
    }
    AlignmentPositive(p, t.members[index]);
    offset := RoundUp(offset, Alignment(p, t.members[index]));
  }

  // ---------- alignment divides size ----------

  /** Integers of fewer than eight pointers' bytes, no unions, and struct alignments as createStructType demands. */
  ghost predicate Plain(p: nat, t: Ty) {
    match t
    case Int(w) => IntBytes(w) < 8 * p
    case Float(w) => FloatWidth(w)
    case Array(elem, _) => Plain(p, elem)
    case Struct(members, a, _) =>
      IsPow2(a) && forall m :: m in members ==> Plain(p, m) && Alignment(p, m) <= a
    case Union(_, _) => false
    case _ => true
  }

  lemma PlainSound(p: nat, t: Ty)
    requires Plain(p, t)
    ensures Sound(p, t)
  {
  }

  lemma PtrPow2(p: nat)
    requires PtrSize(p)
    ensures IsPow2(p) && IsPow2(2 * p)
  {
    assert Pow2(2) == 4 && Pow2(3) == 8 && Pow2(4) == 16;
  }

  lemma FloatPow2(w: nat)
    ensures IsPow2(FloatBytes(w))
  {
    assert Pow2(1) == 2 && Pow2(2) == 4 && Pow2(3) == 8 && Pow2(4) == 16;
  }

  lemma OneIsPow2()
    ensures IsPow2(1)
  {
    assert Pow2(0) == 1;
  }

  lemma {:induction false} AlignmentIsPow2(p: nat, t: Ty)
    requires PtrSize(p) && Plain(p, t)
    ensures IsPow2(Alignment(p, t))
  {
    match t {
      case Int(w) =>
        BitCeilLeast(IntBytes(w));
        PtrPow2(p);
      case Float(w) => FloatPow2(w);
      case Array(elem, _) => AlignmentIsPow2(p, elem);
      case Struct(_, _, _) =>
      case _ =>
        OneIsPow2();
        PtrPow2(p);
    }
  }

  lemma IntDivides(p: nat, w: nat)
    requires PtrSize(p) && IntBytes(w) < 8 * p
    ensures Alignment(p, Int(w)) > 0 && Divides(Alignment(p, Int(w)), NumBytes(p, Int(w), true))
  {
    BitCeilLeast(IntBytes(w));
    PtrPow2(p);
    AlignmentIsPow2(p, Int(w));
    SmallerPow2Divides(Alignment(p, Int(w)), BitCeil(IntBytes(w)));
  }

  lemma ArrayDivides(p: nat, elem: Ty, length: nat)
    requires PtrSize(p) && Sound(p, elem) && Alignment(p, elem) > 0
    requires Divides(Alignment(p, elem), NumBytes(p, elem, true))
    ensures Divides(Alignment(p, elem), NumBytes(p, Array(elem, length), true))
  {
    DividesTimes(Alignment(p, elem), length, NumBytes(p, elem, true));
    assert NumBytes(p, Array(elem, length), true) == length * NumBytes(p, elem, true);
  }

  lemma StructDivides(p: nat, t: Ty)
    requires PtrSize(p) && Sound(p, t) && t.Struct?
    ensures Divides(t.alignment, NumBytes(p, t, true))
  {
    RoundUpBounds(if t.packed then PackedEnd(p, t, |t.members|) else End(p, t, |t.members|), t.alignment);
  }

  /** The alignment of a type is a power of two that divides its padded size; so arrays of it keep it aligned. */
  lemma {:induction false} AlignmentDividesSize(p: nat, t: Ty)
    requires PtrSize(p) && Plain(p, t)
    ensures Sound(p, t) && IsPow2(Alignment(p, t)) && Alignment(p, t) > 0
    ensures Divides(Alignment(p, t), NumBytes(p, t, true))
  {
    PlainSound(p, t);
    AlignmentPositive(p, t);
    AlignmentIsPow2(p, t);
    match t {
      case Int(w) => IntDivides(p, w);
      case Array(elem, length) =>
        AlignmentDividesSize(p, elem);
        ArrayDivides(p, elem, length);
      case Struct(_, _, _) => StructDivides(p, t);
      case Float(w) => MultipleOf(FloatBytes(w), 1);
      case Ptr => MultipleOf(p, 1);
      case Func => MultipleOf(p, 1);
      case _ =>
    }
  }

  /**
   For an integer this holds exactly when it is below the wide-integer threshold or an even number of pointers long.
   */
  lemma IntAlignmentDivides(p: nat, w: nat)
    requires PtrSize(p)
    ensures Alignment(p, Int(w)) > 0
    ensures Divides(Alignment(p, Int(w)), NumBytes(p, Int(w), true)) <==>
            IntBytes(w) < 8 * p || (RoundUp(IntBytes(w), p) / p) % 2 == 0
  {
    var b := IntBytes(w);
    AlignmentPositive(p, Int(w));
    if b < 8 * p {
      AlignmentDividesSize(p, Int(w));
    } else {
      BitCeilLeast(b);
      RoundUpBounds(b, p);
      var r := RoundUp(b, p);
      assert r == r / p * p;
      EvenMultiple(r / p, p);
    }
  }

  lemma EvenMultiple(q: nat, p: nat)
    requires p > 0
    ensures Divides(2 * p, q * p) <==> q % 2 == 0
  {
    var h := q / 2;
    assert q == 2 * h + q % 2;
    assert q * p == h * (2 * p) + (q % 2) * p;
    ModIs(q * p, 2 * p, h, (q % 2) * p);
  }

  /** A field of a union that no other exceeds. */
  predicate IsLargest(p: nat, u: Ty, i: nat)
    requires p > 0 && Sound(p, u) && u.Union? && i < |u.fields|
  {
    forall j :: 0 <= j < |u.fields| ==> NumBytes(p, u.fields[j], true) <= NumBytes(p, u.fields[i], true)
  }

  lemma {:induction false} LargestBounds(p: nat, u: Ty, k: nat)
    requires p > 0 && Sound(p, u) && u.Union? && k <= |u.fields|
    ensures Largest(p, u, k) >= 1
    ensures forall j :: 0 <= j < k ==> NumBytes(p, u.fields[j], true) <= Largest(p, u, k)
    ensures Largest(p, u, k) == 1 || exists j :: 0 <= j < k && NumBytes(p, u.fields[j], true) == Largest(p, u, k)
    decreases k
  {
    if k == 0 {
      assert Largest(p, u, 0) == 1;
    } else {
      LargestBounds(p, u, k - 1);
    }
  }

  /**
   A union's size is not rounded, so its alignment divides it exactly when the alignment is 1 or divides the size of a
   largest field that is not empty.
   */
  lemma UnionAlignmentDivides(p: nat, u: Ty)
    requires PtrSize(p) && Sound(p, u) && u.Union?
    ensures Divides(u.alignment, NumBytes(p, u, true)) <==>
            || u.alignment == 1
            || exists i :: 0 <= i < |u.fields| && IsLargest(p, u, i) && NumBytes(p, u.fields[i], true) > 0
                          && Divides(u.alignment, NumBytes(p, u.fields[i], true))
  {
    var n := NumBytes(p, u, true);
    LargestBounds(p, u, |u.fields|);
    if u.alignment == 1 {
      assert n % 1 == 0;
    } else if Divides(u.alignment, n) {
      var i :| 0 <= i < |u.fields| && NumBytes(p, u.fields[i], true) == n;
      assert IsLargest(p, u, i);
    }
    forall i | 0 <= i < |u.fields| && IsLargest(p, u, i) && NumBytes(p, u.fields[i], true) > 0
      ensures NumBytes(p, u.fields[i], true) == n
    {
      assert NumBytes(p, u.fields[i], true) >= n;
    }
  }

  /** For plain fields it is enough that a largest one has the union's own alignment. */
  lemma UnionOfAlignedFields(p: nat, u: Ty, i: nat)
    requires PtrSize(p) && Sound(p, u) && u.Union? && i < |u.fields| && IsLargest(p, u, i)
    requires Plain(p, u.fields[i]) && Alignment(p, u.fields[i]) == u.alignment && NumBytes(p, u.fields[i], true) > 0
    ensures Divides(u.alignment, NumBytes(p, u, true))
  {
    AlignmentDividesSize(p, u.fields[i]);
    UnionAlignmentDivides(p, u);
  }

  /** A union of a 64-bit integer and nine bytes: alignment 8, size 9. */
  lemma UnionSizeNotRounded()
    ensures var u := Union([Int(64), Array(Int(8), 9)], 8);
      Sound(8, u) && NumBytes(8, u, true) == 9 && !Divides(Alignment(8, u), NumBytes(8, u, true))
  {
    var u := Union([Int(64), Array(Int(8), 9)], 8);
    assert IntBytes(64) == 8 && IntBytes(8) == 1;
    assert BitCeil(8) == 2 * BitCeil(4) && BitCeil(4) == 2 * BitCeil(2) && BitCeil(2) == 2;
    assert NumBytes(8, Array(Int(8), 9), true) == 9;
    assert Largest(8, u, 1) == 8 && Largest(8, u, 2) == 9;
  }

  /**
   In an aligned array of any type whose alignment is 2^k, unions and wide integers included, the elements that are
   aligned are exactly those at multiples of the period of its size; all of them are if the alignment divides the size.
   */
  lemma AlignedElements(p: nat, t: Ty, k: nat, length: nat, i: nat, addr: int)
    requires PtrSize(p) && Sound(p, t) && Alignment(p, t) == Pow2(k) && i < length && Divides(Pow2(k), addr)
    ensures var w := Into(p, Array(t, length), i, addr);
      && w.Reached? && (Divides(Pow2(k), w.addr) <==> Divides(Period(k, NumBytes(p, t, true)), i))
      && (Divides(Pow2(k), NumBytes(p, t, true)) ==> Divides(Pow2(k), w.addr))
  {
    var n := NumBytes(p, t, true);
    PeriodExact(k, n, i);
    SumDivides(Pow2(k), addr, i * n);
    if Divides(Pow2(k), n) {
      DividesTimes(Pow2(k), i, n);
    }
  }

  lemma SumDivides(a: nat, x: int, y: int)
    requires a > 0 && Divides(a, x)
    ensures Divides(a, x + y) <==> Divides(a, y)
  {
    if Divides(a, y) {
      DividesAdd(a, x, y);
    }
    if Divides(a, x + y) {
      DividesTimes(a, -1, x);
      DividesAdd(a, -1 * x, x + y);
    }
  }

  // ---------- containment ----------

  /**
   The struct would fit its own size if it were not packed. Every struct that is not packed does; calc_ptr places the
   members of a packed one as if it were not.
   */
  predicate Fits(p: nat, t: Ty)
    requires p > 0 && Sound(p, t) && t.Struct?
  {
    NumBytes(p, t.(packed := false), false) <= NumBytes(p, t, true)
  }

  lemma {:induction false} EndUnpacked(p: nat, t: Ty, k: nat)
    requires p > 0 && Sound(p, t) && t.Struct? && k <= |t.members|
    ensures Sound(p, t.(packed := false)) && End(p, t.(packed := false), k) == End(p, t, k)
    decreases k
  {
    if k == 0 {
      assert End(p, t, 0) == 0;
    } else {
      EndUnpacked(p, t, k - 1);
    }
  }

  lemma FitsIsEnd(p: nat, t: Ty)
    requires p > 0 && Sound(p, t) && t.Struct?
    ensures Fits(p, t) <==> End(p, t, |t.members|) <= NumBytes(p, t, true)
    ensures !t.packed ==> Fits(p, t)
  {
    EndUnpacked(p, t, |t.members|);
    RoundUpBounds(End(p, t, |t.members|), t.alignment);
  }

  /** Every index is within its array, or a struct that fits, and 0 where there is nothing to go into. */
  predicate InBounds(p: nat, t: Ty, path: seq<int>)
    requires p > 0 && Sound(p, t)
    decreases |path|
  {
    path == [] ||
    match t
    case Array(elem, length) => 0 <= path[0] < length && InBounds(p, elem, path[1..])
    case Struct(members, _, _) => Fits(p, t) && 0 <= path[0] < |members| && InBounds(p, members[path[0]], path[1..])
    case _ => path[0] == 0 && InBounds(p, t, path[1..])
  }

  /** [addr, addr + numBytes(t)) lies in [base, base + size). */
  predicate Within(p: nat, w: Walked, base: int, size: int)
    requires p > 0 && (w.Reached? ==> Sound(p, w.t))
  {
    w.Reached? && base <= w.addr && w.addr + NumBytes(p, w.t, true) <= base + size
  }

  lemma {:induction false} EndMono(p: nat, t: Ty, j: nat, k: nat)
    requires p > 0 && Sound(p, t) && t.Struct? && j <= k <= |t.members|
    ensures End(p, t, j) <= End(p, t, k)
    decreases k
  {
    if j < k {
      EndMono(p, t, j, k - 1);
      AlignmentPositive(p, t.members[k - 1]);
      RoundUpBounds(End(p, t, k - 1), Alignment(p, t.members[k - 1]));
    }
  }

  /** One index goes to a part that lies inside the whole. */
  lemma PartWithin(p: nat, t: Ty, index: int, addr: int)
    requires p > 0 && Sound(p, t) && InBounds(p, t, [index])
    ensures var w := Into(p, t, index, addr);
      w.Reached? && Sound(p, w.t) && Within(p, w, addr, NumBytes(p, t, true))
  {
    match t {
      case Array(elem, length) => ElementWithin(NumBytes(p, elem, true), length, index);
      case Struct(members, a, _) =>
        FitsIsEnd(p, t);
        EndMono(p, t, index + 1, |members|);
      case _ =>
    }
  }

  lemma ElementWithin(n: nat, length: nat, index: nat)
    requires index < length
    ensures 0 <= index * n && index * n + n <= n * length
  {
    var d: nat := length - index - 1;
    assert n * length == n * index + n + n * d;
  }

  /** An in-bounds path leads to a part of the object. */
  lemma {:induction false} PathContained(p: nat, t: Ty, path: seq<int>, addr: int)
    requires p > 0 && Sound(p, t) && InBounds(p, t, path)
    ensures var w := Walk(p, t, path, addr);
      w.Reached? && Sound(p, w.t) && Within(p, w, addr, NumBytes(p, t, true))
    decreases |path|
  {
    if path == [] {
    } else {
      assert path == [path[0]] + path[1..];
      PartWithin(p, t, path[0], addr);
      var w := Into(p, t, path[0], addr);
      PathContained(p, w.t, path[1..], w.addr);
    }
  }

  // ---------- separation ----------

  /** Two paths that part at different indices of an array or different members of a struct. */
  predicate Diverge(t: Ty, a: seq<int>, b: seq<int>)
    decreases |a|
  {
    && a != [] && b != []
    && if a[0] != b[0] then t.Array? || t.Struct?
       else
         match t
         case Array(elem, _) => Diverge(elem, a[1..], b[1..])
         case Struct(members, _, _) => 0 <= a[0] < |members| && Diverge(members[a[0]], a[1..], b[1..])
         case _ => Diverge(t, a[1..], b[1..])
  }

  predicate Disjoint(p: nat, a: Walked, b: Walked)
    requires p > 0 && a.Reached? && b.Reached? && Sound(p, a.t) && Sound(p, b.t)
  {
    a.addr + NumBytes(p, a.t, true) <= b.addr || b.addr + NumBytes(p, b.t, true) <= a.addr
  }

  /** Different elements, or members, do not overlap. */
  lemma PartsApart(p: nat, t: Ty, i: int, j: int, addr: int)
    requires p > 0 && Sound(p, t) && (t.Array? || t.Struct?) && InBounds(p, t, [i]) && InBounds(p, t, [j]) && i < j
    ensures var a := Into(p, t, i, addr); var b := Into(p, t, j, addr);
      a.Reached? && b.Reached? && Sound(p, a.t) && a.addr + NumBytes(p, a.t, true) <= b.addr
  {
    match t {
      case Array(elem, _) =>
        ElementWithin(NumBytes(p, elem, true), j, i);
      case Struct(members, _, _) =>
        EndMono(p, t, i + 1, j);
        AlignmentPositive(p, members[j]);
        RoundUpBounds(End(p, t, j), Alignment(p, members[j]));
    }
  }

  /** Paths that diverge, at any depth, lead to disjoint byte ranges. */
  lemma {:induction false} PathsSeparate(p: nat, t: Ty, a: seq<int>, b: seq<int>, addr: int)
    requires p > 0 && Sound(p, t) && InBounds(p, t, a) && InBounds(p, t, b) && Diverge(t, a, b)
    ensures var x := Walk(p, t, a, addr); var y := Walk(p, t, b, addr);
      x.Reached? && y.Reached? && Sound(p, x.t) && Sound(p, y.t) && Disjoint(p, x, y)
    decreases |a|
  {
    PathContained(p, t, a, addr);
    PathContained(p, t, b, addr);
    assert a == [a[0]] + a[1..] && b == [b[0]] + b[1..];
    PartWithin(p, t, a[0], addr);
    PartWithin(p, t, b[0], addr);
    var x, y := Into(p, t, a[0], addr), Into(p, t, b[0], addr);
    if a[0] == b[0] {
      PathsSeparate(p, x.t, a[1..], b[1..], x.addr);
    } else {
      PathContained(p, x.t, a[1..], x.addr);
      PathContained(p, y.t, b[1..], y.addr);
      if a[0] < b[0] {
        PartsApart(p, t, a[0], b[0], addr);
      } else {
        PartsApart(p, t, b[0], a[0], addr);
      }
    }
  }

  // ---------- alignment of paths ----------

  lemma PartAligned(p: nat, t: Ty, index: int, addr: int)
    requires PtrSize(p) && Plain(p, t) && Sound(p, t) && InBounds(p, t, [index])
    requires Alignment(p, t) > 0 && Divides(Alignment(p, t), addr)
    ensures var w := Into(p, t, index, addr);
      w.Reached? && Plain(p, w.t) && Alignment(p, w.t) > 0 && Divides(Alignment(p, w.t), w.addr)
  {
    match t {
      case Array(elem, _) =>
        AlignmentDividesSize(p, elem);
        DividesTimes(Alignment(p, elem), index, NumBytes(p, elem, true));
        DividesAdd(Alignment(p, elem), addr, index * NumBytes(p, elem, true));
      case Struct(members, a, _) =>
        var m := members[index];
        AlignmentDividesSize(p, m);
        SmallerPow2Divides(Alignment(p, m), a);
        DividesTrans(Alignment(p, m), a, addr);
        RoundUpBounds(End(p, t, index), Alignment(p, m));
        DividesAdd(Alignment(p, m), addr, Offset(p, t, index));
      case _ =>
    }
  }

  /** From an aligned base every in-bounds path reaches an address aligned for its final type. */
  lemma {:induction false} PathAligned(p: nat, t: Ty, path: seq<int>, addr: int)
    requires PtrSize(p) && Plain(p, t) && Sound(p, t) && InBounds(p, t, path)
    requires Alignment(p, t) > 0 && Divides(Alignment(p, t), addr)
    ensures var w := Walk(p, t, path, addr);
      w.Reached? && Alignment(p, w.t) > 0 && Divides(Alignment(p, w.t), w.addr)
    decreases |path|
  {
    if path == [] {
    } else {
      assert path == [path[0]] + path[1..];
      PartWithin(p, t, path[0], addr);
      PartAligned(p, t, path[0], addr);
      var w := Into(p, t, path[0], addr);
      PathAligned(p, w.t, path[1..], w.addr);
    }
  }

  // ---------- packed structs ----------

  /** Member i, where calc_ptr finds it, lies inside the struct. */
  predicate MemberInside(p: nat, t: Ty, i: nat)
    requires p > 0 && Sound(p, t) && t.Struct? && i < |t.members|
  {
    Within(p, Into(p, t, i, 0), 0, NumBytes(p, t, true))
  }

  lemma FitsMember(p: nat, t: Ty, i: nat)
    requires p > 0 && Sound(p, t) && t.Struct? && i < |t.members| && Fits(p, t)
    ensures MemberInside(p, t, i)
  {
    FitsIsEnd(p, t);
    EndMono(p, t, i + 1, |t.members|);
  }

  lemma LastMemberFits(p: nat, t: Ty)
    requires p > 0 && Sound(p, t) && t.Struct? && t.members != [] && MemberInside(p, t, |t.members| - 1)
    ensures Fits(p, t)
  {
    FitsIsEnd(p, t);
  }

  /**
   calc_ptr ignores `packed`: it keeps every member of a struct inside exactly when the size that the members would have
   unpacked is no more than the struct's own.
   */
  lemma MembersInsideIff(p: nat, t: Ty)
    requires p > 0 && Sound(p, t) && t.Struct? && t.members != []
    ensures (forall i: nat {:trigger MemberInside(p, t, i)} :: i < |t.members| ==> MemberInside(p, t, i)) <==>
            Fits(p, t)
  {
    if Fits(p, t) {
      forall i: nat {:trigger MemberInside(p, t, i)} | i < |t.members|
        ensures MemberInside(p, t, i)
      {
        FitsMember(p, t, i);
      }
    } else if MemberInside(p, t, |t.members| - 1) {
      LastMemberFits(p, t);
    }
  }

  /** A packed struct of 8 bytes at 64 whose last member is placed at 72. */
  lemma PackedEscapes()
    ensures var t := Struct([Int(8), Int(32), Int(8)], 4, true);
      Sound(8, t) && NumBytes(8, t, true) == 8 && CalcPtr(8, t, [0, 2], Address(64)) == Reached(Int(8), 72)
  {
    var t := Struct([Int(8), Int(32), Int(8)], 4, true);
    assert IntBytes(8) == 1 && IntBytes(32) == 4;
    assert BitCeil(4) == 2 * BitCeil(2) && BitCeil(2) == 2;
    assert PackedEnd(8, t, 1) == 1 && PackedEnd(8, t, 2) == 5 && PackedEnd(8, t, 3) == 6;
    assert End(8, t, 1) == 1 && End(8, t, 2) == 8;
    assert [0, 2][1..] == [2];
  }
}
