/**
 Sizes, offsets and addresses, said without the functions that compute them: the sizes of the primitive types, how
 members and elements lie beside each other, and what every index of a calc_ptr does.
 */
module LayoutLaws {
  import opened Bits
  import opened Multiples
  import opened Layout

  // ---------- primitive types ----------

  /** The sizes, and the alignments, of everything but integers and aggregates. */
  lemma PrimitiveLayout(p: nat, padded: bool)
    requires p > 0
    ensures NumBytes(p, Void, padded) == 0 && Alignment(p, Void) == 1
    ensures NumBytes(p, Bool, padded) == 1 && Alignment(p, Bool) == 1
    ensures NumBytes(p, Ptr, padded) == p && Alignment(p, Ptr) == p
    ensures NumBytes(p, Func, padded) == p && Alignment(p, Func) == p
    ensures NumBytes(p, Float(16), padded) == 2 && Alignment(p, Float(16)) == 2
    ensures NumBytes(p, Float(32), padded) == 4 && Alignment(p, Float(32)) == 4
    ensures NumBytes(p, Float(64), padded) == 8 && Alignment(p, Float(64)) == 8
    ensures NumBytes(p, Float(80), padded) == 16 && Alignment(p, Float(80)) == 16
    ensures NumBytes(p, Float(128), padded) == 16 && Alignment(p, Float(128)) == 16
  {
  }

  /** r is the least power of two that is not below n. */
  ghost predicate LeastPow2(r: nat, n: nat) {
    IsPow2(r) && n <= r && forall s: nat :: IsPow2(s) && n <= s ==> r <= s
  }

  lemma SmallerPow2IsHalf(x: nat, y: nat)
    requires IsPow2(x) && IsPow2(y)
    ensures x > 0 && (x < y ==> 2 * x <= y)
  {
    var j: nat :| x == Pow2(j);
    var k: nat :| y == Pow2(k);
    if j < k {
      Pow2Grows(j, k);
    } else if k < j {
      Pow2Grows(k, j);
    }
  }

  lemma BitCeilIsLeast(n: nat)
    ensures LeastPow2(BitCeil(n), n)
  {
    BitCeilLeast(n);
    forall s: nat | IsPow2(s) && n <= s
      ensures BitCeil(n) <= s
    {
      SmallerPow2IsHalf(s, BitCeil(n));
    }
  }

  lemma RoundUpIsLeast(n: nat, a: nat)
    requires a > 0
    ensures LeastMultiple(RoundUp(n, a), n, a)
  {
    RoundUpBounds(n, a);
    forall s: nat | Divides(a, s) && n <= s
      ensures RoundUp(n, a) <= s
    {
      RoundUpLeast(n, a, s);
    }
  }

  /**
   An integer has the fewest bytes that hold its bits; with padding, the next power of two, or from eight pointers on
   the next multiple of a pointer; its alignment is the next power of two, and at most two pointers.
   */
  lemma IntLayout(p: nat, w: nat)
    requires p > 0
    ensures var n := NumBytes(p, Int(w), false);
      && w <= 8 * n < w + 8
      && (n < 8 * p ==> LeastPow2(NumBytes(p, Int(w), true), n))
      && (n >= 8 * p ==> LeastMultiple(NumBytes(p, Int(w), true), n, p))
      && exists r: nat :: LeastPow2(r, n) && Alignment(p, Int(w)) == if r < 2 * p then r else 2 * p
  {
    RoundUpBounds(w, 8);
    var n := IntBytes(w);
    assert 8 * n == RoundUp(w, 8);
    BitCeilIsLeast(n);
    RoundUpIsLeast(n, p);
  }

  // ---------- one index ----------

  lemma {:induction false} WalkSnoc(p: nat, t: Ty, path: seq<int>, i: int, addr: int)
    requires p > 0 && Sound(p, t)
    ensures var w := Walk(p, t, path, addr);
      && (w.Reached? ==> Sound(p, w.t))
      && Walk(p, t, path + [i], addr) == if w.Reached? then Into(p, w.t, i, w.addr) else w
    decreases |path|
  {
    if path == [] {
      assert [] + [i] == [i] && [i][1..] == [];
    } else {
      assert (path + [i])[1..] == path[1..] + [i];
      var w := Into(p, t, path[0], addr);
      if w.Reached? {
        WalkSnoc(p, w.t, path[1..], i, w.addr);
      }
    }
  }

  lemma IntoFirst(p: nat, t: Ty, i: int, addr: int)
    requires p > 0 && Sound(p, t) && addr != 0
    ensures CalcPtr(p, t, [0, i], Address(addr)) == Into(p, t, i, addr)
  {
    assert [0, i][0] == 0 && [0, i][1..] == [i];
    WalkSnoc(p, t, [], i, addr);
    assert [] + [i] == [i];
  }

  // ---------- aggregates ----------

  /** Where calc_ptr finds the members of a struct that lies at `addr`. */
  predicate MembersAt(p: nat, t: Ty, offsets: seq<nat>, addr: int)
    requires p > 0 && Sound(p, t) && t.Struct?
  {
    && |offsets| == |t.members|
    && forall k :: 0 <= k < |t.members| ==>
         CalcPtr(p, t, [0, k], Address(addr)) == Reached(t.members[k], addr + offsets[k])
  }

  /** Member k is at the first place that is aligned for it and not before the end of member k - 1. */
  ghost predicate NextTo(p: nat, t: Ty, offsets: seq<nat>, k: nat)
    requires p > 0 && Sound(p, t) && t.Struct? && 0 < k < |t.members| == |offsets|
  {
    && Alignment(p, t.members[k]) > 0
    && LeastMultiple(offsets[k], offsets[k - 1] + NumBytes(p, t.members[k - 1], true), Alignment(p, t.members[k]))
  }

  function EndOf(p: nat, t: Ty, offsets: seq<nat>): nat
    requires p > 0 && Sound(p, t) && t.Struct? && |offsets| == |t.members|
  {
    var n := |offsets|;
    if n == 0 then 0 else offsets[n - 1] + NumBytes(p, t.members[n - 1], true)
  }

  function Offsets(p: nat, t: Ty): seq<nat>
    requires p > 0 && Sound(p, t) && t.Struct?
  {
    seq(|t.members|, k requires 0 <= k < |t.members| => Offset(p, t, k))
  }

  lemma FoundAtOffsets(p: nat, t: Ty, addr: int)
    requires p > 0 && Sound(p, t) && t.Struct? && addr != 0
    ensures MembersAt(p, t, Offsets(p, t), addr)
  {
    forall k | 0 <= k < |t.members|
      ensures CalcPtr(p, t, [0, k], Address(addr)) == Reached(t.members[k], addr + Offsets(p, t)[k])
    {
      IntoFirst(p, t, k, addr);
    }
  }

  lemma OffsetNext(p: nat, t: Ty, k: nat)
    requires p > 0 && Sound(p, t) && t.Struct? && 0 < k < |t.members|
    ensures NextTo(p, t, Offsets(p, t), k)
  {
    AlignmentPositive(p, t.members[k]);
    RoundUpIsLeast(End(p, t, k), Alignment(p, t.members[k]));
  }

  /**
   The first member is at the start, every other at the first aligned place after the one before it, with no more room
   than that; the struct is its members and, with padding, the bytes up to its own alignment.
   */
  lemma StructLayout(p: nat, t: Ty) returns (offsets: seq<nat>)
    requires p > 0 && Sound(p, t) && t.Struct?
    ensures forall addr :: addr != 0 ==> MembersAt(p, t, offsets, addr)
    ensures |offsets| == |t.members| && (offsets != [] ==> offsets[0] == 0)
    ensures forall k :: 0 < k < |offsets| ==> NextTo(p, t, offsets, k)
    ensures !t.packed ==> NumBytes(p, t, false) == EndOf(p, t, offsets)
    ensures LeastMultiple(NumBytes(p, t, true), NumBytes(p, t, false), t.alignment)
  {
    offsets := Offsets(p, t);
    forall k | 0 < k < |offsets|
      ensures NextTo(p, t, offsets, k)
    {
      OffsetNext(p, t, k);
    }
    if offsets != [] {
      assert End(p, t, 0) == 0;
      AlignmentPositive(p, t.members[0]);
      RoundUpLeast(0, Alignment(p, t.members[0]), 0);
    }
    RoundUpIsLeast(NumBytes(p, t, false), t.alignment);
    forall addr: int | addr != 0
      ensures MembersAt(p, t, offsets, addr)
    {
      FoundAtOffsets(p, t, addr);
    }
  }

  /** A packed struct without its padding: each member adds its own unpadded size. */
  lemma PackedLayout(p: nat, members: seq<Ty>, m: Ty, a: nat)
    requires p > 0 && Sound(p, Struct(members, a, true)) && Sound(p, m)
    ensures Sound(p, Struct(members + [m], a, true)) && NumBytes(p, Struct([], a, true), false) == 0
    ensures NumBytes(p, Struct(members + [m], a, true), false)
            == NumBytes(p, Struct(members, a, true), false) + NumBytes(p, m, false)
  {
    var t, t' := Struct(members, a, true), Struct(members + [m], a, true);
    PackedEndPrefix(p, t, t', |members|);
  }

  lemma {:induction false} PackedEndPrefix(p: nat, t: Ty, t': Ty, k: nat)
    requires p > 0 && t.Struct? && t'.Struct? && Sound(p, t) && Sound(p, t')
    requires k <= |t.members| && t.members <= t'.members
    ensures PackedEnd(p, t, k) == PackedEnd(p, t', k)
  {
    if k == 0 {
    } else {
      PackedEndPrefix(p, t, t', k - 1);
    }
  }

  lemma TimesNext(n: nat, k: nat)
    ensures Times(n, 0) == 0 && Times(n, k + 1) == Times(n, k) + n && k * n == Times(n, k)
  {
  }

  /** Elements lie one right after the other, from the start of the array to its end. */
  lemma ArrayLayout(p: nat, elem: Ty, length: nat, addr: int)
    requires p > 0 && Sound(p, elem) && addr != 0
    ensures NumBytes(p, Array(elem, 0), true) == 0
    ensures NumBytes(p, Array(elem, length + 1), true)
            == NumBytes(p, Array(elem, length), true) + NumBytes(p, elem, true)
    ensures CalcPtr(p, Array(elem, length + 1), [0, length], Address(addr))
            == Reached(elem, addr + NumBytes(p, Array(elem, length), true))
    ensures forall padded :: NumBytes(p, Array(elem, length), padded) == NumBytes(p, Array(elem, length), true)
  {
    TimesNext(NumBytes(p, elem, true), length);
    IntoFirst(p, Array(elem, length + 1), length, addr);
  }

  /** A union is as large as its largest field, and one byte at least. */
  lemma UnionLayout(p: nat, u: Ty, padded: bool)
    requires p > 0 && Sound(p, u) && u.Union?
    ensures var n := NumBytes(p, u, padded);
      && n >= 1 && (forall f :: f in u.fields ==> NumBytes(p, f, true) <= n)
      && (n == 1 || exists f :: f in u.fields && NumBytes(p, f, true) == n)
  {
    LargestBounds(p, u, |u.fields|);
    var n := NumBytes(p, u, padded);
    if n != 1 {
      var j :| 0 <= j < |u.fields| && NumBytes(p, u.fields[j], true) == n;
      assert u.fields[j] in u.fields;
    }
  }

  // ---------- each index of a calc_ptr ----------

  lemma LastIndex(p: nat, t: Ty, path: seq<int>, i: int, base: Base)
    requires p > 0 && Sound(p, t) && path != []
    ensures var w := CalcPtr(p, t, path, base);
      && (w.Reached? ==> Sound(p, w.t))
      && CalcPtr(p, t, path + [i], base) == if w.Reached? then Into(p, w.t, i, w.addr) else w
  {
    if base.Address? && base.addr != 0 {
      assert (path + [i])[1..] == path[1..] + [i];
      WalkSnoc(p, t, path[1..], i, base.addr + path[0] * NumBytes(p, t, true));
    }
  }

  /**
   What one more index does: an error stays; an array is entered at whole elements, a struct at a member, and either
   refuses an index that is out of range in its own way; over anything else it steps by its whole size.
   */
  lemma OneMoreIndex(p: nat, t: Ty, path: seq<int>, i: int, base: Base)
    requires p > 0 && Sound(p, t) && path != []
    ensures var w := CalcPtr(p, t, path, base); var w' := CalcPtr(p, t, path + [i], base);
      if !w.Reached? then w' == w
      else
        && Sound(p, w.t)
        && match w.t
           case Array(elem, length) =>
             w' == (if 0 <= i < length then Reached(elem, w.addr + i * NumBytes(p, elem, true)) else OutOfBounds)
           case Struct(members, _, _) =>
             && (w.addr != 0 ==> w' == CalcPtr(p, w.t, [0, i], Address(w.addr)))
             && (w' == Unknown <==> !(0 <= i < |members|))
           case _ => w' == Reached(w.t, w.addr + i * NumBytes(p, w.t, true))
  {
    LastIndex(p, t, path, i, base);
    var w := CalcPtr(p, t, path, base);
    if w.Reached? && w.addr != 0 {
      IntoFirst(p, w.t, i, w.addr);
    }
  }

  /** The first index alone, and the two ways to have no address to start from. */
  lemma FirstIndex(p: nat, t: Ty, i: int, rest: seq<int>, addr: int)
    requires p > 0 && Sound(p, t)
    ensures CalcPtr(p, t, [i] + rest, BadBase) == Unknown
    ensures CalcPtr(p, t, [i] + rest, Address(0)) == Nullptr
    ensures addr != 0 ==> CalcPtr(p, t, [i], Address(addr)) == Reached(t, addr + i * NumBytes(p, t, true))
  {
    assert [i][1..] == [];
  }

  /** The first index chooses among objects that lie side by side, as the second does in an array of them. */
  lemma FirstIndexIsElement(p: nat, t: Ty, n: nat, i: int, rest: seq<int>, addr: int)
    requires p > 0 && Sound(p, t) && 0 <= i < n && addr != 0
    ensures CalcPtr(p, t, [i] + rest, Address(addr)) == CalcPtr(p, Array(t, n), [0, i] + rest, Address(addr))
  {
    assert ([i] + rest)[1..] == rest && ([0, i] + rest)[1..] == [i] + rest;
  }

  lemma Distributes(i: int, j: int, n: int)
    ensures (i + j) * n == i * n + j * n
  {
  }

  /** After its first index a calc_ptr has come this far. */
  lemma StartsAt(p: nat, t: Ty, i: int, rest: seq<int>, addr: int, start: int)
    requires p > 0 && Sound(p, t) && addr != 0 && start == addr + i * NumBytes(p, t, true)
    ensures CalcPtr(p, t, [i] + rest, Address(addr)) == Walk(p, t, rest, start)
  {
    assert ([i] + rest)[0] == i && ([i] + rest)[1..] == rest;
  }

  /** Moving the base by whole objects is moving the first index, whichever way. */
  lemma FirstIndexShifts(p: nat, t: Ty, i: int, j: int, rest: seq<int>, addr: int)
    requires p > 0 && Sound(p, t) && addr != 0 && addr + j * NumBytes(p, t, true) != 0
    ensures CalcPtr(p, t, [i + j] + rest, Address(addr))
            == CalcPtr(p, t, [i] + rest, Address(addr + j * NumBytes(p, t, true)))
  {
    var n := NumBytes(p, t, true);
    Distributes(i, j, n);
    StartsAt(p, t, i + j, rest, addr, addr + (i + j) * n);
    StartsAt(p, t, i, rest, addr + j * n, addr + j * n + i * n);
  }

  /** Below the first index, the indices into a type with nothing inside add up. */
  lemma PlainIndicesAdd(p: nat, t: Ty, i: int, j: int, addr: int)
    requires p > 0 && Sound(p, t) && !t.Array? && !t.Struct? && addr != 0
    ensures CalcPtr(p, t, [i, j], Address(addr)) == CalcPtr(p, t, [i + j], Address(addr))
  {
    var n := NumBytes(p, t, true);
    Distributes(i, j, n);
    assert [i] + [j] == [i, j] && [i + j] + [] == [i + j];
    StartsAt(p, t, i, [j], addr, addr + i * n);
    StartsAt(p, t, i + j, [], addr, addr + (i + j) * n);
    WalkSnoc(p, t, [], j, addr + i * n);
    assert [] + [j] == [j];
  }

  // ---------- calc_ptr into n objects side by side ----------

  lemma AsArray(p: nat, t: Ty, n: nat, path: seq<int>, base: int)
    requires p > 0 && Sound(p, t) && path != [] && 0 <= path[0] < n && InBounds(p, t, path[1..]) && base != 0
    ensures Sound(p, Array(t, n)) && InBounds(p, Array(t, n), path)
    ensures CalcPtr(p, t, path, Address(base)) == Walk(p, Array(t, n), path, base)
  {
    FirstIndexIsElement(p, t, n, path[0], path[1..], base);
    assert [path[0]] + path[1..] == path && ([0, path[0]] + path[1..])[1..] == path;
  }

  /**
   A calc_ptr whose first index is one of n objects that lie side by side, and whose other indices are in bounds, leads
   to a part of them; from an aligned base of plain objects, to an aligned one.
   */
  lemma CalcPtrStaysInside(p: nat, t: Ty, n: nat, path: seq<int>, base: int)
    requires PtrSize(p) && Sound(p, t) && path != [] && 0 <= path[0] < n && InBounds(p, t, path[1..]) && base != 0
    ensures var w := CalcPtr(p, t, path, Address(base));
      && w.Reached? && Sound(p, w.t) && Within(p, w, base, n * NumBytes(p, t, true))
      && (Plain(p, t) && Alignment(p, t) > 0 && Divides(Alignment(p, t), base) ==>
            Alignment(p, w.t) > 0 && Divides(Alignment(p, w.t), w.addr))
  {
    AsArray(p, t, n, path, base);
    PathContained(p, Array(t, n), path, base);
    if Plain(p, t) && Alignment(p, t) > 0 && Divides(Alignment(p, t), base) {
      PathAligned(p, Array(t, n), path, base);
    }
  }

  /** Two of them that choose different objects, or part ways within one, lead to parts that do not overlap. */
  lemma CalcPtrsSeparate(p: nat, t: Ty, n: nat, a: seq<int>, b: seq<int>, base: int)
    requires p > 0 && Sound(p, t) && base != 0
    requires a != [] && 0 <= a[0] < n && InBounds(p, t, a[1..])
    requires b != [] && 0 <= b[0] < n && InBounds(p, t, b[1..])
    requires a[0] != b[0] || Diverge(t, a[1..], b[1..])
    ensures var x := CalcPtr(p, t, a, Address(base)); var y := CalcPtr(p, t, b, Address(base));
      x.Reached? && y.Reached? && Sound(p, x.t) && Sound(p, y.t) && Disjoint(p, x, y)
  {
    AsArray(p, t, n, a, base);
    AsArray(p, t, n, b, base);
    PathsSeparate(p, Array(t, n), a, b, base);
  }
}
