/** Where lower_global_value writes the parts of a global, and where calc_ptr looks for them. */
module GlobalPlaces {
  import opened Bits
  import opened Multiples
  import opened Layout
  import opened LayoutLaws

  /** The path goes down through elements and members that exist. */
  predicate IsPart(t: Ty, path: seq<nat>)
    decreases |path|
  {
    path == [] ||
    match t
    case Array(elem, length) => path[0] < length && IsPart(elem, path[1..])
    case Struct(members, _, _) => path[0] < |members| && IsPart(members[path[0]], path[1..])
    case _ => false
  }

  /** Lowering a struct: each value follows the one before it, whatever its alignment. */
  function MemberStart(p: nat, t: Ty, k: nat): nat
    requires p > 0 && Sound(p, t) && t.Struct? && k <= |t.members|
  {
    if k == 0 then 0 else MemberStart(p, t, k - 1) + NumBytes(p, t.members[k - 1], true)
  }

  /** Where the part at the end of the path is written, for a global whose bytes begin at `start`. */
  function LoweredAt(p: nat, t: Ty, path: seq<nat>, start: int): int
    requires p > 0 && Sound(p, t) && IsPart(t, path)
    decreases |path|
  {
    if path == [] then start
    else
      match t
      case Array(elem, _) => LoweredAt(p, elem, path[1..], start + path[0] * NumBytes(p, elem, true))
      case Struct(members, _, _) => LoweredAt(p, members[path[0]], path[1..], start + MemberStart(p, t, path[0]))
  }

  /** The loop over the members, up to the one at `index`. */
  method RunMemberStart(p: nat, t: Ty, index: nat) returns (offset: nat)
    requires p > 0 && Sound(p, t) && t.Struct? && index <= |t.members|
    ensures offset == MemberStart(p, t, index)
  {
    offset := 0;
    for i := 0 to index
      invariant offset == MemberStart(p, t, i)
    {
      var memberNumBytes := ComputeNumBytes(p, t.members[i], true);
      offset := offset + memberNumBytes;
    }
  }

  /** Member j, one right after the member before it, begins where it is aligned. */
  predicate Aligned(p: nat, t: Ty, j: nat)
    requires p > 0 && Sound(p, t) && t.Struct? && j < |t.members|
  {
    AlignmentPositive(p, t.members[j]);
    Divides(Alignment(p, t.members[j]), MemberStart(p, t, j))
  }

  predicate NoGapUpTo(p: nat, t: Ty, k: nat)
    requires p > 0 && Sound(p, t) && t.Struct? && k < |t.members|
  {
    forall j: nat :: j <= k ==> Aligned(p, t, j)
  }

  /** No struct on the path has padding at or before the member that the path takes. */
  predicate NoGaps(p: nat, t: Ty, path: seq<nat>)
    requires p > 0 && Sound(p, t) && IsPart(t, path)
    decreases |path|
  {
    path == [] ||
    match t
    case Array(elem, _) => NoGaps(p, elem, path[1..])
    case Struct(members, _, _) => NoGapUpTo(p, t, path[0]) && NoGaps(p, members[path[0]], path[1..])
  }

  lemma RoundUpFrom(m: nat, e: nat, a: nat)
    requires a > 0 && m <= e
    ensures m <= RoundUp(e, a) && (RoundUp(e, a) == m <==> e == m && Divides(a, m))
  {
    RoundUpBounds(e, a);
  }

  lemma {:induction false} OffsetIff(p: nat, t: Ty, k: nat)
    requires p > 0 && Sound(p, t) && t.Struct? && k < |t.members|
    ensures MemberStart(p, t, k) <= Offset(p, t, k)
    ensures Offset(p, t, k) == MemberStart(p, t, k) <==> NoGapUpTo(p, t, k)
  {
    AlignmentPositive(p, t.members[k]);
    if k == 0 {
      RoundUpFrom(0, 0, Alignment(p, t.members[0]));
      assert End(p, t, 0) == 0 && MemberStart(p, t, 0) == 0;
    } else {
      OffsetIff(p, t, k - 1);
      RoundUpFrom(MemberStart(p, t, k), End(p, t, k), Alignment(p, t.members[k]));
      assert NoGapUpTo(p, t, k) <==> NoGapUpTo(p, t, k - 1) && Aligned(p, t, k);
    }
  }

  /** calc_ptr never looks before the place that lowering wrote, and looks there exactly when there was no gap. */
  lemma {:induction false} WalkIff(p: nat, t: Ty, path: seq<nat>, start: int, addr: int)
    requires p > 0 && Sound(p, t) && IsPart(t, path) && start <= addr
    ensures var w := Walk(p, t, path, addr);
      && w.Reached? && LoweredAt(p, t, path, start) <= w.addr
      && (w.addr == LoweredAt(p, t, path, start) <==> start == addr && NoGaps(p, t, path))
    decreases |path|
  {
    if path == [] {
    } else {
      var i := path[0];
      match t {
        case Array(elem, _) =>
          var d := i * NumBytes(p, elem, true);
          WalkIff(p, elem, path[1..], start + d, addr + d);
        case Struct(members, _, _) =>
          OffsetIff(p, t, i);
          WalkIff(p, members[i], path[1..], start + MemberStart(p, t, i), addr + Offset(p, t, i));
      }
    }
  }

  /**
   calc_ptr finds a part of a lowered global exactly when no struct on the way to it has padding at or before the member
   taken: lowering leaves no padding between members, calc_ptr expects it.
   */
  lemma FoundIffNoGaps(p: nat, t: Ty, path: seq<nat>, base: int)
    requires p > 0 && Sound(p, t) && IsPart(t, path) && base != 0
    ensures var w := CalcPtr(p, t, [0] + path, Address(base));
      w.Reached? && (w.addr == LoweredAt(p, t, path, base) <==> NoGaps(p, t, path))
  {
    StartsAt(p, t, 0, path, base, base);
    WalkIff(p, t, path, base, base);
  }

  /** A byte and a 32-bit integer: the integer is written at 65 and looked for at 68. */
  lemma PaddedMemberMissed()
    ensures var t := Struct([Int(8), Int(32)], 4, false);
      && Sound(8, t) && IsPart(t, [1]) && LoweredAt(8, t, [1], 64) == 65
      && CalcPtr(8, t, [0, 1], Address(64)) == Reached(Int(32), 68)
  {
    var t := Struct([Int(8), Int(32)], 4, false);
    assert IntBytes(8) == 1 && IntBytes(32) == 4;
    assert BitCeil(4) == 2 * BitCeil(2) && BitCeil(2) == 2;
    IntoFirst(8, t, 1, 64);
    assert End(8, t, 1) == 1;
    assert MemberStart(8, t, 1) == 1;
    assert [1][1..] == [];
  }
}
