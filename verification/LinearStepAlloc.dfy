/**
 LinearStepAlloc: an append-only container in buffers of doubling size, so that no element ever moves.
 An ID is turned into a buffer and an element index by bit-width arithmetic.
 */
module LinearStepAllocs {
  import opened Bits

  /** IDs are 32 bits wide. */
  const ID_LIMIT: nat := 0x1_0000_0000

  /** The number of elements held by the first b buffers. */
  function CapacityBefore(b: nat, startPow: nat): nat {
    Pow2More(b, startPow);
    Pow2(b + startPow) - Pow2(startPow)
  }

  lemma Pow2More(b: nat, startPow: nat)
    ensures Pow2(startPow) <= Pow2(b + startPow)
  {
    if b > 0 {
      Pow2Grows(startPow, b + startPow);
    }
  }

  datatype Location = Location(buffer: nat, elem: nat)

  /** get_buffer_and_elem_index. */
  function Locate(id: nat, startPow: nat): (at: Location)
    ensures at.elem < Pow2(at.buffer + startPow)
    ensures CapacityBefore(at.buffer, startPow) + at.elem == id
  {
    var index := id + Pow2(startPow);
    var buffer := BitWidth(index) - 1;
    LocateFacts(id, startPow);
    Location(buffer - startPow, ClearBit(index, buffer))
  }

  lemma LocateFacts(id: nat, startPow: nat)
    ensures var index := id + Pow2(startPow); var k := BitWidth(index) - 1;
      && startPow <= k && Pow2(k) <= index < Pow2(k + 1) && ClearBit(index, k) == index - Pow2(k)
  {
    var index := id + Pow2(startPow);
    BitWidthBounds(index);
    var k := BitWidth(index) - 1;
    if k < startPow {
      Pow2More(startPow - (k + 1), k + 1);
    }
    ClearTopBit(index, k);
  }

  /** Every cell of every buffer belongs to exactly one ID, and the two directions are inverse to each other. */
  lemma LocateBijection(at: Location, id: nat, startPow: nat)
    requires at.elem < Pow2(at.buffer + startPow)
    ensures at == Locate(id, startPow) <==> id == CapacityBefore(at.buffer, startPow) + at.elem
  {
    if id == CapacityBefore(at.buffer, startPow) + at.elem {
      var k := at.buffer + startPow;
      BitWidthUnique(id + Pow2(startPow), k);
      ClearTopBit(id + Pow2(startPow), k);
    }
  }

  /** IDs below the size are exactly those that fall into the constructed cells. */
  lemma LocateBelow(id: nat, buffers: nat, end: nat, startPow: nat)
    requires buffers > 0 && end <= Pow2(buffers - 1 + startPow)
    ensures var at := Locate(id, startPow);
      id < CapacityBefore(buffers - 1, startPow) + end <==>
      at.buffer < buffers && (at.buffer == buffers - 1 ==> at.elem < end)
  {
    var at := Locate(id, startPow);
    if at.buffer < buffers - 1 {
      Pow2Grows(at.buffer + startPow, buffers - 1 + startPow);
    } else if at.buffer > buffers - 1 {
      Pow2Grows(buffers - 1 + startPow, at.buffer + startPow);
    }
  }

  class LinearStepAlloc<T(0)> {
    const startPow: nat
    var buffers: seq<array<T>>
    var currentEndOfBuffer: nat

    ghost predicate Valid()
      reads this
    {
      && (forall b :: 0 <= b < |buffers| ==> buffers[b].Length == Pow2(b + startPow))
      && (forall a, b :: 0 <= a < b < |buffers| ==> buffers[a] != buffers[b])
      && (buffers == [] ==> currentEndOfBuffer == 0)
      && (buffers != [] ==> currentEndOfBuffer <= buffers[|buffers| - 1].Length)
    }

    constructor (startPow: nat)
      ensures Valid() && this.startPow == startPow && Contents() == [] && buffers == []
    {
      this.startPow := startPow;
      buffers := [];
      currentEndOfBuffer := 0;
    }

    function Size(): nat
      reads this
    {
      if buffers == [] then 0 else CapacityBefore(|buffers| - 1, startPow) + currentEndOfBuffer
    }

    /** The element an ID refers to. */
    function At(id: nat): T
      requires Valid() && id < Size()
      reads this, buffers
    {
      LocateBelow(id, |buffers|, currentEndOfBuffer, startPow);
      var at := Locate(id, startPow);
      buffers[at.buffer][at.elem]
    }

    /** The elements in the order of their IDs. */
    ghost function Contents(): (s: seq<T>)
      requires Valid()
      reads this, buffers
      ensures |s| == Size()
      ensures forall id :: 0 <= id < Size() ==> s[id] == At(id)
    {
      seq(Size(), id requires 0 <= id < Size() && Valid() reads this, buffers => At(id))
    }

    function NeedToCreateNewBuffer(): bool
      requires Valid()
      reads this
    {
      buffers == [] || currentEndOfBuffer >= Pow2(|buffers| - 1 + startPow)
    }

    method CreateNewBuffer()
      requires Valid() && NeedToCreateNewBuffer()
      modifies this
      ensures Valid() && Size() == old(Size()) && Contents() == old(Contents())
      ensures |buffers| == old(|buffers|) + 1 && buffers[..|buffers| - 1] == old(buffers)
      ensures fresh(buffers[|buffers| - 1]) && !NeedToCreateNewBuffer() && currentEndOfBuffer == 0
    {
      var sizeOfNewBuffer := Pow2(|buffers| + startPow);
      var buffer := new T[sizeOfNewBuffer];
      buffers := buffers + [buffer];
      currentEndOfBuffer := 0;
      forall id | 0 <= id < Size()
        ensures id < old(Size()) && At(id) == old(At(id))
      {
        LocateBelow(id, |buffers|, 0, startPow);
        LocateBelow(id, old(|buffers|), old(currentEndOfBuffer), startPow);
      }
    }

    /**
     Appends and returns the new element's ID: the old size, cut to 32 bits. Buffers are only ever added, so every
     older element stays in the cell it was in.
     */
    method EmplaceBack(value: T) returns (id: nat)
      requires Valid()
      modifies this, buffers
      ensures Valid()
      ensures id == old(Size()) % ID_LIMIT
      ensures Contents() == old(Contents()) + [value]
      ensures |old(buffers)| <= |buffers| && buffers[..|old(buffers)|] == old(buffers)
      ensures forall b :: |old(buffers)| <= b < |buffers| ==> fresh(buffers[b])
    {
      if NeedToCreateNewBuffer() {
        CreateNewBuffer();
      }
      id := Size() % ID_LIMIT;
      Construct(value);
    }

    /** The placement new at the end of the last buffer. */
    method Construct(value: T)
      requires Valid() && !NeedToCreateNewBuffer()
      modifies this`currentEndOfBuffer, buffers[|buffers| - 1]
      ensures Valid() && Contents() == old(Contents()) + [value]
    {
      ghost var before := Contents();
      ghost var size := Size();
      var last := |buffers| - 1;
      ghost var at := Location(last, currentEndOfBuffer);
      LocateBijection(at, size, startPow);
      buffers[last][currentEndOfBuffer] := value;
      currentEndOfBuffer := currentEndOfBuffer + 1;
      forall k | 0 <= k < size
        ensures At(k) == before[k]
      {
        LocateBelow(k, |buffers|, at.elem, startPow);
        LocateBelow(k, |buffers|, currentEndOfBuffer, startPow);
        LocateBijection(at, k, startPow);
      }
    }

    /** operator[] followed by an assignment to the element. */
    method Set(id: nat, value: T)
      requires Valid() && id < Size()
      modifies buffers
      ensures Valid() && Contents() == old(Contents())[id := value]
    {
      LocateBelow(id, |buffers|, currentEndOfBuffer, startPow);
      var at := Locate(id, startPow);
      ghost var before := Contents();
      buffers[at.buffer][at.elem] := value;
      forall k | 0 <= k < Size()
        ensures At(k) == before[id := value][k]
      {
        LocateBelow(k, |buffers|, currentEndOfBuffer, startPow);
        LocateBijection(at, k, startPow);
      }
    }
  }
}
