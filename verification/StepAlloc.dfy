/** StepAlloc: an arena with ID reuse, built on LinearStepAlloc, and its const iterator. */
module StepAllocs {
  import opened LinearStepAllocs
  import opened Slots

  class StepAlloc<T> {
    const startPow: nat
    var linear: LinearStepAlloc<Option<T>>
    var erasedElems: seq<nat>

    /** The abstract state. */
    ghost function State(): Arena<T>
      requires linear.Valid()
      reads this, linear, linear.buffers
    {
      Arena(linear.Contents(), erasedElems)
    }

    ghost predicate Valid()
      reads this, linear, linear.buffers
    {
      linear.Valid() && InBounds(State())
    }

    constructor (startPow: nat)
      ensures Valid() && State() == Arena([], []) && fresh(linear)
    {
      this.startPow := startPow;
      var cells := new LinearStepAlloc<Option<T>>(startPow);
      linear := cells;
      erasedElems := [];
    }

    /** The ID of a new slot is cut to 32 bits, so that it names the slot only while there are fewer than 2^32. */
    method EmplaceBack(value: T) returns (id: nat)
      requires Valid()
      modifies this, linear, linear.buffers
      ensures Valid() && linear == old(linear)
      ensures id == if old(erasedElems) != [] then NextId(old(State())) else NextId(old(State())) % ID_LIMIT
      ensures State() == Emplaced(old(State()), value)
      ensures |old(linear.buffers)| <= |linear.buffers|
      ensures linear.buffers[..|old(linear.buffers)|] == old(linear.buffers)
      ensures forall b :: |old(linear.buffers)| <= b < |linear.buffers| ==> fresh(linear.buffers[b])
    {
      if erasedElems != [] {
        id := erasedElems[|erasedElems| - 1];
        erasedElems := erasedElems[..|erasedElems| - 1];
        linear.Set(id, Some(value));
        return;
      }
      id := linear.EmplaceBack(Some(value));
    }

    /** As in the source, nothing checks that the ID is live. */
    method Erase(id: nat)
      requires Valid() && id < linear.Size()
      modifies this, linear, linear.buffers
      ensures Valid() && State() == Erased(old(State()), id)
      ensures linear == old(linear) || fresh(linear)
    {
      linear.Set(id, None);
      erasedElems := erasedElems + [id];
      if |erasedElems| == linear.Size() {
        var cells := new LinearStepAlloc<Option<T>>(startPow);
        linear := cells;
        erasedElems := [];
      }
    }

    method Get(id: nat) returns (value: T)
      requires Valid() && Live(State(), id)
      ensures Contents(State())[id] == value
    {
      value := linear.At(id).value;
    }

    /** get_begin_id. */
    method GetBeginId() returns (id: nat)
      requires Valid()
      ensures id <= linear.Size() && LiveFrom(State(), 0) == LiveFrom(State(), id)
      ensures id < linear.Size() ==> Live(State(), id)
    {
      for i := 0 to linear.Size()
        invariant LiveFrom(State(), 0) == LiveFrom(State(), i)
      {
        if linear.At(i).Some? {
          return i;
        }
      }
      id := linear.Size();
    }

    /** ConstIter::operator++: the do-while loop that moves past erased elements. */
    method Next(index: nat) returns (next: nat)
      requires Valid() && index < linear.Size()
      ensures index < next <= linear.Size() && LiveFrom(State(), index + 1) == LiveFrom(State(), next)
      ensures next < linear.Size() ==> Live(State(), next)
    {
      next := index + 1;
      while next != linear.Size() && linear.At(next).None?
        invariant index < next <= linear.Size()
        invariant LiveFrom(State(), index + 1) == LiveFrom(State(), next)
        decreases linear.Size() - next
      {
        next := next + 1;
      }
    }

    /** Iterating from begin() to end() with ++ visits exactly the live IDs, in increasing order. */
    method Visited() returns (ids: seq<nat>)
      requires Valid()
      ensures ids == LiveFrom(State(), 0)
    {
      ghost var a := State();
      ids := [];
      var index := GetBeginId();
      while index != linear.Size()
        invariant index <= linear.Size()
        invariant index < linear.Size() ==> Live(a, index)
        invariant ids + LiveFrom(a, index) == LiveFrom(a, 0)
        decreases linear.Size() - index
      {
        var next := Next(index);
        LiveFromStep(a, ids, index, next);
        ids, index := ids + [index], next;
      }
    }
  }
}
