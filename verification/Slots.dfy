/** The abstract state of a StepAlloc, a free-list arena: its cells, and the stack of erased IDs. */
module Slots {
  import opened Sums

  datatype Option<+T> = None | Some(value: T)

  datatype Arena<+T> = Arena(cells: seq<Option<T>>, erased: seq<nat>)

  predicate Live<T>(a: Arena<T>, id: nat) {
    id < |a.cells| && a.cells[id].Some?
  }

  /** The ID the next emplace_back hands out. */
  function NextId<T>(a: Arena<T>): nat {
    if a.erased != [] then a.erased[|a.erased| - 1] else |a.cells|
  }

  /** Only IDs of existing slots are on the erased stack. */
  predicate InBounds<T>(a: Arena<T>) {
    forall k :: 0 <= k < |a.erased| ==> a.erased[k] < |a.cells|
  }

  /** emplace_back: an erased slot is reused, the last one erased first. */
  function Emplaced<T>(a: Arena<T>, value: T): Arena<T>
    requires InBounds(a)
  {
    if a.erased != [] then Arena(a.cells[NextId(a) := Some(value)], a.erased[..|a.erased| - 1])
    else Arena(a.cells + [Some(value)], a.erased)
  }

  /** erase, with the reset that follows when as many IDs are on the stack as there are slots. */
  function Erased<T>(a: Arena<T>, id: nat): Arena<T>
    requires id < |a.cells|
  {
    if |a.erased| + 1 == |a.cells| then Arena([], [])
    else Arena(a.cells[id := None], a.erased + [id])
  }

  /** The erased stack holds every empty slot, once, and nothing else; an arena in which nothing is live is empty. */
  ghost predicate WellFormed<T>(a: Arena<T>) {
    && NoDup(a.erased)
    && (forall id :: 0 <= id < |a.cells| ==> (id in a.erased <==> a.cells[id].None?))
    && InBounds(a)
    && (|a.cells| > 0 ==> |a.erased| < |a.cells|)
  }

  /** The arena as a finite map from IDs to elements. */
  function Contents<T>(a: Arena<T>): map<nat, T> {
    map id | 0 <= id < |a.cells| && a.cells[id].Some? :: a.cells[id].value
  }

  // ---------- the arena refines a finite map ----------

  lemma EmplaceRefines<T>(a: Arena<T>, value: T)
    requires WellFormed(a)
    ensures var a' := Emplaced(a, value);
      && WellFormed(a') && NextId(a) !in Contents(a) && Contents(a') == Contents(a)[NextId(a) := value]
  {
    if a.erased != [] {
      ReuseWellFormed(a, value);
    }
  }

  lemma ReuseWellFormed<T>(a: Arena<T>, value: T)
    requires WellFormed(a) && a.erased != []
    ensures WellFormed(Emplaced(a, value)) && NextId(a) !in Contents(a)
    ensures Contents(Emplaced(a, value)) == Contents(a)[NextId(a) := value]
  {
    var a' := Emplaced(a, value);
    var id := NextId(a);
    assert a.erased == a'.erased + [id] && id !in a'.erased && id in a.erased;
    forall k | 0 <= k < |a.cells|
      ensures k in a'.erased <==> a'.cells[k].None?
    {
      assert k in a.erased <==> k in a'.erased || k == id;
    }
  }

  lemma EraseRefines<T>(a: Arena<T>, id: nat)
    requires WellFormed(a) && Live(a, id)
    ensures WellFormed(Erased(a, id)) && Contents(Erased(a, id)) == Contents(a) - {id}
  {
    assert id !in a.erased;
    if |a.erased| + 1 == |a.cells| {
      forall k | k in Contents(a)
        ensures k == id
      {
        OnlyLive(a, id, k);
      }
    }
  }

  /** With all slots but one on the erased stack, that one is the only live one. */
  lemma OnlyLive<T>(a: Arena<T>, id: nat, k: nat)
    requires WellFormed(a) && Live(a, id) && Live(a, k) && |a.erased| + 1 == |a.cells|
    ensures k == id
  {
    if k != id {
      var all := a.erased + [id, k];
      assert id !in a.erased && k !in a.erased;
      NoDupBounded(all, |a.cells|);
    }
  }

  /** The auto-reset fires exactly when nothing is left alive. */
  lemma ResetIffEmpty<T>(a: Arena<T>, id: nat)
    requires WellFormed(a) && Live(a, id)
    ensures |a.erased| + 1 == |a.cells| <==> Contents(a) - {id} == map[]
  {
    if |a.erased| + 1 == |a.cells| {
      EraseRefines(a, id);
    } else {
      var k := SlotNotIn(a.erased + [id], |a.cells|);
      assert k in Contents(a) - {id};
    }
  }

  /** A sequence shorter than n misses some number below n. */
  lemma {:induction false} SlotNotIn(s: seq<nat>, n: nat) returns (k: nat)
    requires |s| < n
    ensures k < n && k !in s
  {
    if n - 1 !in s {
      k := n - 1;
    } else {
      var i :| 0 <= i < |s| && s[i] == n - 1;
      var t := s[..i] + s[i + 1..];
      k := SlotNotIn(t, n - 1);
      assert forall j :: 0 <= j < |s| && j != i ==> s[j] == if j < i then t[j] else t[j - 1];
    }
  }

  /**
   erase does not check its argument. On a well-formed arena it removes just that element and leaves the arena
   well formed exactly when the ID is live: erasing a dead one puts it on the stack twice or drops a live element.
   */
  lemma EraseCorrectIffLive<T>(a: Arena<T>, id: nat)
    requires WellFormed(a) && id < |a.cells|
    ensures Live(a, id) <==> WellFormed(Erased(a, id)) && Contents(Erased(a, id)) == Contents(a) - {id}
  {
    if Live(a, id) {
      EraseRefines(a, id);
    } else {
      assert id in a.erased;
      if |a.erased| + 1 == |a.cells| {
        var k := SlotNotIn(a.erased, |a.cells|);
        assert k in Contents(a) - {id};
      } else {
        var i :| 0 <= i < |a.erased| && a.erased[i] == id;
        assert Erased(a, id).erased[i] == Erased(a, id).erased[|a.erased|];
      }
    }
  }

  // ---------- which ID comes next ----------

  /**
   The slot erased last is the first to be used again, and the arena is then as if its element had been overwritten;
   but once nothing is left alive the IDs start afresh at 0.
   */
  lemma EraseThenEmplace<T>(a: Arena<T>, id: nat, value: T)
    requires WellFormed(a) && Live(a, id)
    ensures var b := Erased(a, id);
      if Contents(a) - {id} == map[] then NextId(b) == 0 && Contents(Emplaced(b, value)) == map[0 := value]
      else NextId(b) == id && Emplaced(b, value) == Arena(a.cells[id := Some(value)], a.erased)
  {
    ResetIffEmpty(a, id);
    var b := Erased(a, id);
    if |a.erased| + 1 == |a.cells| {
      assert Contents(b) == map[];
    } else {
      assert Emplaced(b, value).cells == a.cells[id := Some(value)];
      assert Emplaced(b, value).erased == a.erased;
    }
  }

  // ---------- whole histories ----------

  datatype Op<+T> = Emplace(value: T) | Erase(id: nat)

  /** Every erase is of an ID that is live at that time. */
  predicate LegalOps<T>(a: Arena<T>, ops: seq<Op<T>>)
    decreases |ops|
  {
    ops == [] ||
    match ops[0]
    case Emplace(v) => InBounds(a) && LegalOps(Emplaced(a, v), ops[1..])
    case Erase(id) => Live(a, id) && LegalOps(Erased(a, id), ops[1..])
  }

  function After<T>(a: Arena<T>, ops: seq<Op<T>>): Arena<T>
    requires LegalOps(a, ops)
    decreases |ops|
  {
    if ops == [] then a
    else
      match ops[0]
      case Emplace(v) => After(Emplaced(a, v), ops[1..])
      case Erase(id) => After(Erased(a, id), ops[1..])
  }

  /** What the same history does to a finite map, given the IDs the arena hands out. */
  function MapAfter<T>(a: Arena<T>, m: map<nat, T>, ops: seq<Op<T>>): map<nat, T>
    requires LegalOps(a, ops)
    decreases |ops|
  {
    if ops == [] then m
    else
      match ops[0]
      case Emplace(v) => MapAfter(Emplaced(a, v), m[NextId(a) := v], ops[1..])
      case Erase(id) => MapAfter(Erased(a, id), m - {id}, ops[1..])
  }

  lemma {:induction false} HistoryRefinesMap<T>(a: Arena<T>, ops: seq<Op<T>>)
    requires WellFormed(a) && LegalOps(a, ops)
    ensures WellFormed(After(a, ops)) && Contents(After(a, ops)) == MapAfter(a, Contents(a), ops)
    decreases |ops|
  {
    if ops == [] {
    } else {
      match ops[0] {
        case Emplace(v) =>
          EmplaceRefines(a, v);
          HistoryRefinesMap(Emplaced(a, v), ops[1..]);
        case Erase(id) =>
          EraseRefines(a, id);
          HistoryRefinesMap(Erased(a, id), ops[1..]);
      }
    }
  }

  function Emplaces<T>(values: seq<T>): seq<Op<T>> {
    seq(|values|, k requires 0 <= k < |values| => Emplace(values[k]))
  }

  /** Every slot filled, and none erased. */
  function Dense<T>(values: seq<T>): Arena<T> {
    Arena(seq(|values|, k requires 0 <= k < |values| => Some(values[k])), [])
  }

  lemma {:induction false} EmplacesOnto<T>(before: seq<T>, values: seq<T>)
    ensures LegalOps(Dense(before), Emplaces(values))
    ensures After(Dense(before), Emplaces(values)) == Dense(before + values)
    decreases |values|
  {
    if values == [] {
      assert before + values == before;
    } else {
      assert Emplaced(Dense(before), values[0]) == Dense(before + [values[0]]);
      assert Emplaces(values)[1..] == Emplaces(values[1..]);
      assert before + [values[0]] + values[1..] == before + values;
      EmplacesOnto(before + [values[0]], values[1..]);
    }
  }

  /** Elements of an arena from which nothing is erased have the IDs 0, 1, 2, ... in their order. */
  lemma {:induction false} EmplacesCount<T>(values: seq<T>)
    ensures LegalOps(Arena([], []), Emplaces(values))
    ensures After(Arena([], []), Emplaces(values)) == Dense(values)
  {
    EmplacesOnto([], values);
    assert [] + values == values;
  }

  /** The live IDs from i on, in increasing order. */
  function LiveFrom<T>(a: Arena<T>, i: nat): seq<nat>
    decreases |a.cells| - i
  {
    if i >= |a.cells| then []
    else if a.cells[i].Some? then [i] + LiveFrom(a, i + 1)
    else LiveFrom(a, i + 1)
  }

  lemma {:induction false} LiveFromIncreasing<T>(a: Arena<T>, i: nat)
    ensures forall k :: k in LiveFrom(a, i) <==> i <= k && Live(a, k)
    ensures forall j, k :: 0 <= j < k < |LiveFrom(a, i)| ==> LiveFrom(a, i)[j] < LiveFrom(a, i)[k]
    decreases |a.cells| - i
  {
    if i < |a.cells| {
      LiveFromIncreasing(a, i + 1);
      var rest := LiveFrom(a, i + 1);
      assert forall k :: 0 <= k < |rest| ==> rest[k] in rest;
    }
  }

  lemma LiveFromStep<T>(a: Arena<T>, seen: seq<nat>, id: nat, next: nat)
    requires Live(a, id) && LiveFrom(a, id + 1) == LiveFrom(a, next)
    ensures seen + LiveFrom(a, id) == (seen + [id]) + LiveFrom(a, next)
  {
  }
}
