/** MapAlloc: a map whose slots are filled once, by the caller that found the key missing, while others spin. */
module MapAllocs {
  import opened Slots

  datatype Slot<+K, +V> = Slot(key: K, value: Option<V>, flag: bool)

  /** Where a caller stands: it holds a handle, has emplaced but not yet raised the flag, or spins on the flag. */
  datatype Caller = Free | Handle(slot: nat, needsToBeSet: bool) | Emplaced(slot: nat) | Spin(slot: nat)

  datatype Read<+V> = Read(slot: nat, value: V)

  /** `told` says for each slot which caller was told to set it; `seen` is every value handed to a caller so far. */
  datatype State<K(==), +V> = State(slotOf: map<K, nat>, slots: seq<Slot<K, V>>, callers: seq<Caller>, told: seq<nat>,
                                    seen: seq<Read<V>>)

  datatype Action<+K, +V> =
    | Get(t: nat, key: K)
    | GetIfExists(t: nat, key: K)
    | GetValue(t: nat)
    | EmplaceValue(t: nat, value: V)
    | RaiseFlag(t: nat)
    | Poll(t: nat)

  predicate Enabled<K, V>(s: State<K, V>, a: Action<K, V>) {
    a.t < |s.callers| &&
    var c := s.callers[a.t];
    match a
    case Get(_, _) => c.Free?
    case GetIfExists(_, _) => c.Free?
    case GetValue(_) => c.Handle? && !c.needsToBeSet
    case EmplaceValue(_, _) => c.Handle? && c.needsToBeSet && c.slot < |s.slots|
    case RaiseFlag(_) => c.Emplaced? && c.slot < |s.slots|
    case Poll(_) => c.Spin? && c.slot < |s.slots|
  }

  /** What the caller does next. */
  function Moved<K, V>(s: State<K, V>, a: Action<K, V>): Caller
    requires Enabled(s, a)
  {
    var c := s.callers[a.t];
    match a
    case Get(_, k) => if k in s.slotOf then Handle(s.slotOf[k], false) else Handle(|s.slots|, true)
    case GetIfExists(_, k) => if k in s.slotOf then Spin(s.slotOf[k]) else Free
    case GetValue(_) => Spin(c.slot)
    case EmplaceValue(_, _) => Emplaced(c.slot)
    case RaiseFlag(_) => Free
    case Poll(_) => if s.slots[c.slot].flag then Free else c
  }

  /** The slots after the action, apart from a new one. */
  function Set<K, V>(s: State<K, V>, a: Action<K, V>): seq<Slot<K, V>>
    requires Enabled(s, a)
  {
    var c := s.callers[a.t];
    match a
    case EmplaceValue(_, v) => s.slots[c.slot := s.slots[c.slot].(value := Some(v))]
    case RaiseFlag(_) => s.slots[c.slot := s.slots[c.slot].(flag := true)]
    case _ => s.slots
  }

  predicate Claims<K, V>(s: State<K, V>, a: Action<K, V>) { a.Get? && a.key !in s.slotOf }

  /** The slot whose value the action hands to its caller, if it is there. */
  predicate Reads<K, V>(s: State<K, V>, a: Action<K, V>)
    requires Enabled(s, a)
  {
    var c := s.callers[a.t];
    (a.RaiseFlag? || (a.Poll? && s.slots[c.slot].flag)) && s.slots[c.slot].value.Some?
  }

  function Apply<K, V>(s: State<K, V>, a: Action<K, V>): State<K, V>
    requires Enabled(s, a)
  {
    State(if Claims(s, a) then s.slotOf[a.key := |s.slots|] else s.slotOf,
          Set(s, a) + (if Claims(s, a) then [Slot(a.key, None, false)] else []),
          s.callers[a.t := Moved(s, a)],
          s.told + (if Claims(s, a) then [a.t] else []),
          s.seen + (if Reads(s, a) then [Read(s.callers[a.t].slot, s.slots[s.callers[a.t].slot].value.value)] else []))
  }

  predicate Legal<K, V>(s: State<K, V>, acts: seq<Action<K, V>>)
    decreases |acts|
  {
    acts == [] || (Enabled(s, acts[0]) && Legal(Apply(s, acts[0]), acts[1..]))
  }

  function Exec<K, V>(s: State<K, V>, acts: seq<Action<K, V>>): State<K, V>
    requires Legal(s, acts)
    decreases |acts|
  {
    if acts == [] then s else Exec(Apply(s, acts[0]), acts[1..])
  }

  function Init<K, V>(n: nat): State<K, V> { State(map[], [], seq(n, _ => Free), [], []) }

  // ---------- the invariant ----------

  /** The caller is the one that has to fill slot i. */
  predicate Owes(c: Caller, i: nat) { (c.Handle? && c.needsToBeSet && c.slot == i) || (c.Emplaced? && c.slot == i) }

  ghost predicate MapOk<K, V>(s: State<K, V>) {
    && |s.told| == |s.slots|
    && (forall k :: k in s.slotOf ==> s.slotOf[k] < |s.slots| && s.slots[s.slotOf[k]].key == k)
    && (forall i :: 0 <= i < |s.slots| ==> s.slots[i].key in s.slotOf && s.slotOf[s.slots[i].key] == i)
  }

  /** A slot is unpublished just as long as the caller told to set it has not done so; then it has its value. */
  ghost predicate SlotOk<K, V>(s: State<K, V>, i: nat)
    requires i < |s.slots| && i < |s.told|
  {
    && s.told[i] < |s.callers|
    && (Owes(s.callers[s.told[i]], i) <==> !s.slots[i].flag)
    && (s.slots[i].value.Some? <==> (s.slots[i].flag || s.callers[s.told[i]] == Emplaced(i)))
  }

  ghost predicate CallerOk<K, V>(s: State<K, V>, t: nat, c: Caller) {
    && (!c.Free? ==> c.slot < |s.slots| && c.slot < |s.told|)
    && (!c.Free? && Owes(c, c.slot) ==> s.told[c.slot] == t)
  }

  ghost predicate ReadOk<K, V>(s: State<K, V>, r: Read<V>) {
    r.slot < |s.slots| && s.slots[r.slot].flag && s.slots[r.slot].value == Some(r.value)
  }

  ghost predicate Inv<K, V>(s: State<K, V>) {
    && MapOk(s)
    && (forall i :: 0 <= i < |s.slots| ==> SlotOk(s, i))
    && (forall t :: 0 <= t < |s.callers| ==> CallerOk(s, t, s.callers[t]))
    && (forall j :: 0 <= j < |s.seen| ==> ReadOk(s, s.seen[j]))
  }

  /** What no action undoes: a key keeps its slot, a slot its key and its setter, and a published value stays. */
  ghost predicate Keeps<K, V>(s: State<K, V>, s': State<K, V>) {
    && (forall k :: k in s.slotOf ==> k in s'.slotOf && s'.slotOf[k] == s.slotOf[k])
    && s.told <= s'.told && s.seen <= s'.seen && |s.slots| <= |s'.slots|
    && forall i {:trigger s.slots[i]} :: 0 <= i < |s.slots| ==>
         s'.slots[i].key == s.slots[i].key && (s.slots[i].flag ==> s'.slots[i] == s.slots[i])
  }

  lemma ActionMap<K, V>(s: State<K, V>, a: Action<K, V>)
    requires Inv(s) && Enabled(s, a)
    ensures MapOk(Apply(s, a)) && Keeps(s, Apply(s, a))
  {
    var s' := Apply(s, a);
    var c := s.callers[a.t];
    assert CallerOk(s, a.t, c);
    if a.EmplaceValue? || a.RaiseFlag? {
      assert SlotOk(s, c.slot);
    }
  }

  lemma ActionSlot<K, V>(s: State<K, V>, a: Action<K, V>, i: nat)
    requires Inv(s) && Enabled(s, a) && MapOk(Apply(s, a)) && i < |Apply(s, a).slots|
    ensures SlotOk(Apply(s, a), i)
  {
    var s' := Apply(s, a);
    assert CallerOk(s, a.t, s.callers[a.t]);
    if i < |s.slots| {
      assert SlotOk(s, i) && s'.told[i] == s.told[i];
      assert s'.slots[i] == Set(s, a)[i];
    }
  }

  lemma ActionKeeps<K, V>(s: State<K, V>, a: Action<K, V>)
    requires Inv(s) && Enabled(s, a)
    ensures Inv(Apply(s, a)) && Keeps(s, Apply(s, a))
  {
    var s' := Apply(s, a);
    ActionMap(s, a);
    forall i | 0 <= i < |s'.slots|
      ensures SlotOk(s', i)
    {
      ActionSlot(s, a, i);
    }
    forall t | 0 <= t < |s'.callers|
      ensures CallerOk(s', t, s'.callers[t])
    {
    }
    forall j | 0 <= j < |s'.seen|
      ensures ReadOk(s', s'.seen[j])
    {
    }
  }

  lemma KeepsTrans<K, V>(a: State<K, V>, b: State<K, V>, c: State<K, V>)
    requires Keeps(a, b) && Keeps(b, c)
    ensures Keeps(a, c)
  {
    forall i {:trigger a.slots[i]} | 0 <= i < |a.slots|
      ensures c.slots[i].key == a.slots[i].key && (a.slots[i].flag ==> c.slots[i] == a.slots[i])
    {
      assert b.slots[i].key == a.slots[i].key;
    }
  }

  lemma {:induction false} ExecKeeps<K, V>(s: State<K, V>, acts: seq<Action<K, V>>)
    requires Inv(s) && Legal(s, acts)
    ensures Inv(Exec(s, acts)) && Keeps(s, Exec(s, acts))
    decreases |acts|
  {
    if acts == [] {
    } else {
      ActionKeeps(s, acts[0]);
      ExecKeeps(Apply(s, acts[0]), acts[1..]);
      KeepsTrans(s, Apply(s, acts[0]), Exec(s, acts));
    }
  }

  // ---------- main results ----------

  /**
   In every interleaving: a key has one slot and one caller told to set it; whoever has been handed a value for the
   key got it after publication, and all of them got the same; it is still there.
   */
  lemma OnceOnly<K, V>(n: nat, acts: seq<Action<K, V>>, i: nat, j: nat)
    requires Legal(Init(n), acts)
    ensures var s := Exec(Init(n), acts);
      && |s.told| == |s.slots|
      && (forall x, y :: 0 <= x < |s.slots| && 0 <= y < |s.slots| && s.slots[x].key == s.slots[y].key ==> x == y)
      && (i < |s.seen| ==> ReadOk(s, s.seen[i]))
      && (i < |s.seen| && j < |s.seen| && s.seen[i].slot == s.seen[j].slot ==> s.seen[i].value == s.seen[j].value)
  {
    var s0: State<K, V> := Init(n);
    assert Inv(s0);
    ExecKeeps(s0, acts);
    var s := Exec(s0, acts);
    assert i < |s.seen| ==> ReadOk(s, s.seen[i]);
    assert j < |s.seen| ==> ReadOk(s, s.seen[j]);
  }

  /** A caller that spins in vain waits for another caller, which was told to set that very slot and still can. */
  lemma SpinnerHasSetter<K, V>(n: nat, acts: seq<Action<K, V>>, t: nat)
    requires Legal(Init(n), acts)
    requires var s: State<K, V> := Exec(Init(n), acts); t < |s.callers| && s.callers[t].Spin?
    ensures var s := Exec(Init(n), acts); var i := s.callers[t].slot;
      && i < |s.slots| && i < |s.told| && s.told[i] < |s.callers|
      && (!s.slots[i].flag ==> s.told[i] != t && Owes(s.callers[s.told[i]], i))
  {
    var s0: State<K, V> := Init(n);
    assert Inv(s0);
    ExecKeeps(s0, acts);
    var s := Exec(s0, acts);
    assert CallerOk(s, t, s.callers[t]);
    assert SlotOk(s, s.callers[t].slot);
  }

  // ---------- the object ----------

  /** The map and its slots; each method is one atomic section, and does what the transition system says. */
  class MapAlloc<K(==), V> {
    var slotOf: map<K, nat>
    var slots: seq<Slot<K, V>>

    constructor ()
      ensures slotOf == map[] && slots == []
    {
      slotOf, slots := map[], [];
    }

    ghost predicate IsAt(s: State<K, V>)
      reads this
    {
      slotOf == s.slotOf && slots == s.slots
    }

    /** get, under the lock. */
    method FindOrAdd(key: K, ghost s: State<K, V>, ghost t: nat) returns (handle: Caller)
      requires IsAt(s) && Enabled(s, Get(t, key))
      modifies this
      ensures IsAt(Apply(s, Get(t, key))) && handle == Moved(s, Get(t, key))
    {
      if key in slotOf {
        return Handle(slotOf[key], false);
      }
      handle := Handle(|slots|, true);
      slotOf := slotOf[key := |slots|];
      slots := slots + [Slot(key, None, false)];
    }

    /** getIfExists, under the lock. */
    method FindSlot(key: K, ghost s: State<K, V>, ghost t: nat) returns (next: Caller)
      requires IsAt(s) && Enabled(s, GetIfExists(t, key))
      ensures IsAt(Apply(s, GetIfExists(t, key))) && next == Moved(s, GetIfExists(t, key))
    {
      next := if key in slotOf then Spin(slotOf[key]) else Free;
    }

    method EmplaceValueInto(slot: nat, value: V, ghost s: State<K, V>, ghost t: nat)
      requires IsAt(s) && Enabled(s, EmplaceValue(t, value)) && s.callers[t].slot == slot
      modifies this`slots
      ensures IsAt(Apply(s, EmplaceValue(t, value)))
      ensures slots == old(slots)[slot := Slot(old(slots)[slot].key, Some(value), old(slots)[slot].flag)]
    {
      slots := slots[slot := slots[slot].(value := Some(value))];
    }

    method StoreFlag(slot: nat, ghost s: State<K, V>, ghost t: nat)
      requires IsAt(s) && Enabled(s, RaiseFlag(t)) && s.callers[t].slot == slot
      modifies this`slots
      ensures IsAt(Apply(s, RaiseFlag(t)))
      ensures slots == old(slots)[slot := Slot(old(slots)[slot].key, old(slots)[slot].value, true)]
    {
      slots := slots[slot := slots[slot].(flag := true)];
    }

    /** One turn of waitForValue; on a flag that is up, the value is there to be read. */
    method PollFlag(slot: nat, ghost s: State<K, V>, ghost t: nat) returns (value: Option<V>)
      requires IsAt(s) && Inv(s) && Enabled(s, Poll(t)) && s.callers[t].slot == slot
      ensures IsAt(Apply(s, Poll(t)))
      ensures value.Some? <==> Moved(s, Poll(t)) == Free
      ensures value.Some? ==>
              |Apply(s, Poll(t)).seen| == |s.seen| + 1 && Apply(s, Poll(t)).seen[|s.seen|] == Read(slot, value.value)
    {
      assert CallerOk(s, t, s.callers[t]) && SlotOk(s, slot);
      value := if slots[slot].flag then slots[slot].value else None;
    }
  }
}
