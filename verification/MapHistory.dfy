/** What the run has to say about each slot of a MapAlloc: who was told to set it, and with what. */
module MapHistory {
  import opened Slots
  import opened MapAllocs

  /** The state after the first m actions. */
  function After<K, V>(s: State<K, V>, acts: seq<Action<K, V>>, m: nat): State<K, V>
    requires Legal(s, acts) && m <= |acts|
    decreases |acts|
  {
    if m == 0 then s else After(Apply(s, acts[0]), acts[1..], m - 1)
  }

  /** Action m is a get that finds its key missing, and is told to set slot i. */
  predicate ClaimsAt<K, V>(s: State<K, V>, acts: seq<Action<K, V>>, m: nat, i: nat)
    requires Legal(s, acts)
  {
    && m < |acts| && acts[m].Get?
    && var before := After(s, acts, m);
       |before.slots| == i && forall x :: 0 <= x < |before.slots| ==> before.slots[x].key != acts[m].key
  }

  /** Action m is an emplaceValue through a handle of slot i that is to be set. */
  predicate EmplacesAt<K, V>(s: State<K, V>, acts: seq<Action<K, V>>, m: nat, i: nat)
    requires Legal(s, acts)
  {
    && m < |acts| && acts[m].EmplaceValue?
    && var before := After(s, acts, m);
       acts[m].t < |before.callers| && before.callers[acts[m].t] == Handle(i, true)
  }

  predicate HasValue<K, V>(s: State<K, V>, i: nat) { i < |s.slots| && s.slots[i].value.Some? }

  // ---------- one action ----------

  /** A caller that may emplace holds an empty slot, and leaves its value there. */
  lemma Fills<K, V>(s: State<K, V>, a: Action<K, V>, i: nat)
    requires Inv(s) && Enabled(s, a) && a.EmplaceValue? && s.callers[a.t] == Handle(i, true)
    ensures i < |s.slots| && !HasValue(s, i) && s.told[i] == a.t
    ensures HasValue(Apply(s, a), i) && Apply(s, a).slots[i].value == Some(a.value)
  {
    assert CallerOk(s, a.t, s.callers[a.t]);
    assert SlotOk(s, i);
  }

  /** No other action changes the value of a slot. */
  lemma Leaves<K, V>(s: State<K, V>, a: Action<K, V>, i: nat)
    requires Inv(s) && Enabled(s, a) && !(a.EmplaceValue? && s.callers[a.t] == Handle(i, true))
    ensures HasValue(Apply(s, a), i) <==> HasValue(s, i)
    ensures i < |s.slots| ==> Apply(s, a).slots[i].value == s.slots[i].value
  {
  }

  /** A new slot is that of a get which has found no slot with its key. */
  lemma Opens<K, V>(s: State<K, V>, a: Action<K, V>)
    requires Inv(s) && Enabled(s, a)
    ensures var s' := Apply(s, a); var n := |s.slots|;
      if a.Get? && forall x :: 0 <= x < n ==> s.slots[x].key != a.key
      then |s'.slots| == n + 1 && s'.slots[n].key == a.key && s'.told == s.told + [a.t]
      else |s'.slots| == n && s'.told == s.told
  {
    if a.Get? && a.key in s.slotOf {
      assert s.slots[s.slotOf[a.key]].key == a.key;
    }
  }

  // ---------- whole runs ----------

  /** The one emplace of slot i in the run: by caller t, of v. */
  ghost predicate IsTheEmplace<K, V>(s: State<K, V>, acts: seq<Action<K, V>>, m: nat, i: nat, t: nat, v: V)
    requires Legal(s, acts)
  {
    && EmplacesAt(s, acts, m, i) && acts[m] == EmplaceValue(t, v)
    && forall x: nat :: EmplacesAt(s, acts, x, i) ==> x == m
  }

  lemma HeadEmplaces<K, V>(s: State<K, V>, acts: seq<Action<K, V>>, i: nat, v: V)
    requires Legal(s, acts) && acts != [] && acts[0] == EmplaceValue(acts[0].t, v)
    requires s.callers[acts[0].t] == Handle(i, true)
    requires forall m: nat :: !EmplacesAt(Apply(s, acts[0]), acts[1..], m, i)
    ensures IsTheEmplace(s, acts, 0, i, acts[0].t, v)
  {
    forall x: nat | x > 0
      ensures !EmplacesAt(s, acts, x, i)
    {
      assert !EmplacesAt(Apply(s, acts[0]), acts[1..], x - 1, i);
    }
  }

  lemma TailEmplaces<K, V>(s: State<K, V>, acts: seq<Action<K, V>>, i: nat)
    requires Legal(s, acts) && acts != [] && !EmplacesAt(s, acts, 0, i)
    ensures var s' := Apply(s, acts[0]);
      && (forall m: nat :: EmplacesAt(s, acts, m + 1, i) <==> EmplacesAt(s', acts[1..], m, i))
      && (forall m: nat, t: nat, v :: IsTheEmplace(s', acts[1..], m, i, t, v) ==> IsTheEmplace(s, acts, m + 1, i, t, v))
      && ((forall m: nat :: !EmplacesAt(s', acts[1..], m, i)) ==> forall m: nat :: !EmplacesAt(s, acts, m, i))
  {
    var s' := Apply(s, acts[0]);
    forall m: nat
      ensures EmplacesAt(s, acts, m + 1, i) <==> EmplacesAt(s', acts[1..], m, i)
    {
    }
    forall m: nat, t: nat, v | IsTheEmplace(s', acts[1..], m, i, t, v)
      ensures IsTheEmplace(s, acts, m + 1, i, t, v)
    {
      forall x: nat | EmplacesAt(s, acts, x, i)
        ensures x == m + 1
      {
        assert x > 0 && EmplacesAt(s', acts[1..], x - 1, i);
      }
    }
    if forall m: nat :: !EmplacesAt(s', acts[1..], m, i) {
      forall m: nat
        ensures !EmplacesAt(s, acts, m, i)
      {
        if m > 0 {
          assert !EmplacesAt(s', acts[1..], m - 1, i);
        }
      }
    }
  }

  lemma {:induction false} EmplacedOnce<K, V>(s: State<K, V>, acts: seq<Action<K, V>>, i: nat)
    requires Inv(s) && Legal(s, acts)
    ensures HasValue(s, i) || !HasValue(Exec(s, acts), i) ==> forall m: nat :: !EmplacesAt(s, acts, m, i)
    ensures HasValue(s, i) ==> HasValue(Exec(s, acts), i) && Exec(s, acts).slots[i].value == s.slots[i].value
    ensures var s' := Exec(s, acts);
      (!HasValue(s, i) && HasValue(s', i) ==>
        i < |s'.told| && exists m: nat :: IsTheEmplace(s, acts, m, i, s'.told[i], s'.slots[i].value.value))
    decreases |acts|
  {
    if acts == [] {
    } else {
      var s', a := Apply(s, acts[0]), acts[0];
      ActionKeeps(s, a);
      EmplacedOnce(s', acts[1..], i);
      ExecKeeps(s', acts[1..]);
      if a.EmplaceValue? && s.callers[a.t] == Handle(i, true) {
        Fills(s, a, i);
        HeadEmplaces(s, acts, i, a.value);
      } else {
        Leaves(s, a, i);
        TailEmplaces(s, acts, i);
      }
    }
  }

  /** The one get in the run that was told to set slot i: by caller t, for this key. */
  ghost predicate IsTheClaim<K, V>(s: State<K, V>, acts: seq<Action<K, V>>, m: nat, i: nat, t: nat, key: K)
    requires Legal(s, acts)
  {
    && ClaimsAt(s, acts, m, i) && acts[m] == Get(t, key)
    && forall x: nat :: ClaimsAt(s, acts, x, i) ==> x == m
  }

  lemma ClaimsLater<K, V>(s: State<K, V>, acts: seq<Action<K, V>>, m: nat, i: nat)
    requires Legal(s, acts) && acts != []
    ensures ClaimsAt(s, acts, m + 1, i) <==> ClaimsAt(Apply(s, acts[0]), acts[1..], m, i)
  {
  }

  lemma StepInv<K, V>(s: State<K, V>, a: Action<K, V>)
    requires Inv(s) && Enabled(s, a)
    ensures Inv(Apply(s, a)) && |s.slots| <= |Apply(s, a).slots|
  {
    ActionKeeps(s, a);
  }

  /** A slot keeps its key and its setter. */
  lemma StaysOpen<K, V>(s: State<K, V>, acts: seq<Action<K, V>>, i: nat)
    requires Inv(s) && Legal(s, acts) && i < |s.slots|
    ensures var s' := Exec(s, acts);
      i < |s'.slots| && i < |s.told| && i < |s'.told| && s'.told[i] == s.told[i] && s'.slots[i].key == s.slots[i].key
  {
    ExecKeeps(s, acts);
  }

  /** A slot that exists is opened no more. */
  lemma {:induction false} NoClaim<K, V>(s: State<K, V>, acts: seq<Action<K, V>>, m: nat, i: nat)
    requires Inv(s) && Legal(s, acts) && i < |s.slots|
    ensures !ClaimsAt(s, acts, m, i)
    decreases |acts|
  {
    if m == 0 || acts == [] {
    } else {
      StepInv(s, acts[0]);
      NoClaim(Apply(s, acts[0]), acts[1..], m - 1, i);
      ClaimsLater(s, acts, m - 1, i);
    }
  }

  lemma OpensHere<K, V>(s: State<K, V>, a: Action<K, V>, i: nat)
    requires Inv(s) && Enabled(s, a) && |s.slots| <= i < |Apply(s, a).slots|
    ensures i == |s.slots| && a.Get? && forall x :: 0 <= x < |s.slots| ==> s.slots[x].key != a.key
    ensures var s' := Apply(s, a); i < |s'.told| && s'.told[i] == a.t && s'.slots[i].key == a.key
  {
    Opens(s, a);
    assert |s.told| == |s.slots|;
  }

  lemma HeadClaims<K, V>(s: State<K, V>, acts: seq<Action<K, V>>, i: nat)
    requires Inv(s) && Legal(s, acts) && acts != [] && |s.slots| <= i < |Apply(s, acts[0]).slots|
    ensures acts[0].Get? && IsTheClaim(s, acts, 0, i, acts[0].t, acts[0].key)
    ensures var s' := Apply(s, acts[0]); i < |s'.told| && s'.told[i] == acts[0].t && s'.slots[i].key == acts[0].key
  {
    StepInv(s, acts[0]);
    OpensHere(s, acts[0], i);
    forall x: nat | x > 0
      ensures !ClaimsAt(s, acts, x, i)
    {
      NoClaim(Apply(s, acts[0]), acts[1..], x - 1, i);
      ClaimsLater(s, acts, x - 1, i);
    }
  }

  lemma TailClaims<K, V>(s: State<K, V>, acts: seq<Action<K, V>>, k: nat, i: nat, t: nat, key: K)
    requires Inv(s) && Legal(s, acts) && acts != [] && |Apply(s, acts[0]).slots| <= i
    requires IsTheClaim(Apply(s, acts[0]), acts[1..], k, i, t, key)
    ensures IsTheClaim(s, acts, k + 1, i, t, key)
  {
    ClaimsLater(s, acts, k, i);
    Opens(s, acts[0]);
    forall x: nat | ClaimsAt(s, acts, x, i)
      ensures x == k + 1
    {
      if x > 0 {
        ClaimsLater(s, acts, x - 1, i);
      }
    }
  }

  lemma {:induction false} ClaimedOnce<K, V>(s: State<K, V>, acts: seq<Action<K, V>>, i: nat, end: State<K, V>)
    returns (m: nat)
    requires Inv(s) && Legal(s, acts) && end == Exec(s, acts) && |s.slots| <= i < |end.slots| && i < |end.told|
    ensures IsTheClaim(s, acts, m, i, end.told[i], end.slots[i].key)
    decreases |acts|
  {
    var s' := Apply(s, acts[0]);
    StepInv(s, acts[0]);
    if i < |s'.slots| {
      m := 0;
      HeadClaims(s, acts, i);
      StaysOpen(s', acts[1..], i);
    } else {
      var k := ClaimedOnce(s', acts[1..], i, end);
      m := k + 1;
      TailClaims(s, acts, k, i, end.told[i], end.slots[i].key);
    }
  }

  // ---------- main results ----------

  /**
   In every interleaving, for each slot whose flag is up: exactly one get was told to set it, and exactly one
   emplaceValue went through a handle that was to be set, by the same caller; every value read from the slot, by
   whichever caller, is the one that this call was given.
   */
  lemma SetterDecides<K, V>(n: nat, acts: seq<Action<K, V>>, i: nat) returns (get: nat, emplace: nat, t: nat, v: V)
    requires Legal(Init(n), acts) && i < |Exec(Init(n), acts).slots| && Exec(Init(n), acts).slots[i].flag
    ensures var s0: State<K, V> := Init(n); var s := Exec(s0, acts);
      && IsTheClaim(s0, acts, get, i, t, s.slots[i].key)
      && IsTheEmplace(s0, acts, emplace, i, t, v)
      && s.slots[i].value == Some(v)
      && forall r :: r in s.seen && r.slot == i ==> r.value == v
  {
    var s0: State<K, V> := Init(n);
    var s := Exec(s0, acts);
    assert Inv(s0);
    ExecKeeps(s0, acts);
    assert SlotOk(s, i);
    get := ClaimedOnce(s0, acts, i, s);
    EmplacedOnce(s0, acts, i);
    emplace :| IsTheEmplace(s0, acts, emplace, i, s.told[i], s.slots[i].value.value);
    t, v := s.told[i], s.slots[i].value.value;
    forall r | r in s.seen && r.slot == i
      ensures r.value == v
    {
      var j :| 0 <= j < |s.seen| && s.seen[j] == r;
      assert ReadOk(s, s.seen[j]);
    }
  }

  /**
   What a lookup answers, by the keys of the slots: get gives the slot of its key, and tells its caller to set it just
   if there was none; getIfExists waits for the slot of its key, and without one returns at once.
   */
  lemma LookupAnswers<K, V>(s: State<K, V>, t: nat, key: K)
    requires Inv(s) && t < |s.callers| && s.callers[t] == Free
    ensures var missing := forall x :: 0 <= x < |s.slots| ==> s.slots[x].key != key;
      && (var s' := Apply(s, Get(t, key)); var c := s'.callers[t];
          c.Handle? && c.slot < |s'.slots| && s'.slots[c.slot].key == key && (c.needsToBeSet <==> missing))
      && (var s' := Apply(s, GetIfExists(t, key)); var c := s'.callers[t];
          if missing then c == Free else c.Spin? && c.slot < |s'.slots| && s'.slots[c.slot].key == key)
  {
    if key in s.slotOf {
      assert s.slots[s.slotOf[key]].key == key;
    }
  }

  /** Caller t has asked for this key, was not told to set it, and has not been handed its value yet. */
  predicate Awaits<K, V>(s: State<K, V>, t: nat, key: K) {
    && t < |s.callers|
    && var c := s.callers[t];
       (c.Spin? || (c.Handle? && !c.needsToBeSet)) && c.slot < |s.slots| && s.slots[c.slot].key == key
  }

  /** It goes on waiting, or is handed the value of that key's slot. */
  lemma AwaitsOn<K, V>(s: State<K, V>, a: Action<K, V>, t: nat, key: K)
    requires Inv(s) && Enabled(s, a) && Awaits(s, t, key)
    ensures var s' := Apply(s, a);
      && Inv(s')
      && (Awaits(s', t, key)
          || (s'.callers[t] == Free && |s'.seen| == |s.seen| + 1 && OfKey(s', s'.seen[|s.seen|], key)))
  {
    ActionKeeps(s, a);
    assert CallerOk(s, t, s.callers[t]) && SlotOk(s, s.callers[t].slot);
  }

  ghost predicate OfKey<K, V>(s: State<K, V>, r: Read<V>, key: K) {
    r.slot < |s.slots| && s.slots[r.slot].key == key && s.slots[r.slot].value == Some(r.value)
  }

  /** In every interleaving, whoever waits for a key is handed the value of that key's slot when its wait is over. */
  lemma {:induction false} ReaderGetsKey<K, V>(s: State<K, V>, acts: seq<Action<K, V>>, t: nat, key: K) returns (j: nat)
    requires Inv(s) && Legal(s, acts) && Awaits(s, t, key)
    requires t < |Exec(s, acts).callers| && Exec(s, acts).callers[t] == Free
    ensures var s' := Exec(s, acts); |s.seen| <= j < |s'.seen| && OfKey(s', s'.seen[j], key)
    decreases |acts|
  {
    var s' := Apply(s, acts[0]);
    AwaitsOn(s, acts[0], t, key);
    if Awaits(s', t, key) {
      StepGrows(s, acts[0]);
      j := ReaderGetsKey(s', acts[1..], t, key);
    } else {
      j := |s.seen|;
      StaysRead(s', acts[1..], j);
    }
  }

  lemma StepGrows<K, V>(s: State<K, V>, a: Action<K, V>)
    requires Enabled(s, a)
    ensures |s.seen| <= |Apply(s, a).seen|
  {
  }

  lemma StaysRead<K, V>(s: State<K, V>, acts: seq<Action<K, V>>, j: nat)
    requires Inv(s) && Legal(s, acts) && j < |s.seen|
    ensures var s' := Exec(s, acts); j < |s'.seen| && s'.seen[j] == s.seen[j]
    ensures var s' := Exec(s, acts); var i := s.seen[j].slot;
      i < |s.slots| && i < |s'.slots| && s'.slots[i] == s.slots[i]
  {
    ExecKeeps(s, acts);
    assert ReadOk(s, s.seen[j]);
  }
}
