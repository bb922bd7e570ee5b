/** The engine's tables of lowered globals as an object, and the recursion of lowering on a single thread. */
module LoweringObject {
  import opened GlobalLowering
  import opened Initialisers

  lemma ReachesStep(init: seq<Value>, g: nat, h: nat, x: nat)
    requires g < |init| && h in Mentions(init[g]) && Reaches(init, h, x)
    ensures Reaches(init, g, x)
    ensures x == g ==> ReachesCycle(init, g)
  {
    MentionsAreOccurrences(init[g]);
    var p :| IsPath(init, p) && p[0] == h && p[|p| - 1] == x;
    var q := [g] + p;
    assert IsPath(init, q) && q[|q| - 1] == x;
    assert x == g ==> q[0] == q[|q| - 1];
  }

  lemma ReachesSelf(init: seq<Value>, g: nat)
    requires g < |init|
    ensures Reaches(init, g, g)
  {
    assert IsPath(init, [g]);
  }

  class LoweringEngine {
    const init: seq<Value>
    /** The globals in lowered_globals_map, and the references written into each so far. */
    var filled: map<nat, seq<nat>>
    var registered: set<nat>
    /** The globals whose was_lowered flag is up, in the order in which that happened. */
    var lowered: seq<nat>

    constructor (init: seq<Value>)
      ensures this.init == init && filled == map[] && registered == {} && lowered == []
    {
      this.init, filled, registered, lowered := init, map[], {}, [];
    }

    /** Claimed and not complete. */
    ghost predicate Open(g: nat)
      reads this
    {
      g in filled && g !in lowered
    }

    ghost function Unclaimed(): set<nat>
      reads this
    {
      set g | 0 <= g < |init| && g !in filled
    }

    /** No lookup of h can come back to h or to a global that is being filled. */
    ghost predicate Clear(h: nat)
      reads this
    {
      && h < |init| && !ReachesCycle(init, h)
      && forall x: nat :: Open(x) ==> !Reaches(init, h, x)
    }

    /** A complete global is filled with just its mentions, which are complete too. */
    ghost predicate Complete(g: nat)
      reads this
    {
      && g < |init| && g in filled && g in registered && filled[g] == Mentions(init[g])
      && forall h :: h in Mentions(init[g]) ==> h in lowered
    }

    ghost predicate Valid()
      reads this
    {
      Closed(init) && forall g :: g in lowered ==> Complete(g)
    }

    /** What a lookup may do: complete more globals. What was there before stays, but for the global being filled. */
    twostate predicate OnlyLowers(except: set<nat>)
      reads this
    {
      && old(lowered) <= lowered && old(registered) <= registered
      && (forall g :: Open(g) <==> old(Open(g)))
      && (forall g :: g in old(filled) ==> g in filled && (g !in except ==> filled[g] == old(filled[g])))
    }

    /** check_global_lowered, under its lock. */
    method CheckGlobalLowered(g: nat) returns (needsToBeLowered: bool)
      modifies this`filled
      ensures needsToBeLowered == (g !in old(filled))
      ensures filled == if needsToBeLowered then old(filled)[g := []] else old(filled)
    {
      if g in filled {
        return false;
      }
      filled := filled[g := []];
      return true;
    }

    /** get_or_create_lowered_global_value with no other thread about: it ends, and g is complete. */
    method GetOrCreateLoweredGlobalValue(g: nat)
      requires Valid() && Clear(g)
      modifies this
      ensures Valid() && OnlyLowers({}) && g in lowered
      ensures exists paths :: Lists(init[g], paths, filled[g])
      decreases Unclaimed(), 0
    {
      ReachesSelf(init, g);
      MentionsAreOccurrences(init[g]);
      ghost var before := Unclaimed();
      var needsToBeLowered := CheckGlobalLowered(g);
      if needsToBeLowered {
        assert g in before && Unclaimed() == before - {g};
        forall h | h in Mentions(init[g])
          ensures Clear(h)
        {
          MentionClear(g, h);
        }
        assert forall x :: Open(x) <==> old(Open(x)) || x == g;
        label filling:
        LowerGlobalValue(init[g], g);
        assert forall x :: Open(x) <==> old@filling(Open(x));
        assert Open(g);
        registered := registered + {g};
        assert forall h :: h in lowered ==> Complete(h);
        lowered := lowered + [g];
        assert Complete(g);
      }
    }

    lemma MentionClear(g: nat, h: nat)
      requires g < |init| && h in Mentions(init[g]) && !ReachesCycle(init, g) && h < |init|
      requires forall x: nat :: Open(x) && x != g ==> !Reaches(init, g, x)
      ensures Clear(h)
    {
      if ReachesCycle(init, h) {
        CycleInherited(init, g, h);
      }
      forall x: nat | Open(x)
        ensures !Reaches(init, h, x)
      {
        if Reaches(init, h, x) {
          ReachesStep(init, g, h, x);
        }
      }
    }

    /** lower_global_value into the bytes of g: one reference for each mention, each complete by then. */
    method LowerGlobalValue(v: Value, g: nat)
      requires Valid() && Open(g)
      requires forall h :: Occurs(v, h) ==> Clear(h)
      modifies this
      ensures Valid() && OnlyLowers({g}) && filled[g] == old(filled[g]) + Mentions(v)
      ensures exists paths, refs :: Lists(v, paths, refs) && filled[g] == old(filled[g]) + refs
      ensures forall h :: h in Mentions(v) ==> h in lowered
      ensures forall h :: Occurs(v, h) ==> h in lowered
      decreases Unclaimed(), 1, v, 1
    {
      MentionsAreOccurrences(v);
      match v {
        case GlobalValue(h) =>
          assert h in Mentions(v);
          GetOrCreateLoweredGlobalValue(h);
          filled := filled[g := filled[g] + [h]];
        case Union(field) =>
          MentionsAreOccurrences(field);
          LowerGlobalValue(field, g);
        case CalcPtr(base, _) =>
          MentionsAreOccurrences(base);
          LowerGlobalValue(base, g);
        case Aggregate(elems) => LowerElements(elems, g);
        case _ =>
      }
    }

    /** The array and the struct branch: the elements one after the other. */
    method LowerElements(elems: seq<Value>, g: nat)
      requires Valid() && Open(g)
      requires forall h :: h in MentionsAll(elems) ==> Clear(h)
      modifies this
      ensures Valid() && OnlyLowers({g}) && filled[g] == old(filled[g]) + MentionsAll(elems)
      ensures forall h :: h in MentionsAll(elems) ==> h in lowered
      decreases Unclaimed(), 1, elems, 0
    {
      for i := 0 to |elems|
        invariant Valid() && OnlyLowers({g}) && Unclaimed() <= old(Unclaimed())
        invariant filled[g] == old(filled[g]) + MentionsAll(elems[..i])
        invariant forall h :: h in MentionsAll(elems[..i]) ==> h in lowered
        invariant forall h :: h in MentionsAll(elems) ==> Clear(h)
      {
        ElemMentions(elems, i);
        MentionsAreOccurrences(elems[i]);
        LowerGlobalValue(elems[i], g);
      }
      assert elems[..|elems|] == elems;
    }
  }
}
