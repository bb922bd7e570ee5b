/** Initialisers of global variables, and the globals that occur in them. */
module Initialisers {
  /** An initialiser. Only GLOBAL_VALUE expressions lead from one global to another. */
  datatype Value =
    | NoValue
    | Bytes(bytes: seq<nat>)
    | FunctionPointer(func: nat)
    | GlobalValue(global: nat)
    | Aggregate(elems: seq<Value>)
    | Union(field: Value)
    | CalcPtr(base: Value, byteOffset: nat)

  // ---------- occurrences ----------

  /** One step into an initialiser. */
  datatype Access = Elem(k: nat) | Field | Base

  /** Following the path from v leads to w. */
  predicate Leads(v: Value, path: seq<Access>, w: Value)
    decreases |path|
  {
    if path == [] then v == w
    else
      match path[0]
      case Elem(k) => v.Aggregate? && k < |v.elems| && Leads(v.elems[k], path[1..], w)
      case Field => v.Union? && Leads(v.field, path[1..], w)
      case Base => v.CalcPtr? && Leads(v.base, path[1..], w)
  }

  /** Somewhere inside v there is a reference to global h. */
  ghost predicate Occurs(v: Value, h: nat) {
    exists path :: Leads(v, path, GlobalValue(h))
  }

  /** At the first step in which they differ, the one path goes to an earlier element than the other. */
  predicate Before(p: seq<Access>, q: seq<Access>)
    decreases |p|
  {
    && p != [] && q != []
    && if p[0] == q[0] then Before(p[1..], q[1..]) else p[0].Elem? && q[0].Elem? && p[0].k < q[0].k
  }

  /** `paths` are the places at which globals occur in v, each once and from first to last, and `refs` those globals. */
  ghost predicate Lists(v: Value, paths: seq<seq<Access>>, refs: seq<nat>) {
    && |paths| == |refs|
    && (forall k :: 0 <= k < |refs| ==> Leads(v, paths[k], GlobalValue(refs[k])))
    && (forall path, h :: Leads(v, path, GlobalValue(h)) ==> path in paths)
    && (forall j, k :: 0 <= j < k < |paths| ==> Before(paths[j], paths[k]))
  }

  // ---------- mentions ----------

  /** The globals an initialiser mentions, in the order in which lower_global_value meets them. */
  function Mentions(v: Value): seq<nat> {
    match v
    case GlobalValue(g) => [g]
    case Aggregate(elems) => MentionsAll(elems)
    case Union(field) => Mentions(field)
    case CalcPtr(base, _) => Mentions(base)
    case _ => []
  }

  function MentionsAll(vs: seq<Value>): seq<nat> {
    if vs == [] then [] else Mentions(vs[0]) + MentionsAll(vs[1..])
  }

  /** The mentions of one element among those of all. */
  lemma {:induction false} ElemMentions(vs: seq<Value>, i: nat)
    requires i < |vs|
    ensures MentionsAll(vs[..i + 1]) == MentionsAll(vs[..i]) + Mentions(vs[i])
    ensures forall h :: h in Mentions(vs[i]) ==> h in MentionsAll(vs)
  {
    if i == 0 {
      assert vs[..1][1..] == [] && vs[..0] == [];
    } else {
      ElemMentions(vs[1..], i - 1);
      assert vs[..i + 1][1..] == vs[1..][..i] && vs[..i][1..] == vs[1..][..i - 1];
    }
  }

  function Prefixed(a: Access, paths: seq<seq<Access>>): seq<seq<Access>> {
    seq(|paths|, k requires 0 <= k < |paths| => [a] + paths[k])
  }

  /** The places behind one step. */
  lemma ListsBehind(v: Value, a: Access, w: Value, paths: seq<seq<Access>>, refs: seq<nat>)
    requires (a == Field && v.Union? && v.field == w) || (a == Base && v.CalcPtr? && v.base == w)
    requires Lists(w, paths, refs)
    ensures Lists(v, Prefixed(a, paths), refs)
  {
    var all := Prefixed(a, paths);
    forall path, h | Leads(v, path, GlobalValue(h))
      ensures path in all
    {
      assert path[0] == a && path[1..] in paths;
      var k :| 0 <= k < |paths| && paths[k] == path[1..];
      assert all[k] == path;
    }
    assert forall k :: 0 <= k < |paths| ==> all[k][0] == a && all[k][1..] == paths[k];
  }

  predicate GoesFrom(path: seq<Access>, i: nat) { path != [] && path[0].Elem? && path[0].k >= i }

  /** The places in the elements from i on. */
  ghost predicate ListsFrom(elems: seq<Value>, i: nat, paths: seq<seq<Access>>, refs: seq<nat>) {
    && |paths| == |refs|
    && (forall k :: 0 <= k < |refs| ==>
        Leads(Aggregate(elems), paths[k], GlobalValue(refs[k])) && GoesFrom(paths[k], i))
    && (forall path, h :: Leads(Aggregate(elems), path, GlobalValue(h)) && GoesFrom(path, i) ==> path in paths)
    && (forall j, k :: 0 <= j < k < |paths| ==> Before(paths[j], paths[k]))
  }

  lemma ListsHead(elems: seq<Value>, i: nat, first: seq<seq<Access>>, refs: seq<nat>, paths: seq<seq<Access>>,
                  rest: seq<nat>)
    requires i < |elems| && Lists(elems[i], first, refs) && ListsFrom(elems, i + 1, paths, rest)
    ensures ListsFrom(elems, i, Prefixed(Elem(i), first) + paths, refs + rest)
  {
    var head := Prefixed(Elem(i), first);
    assert forall k :: 0 <= k < |first| ==> head[k][0] == Elem(i) && head[k][1..] == first[k];
    forall path: seq<Access>, h: nat | Leads(Aggregate(elems), path, GlobalValue(h)) && GoesFrom(path, i)
      ensures path in head + paths
    {
      if path[0].k == i {
        assert path[1..] in first;
        var k :| 0 <= k < |first| && first[k] == path[1..];
        assert head[k] == path;
      }
    }
  }

  lemma {:induction false} MentionsListed(v: Value) returns (paths: seq<seq<Access>>)
    ensures Lists(v, paths, Mentions(v))
    decreases v, 1
  {
    match v {
      case GlobalValue(g) => paths := [[]];
      case Union(field) =>
        paths := MentionsListed(field);
        ListsBehind(v, Field, field, paths, Mentions(v));
        paths := Prefixed(Field, paths);
      case CalcPtr(base, _) =>
        paths := MentionsListed(base);
        ListsBehind(v, Base, base, paths, Mentions(v));
        paths := Prefixed(Base, paths);
      case Aggregate(elems) =>
        paths := ElemsListed(v, 0);
        assert elems[0..] == elems;
      case _ => paths := [];
    }
  }

  lemma {:induction false} ElemsListed(v: Value, i: nat) returns (paths: seq<seq<Access>>)
    requires v.Aggregate? && i <= |v.elems|
    ensures ListsFrom(v.elems, i, paths, MentionsAll(v.elems[i..]))
    decreases v, 0, |v.elems| - i
  {
    if i == |v.elems| {
      paths := [];
    } else {
      var first := MentionsListed(v.elems[i]);
      paths := ElemsListed(v, i + 1);
      ListsHead(v.elems, i, first, Mentions(v.elems[i]), paths, MentionsAll(v.elems[i + 1..]));
      assert v.elems[i..][1..] == v.elems[i + 1..];
      paths := Prefixed(Elem(i), first) + paths;
    }
  }

  /** The mentions of an initialiser are the globals that occur in it: one for each place, in the places' order. */
  lemma MentionsAreOccurrences(v: Value)
    ensures exists paths :: Lists(v, paths, Mentions(v))
    ensures forall h :: h in Mentions(v) <==> Occurs(v, h)
  {
    var paths := MentionsListed(v);
    forall h | Occurs(v, h)
      ensures h in Mentions(v)
    {
      var path :| Leads(v, path, GlobalValue(h));
      assert path in paths;
      var k :| 0 <= k < |paths| && paths[k] == path;
      LeadsToOne(v, path, GlobalValue(h), GlobalValue(Mentions(v)[k]));
    }
  }

  lemma {:induction false} LeadsToOne(v: Value, path: seq<Access>, w: Value, w': Value)
    requires Leads(v, path, w) && Leads(v, path, w')
    ensures w == w'
    decreases |path|
  {
    if path == [] {
    } else {
      match path[0] {
        case Elem(k) => LeadsToOne(v.elems[k], path[1..], w, w');
        case Field => LeadsToOne(v.field, path[1..], w, w');
        case Base => LeadsToOne(v.base, path[1..], w, w');
      }
    }
  }
}
