/** RangeMap: a binary search tree over ranges, one heap node a range, never rebalanced. */
module RangeMaps {
  import opened Slots

  datatype Range<+V> = Range(value: V, first: int, last: int)

  /** The children of a node, as positions in the list of nodes. */
  datatype Links = Links(less: Option<nat>, geq: Option<nat>)

  datatype Shape<+V> = Shape(ranges: seq<Range<V>>, links: seq<Links>)

  predicate Contains<V>(r: Range<V>, v: int) { r.first <= v <= r.last }

  /** Children come later in the list than their parents. */
  predicate Ordered<V>(s: Shape<V>) {
    && |s.links| == |s.ranges|
    && forall i :: 0 <= i < |s.links| ==>
         && (s.links[i].less.Some? ==> i < s.links[i].less.value < |s.links|)
         && (s.links[i].geq.Some? ==> i < s.links[i].geq.value < |s.links|)
  }

  function Child<V>(s: Shape<V>, t: nat, key: int): Option<nat>
    requires Ordered(s) && t < |s.links|
  {
    if key < s.ranges[t].first then s.links[t].less else s.links[t].geq
  }

  /** The walk that emplace takes for `key` leads from node t to node j. */
  predicate Leads<V>(s: Shape<V>, key: int, t: nat, j: nat)
    requires Ordered(s) && j < |s.links|
    decreases j - t
  {
    t == j || (t < j && Child(s, t, key).Some? && Leads(s, key, Child(s, t, key).value, j))
  }

  /** The search-tree property: from the root, the walk for a node's own `first` leads to it. */
  predicate SearchTree<V>(s: Shape<V>) {
    Ordered(s) && forall j :: 0 <= j < |s.links| ==> Leads(s, s.ranges[j].first, 0, j)
  }

  // ---------- lookup ----------

  /** The node at which the walk of lookup ends. */
  function Find<V>(s: Shape<V>, v: int, t: nat): Option<nat>
    requires Ordered(s) && t < |s.links|
    decreases |s.links| - t
  {
    var next := if v < s.ranges[t].first then s.links[t].less else s.links[t].geq;
    if Contains(s.ranges[t], v) then Some(t)
    else if next.None? then None
    else Find(s, v, next.value)
  }

  function Lookup<V>(s: Shape<V>, v: int): Option<nat>
    requires Ordered(s)
  {
    if s.ranges == [] then None else Find(s, v, 0)
  }

  /** Two ranges have at most one point in common, the end of one and the start of the other. */
  predicate Touch<V>(a: Range<V>, b: Range<V>) { a.last <= b.first || b.last <= a.first }

  predicate AllTouch<V>(ranges: seq<Range<V>>) {
    && (forall i :: 0 <= i < |ranges| ==> ranges[i].first <= ranges[i].last)
    && (forall i, j :: 0 <= i < j < |ranges| ==> Touch(ranges[i], ranges[j]))
  }

  lemma {:induction false} FindContains<V>(s: Shape<V>, v: int, t: nat)
    requires Ordered(s) && t < |s.links|
    ensures var r := Find(s, v, t); r.Some? ==> r.value < |s.ranges| && Contains(s.ranges[r.value], v)
    decreases |s.links| - t
  {
    var next := if v < s.ranges[t].first then s.links[t].less else s.links[t].geq;
    if !Contains(s.ranges[t], v) && next.Some? {
      FindContains(s, v, next.value);
    }
  }

  /** If j holds v, the lookup of v goes the way emplace went for j, or finds another holder before. */
  lemma {:induction false} FindFollows<V>(s: Shape<V>, v: int, t: nat, j: nat)
    requires Ordered(s) && AllTouch(s.ranges) && j < |s.links|
    requires Leads(s, s.ranges[j].first, t, j) && Contains(s.ranges[j], v)
    ensures Find(s, v, t).Some?
    decreases j - t
  {
    if t < j && !Contains(s.ranges[t], v) {
      assert Touch(s.ranges[t], s.ranges[j]);
      FindFollows(s, v, Child(s, t, s.ranges[j].first).value, j);
    }
  }

  /** The first range in list order that contains v. */
  function Scan<V>(ranges: seq<Range<V>>, v: int): Option<nat> {
    if ranges == [] then None
    else
      var n := |ranges| - 1;
      var r := Scan(ranges[..n], v);
      if r.Some? then r else if Contains(ranges[n], v) then Some(n) else None
  }

  lemma {:induction false} ScanIs<V>(ranges: seq<Range<V>>, v: int)
    ensures var r := Scan(ranges, v);
      && (r.Some? ==> r.value < |ranges| && Contains(ranges[r.value], v))
      && (r.None? ==> forall j :: 0 <= j < |ranges| ==> !Contains(ranges[j], v))
    decreases |ranges|
  {
    if ranges == [] {
    } else {
      var n := |ranges| - 1;
      ScanIs(ranges[..n], v);
      assert forall j :: 0 <= j < n ==> ranges[..n][j] == ranges[j];
    }
  }

  /** Lookup succeeds exactly when a linear scan does, which is when some range holds the value, and gives one. */
  lemma LookupAgrees<V>(s: Shape<V>, v: int)
    requires SearchTree(s) && AllTouch(s.ranges)
    ensures var r := Lookup(s, v);
      && (r.Some? <==> Scan(s.ranges, v).Some?)
      && (r.Some? <==> exists j :: 0 <= j < |s.ranges| && s.ranges[j].first <= v <= s.ranges[j].last)
      && (r.Some? ==> r.value < |s.ranges| && s.ranges[r.value].first <= v <= s.ranges[r.value].last)
  {
    ScanIs(s.ranges, v);
    if s.ranges != [] {
      FindContains(s, v, 0);
      var j := Scan(s.ranges, v);
      if j.Some? {
        FindFollows(s, v, 0, j.value);
      }
    }
  }

  predicate AllApart<V>(ranges: seq<Range<V>>) {
    forall i, j :: 0 <= i < j < |ranges| ==> ranges[i].last < ranges[j].first || ranges[j].last < ranges[i].first
  }

  /** With no point in common at all, it is the same range. */
  lemma LookupIsScan<V>(s: Shape<V>, v: int)
    requires SearchTree(s) && AllTouch(s.ranges) && AllApart(s.ranges)
    ensures Lookup(s, v) == Scan(s.ranges, v)
  {
    LookupAgrees(s, v);
    ScanIs(s.ranges, v);
    var a, b := Lookup(s, v), Scan(s.ranges, v);
  }

  // ---------- emplace ----------

  lemma {:induction false} LeadsOn<V>(s: Shape<V>, key: int, t: nat, j: nat)
    requires Ordered(s) && j < |s.links| && Leads(s, key, t, j) && Child(s, j, key).Some?
    ensures Leads(s, key, t, Child(s, j, key).value)
    decreases j - t
  {
    if t < j {
      LeadsOn(s, key, Child(s, t, key).value, j);
    }
  }

  /** The new node linked in where the walk for its `first` ended. */
  function Linked<V>(s: Shape<V>, r: Range<V>, t: nat): Shape<V>
    requires Ordered(s) && t < |s.links|
  {
    var n := |s.ranges|;
    var l := if r.first < s.ranges[t].first then s.links[t].(less := Some(n)) else s.links[t].(geq := Some(n));
    Shape(s.ranges + [r], s.links[t := l] + [Links(None, None)])
  }

  lemma {:induction false} LeadsStill<V>(s: Shape<V>, r: Range<V>, t: nat, key: int, u: nat, j: nat)
    requires Ordered(s) && t < |s.links| && j < |s.links| && Child(s, t, r.first).None?
    requires Leads(s, key, u, j)
    ensures Ordered(Linked(s, r, t)) && Leads(Linked(s, r, t), key, u, j)
    decreases j - u
  {
    if u < j {
      LeadsStill(s, r, t, key, Child(s, u, key).value, j);
    }
  }

  /** The root that every walk starts from, or the place where this one ends. */
  function EmplaceAt<V>(s: Shape<V>, key: int, t: nat): nat
    requires Ordered(s) && t < |s.links|
    decreases |s.links| - t
  {
    if Child(s, t, key).None? then t else EmplaceAt(s, key, Child(s, t, key).value)
  }

  function TreeEmplaced<V>(s: Shape<V>, r: Range<V>): Shape<V>
    requires Ordered(s)
  {
    if s.ranges == [] then Shape([r], [Links(None, None)])
    else EmplaceAtInRange(s, r.first, 0); Linked(s, r, EmplaceAt(s, r.first, 0))
  }

  lemma {:induction false} EmplaceAtInRange<V>(s: Shape<V>, key: int, t: nat)
    requires Ordered(s) && t < |s.links|
    ensures var u := EmplaceAt(s, key, t); u < |s.links| && Child(s, u, key).None? && Leads(s, key, t, u)
    decreases |s.links| - t
  {
    if Child(s, t, key).Some? {
      EmplaceAtInRange(s, key, Child(s, t, key).value);
    }
  }

  /** emplace keeps the search tree and appends to the list of ranges. */
  lemma EmplaceKeepsSearchTree<V>(s: Shape<V>, r: Range<V>)
    requires SearchTree(s)
    ensures SearchTree(TreeEmplaced(s, r)) && TreeEmplaced(s, r).ranges == s.ranges + [r]
  {
    if s.ranges != [] {
      var t := EmplaceAt(s, r.first, 0);
      EmplaceAtInRange(s, r.first, 0);
      var s' := TreeEmplaced(s, r);
      forall j | 0 <= j < |s.links|
        ensures Leads(s', s.ranges[j].first, 0, j)
      {
        LeadsStill(s, r, t, s.ranges[j].first, 0, j);
      }
      LeadsStill(s, r, t, r.first, 0, t);
      LeadsOn(s', r.first, 0, t);
    }
  }

  function AfterEmplaces<V>(s: Shape<V>, rs: seq<Range<V>>): Shape<V>
    requires Ordered(s)
    decreases |rs|
  {
    if rs == [] then s else EmplacedOrdered(s, rs[0]); AfterEmplaces(TreeEmplaced(s, rs[0]), rs[1..])
  }

  lemma EmplacedOrdered<V>(s: Shape<V>, r: Range<V>)
    requires Ordered(s)
    ensures Ordered(TreeEmplaced(s, r))
  {
    if s.ranges != [] {
      EmplaceAtInRange(s, r.first, 0);
    }
  }

  lemma {:induction false} EmplacesKeepSearchTree<V>(s: Shape<V>, rs: seq<Range<V>>)
    requires SearchTree(s)
    ensures SearchTree(AfterEmplaces(s, rs)) && AfterEmplaces(s, rs).ranges == s.ranges + rs
    decreases |rs|
  {
    if rs == [] {
    } else {
      EmplaceKeepsSearchTree(s, rs[0]);
      EmplacesKeepSearchTree(TreeEmplaced(s, rs[0]), rs[1..]);
    }
  }

  lemma AfterInserts<V>(rs: seq<Range<V>>)
    ensures var s := AfterEmplaces(Shape([], []), rs); SearchTree(s) && s.ranges == rs
  {
    var s0: Shape<V> := Shape([], []);
    EmplacesKeepSearchTree(s0, rs);
    assert s0.ranges + rs == rs;
  }

  /** After any inserts of ranges that meet at most at endpoints, lookup agrees with a scan of the list of inserts. */
  lemma InsertsThenLookup<V>(rs: seq<Range<V>>, v: int)
    requires AllTouch(rs)
    ensures var s := AfterEmplaces(Shape([], []), rs);
      && SearchTree(s)
      && (Lookup(s, v).Some? <==> Scan(rs, v).Some?)
      && (Lookup(s, v).Some? <==> exists j :: 0 <= j < |rs| && rs[j].first <= v <= rs[j].last)
      && (Lookup(s, v).Some? ==>
          Lookup(s, v).value < |rs| && rs[Lookup(s, v).value].first <= v <= rs[Lookup(s, v).value].last)
      && (AllApart(rs) ==> Lookup(s, v) == Scan(rs, v))
  {
    AfterInserts(rs);
    var s := AfterEmplaces(Shape([], []), rs);
    LookupAgrees(s, v);
    if AllApart(rs) {
      LookupIsScan(s, v);
    }
  }

  // ---------- the heap ----------

  class RangeInfo<V> {
    const value: V
    const first: int
    const last: int
    var lessThan: RangeInfo?<V>
    var greaterThanOrEqualTo: RangeInfo?<V>

    constructor (value: V, first: int, last: int)
      ensures this.value == value && this.first == first && this.last == last
      ensures lessThan == null && greaterThanOrEqualTo == null
    {
      this.value, this.first, this.last := value, first, last;
      lessThan, greaterThanOrEqualTo := null, null;
    }
  }

  class RangeMap<V> {
    var rangeInfos: seq<RangeInfo<V>>
    ghost var links: seq<Links>

    constructor ()
      ensures Valid() && Tree() == Shape([], [])
    {
      rangeInfos, links := [], [];
    }

    ghost function Ranges(): seq<Range<V>>
      reads this
    {
      seq(|rangeInfos|, i requires 0 <= i < |rangeInfos| reads this =>
        Range(rangeInfos[i].value, rangeInfos[i].first, rangeInfos[i].last))
    }

    ghost function Tree(): Shape<V>
      reads this
    {
      Shape(Ranges(), links)
    }

    /** The pointer and the position mean the same node. */
    ghost predicate Points(p: RangeInfo?<V>, l: Option<nat>)
      reads this
    {
      match l
      case None => p == null
      case Some(i) => i < |rangeInfos| && p == rangeInfos[i]
    }

    ghost predicate NodeOk(i: nat)
      reads this, rangeInfos
    {
      && i < |rangeInfos| && i < |links|
      && Points(rangeInfos[i].lessThan, links[i].less) && Points(rangeInfos[i].greaterThanOrEqualTo, links[i].geq)
    }

    /** All nodes are distinct, and those in the tree have the children that `links` says. */
    ghost predicate HeapOk()
      reads this, rangeInfos
    {
      && (forall i, j :: 0 <= i < j < |rangeInfos| ==> rangeInfos[i] != rangeInfos[j])
      && |links| <= |rangeInfos|
      && (forall i: nat {:trigger NodeOk(i)} :: i < |links| ==> NodeOk(i))
    }

    ghost predicate Valid()
      reads this, rangeInfos
    {
      HeapOk() && |links| == |rangeInfos| && SearchTree(Tree())
    }

    method Emplace(first: int, last: int, value: V)
      requires Valid()
      modifies this, rangeInfos
      ensures Valid() && Tree() == TreeEmplaced(old(Tree()), Range(value, first, last))
    {
      ghost var s := Tree();
      ghost var r := Range(value, first, last);
      EmplaceKeepsSearchTree(s, r);
      var info := new RangeInfo(value, first, last);
      Append(info);
      if |rangeInfos| == 1 {
        links := [Links(None, None)];
        assert NodeOk(0);
        return;
      }
      var target := rangeInfos[0];
      ghost var t := 0;
      assert NodeOk(0);
      EmplaceAtInRange(s, first, 0);
      while true
        invariant 0 <= t < |s.links| && target == rangeInfos[t]
        invariant EmplaceAt(s, first, t) == EmplaceAt(s, first, 0)
        decreases |s.links| - t
      {
        assert NodeOk(t);
        var next := if info.first < target.first then target.lessThan else target.greaterThanOrEqualTo;
        if next == null {
          Link(target, t, info, s, r);
          return;
        }
        target := next;
        t := Child(s, t, first).value;
      }
    }

    method Append(info: RangeInfo<V>)
      requires Valid() && info !in rangeInfos
      modifies this`rangeInfos
      ensures rangeInfos == old(rangeInfos) + [info] && HeapOk()
      ensures Ranges() == old(Ranges()) + [Range(info.value, info.first, info.last)]
    {
      ghost var n := |rangeInfos|;
      assert forall i: nat :: i < n ==> NodeOk(i);
      rangeInfos := rangeInfos + [info];
      forall i: nat | i < n
        ensures NodeOk(i)
      {
        assert old(NodeOk(i));
      }
    }

    /** The write of the child pointer at the end of emplace. */
    method Link(target: RangeInfo<V>, ghost t: nat, info: RangeInfo<V>, ghost s: Shape<V>, ghost r: Range<V>)
      requires HeapOk() && links == s.links && Ranges() == s.ranges + [r] && Ordered(s) && t < |s.links|
      requires |rangeInfos| == |links| + 1 && target == rangeInfos[t] && info == rangeInfos[|links|]
      requires info.first == r.first && info.lessThan == null && info.greaterThanOrEqualTo == null
      modifies this`links, target
      ensures HeapOk() && |links| == |rangeInfos| && Tree() == Linked(s, r, t)
    {
      ghost var n := |links|;
      assert NodeOk(t);
      assert target.first == s.ranges[t].first by {
        assert Ranges()[t] == s.ranges[t];
      }
      if info.first < target.first {
        target.lessThan := info;
      } else {
        target.greaterThanOrEqualTo := info;
      }
      links := Linked(s, r, t).links;
      forall i: nat | i < |links|
        ensures NodeOk(i)
      {
        if i < n && i != t {
          assert old(NodeOk(i));
        }
      }
    }

    method LookupValue(v: int) returns (result: Option<(V, int)>)
      requires Valid()
      ensures result.Some? == Lookup(Tree(), v).Some?
      ensures result.Some? ==> Lookup(Tree(), v).value < |rangeInfos|
      ensures result.Some? ==> (var r := Ranges()[Lookup(Tree(), v).value]; result.value == (r.value, v - r.first))
    {
      if rangeInfos == [] {
        return None;
      }
      ghost var s := Tree();
      var target: RangeInfo?<V> := rangeInfos[0];
      ghost var t: nat := 0;
      while target != null
        invariant target != null ==> t < |links| && target == rangeInfos[t] && Find(s, v, t) == Lookup(s, v)
        invariant target == null ==> Lookup(s, v) == None
        decreases |links| - t, target != null
      {
        assert NodeOk(t);
        assert s.ranges[t] == Range(target.value, target.first, target.last);
        if v >= target.first {
          if v <= target.last {
            return Some((target.value, v - target.first));
          }
          target := target.greaterThanOrEqualTo;
          t := if s.links[t].geq.Some? then s.links[t].geq.value else t;
        } else {
          target := target.lessThan;
          t := if s.links[t].less.Some? then s.links[t].less.value else t;
        }
      }
      return None;
    }
  }
}
