/**
 Lazy lowering of global variables by several threads: a global is claimed under a lock, its initialiser is
 written (which may lower other globals first), it is registered, and its was_lowered flag is stored; any other
 thread that asks for it spins on the flag.
 */
module GlobalLowering {
  import opened Sums
  import opened Initialisers

  /** A call of lower_global_value in progress: the global it fills and the mentions still to be resolved. */
  datatype Frame = Frame(global: nat, todo: seq<nat>)

  datatype Phase = Idle | Check(global: nat) | Spin(global: nat) | Fill | Register | Publish

  /** `asked` lists the globals requested by this thread's caller, `got` the ones handed back to it. */
  datatype Requester = Requester(stack: seq<Frame>, phase: Phase, asked: seq<nat>, got: seq<nat>)

  /**
   `claimed` is lowered_globals_map with the claiming thread, `filled` the references written into each global so
   far, `registered` the globals in the pointer lookup map, `lowered` the globals whose flag is up, in that order.
   */
  datatype Engine = Engine(threads: seq<Requester>, claimed: map<nat, nat>, filled: map<nat, seq<nat>>,
                           registered: set<nat>, lowered: seq<nat>)

  /** Every global that occurs in an initialiser exists. */
  ghost predicate Closed(init: seq<Value>) {
    forall g: nat, h: nat :: g < |init| && Occurs(init[g], h) ==> h < |init|
  }

  function Top(r: Requester): Frame
    requires r.stack != []
  {
    r.stack[|r.stack| - 1]
  }

  datatype Action = Request(t: nat, global: nat) | Go(t: nat)

  predicate Enabled(init: seq<Value>, s: Engine, a: Action) {
    a.t < |s.threads| &&
    match a
    case Request(t, g) => g < |init| && s.threads[t].phase.Idle? && s.threads[t].stack == []
    case Go(t) => MayGo(init, s.threads[t])
  }

  predicate MayGo(init: seq<Value>, r: Requester) {
    match r.phase
    case Idle => false
    case Check(g) => g < |init|
    case Spin(_) => true
    case _ => r.stack != []
  }

  /** Under the lock: the global was not in the map, so this thread is to lower it. */
  predicate Claims(s: Engine, r: Requester) {
    r.phase.Check? && r.phase.global !in s.claimed
  }

  /** The global whose lookup returns in this step, if any. */
  function Returned(s: Engine, r: Requester): seq<nat>
    requires r.phase.Publish? ==> r.stack != []
  {
    if r.phase.Publish? then [Top(r).global]
    else if r.phase.Spin? && r.phase.global in s.lowered then [r.phase.global]
    else []
  }

  /** The thread without the frame it has finished. */
  function Unwound(r: Requester): Requester
    requires r.phase.Publish? ==> r.stack != []
  {
    if r.phase.Publish? then r.(stack := r.stack[..|r.stack| - 1]) else r
  }

  /** A lookup of g returns: to the caller outside, or to the frame whose next mention it is. */
  function Resume(r: Requester, g: nat): Requester {
    if r.stack == [] then r.(phase := Idle, got := r.got + [g])
    else
      var top := Top(r);
      r.(stack := r.stack[|r.stack| - 1 := top.(todo := if top.todo == [] then [] else top.todo[1..])], phase := Fill)
  }

  /** Thread r's own next state. */
  function Own(init: seq<Value>, s: Engine, r: Requester): Requester
    requires MayGo(init, r)
  {
    match r.phase
    case Check(g) =>
      if Claims(s, r) then r.(stack := r.stack + [Frame(g, Mentions(init[g]))], phase := Fill) else r.(phase := Spin(g))
    case Spin(g) => if Returned(s, r) == [] then r else Resume(r, g)
    case Fill => r.(phase := if Top(r).todo == [] then Register else Check(Top(r).todo[0]))
    case Register => r.(phase := Publish)
    case Publish => Resume(Unwound(r), Top(r).global)
  }

  /** What has been written into the globals after r's step. */
  function Written(s: Engine, r: Requester): map<nat, seq<nat>>
    requires r.phase.Publish? ==> r.stack != []
  {
    if Claims(s, r) then s.filled[r.phase.global := []]
    else if Returned(s, r) != [] && Unwound(r).stack != [] && Top(Unwound(r)).global in s.filled then
      var top := Top(Unwound(r)).global;
      s.filled[top := s.filled[top] + Returned(s, r)]
    else s.filled
  }

  function Apply(init: seq<Value>, s: Engine, a: Action): Engine
    requires Enabled(init, s, a)
  {
    var r := s.threads[a.t];
    match a
    case Request(t, g) => s.(threads := s.threads[t := r.(phase := Check(g), asked := r.asked + [g])])
    case Go(t) =>
      s.(threads := s.threads[t := Own(init, s, r)],
         claimed := if Claims(s, r) then s.claimed[r.phase.global := t] else s.claimed,
         filled := Written(s, r),
         registered := if r.phase.Register? then s.registered + {Top(r).global} else s.registered,
         lowered := if r.phase.Publish? then s.lowered + [Top(r).global] else s.lowered)
  }

  predicate Legal(init: seq<Value>, s: Engine, acts: seq<Action>)
    decreases |acts|
  {
    acts == [] || (Enabled(init, s, acts[0]) && Legal(init, Apply(init, s, acts[0]), acts[1..]))
  }

  function Exec(init: seq<Value>, s: Engine, acts: seq<Action>): Engine
    requires Legal(init, s, acts)
    decreases |acts|
  {
    if acts == [] then s else Exec(init, Apply(init, s, acts[0]), acts[1..])
  }

  function Init(n: nat): Engine {
    Engine(seq(n, _ => Requester([], Idle, [], [])), map[], map[], {}, [])
  }

  ghost predicate Reachable(init: seq<Value>, s: Engine) {
    exists n: nat, acts: seq<Action> :: Legal(init, Init(n), acts) && Exec(init, Init(n), acts) == s
  }

  // ---------- cycles ----------

  ghost predicate IsPath(init: seq<Value>, p: seq<nat>) {
    && |p| > 0
    && (forall k :: 0 <= k < |p| ==> p[k] < |init|)
    && (forall k :: 0 <= k < |p| - 1 ==> Occurs(init[p[k]], p[k + 1]))
  }

  /** The last global of the path already lies on it. */
  ghost predicate EndsInCycle(p: seq<nat>) {
    |p| > 0 && exists j :: 0 <= j < |p| - 1 && p[j] == p[|p| - 1]
  }

  /** Following occurrences from g leads into a cycle. */
  ghost predicate ReachesCycle(init: seq<Value>, g: nat) {
    exists p :: IsPath(init, p) && p[0] == g && EndsInCycle(p)
  }

  // ---------- the invariant ----------

  /** Frame k waits for exactly the global of frame k + 1, and the top frame for the one being checked. */
  predicate StackOk(r: Requester) {
    && (forall k {:trigger r.stack[k].todo} :: 0 <= k < |r.stack| - 1 ==>
          r.stack[k].todo != [] && r.stack[k].todo[0] == r.stack[k + 1].global)
    && (match r.phase
        case Idle => r.stack == []
        case Check(g) => r.stack != [] ==> Top(r).todo != [] && Top(r).todo[0] == g
        case Spin(g) => r.stack != [] ==> Top(r).todo != [] && Top(r).todo[0] == g
        case Fill => r.stack != []
        case Register => r.stack != [] && Top(r).todo == []
        case Publish => r.stack != [] && Top(r).todo == [])
  }

  predicate FrameOk(init: seq<Value>, s: Engine, t: nat, f: Frame) {
    && f.global < |init|
    && f.global in s.claimed && s.claimed[f.global] == t
    && f.global !in s.lowered
    && f.global in s.filled && s.filled[f.global] + f.todo == Mentions(init[f.global])
  }

  predicate ThreadOk(init: seq<Value>, s: Engine, t: nat, r: Requester) {
    && StackOk(r)
    && (forall k {:trigger FrameOk(init, s, t, r.stack[k])} :: 0 <= k < |r.stack| ==> FrameOk(init, s, t, r.stack[k]))
    && (forall j, k :: 0 <= j < k < |r.stack| ==> r.stack[j].global != r.stack[k].global)
    && (r.phase.Check? ==> r.phase.global < |init|)
    && (r.phase.Spin? ==> r.phase.global in s.claimed)
    && (r.phase.Publish? ==> Top(r).global in s.registered)
    && (forall g :: g in r.got ==> g in s.lowered)
  }

  /** The request being served. */
  function Outstanding(r: Requester): seq<nat> {
    if r.stack != [] then [r.stack[0].global]
    else if r.phase.Check? || r.phase.Spin? then [r.phase.global]
    else []
  }

  ghost predicate OnStack(r: Requester, g: nat) {
    exists k :: 0 <= k < |r.stack| && r.stack[k].global == g
  }

  /** Everything that global number i to be completed mentions was complete before it. */
  predicate MentionsBefore(init: seq<Value>, s: Engine, i: nat)
    requires i < |s.lowered| && s.lowered[i] < |init|
  {
    forall h :: h in Mentions(init[s.lowered[i]]) ==> h in s.lowered[..i]
  }

  /** A global whose flag is up is complete, and everything it mentions was complete before it. */
  predicate CompleteOk(init: seq<Value>, s: Engine) {
    && (forall i :: 0 <= i < |s.lowered| ==>
          && s.lowered[i] < |init| && s.lowered[i] in s.claimed && s.lowered[i] in s.registered
          && s.lowered[i] in s.filled && s.filled[s.lowered[i]] == Mentions(init[s.lowered[i]]))
    && (forall i :: 0 <= i < |s.lowered| ==> MentionsBefore(init, s, i))
  }

  ghost predicate LoweredOk(init: seq<Value>, s: Engine) {
    NoDup(s.lowered) && CompleteOk(init, s)
  }

  /** Only references to complete globals have been written. */
  predicate FilledOk(init: seq<Value>, s: Engine) {
    && s.filled.Keys == s.claimed.Keys
    && forall g :: g in s.claimed ==> g < |init| && forall h :: h in s.filled[g] ==> h in s.lowered
  }

  /** A claimed global is complete or on the stack of the thread that claimed it. */
  ghost predicate OwnersOk(s: Engine) {
    forall g :: g in s.claimed ==>
      s.claimed[g] < |s.threads| && (g in s.lowered || OnStack(s.threads[s.claimed[g]], g))
  }

  ghost predicate Inv(init: seq<Value>, s: Engine) {
    && Closed(init)
    && (forall t :: 0 <= t < |s.threads| ==> ThreadOk(init, s, t, s.threads[t]))
    && LoweredOk(init, s)
    && FilledOk(init, s)
    && OwnersOk(s)
  }

  // ---------- every action keeps the invariant ----------

  /** What an action of thread t leaves alone: whatever other threads have claimed, and all that is already done. */
  ghost predicate Extends(s: Engine, s': Engine, t: nat) {
    && (forall g :: g in s.claimed ==> g in s'.claimed && s'.claimed[g] == s.claimed[g])
    && (forall g :: g in s.claimed && s.claimed[g] != t ==>
          (g in s'.lowered <==> g in s.lowered) && (g in s.filled ==> g in s'.filled && s'.filled[g] == s.filled[g]))
    && (forall g :: g in s.lowered ==> g in s'.lowered)
    && s.registered <= s'.registered
  }

  lemma ActionExtends(init: seq<Value>, s: Engine, a: Action)
    requires Enabled(init, s, a) && ThreadOk(init, s, a.t, s.threads[a.t])
    ensures var s' := Apply(init, s, a);
      && Extends(s, s', a.t) && |s'.threads| == |s.threads|
      && forall t :: 0 <= t < |s.threads| && t != a.t ==> s'.threads[t] == s.threads[t]
  {
    var r := s.threads[a.t];
    assert r.stack != [] ==> FrameOk(init, s, a.t, r.stack[|r.stack| - 1]);
    assert |r.stack| >= 2 ==> FrameOk(init, s, a.t, r.stack[|r.stack| - 2]);
  }

  lemma OtherKept(init: seq<Value>, s: Engine, s': Engine, t: nat, u: nat, r: Requester)
    requires ThreadOk(init, s, u, r) && Extends(s, s', t) && t != u
    ensures ThreadOk(init, s', u, r)
  {
    forall k | 0 <= k < |r.stack|
      ensures FrameOk(init, s', u, r.stack[k])
    {
      assert FrameOk(init, s, u, r.stack[k]);
    }
  }

  lemma TodoMentioned(init: seq<Value>, s: Engine, t: nat, f: Frame)
    requires Closed(init) && FrameOk(init, s, t, f)
    ensures forall h :: h in f.todo ==> h in Mentions(init[f.global]) && h < |init|
  {
    MentionsAreOccurrences(init[f.global]);
    assert forall h :: h in f.todo ==> h in s.filled[f.global] + f.todo;
  }

  /** The acting thread's own stack, for the actions in which no call returns and none starts. */
  lemma OwnKeptInside(init: seq<Value>, s: Engine, s': Engine, t: nat, r: Requester)
    requires Closed(init) && MayGo(init, r) && ThreadOk(init, s, t, r) && !Claims(s, r)
    requires !r.phase.Publish? && !r.phase.Spin?
    requires s'.claimed == s.claimed && s'.filled == s.filled
    requires s'.lowered == s.lowered && s.registered <= s'.registered
    requires r.phase.Register? ==> Top(r).global in s'.registered
    ensures ThreadOk(init, s', t, Own(init, s, r))
  {
    FramesSame(init, s, s', t, r.stack);
    if r.stack != [] {
      TodoMentioned(init, s, t, Top(r));
      assert Top(r).todo != [] ==> Top(r).todo[0] in Top(r).todo;
    }
  }

  lemma FramesSame(init: seq<Value>, s: Engine, s': Engine, t: nat, stack: seq<Frame>)
    requires forall k :: 0 <= k < |stack| ==> FrameOk(init, s, t, stack[k])
    requires s'.claimed == s.claimed && s'.filled == s.filled && s'.lowered == s.lowered
    ensures forall k :: 0 <= k < |stack| ==> FrameOk(init, s', t, stack[k])
  {
    forall k | 0 <= k < |stack|
      ensures FrameOk(init, s', t, stack[k])
    {
      assert FrameOk(init, s, t, stack[k]);
    }
  }

  lemma ClaimKept(init: seq<Value>, s: Engine, s': Engine, t: nat, r: Requester)
    requires MayGo(init, r) && ThreadOk(init, s, t, r) && Claims(s, r)
    requires forall g :: g in s.lowered ==> g in s.claimed
    requires s'.claimed == s.claimed[r.phase.global := t] && s'.filled == s.filled[r.phase.global := []]
    requires s'.lowered == s.lowered && s'.registered == s.registered
    ensures ThreadOk(init, s', t, Own(init, s, r))
  {
    var r' := Own(init, s, r);
    forall k | 0 <= k < |r.stack|
      ensures FrameOk(init, s', t, r.stack[k]) && r.stack[k].global != r.phase.global
    {
      assert FrameOk(init, s, t, r.stack[k]);
    }
    assert forall k :: 0 <= k < |r'.stack| ==> r'.stack[k] == if k < |r.stack| then r.stack[k] else Top(r');
    ClaimedFrame(init, s', t, r.phase.global);
  }

  /** The frame of a global just claimed. */
  lemma ClaimedFrame(init: seq<Value>, s: Engine, t: nat, g: nat)
    requires g < |init| && g in s.claimed && s.claimed[g] == t && g !in s.lowered && g in s.filled && s.filled[g] == []
    ensures FrameOk(init, s, t, Frame(g, Mentions(init[g])))
  {
  }

  /** The same when a lookup of g returns into the frame that waits for it. */
  lemma ResumeKept(init: seq<Value>, s: Engine, s': Engine, t: nat, r: Requester, g: nat)
    requires (forall k {:trigger r.stack[k].todo} :: 0 <= k < |r.stack| - 1 ==>
                r.stack[k].todo != [] && r.stack[k].todo[0] == r.stack[k + 1].global)
    requires forall k :: 0 <= k < |r.stack| ==> FrameOk(init, s, t, r.stack[k])
    requires forall j, k :: 0 <= j < k < |r.stack| ==> r.stack[j].global != r.stack[k].global
    requires r.stack != [] ==> Top(r).todo != [] && Top(r).todo[0] == g
    requires g in s.lowered && forall h :: h in r.got ==> h in s.lowered
    requires s'.claimed == s.claimed && s'.lowered == s.lowered && s'.registered == s.registered
    requires s'.filled == if r.stack == [] || Top(r).global !in s.filled then s.filled
                          else s.filled[Top(r).global := s.filled[Top(r).global] + [g]]
    ensures ThreadOk(init, s', t, Resume(r, g))
  {
    if r.stack != [] {
      var top := Top(r);
      assert FrameOk(init, s, t, top);
      assert s'.filled[top.global] + top.todo[1..] == s.filled[top.global] + top.todo;
      forall k | 0 <= k < |r.stack|
        ensures FrameOk(init, s', t, Resume(r, g).stack[k])
      {
        assert FrameOk(init, s, t, r.stack[k]);
      }
    }
  }

  lemma OwnKept(init: seq<Value>, s: Engine, a: Action)
    requires Closed(init) && Enabled(init, s, a) && ThreadOk(init, s, a.t, s.threads[a.t])
    requires forall g :: g in s.lowered ==> g in s.claimed
    ensures ThreadOk(init, Apply(init, s, a), a.t, Apply(init, s, a).threads[a.t])
  {
    var r := s.threads[a.t];
    var s' := Apply(init, s, a);
    match a {
      case Request(_, _) => FramesSame(init, s, s', a.t, r.stack);
      case Go(_) =>
        if r.phase.Spin? {
          SpinKept(init, s, s', a.t, r);
        } else if r.phase.Publish? {
          PublishKept(init, s, s', a.t, r);
        } else if Claims(s, r) {
          ClaimKept(init, s, s', a.t, r);
        } else {
          OwnKeptInside(init, s, s', a.t, r);
        }
    }
  }

  lemma SpinKept(init: seq<Value>, s: Engine, s': Engine, t: nat, r: Requester)
    requires ThreadOk(init, s, t, r) && r.phase.Spin?
    requires s'.claimed == s.claimed && s'.registered == s.registered
    requires s'.lowered == s.lowered && s'.filled == Written(s, r)
    ensures ThreadOk(init, s', t, Own(init, s, r))
  {
    if r.phase.global in s.lowered {
      assert r.stack != [] ==> FrameOk(init, s, t, Top(r));
      ResumeKept(init, s, s', t, r, r.phase.global);
    } else {
      FramesSame(init, s, s', t, r.stack);
    }
  }

  lemma PublishKept(init: seq<Value>, s: Engine, s': Engine, t: nat, r: Requester)
    requires t < |s.threads| && ThreadOk(init, s, t, r) && r.phase.Publish?
    requires forall g :: g in s.lowered ==> g in s.claimed
    requires s'.claimed == s.claimed && s'.registered == s.registered
    requires s'.lowered == s.lowered + [Top(r).global] && s'.filled == Written(s, r)
    ensures ThreadOk(init, s', t, Resume(Unwound(r), Top(r).global))
  {
    var g := Top(r).global;
    var r1 := Unwound(r);
    var s1 := s.(lowered := s.lowered + [g]);
    UnwoundKept(init, s, t, r);
    ResumeKept(init, s1, s', t, r1, g);
  }

  lemma UnwoundKept(init: seq<Value>, s: Engine, t: nat, r: Requester)
    requires ThreadOk(init, s, t, r) && r.phase.Publish?
    ensures var r1 := Unwound(r); var s1 := s.(lowered := s.lowered + [Top(r).global]);
      && (forall k :: 0 <= k < |r1.stack| ==> FrameOk(init, s1, t, r1.stack[k]))
      && (r1.stack != [] ==> Top(r1).todo != [] && Top(r1).todo[0] == Top(r).global)
  {
    var r1 := Unwound(r);
    var s1 := s.(lowered := s.lowered + [Top(r).global]);
    forall k | 0 <= k < |r1.stack|
      ensures FrameOk(init, s1, t, r1.stack[k])
    {
      assert FrameOk(init, s, t, r.stack[k]);
    }
    assert r1.stack != [] ==> Top(r1) == r.stack[|r.stack| - 2] && r.stack[|r.stack| - 2].todo != [];
  }

  /** Only globals still being filled have their contents changed. */
  lemma LoweredFrame(init: seq<Value>, s: Engine, s': Engine, t: nat)
    requires LoweredOk(init, s) && Extends(s, s', t) && s'.lowered == s.lowered
    requires forall g :: g in s.lowered ==> g in s'.filled && s'.filled[g] == s.filled[g]
    ensures LoweredOk(init, s')
  {
    forall i | 0 <= i < |s.lowered|
      ensures s'.lowered[i] in s'.registered && s'.lowered[i] in s'.claimed && MentionsBefore(init, s', i)
    {
      assert MentionsBefore(init, s, i) && s.lowered[i] in s.lowered;
    }
  }

  lemma LoweredMore(init: seq<Value>, s: Engine, g: nat)
    requires LoweredOk(init, s) && g !in s.lowered
    requires g < |init| && g in s.claimed && g in s.registered && g in s.filled && s.filled[g] == Mentions(init[g])
    requires forall h :: h in Mentions(init[g]) ==> h in s.lowered
    ensures LoweredOk(init, s.(lowered := s.lowered + [g]))
  {
    var l := s.lowered + [g];
    forall i | 0 <= i < |l|
      ensures l[i] < |init| && MentionsBefore(init, s.(lowered := l), i)
    {
      if i < |s.lowered| {
        assert MentionsBefore(init, s, i) && l[..i] == s.lowered[..i];
      } else {
        assert l[..i] == s.lowered;
      }
    }
  }

  /** No action writes into a complete global. */
  lemma CompleteUntouched(init: seq<Value>, s: Engine, a: Action)
    requires Enabled(init, s, a) && ThreadOk(init, s, a.t, s.threads[a.t])
    requires forall g :: g in s.lowered ==> g in s.filled && g in s.claimed
    ensures var s' := Apply(init, s, a); forall g :: g in s.lowered ==> g in s'.filled && s'.filled[g] == s.filled[g]
  {
    var r := s.threads[a.t];
    assert r.stack != [] ==> FrameOk(init, s, a.t, Top(r));
    assert |r.stack| > 1 ==> FrameOk(init, s, a.t, r.stack[|r.stack| - 2]);
  }

  lemma PublishKeepsLowered(init: seq<Value>, s: Engine, a: Action)
    requires Enabled(init, s, a) && ThreadOk(init, s, a.t, s.threads[a.t])
    requires LoweredOk(init, s) && FilledOk(init, s) && a.Go? && s.threads[a.t].phase.Publish?
    ensures var g := Top(s.threads[a.t]).global;
      Apply(init, s, a).lowered == s.lowered + [g] && LoweredOk(init, s.(lowered := s.lowered + [g]))
  {
    var r := s.threads[a.t];
    assert FrameOk(init, s, a.t, Top(r));
    LoweredMore(init, s, Top(r).global);
  }

  lemma KeepsLowered(init: seq<Value>, s: Engine, a: Action)
    requires Enabled(init, s, a) && ThreadOk(init, s, a.t, s.threads[a.t])
    requires LoweredOk(init, s) && FilledOk(init, s)
    ensures LoweredOk(init, Apply(init, s, a))
  {
    var s' := Apply(init, s, a);
    var r := s.threads[a.t];
    ActionExtends(init, s, a);
    CompleteUntouched(init, s, a);
    if a.Go? && r.phase.Publish? {
      PublishKeepsLowered(init, s, a);
      assert FrameOk(init, s, a.t, Top(r));
      assert |r.stack| > 1 ==> FrameOk(init, s, a.t, r.stack[|r.stack| - 2]);
      LoweredFrame(init, s.(lowered := s.lowered + [Top(r).global]), s', a.t);
    } else {
      LoweredFrame(init, s, s', a.t);
    }
  }

  lemma KeepsFilled(init: seq<Value>, s: Engine, a: Action)
    requires Enabled(init, s, a) && ThreadOk(init, s, a.t, s.threads[a.t]) && FilledOk(init, s)
    ensures FilledOk(init, Apply(init, s, a))
  {
    var r := s.threads[a.t];
    if a.Go? {
      assert |r.stack| > 1 ==> FrameOk(init, s, a.t, r.stack[|r.stack| - 2]);
      assert r.stack != [] ==> FrameOk(init, s, a.t, Top(r));
      WrittenOk(init, s, a.t, r, Apply(init, s, a));
    }
  }

  lemma WrittenOk(init: seq<Value>, s: Engine, t: nat, r: Requester, s': Engine)
    requires FilledOk(init, s) && MayGo(init, r)
    requires Unwound(r).stack != [] ==> Top(Unwound(r)).global in s.claimed
    requires s'.filled == Written(s, r)
    requires s'.claimed == if Claims(s, r) then s.claimed[r.phase.global := t] else s.claimed
    requires s'.lowered == if r.phase.Publish? then s.lowered + [Top(r).global] else s.lowered
    ensures FilledOk(init, s')
  {
    forall g | g in s'.claimed
      ensures forall h :: h in s'.filled[g] ==> h in s'.lowered
    {
    }
  }

  /** Own keeps the globals of all frames but a published one, and adds the claimed one. */
  lemma OwnStack(init: seq<Value>, s: Engine, r: Requester)
    requires MayGo(init, r)
    ensures var r' := Own(init, s, r);
      && (forall k :: 0 <= k < |r.stack| && (r.phase.Publish? ==> k < |r.stack| - 1) ==>
            k < |r'.stack| && r'.stack[k].global == r.stack[k].global)
      && (Claims(s, r) ==> OnStack(r', r.phase.global))
  {
    if Claims(s, r) {
      assert Own(init, s, r).stack[|r.stack|].global == r.phase.global;
    }
  }

  lemma KeepsOwners(init: seq<Value>, s: Engine, a: Action)
    requires Enabled(init, s, a) && OwnersOk(s)
    ensures OwnersOk(Apply(init, s, a))
  {
    var s' := Apply(init, s, a);
    var r := s.threads[a.t];
    if a.Go? {
      OwnStack(init, s, r);
    }
    forall g | g in s'.claimed && g !in s'.lowered
      ensures OnStack(s'.threads[s'.claimed[g]], g)
    {
      if g in s.claimed {
        var k :| 0 <= k < |s.threads[s.claimed[g]].stack| && s.threads[s.claimed[g]].stack[k].global == g;
        assert s'.threads[s'.claimed[g]].stack[k].global == g;
      }
    }
  }

  lemma ActionKeeps(init: seq<Value>, s: Engine, a: Action)
    requires Inv(init, s) && Enabled(init, s, a)
    ensures Inv(init, Apply(init, s, a))
  {
    var s' := Apply(init, s, a);
    ActionExtends(init, s, a);
    OwnKept(init, s, a);
    forall u | 0 <= u < |s.threads| && u != a.t
      ensures ThreadOk(init, s', u, s'.threads[u])
    {
      OtherKept(init, s, s', a.t, u, s.threads[u]);
    }
    KeepsLowered(init, s, a);
    KeepsFilled(init, s, a);
    KeepsOwners(init, s, a);
  }

  lemma InitInv(init: seq<Value>, n: nat)
    requires Closed(init)
    ensures Inv(init, Init(n))
  {
  }

  lemma {:induction false} ExecKeeps(init: seq<Value>, s: Engine, acts: seq<Action>)
    requires Inv(init, s) && Legal(init, s, acts)
    ensures Inv(init, Exec(init, s, acts))
    decreases |acts|
  {
    if acts == [] {
    } else {
      ActionKeeps(init, s, acts[0]);
      ExecKeeps(init, Apply(init, s, acts[0]), acts[1..]);
    }
  }

  lemma ReachableInv(init: seq<Value>, s: Engine)
    requires Closed(init) && Reachable(init, s)
    ensures Inv(init, s)
  {
    var n: nat, acts: seq<Action> :| Legal(init, Init(n), acts) && Exec(init, Init(n), acts) == s;
    InitInv(init, n);
    ExecKeeps(init, Init(n), acts);
  }

  // ---------- main results ----------

  /** h is reached from g by following occurrences. */
  ghost predicate Reaches(init: seq<Value>, g: nat, h: nat) {
    exists p :: IsPath(init, p) && p[0] == g && p[|p| - 1] == h
  }

  /**
   A global handed back by any lookup, in any interleaving, is completely written and registered, together with every
   global that can be reached from it: the references written into it are those that occur in its initialiser, in order.
   */
  lemma ReturnedIsComplete(init: seq<Value>, s: Engine, t: nat, g: nat, h: nat)
    requires Closed(init) && Reachable(init, s)
    requires t < |s.threads| && g in s.threads[t].got && Reaches(init, g, h)
    ensures h in s.lowered && h in s.registered && h in s.filled
    ensures exists paths :: Lists(init[h], paths, s.filled[h])
  {
    ReachableInv(init, s);
    assert ThreadOk(init, s, t, s.threads[t]);
    var p :| IsPath(init, p) && p[0] == g && p[|p| - 1] == h;
    var i :| 0 <= i < |s.lowered| && s.lowered[i] == g;
    var j := PathDescends(init, s, p, i);
    MentionsAreOccurrences(init[h]);
  }

  /** Along a path of mentions, each global was complete before the one that mentions it. */
  lemma {:induction false} PathDescends(init: seq<Value>, s: Engine, p: seq<nat>, i: nat) returns (j: nat)
    requires CompleteOk(init, s) && IsPath(init, p) && i < |s.lowered| && s.lowered[i] == p[0]
    ensures j + |p| - 1 <= i && s.lowered[j] == p[|p| - 1]
    decreases |p|
  {
    if |p| == 1 {
      j := i;
    } else {
      MentionsAreOccurrences(init[p[0]]);
      assert p[1] in Mentions(init[p[0]]) && MentionsBefore(init, s, i);
      var k :| 0 <= k < |s.lowered[..i]| && s.lowered[..i][k] == p[1];
      assert IsPath(init, p[1..]);
      j := PathDescends(init, s, p[1..], k);
    }
  }

  /** Each global is lowered at most once, by the thread that claimed it; a claim is never withdrawn or passed on. */
  lemma LoweredOnce(init: seq<Value>, s: Engine, a: Action)
    requires Closed(init) && Reachable(init, s) && Enabled(init, s, a)
    ensures var s' := Apply(init, s, a);
      && NoDup(s'.lowered) && s.lowered <= s'.lowered
      && (forall g :: g in s.claimed ==> g in s'.claimed && s'.claimed[g] == s.claimed[g])
      && (s'.lowered != s.lowered ==> s'.lowered[|s.lowered|] in s.claimed && s.claimed[s'.lowered[|s.lowered|]] == a.t)
      && (forall g :: g in s.claimed && s.claimed[g] != a.t ==>
          g in s'.filled && g in s.filled && s'.filled[g] == s.filled[g])
  {
    ReachableInv(init, s);
    ActionKeeps(init, s, a);
    var r := s.threads[a.t];
    assert ThreadOk(init, s, a.t, r);
    assert r.stack != [] ==> FrameOk(init, s, a.t, Top(r));
    ActionExtends(init, s, a);
  }

  /** A thread inside a lookup that can do something other than spin. */
  predicate Progresses(s: Engine, r: Requester) {
    match r.phase
    case Idle => false
    case Spin(g) => g in s.lowered
    case _ => true
  }

  /** A request for g, made in any run, never returns if the mentions of g lead into a cycle. */
  lemma CyclicNeverReturns(init: seq<Value>, s: Engine, t: nat, g: nat)
    requires Closed(init) && Reachable(init, s) && ReachesCycle(init, g)
    ensures g !in s.lowered
    ensures t < |s.threads| ==> g !in s.threads[t].got
  {
    ReachableInv(init, s);
    assert t < |s.threads| ==> ThreadOk(init, s, t, s.threads[t]);
    if g in s.lowered {
      var i :| 0 <= i < |s.lowered| && s.lowered[i] == g;
      var p :| IsPath(init, p) && p[0] == g && EndsInCycle(p);
      var x, y := CycleDescends(init, s, p, i);
    }
  }

  /** Were the start of a path into a cycle complete, some global would have been completed twice. */
  lemma CycleDescends(init: seq<Value>, s: Engine, p: seq<nat>, i: nat) returns (x: nat, y: nat)
    requires CompleteOk(init, s) && IsPath(init, p) && EndsInCycle(p) && i < |s.lowered| && s.lowered[i] == p[0]
    ensures y < x < |s.lowered| && s.lowered[y] == s.lowered[x]
  {
    var j :| 0 <= j < |p| - 1 && p[j] == p[|p| - 1];
    x := PathDescends(init, s, p[..j + 1], i);
    y := PathDescends(init, s, p[j..], x);
  }

  /** The request that the thread is serving, if any, does not lead into a cycle. */
  ghost predicate ClearRequest(init: seq<Value>, r: Requester) {
    Outstanding(r) != [] ==> !ReachesCycle(init, Outstanding(r)[0])
  }

  /** What mentions a global that leads into a cycle leads into one itself. */
  lemma CycleInherited(init: seq<Value>, g: nat, h: nat)
    requires g < |init| && h in Mentions(init[g]) && ReachesCycle(init, h)
    ensures ReachesCycle(init, g)
  {
    MentionsAreOccurrences(init[g]);
    var p :| IsPath(init, p) && p[0] == h && EndsInCycle(p);
    var j :| 0 <= j < |p| - 1 && p[j] == p[|p| - 1];
    var q := [g] + p;
    assert IsPath(init, q) && q[j + 1] == q[|q| - 1];
  }

  /** A clear request is only ever served by lookups of globals that are clear too. */
  lemma {:induction false} StackClear(init: seq<Value>, s: Engine, t: nat, r: Requester, k: nat)
    requires Closed(init) && ThreadOk(init, s, t, r) && ClearRequest(init, r) && k < |r.stack|
    ensures r.stack[k].global < |init| && !ReachesCycle(init, r.stack[k].global)
  {
    assert FrameOk(init, s, t, r.stack[k]);
    if k == 0 {
      assert Outstanding(r) == [r.stack[0].global];
    } else {
      StackClear(init, s, t, r, k - 1);
      MentionClear(init, s, t, r.stack[k - 1], r.stack[k].global);
    }
  }

  lemma MentionClear(init: seq<Value>, s: Engine, t: nat, f: Frame, h: nat)
    requires Closed(init) && FrameOk(init, s, t, f) && !ReachesCycle(init, f.global) && f.todo != [] && f.todo[0] == h
    ensures h < |init| && !ReachesCycle(init, h)
  {
    TodoMentioned(init, s, t, f);
    assert f.todo[0] in f.todo;
    if ReachesCycle(init, h) {
      CycleInherited(init, f.global, h);
    }
  }

  lemma LookupClear(init: seq<Value>, s: Engine, t: nat, r: Requester)
    requires Closed(init) && ThreadOk(init, s, t, r) && ClearRequest(init, r) && r.phase.Spin?
    ensures !ReachesCycle(init, r.phase.global)
  {
    if r.stack != [] {
      StackClear(init, s, t, r, |r.stack| - 1);
      assert FrameOk(init, s, t, r.stack[|r.stack| - 1]);
      MentionClear(init, s, t, Top(r), r.phase.global);
    } else {
      assert Outstanding(r) == [r.phase.global];
    }
  }

  /** In a nonempty set of globals clear of cycles, one mentions no global of the set. */
  lemma MinimalGlobal(init: seq<Value>, todo: set<nat>) returns (m: nat)
    requires todo != {} && forall g :: g in todo ==> g < |init| && !ReachesCycle(init, g)
    ensures m in todo && forall h :: h in Mentions(init[m]) ==> h !in todo
  {
    var g :| g in todo;
    m := FollowMentions(init, todo, [g]);
  }

  function Unseen(todo: set<nat>, p: seq<nat>): set<nat> { set x | x in todo && x !in p }

  lemma FollowMentions(init: seq<Value>, todo: set<nat>, p: seq<nat>) returns (m: nat)
    requires forall g :: g in todo ==> g < |init| && !ReachesCycle(init, g)
    requires IsPath(init, p) && forall k :: 0 <= k < |p| ==> p[k] in todo
    ensures m in todo && forall h :: h in Mentions(init[m]) ==> h !in todo
    decreases Unseen(todo, p)
  {
    m := p[|p| - 1];
    if h :| h in Mentions(init[m]) && h in todo {
      var q := p + [h];
      MentionsAreOccurrences(init[m]);
      assert IsPath(init, q);
      if h in p {
        CycleFound(init, p, h);
      } else {
        assert h in Unseen(todo, p) && Unseen(todo, q) == Unseen(todo, p) - {h};
        m := FollowMentions(init, todo, q);
      }
    }
  }

  lemma CycleFound(init: seq<Value>, p: seq<nat>, h: nat)
    requires IsPath(init, p + [h]) && |p| > 0 && h in p
    ensures ReachesCycle(init, p[0])
  {
    var q := p + [h];
    var j :| 0 <= j < |p| && p[j] == h;
    assert q[j] == q[|q| - 1] && q[0] == p[0];
  }

  /**
   No deadlock: in every state in which a request that does not lead into a cycle is under way, some thread can do more
   than spin, whatever else has been asked for.
   */
  lemma NoDeadlock(init: seq<Value>, s: Engine, t: nat) returns (u: nat)
    requires Inv(init, s) && t < |s.threads| && !s.threads[t].phase.Idle? && ClearRequest(init, s.threads[t])
    ensures u < |s.threads| && Progresses(s, s.threads[u])
  {
    assert ThreadOk(init, s, t, s.threads[t]);
    u := t;
    if !Progresses(s, s.threads[t]) {
      LookupClear(init, s, t, s.threads[t]);
      var open := set g | g in s.claimed && g !in s.lowered && !ReachesCycle(init, g);
      assert s.threads[t].phase.global in open;
      var m := MinimalGlobal(init, open);
      forall h | h in Mentions(init[m])
        ensures h !in s.claimed || h in s.lowered
      {
        if ReachesCycle(init, h) {
          CycleInherited(init, m, h);
        }
      }
      u := s.claimed[m];
      OwnerProgresses(init, s, m, u);
    }
  }

  /** The same for whole runs: any number of threads, any requests, any interleaving. */
  lemma NeverDeadlocks(init: seq<Value>, n: nat, acts: seq<Action>, t: nat) returns (u: nat)
    requires Closed(init) && Legal(init, Init(n), acts)
    requires var s := Exec(init, Init(n), acts);
      t < |s.threads| && !s.threads[t].phase.Idle? && ClearRequest(init, s.threads[t])
    ensures var s := Exec(init, Init(n), acts);
      && u < |s.threads| && Progresses(s, s.threads[u])
      && Enabled(init, s, Go(u)) && Potential(init, Apply(init, s, Go(u))) < Potential(init, s)
  {
    var s := Exec(init, Init(n), acts);
    InitInv(init, n);
    ExecKeeps(init, Init(n), acts);
    u := NoDeadlock(init, s, t);
    GoUsesPotential(init, s, u);
  }

  /** The owner of a global none of whose mentions is open. */
  lemma OwnerProgresses(init: seq<Value>, s: Engine, m: nat, u: nat)
    requires m < |init| && u < |s.threads| && ThreadOk(init, s, u, s.threads[u]) && OnStack(s.threads[u], m)
    requires FilledOk(init, s)
    requires forall h :: h in Mentions(init[m]) ==> h !in s.claimed || h in s.lowered
    ensures Progresses(s, s.threads[u])
  {
    var r := s.threads[u];
    var k :| 0 <= k < |r.stack| && r.stack[k].global == m;
    assert FrameOk(init, s, u, r.stack[k]);
    if k < |r.stack| - 1 {
      NextFrame(init, s, u, r, k);
    } else if r.phase.Spin? {
      TopMention(init, s, u, r, Top(r));
    }
  }

  /** A thread spins on a global that its top frame mentions. */
  lemma TopMention(init: seq<Value>, s: Engine, u: nat, r: Requester, f: Frame)
    requires StackOk(r) && r.stack != [] && r.phase.Spin? && f == Top(r) && FrameOk(init, s, u, f)
    ensures r.phase.global in Mentions(init[f.global])
  {
    assert r.phase.global == f.todo[0] && f.todo[0] in s.filled[f.global] + f.todo;
  }

  /** A frame above another is for a global that one mentions, still open. */
  lemma NextFrame(init: seq<Value>, s: Engine, u: nat, r: Requester, k: nat)
    requires ThreadOk(init, s, u, r) && k < |r.stack| - 1
    requires FrameOk(init, s, u, r.stack[k])
    ensures var h := r.stack[k + 1].global; h in Mentions(init[r.stack[k].global]) && h in s.claimed && h !in s.lowered
  {
    var f := r.stack[k];
    assert r.stack[k].todo != [] && f.todo[0] in s.filled[f.global] + f.todo;
    assert FrameOk(init, s, u, r.stack[k + 1]);
  }

  // ---------- all requests are served ----------

  /** Three steps for every mention still to be resolved in any frame. */
  function FramesWeight(stack: seq<Frame>): nat {
    if stack == [] then 0 else FramesWeight(stack[..|stack| - 1]) + 3 * |stack[|stack| - 1].todo|
  }

  function ThreadWeight(r: Requester): nat {
    FramesWeight(r.stack) +
    match r.phase
    case Idle => 0
    case Check(_) => 2
    case Spin(_) => 1
    case Fill => 3
    case Register => 2
    case Publish => 1
  }

  function UnclaimedWeights(init: seq<Value>, s: Engine): seq<nat> {
    seq(|init|, g requires 0 <= g < |init| => if g in s.claimed then 0 else 3 * |Mentions(init[g])| + 2)
  }

  function ThreadWeights(s: Engine): seq<nat> {
    seq(|s.threads|, t requires 0 <= t < |s.threads| => ThreadWeight(s.threads[t]))
  }

  /** The work that remains before every request made so far has returned. */
  function Potential(init: seq<Value>, s: Engine): nat {
    Sum(UnclaimedWeights(init, s)) + Sum(ThreadWeights(s))
  }

  lemma ResumeWeight(r: Requester, g: nat)
    requires r.stack != [] ==> Top(r).todo != []
    ensures ThreadWeight(Resume(r, g)) <= FramesWeight(r.stack)
  {
    if r.stack != [] {
      var r' := Resume(r, g);
      assert r'.stack[..|r.stack| - 1] == r.stack[..|r.stack| - 1];
    }
  }

  lemma OwnWeight(init: seq<Value>, s: Engine, r: Requester)
    requires MayGo(init, r) && StackOk(r) && Progresses(s, r)
    ensures ThreadWeight(Own(init, s, r))
            < ThreadWeight(r) + if Claims(s, r) then 3 * |Mentions(init[r.phase.global])| + 2 else 0
  {
    if Claims(s, r) {
      var r' := Own(init, s, r);
      assert r'.stack[..|r'.stack| - 1] == r.stack;
    } else if r.phase.Spin? {
      ResumeWeight(r, r.phase.global);
    } else if r.phase.Publish? {
      var u := Unwound(r);
      assert u.stack != [] ==> Top(u) == r.stack[|r.stack| - 2] && r.stack[|r.stack| - 2].todo != [];
      ResumeWeight(u, Top(r).global);
    }
  }

  /** Every step that is not a spin uses up potential, whatever other threads do in between. */
  lemma GoUsesPotential(init: seq<Value>, s: Engine, t: nat)
    requires Inv(init, s) && t < |s.threads| && Progresses(s, s.threads[t])
    ensures Enabled(init, s, Go(t)) && Potential(init, Apply(init, s, Go(t))) < Potential(init, s)
  {
    var r := s.threads[t];
    assert ThreadOk(init, s, t, r);
    OwnWeight(init, s, r);
    WeightsMove(init, s, Apply(init, s, Go(t)), t);
  }

  lemma WeightsMove(init: seq<Value>, s: Engine, s': Engine, t: nat)
    requires t < |s.threads| && MayGo(init, s.threads[t])
    requires s'.threads == s.threads[t := Own(init, s, s.threads[t])]
    requires s'.claimed == if Claims(s, s.threads[t]) then s.claimed[s.threads[t].phase.global := t] else s.claimed
    ensures Sum(ThreadWeights(s')) + ThreadWeight(s.threads[t]) == Sum(ThreadWeights(s)) + ThreadWeight(s'.threads[t])
    ensures Sum(UnclaimedWeights(init, s')) ==
            Sum(UnclaimedWeights(init, s)) -
            if Claims(s, s.threads[t]) then 3 * |Mentions(init[s.threads[t].phase.global])| + 2 else 0
  {
    var r := s.threads[t];
    var w := ThreadWeight(s'.threads[t]);
    SumUpdate(ThreadWeights(s), t, w);
    assert ThreadWeights(s') == ThreadWeights(s)[t := w];
    if Claims(s, r) {
      SumUpdate(UnclaimedWeights(init, s), r.phase.global, 0);
      assert UnclaimedWeights(init, s') == UnclaimedWeights(init, s)[r.phase.global := 0];
    } else {
      assert UnclaimedWeights(init, s') == UnclaimedWeights(init, s);
    }
  }

  /** Each thread has been handed back, in order, all globals it asked for except the one being looked up. */
  predicate AskedOk(s: Engine) {
    forall t :: 0 <= t < |s.threads| ==> s.threads[t].asked == s.threads[t].got + Outstanding(s.threads[t])
  }

  lemma AskedKept(init: seq<Value>, s: Engine, a: Action)
    requires Enabled(init, s, a) && AskedOk(s) && StackOk(s.threads[a.t])
    ensures AskedOk(Apply(init, s, a))
  {
  }

  lemma {:induction false} ExecAsked(init: seq<Value>, s: Engine, acts: seq<Action>)
    requires Inv(init, s) && AskedOk(s) && Legal(init, s, acts)
    ensures AskedOk(Exec(init, s, acts))
    decreases |acts|
  {
    if acts == [] {
      // nothing has happened
    } else {
      assert ThreadOk(init, s, acts[0].t, s.threads[acts[0].t]);
      AskedKept(init, s, acts[0]);
      ActionKeeps(init, s, acts[0]);
      ExecAsked(init, Apply(init, s, acts[0]), acts[1..]);
    }
  }

  /** The thread has been handed back, in order, all it has asked for. */
  predicate Served(r: Requester) { r.phase.Idle? && r.got == r.asked }

  /** Since s nobody has asked for more, and no request has been swapped for another. */
  ghost predicate SameRequests(s: Engine, s': Engine) {
    && |s'.threads| == |s.threads|
    && forall t :: 0 <= t < |s.threads| ==>
         && s'.threads[t].asked == s.threads[t].asked
         && (Outstanding(s'.threads[t]) == [] || Outstanding(s'.threads[t]) == Outstanding(s.threads[t]))
  }

  lemma OwnOutstanding(init: seq<Value>, s: Engine, r: Requester)
    requires MayGo(init, r) && StackOk(r)
    ensures var r' := Own(init, s, r);
      r'.asked == r.asked && (Outstanding(r') == [] || Outstanding(r') == Outstanding(r))
  {
  }

  lemma ServeStep(init: seq<Value>, s: Engine, u: nat)
    requires Inv(init, s) && AskedOk(s) && u < |s.threads| && Progresses(s, s.threads[u])
    ensures Enabled(init, s, Go(u))
    ensures var s' := Apply(init, s, Go(u));
      Inv(init, s') && AskedOk(s') && SameRequests(s, s') && Potential(init, s') < Potential(init, s)
  {
    GoUsesPotential(init, s, u);
    ActionKeeps(init, s, Go(u));
    assert ThreadOk(init, s, u, s.threads[u]);
    OwnOutstanding(init, s, s.threads[u]);
    AskedKept(init, s, Go(u));
  }

  /** Every clear request under way in s has been served in s'. */
  ghost predicate ClearServed(init: seq<Value>, s: Engine, s': Engine) {
    && SameRequests(s, s')
    && forall t :: 0 <= t < |s.threads| && ClearRequest(init, s.threads[t]) ==> Served(s'.threads[t])
  }

  /** Some run from s serves every clear request under way. */
  ghost predicate CanServe(init: seq<Value>, s: Engine) {
    exists acts :: Legal(init, s, acts) && ClearServed(init, s, Exec(init, s, acts))
  }

  lemma {:induction false} ServeAll(init: seq<Value>, s: Engine)
    requires Inv(init, s) && AskedOk(s)
    ensures CanServe(init, s)
    decreases Potential(init, s)
  {
    if t :| 0 <= t < |s.threads| && !s.threads[t].phase.Idle? && ClearRequest(init, s.threads[t]) {
      var u := NoDeadlock(init, s, t);
      ServeStep(init, s, u);
      ServeAll(init, Apply(init, s, Go(u)));
      ServesAfter(init, s, u);
    } else {
      NobodyWaits(init, s);
      assert Legal(init, s, []) && Exec(init, s, []) == s;
    }
  }

  lemma ServesAfter(init: seq<Value>, s: Engine, u: nat)
    requires Enabled(init, s, Go(u)) && SameRequests(s, Apply(init, s, Go(u)))
    requires CanServe(init, Apply(init, s, Go(u)))
    ensures CanServe(init, s)
  {
    var s' := Apply(init, s, Go(u));
    var rest :| Legal(init, s', rest) && ClearServed(init, s', Exec(init, s', rest));
    var acts := [Go(u)] + rest;
    assert acts[1..] == rest;
    ServedBefore(init, s, s', Exec(init, s', rest));
    assert Legal(init, s, acts) && Exec(init, s, acts) == Exec(init, s', rest);
  }

  lemma ServedBefore(init: seq<Value>, s: Engine, s': Engine, t: Engine)
    requires SameRequests(s, s') && ClearServed(init, s', t)
    ensures ClearServed(init, s, t)
  {
  }

  lemma NobodyWaits(init: seq<Value>, s: Engine)
    requires Inv(init, s) && AskedOk(s)
    requires forall t :: 0 <= t < |s.threads| && ClearRequest(init, s.threads[t]) ==> s.threads[t].phase.Idle?
    ensures ClearServed(init, s, s)
  {
    forall t | 0 <= t < |s.threads| && ClearRequest(init, s.threads[t])
      ensures Served(s.threads[t])
    {
      assert ThreadOk(init, s, t, s.threads[t]);
    }
  }

  /**
   In every state that any run of any requests can reach, the threads can finish every request under way that does not
   lead into a cycle, even if others never return.
   */
  lemma AllServed(init: seq<Value>, n: nat, acts: seq<Action>)
    requires Closed(init) && Legal(init, Init(n), acts)
    ensures CanServe(init, Exec(init, Init(n), acts))
  {
    InitInv(init, n);
    ExecKeeps(init, Init(n), acts);
    ExecAsked(init, Init(n), acts);
    ServeAll(init, Exec(init, Init(n), acts));
  }

  /** A run in which one thread asks for g and gets it. */
  lemma ServedRun(init: seq<Value>, g: nat) returns (s: Engine)
    requires Closed(init) && g < |init| && !ReachesCycle(init, g)
    ensures Reachable(init, s) && |s.threads| == 1 && g in s.threads[0].got
  {
    var s0 := Init(1);
    InitInv(init, 1);
    ActionKeeps(init, s0, Request(0, g));
    var s1 := Apply(init, s0, Request(0, g));
    ServeAll(init, s1);
    var acts :| Legal(init, s1, acts) && ClearServed(init, s1, Exec(init, s1, acts));
    var all := [Request(0, g)] + acts;
    assert all[1..] == acts;
    s := Exec(init, s1, acts);
    assert Legal(init, s0, all) && Exec(init, s0, all) == s;
    assert s.threads[0].got == [g];
  }

  /** A request for a global can return, in some run, exactly when what occurs in it does not lead into a cycle. */
  lemma ReturnsIffNoCycle(init: seq<Value>, g: nat)
    requires Closed(init) && g < |init|
    ensures !ReachesCycle(init, g) <==>
            exists s, t :: Reachable(init, s) && 0 <= t < |s.threads| && g in s.threads[t].got
  {
    if !ReachesCycle(init, g) {
      var s := ServedRun(init, g);
      assert Reachable(init, s) && g in s.threads[0].got;
    } else {
      forall s, t | Reachable(init, s) && 0 <= t < |s.threads|
        ensures g !in s.threads[t].got
      {
        CyclicNeverReturns(init, s, t, g);
      }
    }
  }
}
