/** How a failed task stops the pool, and how a thief looks around: what a worker's own steps do one after the other. */
module PoolStops {
  import opened ThreadPool

  // ---------- runs ----------

  predicate Threads(acts: seq<Action>) { forall k :: 0 <= k < |acts| ==> acts[k].Thread? }

  /** The state after the first m actions. */
  ghost function After(s: Pool, acts: seq<Action>, m: nat): Pool
    requires Legal(s, acts) && m <= |acts|
    decreases |acts|
  {
    if m == 0 then s else After(Apply(s, acts[0]), acts[1..], m - 1)
  }

  /** Worker i is at this point of its code at some time in the run. */
  ghost predicate Passes(s: Pool, acts: seq<Action>, i: nat, pc: Pc)
    requires Legal(s, acts)
  {
    exists m: nat :: m <= |acts| && i < |After(s, acts, m).ws| && After(s, acts, m).ws[i].pc == pc
  }

  lemma PassesLater(s: Pool, acts: seq<Action>, i: nat, pc: Pc)
    requires Legal(s, acts) && acts != [] && Passes(Apply(s, acts[0]), acts[1..], i, pc)
    ensures Passes(s, acts, i, pc)
  {
    var s' := Apply(s, acts[0]);
    var m: nat :| m <= |acts[1..]| && i < |After(s', acts[1..], m).ws| && After(s', acts[1..], m).ws[i].pc == pc;
    assert After(s, acts, m + 1) == After(s', acts[1..], m);
  }

  /** What single steps rely on. */
  predicate Sane(s: Pool) { Indexed(s) && 0 < s.max <= |s.ws| }

  lemma ReachableSane(s: Pool, i: nat)
    requires Reachable(s) && s.main.Idle? && i < |s.ws| && s.ws[i].pc != Dispatch
    ensures Sane(s) && i < s.max && StartedOk(s.ws[i], s.failed, s.max)
  {
    ReachableInv(s);
  }

  lemma OwnIndexed(s: Pool, w: Worker, err: bool)
    requires Sane(s) && w.target < |s.ws| && (w.pc.Tell? ==> w.pc.j < |s.ws|)
    ensures var w' := Own(s, w, err); w'.target < |s.ws| && (w'.pc.Tell? ==> w'.pc.j < |s.ws|)
  {
  }

  lemma OthersIndexed(s: Pool, j: nat)
    requires Sane(s) && j < |s.ws|
    ensures var ws := Others(s, s.ws[j]);
      forall i :: 0 <= i < |s.ws| ==> ws[i].target == s.ws[i].target && ws[i].pc == s.ws[i].pc
  {
  }

  lemma StepSane(s: Pool, j: nat, err: bool)
    requires Sane(s) && j < |s.ws|
    ensures var s' := Step(s, j, err); Sane(s') && |s'.ws| == |s.ws| && s'.max == s.max
  {
    OthersIndexed(s, j);
    OwnIndexed(s, Others(s, s.ws[j])[j], err);
  }

  /** Another worker's step leaves this one where it is in its code. */
  lemma OtherStep(s: Pool, j: nat, err: bool, i: nat)
    requires Sane(s) && i < |s.ws| && j < |s.ws| && i != j
    ensures var w := s.ws[i]; var w' := Step(s, j, err).ws[i];
      w'.pc == w.pc && w'.target == w.target && w'.fails == w.fails
  {
  }

  // ---------- a failed task stops every worker ----------

  /** One step of worker i, whose work_func, if it returns, returns no error. */
  function OwnStep(i: nat): Pool -> Pool {
    (s: Pool) => if Sane(s) && i < |s.ws| then Step(s, i, false) else s
  }

  function Iterate<T>(f: T -> T, x: T, k: nat): T
    decreases k
  {
    if k == 0 then x else Iterate(f, f(x), k - 1)
  }

  lemma {:induction false} IterateAdd<T>(f: T -> T, x: T, a: nat, b: nat)
    ensures Iterate(f, x, a + b) == Iterate(f, Iterate(f, x, a), b)
    decreases a
  {
    if a == 0 {
    } else {
      IterateAdd(f, f(x), a - 1, b);
    }
  }

  /** k steps of worker i, and none of any other. */
  function Alone(s: Pool, i: nat, k: nat): Pool { Iterate(OwnStep(i), s, k) }

  /** Where a mode ends when the worker is told to stop. */
  function Told(mode: Mode): Mode { if mode == Working || mode == Stealing then ToldToStop else mode }

  /** From j on every worker has been told, below j nothing has changed. */
  ghost predicate ToldFrom(s: Pool, t: Pool, j: nat) {
    && |t.ws| == |s.ws|
    && forall x :: 0 <= x < |s.ws| ==> t.ws[x].mode == if x < j then s.ws[x].mode else Told(s.ws[x].mode)
  }

  /** Worker i has told worker j, and goes on to the next one, or with its own loop. */
  ghost predicate ToldOne(s: Pool, t: Pool, i: nat, c: Caller, j: nat)
    requires i < |s.ws|
  {
    && |t.ws| == |s.ws| && t.max == s.max
    && (forall x :: 0 <= x < |s.ws| ==> t.ws[x].mode == if x == j then Told(s.ws[x].mode) else s.ws[x].mode)
    && (j + 1 < |s.ws| ==> t.ws[i].pc == Tell(c, j + 1, false))
    && (j + 1 >= |s.ws| ==> t.ws[i].pc == if c.OwnLoop? then Dispatch else StealGuard)
  }

  lemma TellsWorking(s: Pool, i: nat, c: Caller, j: nat)
    requires Sane(s) && i < |s.ws| && s.ws[i].pc == Tell(c, j, false)
    ensures var t := Step(s, i, false);
      if s.ws[j].mode == Working then ToldOne(s, t, i, c, j)
      else t == s.(ws := s.ws[i := s.ws[i].(pc := Tell(c, j, true))])
  {
    assert s.given + [] == s.given && s.finished + [] == s.finished;
  }

  lemma TellsStealing(s: Pool, i: nat, c: Caller, j: nat)
    requires Sane(s) && i < |s.ws| && s.ws[i].pc == Tell(c, j, true) && s.ws[j].mode != Working
    ensures ToldOne(s, Step(s, i, false), i, c, j)
  {
  }

  /** The one or two steps that worker i spends on worker j. */
  lemma TellsOne(s: Pool, i: nat, c: Caller, j: nat)
    returns (k: nat, t: Pool)
    requires Sane(s) && i < |s.ws| && s.ws[i].pc == Tell(c, j, false)
    ensures t == Alone(s, i, k) && Sane(t) && ToldOne(s, t, i, c, j)
  {
    var s1 := Step(s, i, false);
    StepSane(s, i, false);
    TellsWorking(s, i, c, j);
    if s.ws[j].mode == Working {
      AloneOne(s, i);
      k, t := 1, s1;
    } else {
      TellsStealing(s1, i, c, j);
      StepSane(s1, i, false);
      AloneTwo(s, i);
      k, t := 2, Step(s1, i, false);
    }
  }

  lemma AloneOne(s: Pool, i: nat)
    requires Sane(s) && i < |s.ws|
    ensures Alone(s, i, 1) == Step(s, i, false)
  {
    assert Iterate(OwnStep(i), OwnStep(i)(s), 0) == OwnStep(i)(s);
  }

  lemma AloneTwo(s: Pool, i: nat)
    requires Sane(s) && i < |s.ws| && Sane(Step(s, i, false)) && i < |Step(s, i, false).ws|
    ensures Alone(s, i, 2) == Step(Step(s, i, false), i, false)
  {
    AloneOne(s, i);
    AloneOne(Step(s, i, false), i);
    IterateAdd(OwnStep(i), s, 1, 1);
  }

  lemma {:induction false} TellsFrom(s: Pool, i: nat, c: Caller, j: nat)
    returns (k: nat, u: Pool)
    requires Sane(s) && i < |s.ws| && j < |s.ws| && s.ws[i].pc == Tell(c, j, false)
    ensures u == Alone(s, i, k) && ToldFrom(s, u, j) && i < |u.ws|
    ensures u.ws[i].pc == if c.OwnLoop? then Dispatch else StealGuard
    decreases |s.ws| - j
  {
    var t;
    k, t := TellsOne(s, i, c, j);
    u := t;
    if j + 1 < |s.ws| {
      var more;
      more, u := TellsFrom(t, i, c, j + 1);
      AloneAdd(s, i, k, more);
      ToldOneMore(s, t, u, i, c, j);
      k := k + more;
    }
  }

  lemma AloneAdd(s: Pool, i: nat, a: nat, b: nat)
    ensures Alone(s, i, a + b) == Alone(Alone(s, i, a), i, b)
  {
    IterateAdd(OwnStep(i), s, a, b);
  }

  lemma ToldOneMore(s: Pool, t: Pool, u: Pool, i: nat, c: Caller, j: nat)
    requires i < |s.ws| && j < |s.ws| && ToldOne(s, t, i, c, j) && ToldFrom(t, u, j + 1)
    ensures ToldFrom(s, u, j)
  {
    assert forall x :: 0 <= x < |s.ws| ==> u.ws[x].mode == if x < j + 1 then t.ws[x].mode else Told(t.ws[x].mode);
  }

  /**
   A worker that begins to tell the others and is not interrupted tells all of them: by the time it goes on with its own
   loop, every worker that was working or stealing has been told to stop, and no other mode has changed.
   */
  lemma TellsEveryone(s: Pool, i: nat, c: Caller) returns (k: nat)
    requires Reachable(s) && s.main.Idle? && i < |s.ws| && s.ws[i].pc == Tell(c, 0, false)
    ensures Sane(s)
    ensures var t := Alone(s, i, k);
      && |t.ws| == |s.ws| && t.ws[i].pc == (if c.OwnLoop? then Dispatch else StealGuard)
      && forall x :: 0 <= x < |s.ws| ==>
           t.ws[x].mode == if s.ws[x].mode == Working || s.ws[x].mode == Stealing then ToldToStop else s.ws[x].mode
  {
    ReachableSane(s, i);
    var u;
    k, u := TellsFrom(s, i, c, 0);
  }

  /** A step, of whichever worker, moves worker i on to its second try, to the next worker, or off the last one. */
  lemma TellMoves(s: Pool, a: Action, i: nat, c: Caller, j: nat, second: bool)
    requires Sane(s) && a.Thread? && Enabled(s, a) && i < |s.ws| && s.ws[i].pc == Tell(c, j, second)
    ensures var s' := Apply(s, a);
      && Sane(s') && |s'.ws| == |s.ws|
      && var pc := s'.ws[i].pc;
         (pc == Tell(c, j, second) && a.i != i) || (pc == Tell(c, j, true) && !second)
         || (j + 1 < |s.ws| && pc == Tell(c, j + 1, false)) || (j + 1 == |s.ws| && !pc.Tell?)
  {
    StepSane(s, a.i, a.err);
    if a.i != i {
      OtherStep(s, a.i, a.err, i);
    }
  }

  lemma {:induction false} TellsOn(s: Pool, acts: seq<Action>, i: nat, c: Caller, j: nat, second: bool, k: nat)
    requires Sane(s) && Legal(s, acts) && Threads(acts)
    requires i < |s.ws| && s.ws[i].pc == Tell(c, j, second) && j <= k < |s.ws| && (second ==> j < k)
    requires i < |Exec(s, acts).ws| && !Exec(s, acts).ws[i].pc.Tell?
    ensures Passes(s, acts, i, Tell(c, k, false))
    decreases |acts|
  {
    if j == k {
      assert After(s, acts, 0).ws[i].pc == Tell(c, k, false);
    } else {
      TellMoves(s, acts[0], i, c, j, second);
      var s' := Apply(s, acts[0]);
      var pc := s'.ws[i].pc;
      TellsOn(s', acts[1..], i, c, pc.j, pc.second, k);
      PassesLater(s, acts, i, Tell(c, k, false));
    }
  }

  /**
   In any interleaving: a worker that raises the error flag first, and has gone on with its own loop since, has in
   between stood before every worker of the pool, about to tell it.
   */
  lemma TellsInAnyRun(s: Pool, acts: seq<Action>, i: nat, c: Caller, k: nat)
    requires Reachable(s) && s.main.Idle? && Legal(s, acts) && Threads(acts) && acts != [] && acts[0].i == i
    requires i < |s.ws| && s.ws[i].pc == ErrFlag(c) && !s.errored && k < |s.ws|
    requires i < |Exec(s, acts).ws| && !Exec(s, acts).ws[i].pc.Tell?
    ensures Passes(s, acts, i, Tell(c, k, false))
  {
    ReachableSane(s, i);
    StepSane(s, i, acts[0].err);
    TellsOn(Apply(s, acts[0]), acts[1..], i, c, 0, false, k);
    PassesLater(s, acts, i, Tell(c, k, false));
  }

  // ---------- what a worker that has been told still does ----------

  /** How many tasks worker i takes from its own range in the run. */
  function OwnTakes(s: Pool, acts: seq<Action>, i: nat): nat
    requires Legal(s, acts) && Threads(acts) && i < |s.ws|
    decreases |acts|
  {
    if acts == [] then 0
    else
      var s' := Apply(s, acts[0]);
      (if acts[0].i == i && s.ws[i].pc == GetTask && s.ws[i].lo < s.ws[i].hi then 1 else 0)
      + if i < |s'.ws| then OwnTakes(s', acts[1..], i) else 0
  }

  /** Neither working nor about to. */
  predicate Stopped(w: Worker) {
    w.mode != ReadyToStart && w.mode != Working && w.pc != ReadyCheck && w.pc != ReadySet
  }

  lemma OwnStopped(s: Pool, w: Worker, err: bool)
    requires Sane(s) && w.target < |s.ws| && (w.pc.Tell? ==> w.pc.j < |s.ws|) && Stopped(w)
    ensures var w' := Own(s, w, err); Stopped(w') && w'.pc != GetTask
  {
  }

  lemma OtherStopped(s: Pool, j: nat, err: bool, i: nat)
    requires Sane(s) && i < |s.ws| && j < |s.ws| && i != j && Stopped(s.ws[i])
    ensures var w' := Step(s, j, err).ws[i]; Stopped(w') && w'.pc == s.ws[i].pc
  {
    var ws := Others(s, s.ws[j]);
    assert Step(s, j, err).ws[i] == ws[i];
  }

  lemma StaysStopped(s: Pool, a: Action, i: nat)
    requires Sane(s) && a.Thread? && Enabled(s, a) && i < |s.ws| && Stopped(s.ws[i])
    ensures var s' := Apply(s, a);
      && Sane(s') && |s'.ws| == |s.ws| && Stopped(s'.ws[i])
      && (s'.ws[i].pc == GetTask ==> a.i != i && s.ws[i].pc == GetTask)
  {
    StepSane(s, a.i, a.err);
    if a.i == i {
      OthersIndexed(s, i);
      OwnStopped(s, Others(s, s.ws[i])[i], a.err);
    } else {
      OtherStopped(s, a.i, a.err, i);
    }
  }

  lemma {:induction false} StoppedTakes(s: Pool, acts: seq<Action>, i: nat)
    requires Sane(s) && Legal(s, acts) && Threads(acts) && i < |s.ws| && Stopped(s.ws[i])
    ensures OwnTakes(s, acts, i) <= if s.ws[i].pc == GetTask then 1 else 0
    decreases |acts|
  {
    if acts == [] {
    } else {
      StaysStopped(s, acts[0], i);
      StoppedTakes(Apply(s, acts[0]), acts[1..], i);
    }
  }

  /**
   In any interleaving of the rest of the batch, a worker that has been told to stop takes no further task of its own
   range, but for the one it may have been about to take when it was told.
   */
  lemma ToldTakesAtMostOne(s: Pool, acts: seq<Action>, i: nat)
    requires Reachable(s) && s.main.Idle? && Legal(s, acts) && Threads(acts)
    requires i < |s.ws| && s.ws[i].mode == ToldToStop
    ensures OwnTakes(s, acts, i) <= 1
    ensures s.ws[i].pc != GetTask ==> OwnTakes(s, acts, i) == 0
  {
    ReachableInv(s);
    assert i < s.max && StartedOk(s.ws[i], s.failed, s.max);
    StoppedTakes(s, acts, i);
  }

  // ---------- a thief looks at every worker before it gives up ----------

  predicate Scanning(pc: Pc) { pc.StealGuard? || pc.StealLook? || pc.StealTake? }

  /** The f-th worker after t, going round. */
  function Ring(t: nat, f: nat, max: nat): nat {
    if t + f < max then t + f else if t + f < 2 * max then t + f - max else 0
  }

  ghost predicate LooksAt(s: Pool, acts: seq<Action>, i: nat, k: nat)
    requires Legal(s, acts)
  {
    exists m: nat :: m <= |acts| && i < |After(s, acts, m).ws|
      && After(s, acts, m).ws[i].pc == StealLook && After(s, acts, m).ws[i].target == k
  }

  lemma LooksLater(s: Pool, acts: seq<Action>, i: nat, k: nat)
    requires Legal(s, acts) && acts != [] && LooksAt(Apply(s, acts[0]), acts[1..], i, k)
    ensures LooksAt(s, acts, i, k)
  {
    var s' := Apply(s, acts[0]);
    var m: nat :| m <= |acts[1..]| && i < |After(s', acts[1..], m).ws|
      && After(s', acts[1..], m).ws[i].pc == StealLook && After(s', acts[1..], m).ws[i].target == k;
    assert After(s, acts, m + 1) == After(s', acts[1..], m);
  }

  /** All through the run but at its end worker i goes round without finding a task; at the end it gives up for that. */
  ghost predicate GivesUp(s: Pool, acts: seq<Action>, i: nat)
    requires Legal(s, acts)
    decreases |acts|
  {
    && i < |s.ws|
    && if acts == [] then s.ws[i].pc == StopExchange && s.ws[i].fails == s.max
       else Scanning(s.ws[i].pc) && GivesUp(Apply(s, acts[0]), acts[1..], i)
  }

  /** While worker i goes round, a step moves it on to its next access, or counts a failure and looks further on. */
  lemma ScanMoves(s: Pool, a: Action, i: nat)
    requires Sane(s) && a.Thread? && Enabled(s, a) && i < |s.ws| && Scanning(s.ws[i].pc) && s.ws[i].target < s.max
    ensures var s' := Apply(s, a); Sane(s') && |s'.ws| == |s.ws| && s'.max == s.max
    ensures var w := s.ws[i]; var w' := Apply(s, a).ws[i];
      || !(Scanning(w'.pc) || (w'.pc.StopExchange? && w'.fails == s.max))
      || (w'.target == w.target && w'.fails == w.fails && (w'.pc == w.pc || !w'.pc.StealGuard?))
      || (!w.pc.StealGuard? && w'.pc.StealGuard? && w'.target == Ring(w.target, 1, s.max) && w'.fails == w.fails + 1)
      || (!w.pc.StealGuard? && w'.pc.StopExchange? && w'.fails == w.fails + 1 == s.max)
  {
    StepSane(s, a.i, a.err);
    if a.i != i {
      OtherStep(s, a.i, a.err, i);
    }
  }

  lemma {:induction false} LooksOn(s: Pool, acts: seq<Action>, i: nat, g: nat)
    requires Sane(s) && Legal(s, acts) && Threads(acts) && GivesUp(s, acts, i) && s.ws[i].target < s.max
    requires s.ws[i].fails <= g < s.max && (s.ws[i].pc.StealTake? ==> s.ws[i].fails < g)
    ensures LooksAt(s, acts, i, Ring(s.ws[i].target, g - s.ws[i].fails, s.max))
    decreases |acts|
  {
    var w := s.ws[i];
    if w.pc == StealLook && g == w.fails {
      assert After(s, acts, 0) == s;
    } else {
      ScanMoves(s, acts[0], i);
      var s' := Apply(s, acts[0]);
      LooksOn(s', acts[1..], i, g);
      LooksLater(s, acts, i, Ring(s'.ws[i].target, g - s'.ws[i].fails, s.max));
    }
  }

  /**
   In any interleaving, a thief that gives up because it has failed max_num_working times in a row has, since its last
   success, looked at every worker of the batch.
   */
  lemma LooksAtEveryone(s: Pool, acts: seq<Action>, i: nat, k: nat)
    requires Reachable(s) && s.main.Idle? && Legal(s, acts) && Threads(acts) && GivesUp(s, acts, i)
    requires s.ws[i].pc == StealGuard && s.ws[i].fails == 0 && k < s.max
    ensures LooksAt(s, acts, i, k)
  {
    ReachableSane(s, i);
    var t := s.ws[i].target;
    LooksOn(s, acts, i, if k >= t then k - t else k + s.max - t);
  }

  /** A worker begins to steal at the first worker, with no failure counted; each task it runs leaves the count at 0. */
  lemma StealStarts(s: Pool, i: nat, err: bool)
    requires Reachable(s) && i < |s.ws| && s.ws[i].pc == Dispatch && s.ws[i].mode == Stealing
    ensures Indexed(s)
    ensures var w := Step(s, i, err).ws[i]; w.pc == StealGuard && w.target == 0 && w.fails == 0 && w.mode == Stealing
  {
    ReachableInv(s);
  }

  /** A success starts the count of failures afresh, and takes the last task of the victim's range. */
  lemma StealSucceeds(s: Pool, i: nat, err: bool)
    requires Reachable(s) && i < |s.ws| && s.ws[i].pc == StealTake
    requires s.ws[i].target < |s.ws| && s.ws[i].target != i && s.ws[s.ws[i].target].lo < s.ws[s.ws[i].target].hi
    ensures Indexed(s)
    ensures var v := s.ws[i].target; var t := Step(s, i, err);
      && t.ws[i].pc == Run(s.ws[v].hi - 1, Thief) && t.ws[i].fails == 0
      && t.ws[v] == s.ws[v].(hi := s.ws[v].hi - 1) && t.given == s.given + [s.ws[v].hi - 1]
  {
    ReachableInv(s);
  }

  /**
   A thief looks on only while some started worker is not stealing, takes only from a worker that is working, and gives
   up only for one of two reasons: all started workers are stealing, or it has failed max_num_working times in a row.
   */
  lemma StealConditions(s: Pool, i: nat, err: bool)
    requires Reachable(s) && s.main.Idle? && i < |s.ws|
    ensures Indexed(s)
    ensures var w := s.ws[i]; var w' := Step(s, i, err).ws[i];
      && (w.pc == StealGuard ==> w' == w.(pc := if s.numStealing < s.max then StealLook else StopExchange))
      && (w.pc == StealLook ==> (w'.pc == StealTake <==> s.ws[w.target].mode == Working))
      && (w.pc == StealLook || w.pc == StealTake ==> (w'.pc == StopExchange ==> w'.fails == w.fails + 1 == s.max))
  {
    ReachableInv(s);
  }

  /** After a task that has not failed, a worker goes on where it was: with its own loop, or with the next victim. */
  lemma GoesOn(s: Pool, i: nat)
    requires Reachable(s) && s.main.Idle? && i < |s.ws| && s.ws[i].pc.Run?
    ensures Indexed(s)
    ensures var w := s.ws[i]; var w' := Step(s, i, false).ws[i];
      && w'.mode == w.mode && w'.lo == w.lo && w'.hi == w.hi && w'.fails == w.fails
      && (w.pc.caller.OwnLoop? ==> w'.pc == Dispatch)
      && (w.pc.caller.Thief? ==> w'.pc == StealGuard && w'.target == Ring(w.target, 1, s.max))
  {
    ReachableSane(s, i);
  }

  /** Only the first error is told about: a worker that finds the flag already up goes on at once. */
  lemma FirstErrorTells(s: Pool, i: nat, c: Caller)
    requires Reachable(s) && i < |s.ws| && s.ws[i].pc == ErrFlag(c)
    ensures Indexed(s) && Step(s, i, false).errored
    ensures !s.errored ==> Step(s, i, false).ws[i].pc == Tell(c, 0, false)
    ensures s.errored ==> Step(s, i, false).ws[i].pc == if c.OwnLoop? then Dispatch else StealGuard
  {
    ReachableInv(s);
  }
}
