/** What waitUntilDoneWorking can report about a batch, in all interleavings. */
module PoolReport {
  import opened Sums
  import opened ThreadPool

  /** The flag that waitUntilDoneWorking returns agrees with what happened. */
  predicate Right(s: Pool) { s.errored == s.failed }

  /** On the way from a failed task to raising the shared error flag. */
  predicate ErrPending(w: Worker) { w.pc.ErrExchange? || w.pc.ErrDec? || w.pc.ErrFlag? }

  ghost predicate ReportOk(s: Pool) {
    && (s.errored ==> s.failed)
    && (s.failed ==> s.errored || exists i :: 0 <= i < |s.ws| && ErrPending(s.ws[i]))
  }

  lemma StepReport(s: Pool, i: nat, err: bool)
    requires Indexed(s) && i < |s.ws| && ModeOk(s.ws[i], s.failed) && ReportOk(s)
    ensures ReportOk(Step(s, i, err))
  {
    var s' := Step(s, i, err);
    if s.failed && !s.errored {
      var k :| 0 <= k < |s.ws| && ErrPending(s.ws[k]);
      assert k != i ==> ErrPending(s'.ws[k]);
      assert k == i && !s'.errored ==> ErrPending(s'.ws[i]);
    } else if s'.failed && !s'.errored {
      assert ErrPending(s'.ws[i]);
    }
  }

  lemma {:induction false} ExecReport(s: Pool, acts: seq<Action>)
    requires Inv(s) && ReportOk(s) && Legal(s, acts)
    ensures ReportOk(Exec(s, acts))
    decreases |acts|
  {
    if acts == [] {
    } else {
      ActionKeeps(s, acts[0]);
      if acts[0].Thread? && !AtRest(s.ws[acts[0].i]) {
        StepReport(s, acts[0].i, acts[0].err);
      } else if acts[0].Thread? {
        RestStays(s, acts[0].i, acts[0].err);
      }
      ExecReport(Apply(s, acts[0]), acts[1..]);
    }
  }

  lemma ReachableReport(s: Pool)
    requires Reachable(s)
    ensures ReportOk(s)
  {
    var w: nat, acts: seq<Action> :| w > 0 && Legal(Init(w), acts) && Exec(Init(w), acts) == s;
    InitInv(w);
    ExecReport(Init(w), acts);
  }

  /** Once every worker is parked the flag is right, whether a task failed or not. */
  lemma RightAtRest(s: Pool)
    requires Reachable(s) && AllAtRest(s)
    ensures Right(s)
  {
    ReachableReport(s);
  }

  // ---------- a batch is published ----------

  /** `n` tasks are being handed out on `w` workers, none of which has done anything yet. */
  ghost predicate HandingOut(s: Pool, n: nat, w: nat, k: nat) {
    && Reachable(s) && |s.ws| == w && s.n == n && s.main == Assigning(k)
    && forall i :: 0 <= i < |s.ws| ==> s.ws[i].pc == Dispatch
  }

  lemma Begins(n: nat, w: nat) returns (s: Pool)
    requires n > 0 && w > 0
    ensures HandingOut(s, n, w, 0)
  {
    assert Legal(Init(w), []) && Exec(Init(w), []) == Init(w);
    s := Begin(Init(w), n);
    ReachableStep(Init(w), BeginBatch(n), s);
  }

  lemma {:induction false} HandsOut(n: nat, w: nat, k: nat) returns (s: Pool)
    requires n > 0 && w > 0 && k <= Started(n, w)
    ensures HandingOut(s, n, w, k)
  {
    if k == 0 {
      s := Begins(n, w);
    } else {
      var b := HandsOut(n, w, k - 1);
      ReachableInv(b);
      s := MainStep(b);
      ReachableStep(b, MainAdvance, s);
    }
  }

  // ---------- all but worker 0 run dry ----------

  /** A worker on no path that touches worker 0. */
  predicate Quiet(w: Worker) {
    !(w.pc.StealTake? && w.target == 0) && !w.pc.ErrExchange? && !w.pc.ErrDec? && !w.pc.ErrFlag? && !w.pc.Tell?
  }

  /** Worker 0 has its share and has not noticed that the batch is published. */
  ghost predicate Draining(s: Pool, n: nat, w: nat) {
    && Reachable(s) && |s.ws| == w > 0 && s.n == n && s.main.Idle? && !s.failed && !s.errored
    && s.ws[0].mode == ReadyToStart && s.ws[0].pc == Dispatch && s.ws[0].lo < s.ws[0].hi
    && forall i :: 1 <= i < |s.ws| ==> Quiet(s.ws[i])
  }

  lemma Published(n: nat, w: nat) returns (s: Pool)
    requires n > 0 && w > 0
    ensures Draining(s, n, w)
  {
    var b := HandsOut(n, w, Started(n, w));
    ReachableInv(b);
    s := MainStep(b);
    ReachableStep(b, MainAdvance, s);
    assert AssignedOk(b.ws[0], b.starts[0], b.starts[1]) && b.starts[0] < b.starts[1];
  }

  lemma QuietStep(s: Pool, w: Worker)
    requires w.target < |s.ws| && Quiet(w) && s.ws[0].mode == ReadyToStart
    ensures Quiet(Own(s, w, false))
    ensures |s.ws| > 0 ==> Others(s, w)[0] == s.ws[0]
  {
  }

  lemma DrainStep(s: Pool, n: nat, w: nat, i: nat)
    requires Draining(s, n, w) && 1 <= i < |s.ws| && Indexed(s)
    ensures Draining(Step(s, i, false), n, w)
  {
    var t := Step(s, i, false);
    ReachableStep(s, Thread(i, false), t);
    QuietStep(s, s.ws[i]);
    var ws := Others(s, s.ws[i]);
    QuietStep(s, ws[i]);
    forall k | 1 <= k < |t.ws|
      ensures Quiet(t.ws[k])
    {
      assert k != i ==> ws[k].pc == s.ws[k].pc && ws[k].target == s.ws[k].target;
    }
  }

  /** Stepping the other workers parks them one after the other. */
  lemma {:induction false} Drain(s: Pool, n: nat, w: nat) returns (t: Pool)
    requires Draining(s, n, w) && Inv(s) && Potential(s) >= 0
    ensures Draining(t, n, w) && forall i :: 1 <= i < |t.ws| ==> AtRest(t.ws[i])
    decreases Potential(s)
  {
    if i :| 1 <= i < |s.ws| && !AtRest(s.ws[i]) {
      DrainStep(s, n, w, i);
      StepUsesPotential(s, i, false);
      ThreadKeeps(s, i, false);
      NoPotential(Step(s, i, false));
      t := Drain(Step(s, i, false), n, w);
    } else {
      t := s;
    }
  }

  // ---------- worker 0 fails ----------

  /** Worker 0 alone is active, at this point; `numWorking` still counts it until it has subtracted itself. */
  ghost predicate Alone(s: Pool, n: nat, w: nat, mode: Mode, pc: Pc, numWorking: int, failed: bool) {
    && Reachable(s) && |s.ws| == w > 0 && s.n == n && s.main.Idle? && !s.errored
    && s.ws[0].mode == mode && s.ws[0].pc == pc && s.numWorking == numWorking && s.failed == failed
    && (!failed && !pc.Run? ==> s.ws[0].lo < s.ws[0].hi)
  }

  lemma OneLeft(s: Pool, n: nat, w: nat)
    requires Draining(s, n, w) && forall i :: 1 <= i < |s.ws| ==> AtRest(s.ws[i])
    ensures Alone(s, n, w, ReadyToStart, Dispatch, 1, false)
  {
    ReachableInv(s);
    SumOfOnes(ActiveBits(s.ws), 1);
  }

  /** Worker 0 on its way from being started to having failed its first task, while the batch is published. */
  function Next(w: Worker): Worker {
    match w.pc
    case Dispatch => w.(pc := if w.mode == ReadyToStart then ReadyCheck else GetTask)
    case ReadyCheck => w.(pc := ReadySet)
    case ReadySet => w.(mode := Working, pc := Dispatch)
    case GetTask => if w.lo < w.hi then TakeFront(w).(pc := Run(w.lo, OwnLoop)) else w
    case Run(_, _) => w.(pc := ErrExchange(OwnLoop))
    case ErrExchange(_) => w.(mode := Waiting, pc := ErrDec(OwnLoop))
    case ErrDec(_) => w.(pc := ErrFlag(OwnLoop))
    case _ => w
  }

  /** Where Next says what the protocol does. */
  predicate OnTheWay(mode: Mode, pc: Pc, failed: bool) {
    match pc
    case Dispatch => (mode == ReadyToStart || mode == Working) && !failed
    case ReadyCheck => !failed
    case ReadySet => !failed
    case GetTask => !failed
    case Run(_, caller) => caller.OwnLoop?
    case ErrExchange(caller) => caller.OwnLoop? && mode != Waiting
    case ErrDec(caller) => caller.OwnLoop?
    case _ => false
  }

  /** A step of worker 0 that concerns no other worker. */
  lemma Goes(s: Pool, n: nat, w: nat, mode: Mode, pc: Pc, k: int, failed: bool) returns (t: Pool)
    requires Alone(s, n, w, mode, pc, k, failed) && OnTheWay(mode, pc, failed) && k > 0
    ensures Reachable(t) && |t.ws| == w && t.n == n && t.main.Idle? && !t.errored
    ensures t.ws[0] == Next(s.ws[0])
    ensures t.numWorking == k - Bit(pc.ErrDec?) && t.failed == (failed || pc.Run?)
  {
    ReachableInv(s);
    t := Step(s, 0, true);
    ReachableStep(s, Thread(0, true), t);
  }

  lemma Starts0(s: Pool, n: nat, w: nat) returns (t: Pool)
    requires Alone(s, n, w, ReadyToStart, Dispatch, 1, false)
    ensures Alone(t, n, w, Working, Dispatch, 1, false)
  {
    var a := Goes(s, n, w, ReadyToStart, Dispatch, 1, false);
    var b := Goes(a, n, w, ReadyToStart, ReadyCheck, 1, false);
    t := Goes(b, n, w, ReadyToStart, ReadySet, 1, false);
  }

  lemma Takes0(s: Pool, n: nat, w: nat) returns (t: Pool, task: nat)
    requires Alone(s, n, w, Working, Dispatch, 1, false)
    ensures Alone(t, n, w, Working, Run(task, OwnLoop), 1, false)
  {
    var a := Goes(s, n, w, Working, Dispatch, 1, false);
    t := Goes(a, n, w, Working, GetTask, 1, false);
    task := a.ws[0].lo;
  }

  lemma Fails0(s: Pool, n: nat, w: nat, task: nat) returns (t: Pool)
    requires Alone(s, n, w, Working, Run(task, OwnLoop), 1, false)
    ensures Alone(t, n, w, Working, ErrExchange(OwnLoop), 1, true)
  {
    t := Goes(s, n, w, Working, Run(task, OwnLoop), 1, false);
  }

  lemma Leaves0(s: Pool, n: nat, w: nat) returns (t: Pool)
    requires Alone(s, n, w, Working, ErrExchange(OwnLoop), 1, true)
    ensures Alone(t, n, w, Waiting, ErrFlag(OwnLoop), 0, true)
  {
    var a := Goes(s, n, w, Working, ErrExchange(OwnLoop), 1, true);
    t := Goes(a, n, w, Waiting, ErrDec(OwnLoop), 1, true);
  }

  /** On every pool and for every number of tasks: num_working is 0, a task has failed, and the flag is still down. */
  lemma ReportCanBeWrong(n: nat, w: nat) returns (s: Pool)
    requires n > 0 && w > 0
    ensures Reachable(s) && |s.ws| == w && s.n == n && s.main.Idle? && s.numWorking == 0 && s.failed && !s.errored
  {
    var a := Published(n, w);
    ReachableInv(a);
    NoPotential(a);
    var b := Drain(a, n, w);
    OneLeft(b, n, w);
    var c := Starts0(b, n, w);
    var d, task := Takes0(c, n, w);
    var e := Fails0(d, n, w, task);
    s := Leaves0(e, n, w);
  }

  /** A state in which waitUntilDoneWorking returns, for a batch of n tasks on w workers. */
  ghost predicate Returns(s: Pool, n: nat, w: nat) {
    Reachable(s) && |s.ws| == w && s.n == n && s.main.Idle? && s.numWorking == 0
  }

  /**
   For the caller of waitUntilDoneWorking: whatever the interleaving, the report about n tasks on w workers is right
   if no task has failed; if one has, some interleaving makes it wrong.
   */
  lemma ReportIsRight(n: nat, w: nat, failed: bool)
    requires n > 0 && w > 0
    ensures (forall s :: Returns(s, n, w) && s.failed == failed ==> Right(s)) <==> !failed
  {
    if failed {
      var s := ReportCanBeWrong(n, w);
      assert Returns(s, n, w) && s.failed == failed && !Right(s);
    } else {
      forall s | Returns(s, n, w) && !s.failed
        ensures Right(s)
      {
        ReachableReport(s);
      }
    }
  }
}
