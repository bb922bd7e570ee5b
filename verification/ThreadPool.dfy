/**
 The work-stealing pool as a transition system. One action is one lock section or one atomic
 load, store, exchange or compare-exchange of a worker, or one step of the thread that calls work().
 */
module ThreadPool {
  import opened Sums

  datatype Mode = Waiting | ReadyToStart | Working | Stealing | ToldToStop

  /** Which loop called work_func: the worker's own range, or the stealing loop. */
  datatype Caller = OwnLoop | Thief

  /** Where a worker stands between two atomic accesses. */
  datatype Pc =
    | Dispatch
    | ReadyCheck
    | ReadySet
    | GetTask
    | SetStealing
    | IncStealing
    | StealGuard
    | StealLook
    | StealTake
    | Run(task: nat, caller: Caller)
    | ErrExchange(caller: Caller)
    | ErrDec(caller: Caller)
    | ErrFlag(caller: Caller)
    | Tell(caller: Caller, j: nat, second: bool)
    | StopExchange
    | StopDec

  /** `counted` records that this worker has added itself to num_stealing in this batch. */
  datatype Worker = Worker(mode: Mode, lo: nat, hi: nat, pc: Pc, target: nat, fails: nat, counted: bool)

  datatype WorkCall = Idle | Assigning(next: nat)

  /**
   `starts` holds the boundaries of the batch's initial shares;
   `given` and `finished` record the tasks handed to, and returned from, work_func in this batch;
   `failed` records that some call of it returned an error.
   */
  datatype Pool = Pool(ws: seq<Worker>, main: WorkCall, n: nat, starts: seq<nat>, max: nat, numWorking: int,
      numStealing: nat,
                       errored: bool, given: seq<nat>, finished: seq<nat>, failed: bool)

  // ---------- the batch's initial shares ----------

  function Min(a: nat, b: nat): nat { if a < b then a else b }

  /** First task index of worker i's share when n tasks are split over w workers: the running task_index of work(). */
  function ShareStart(i: nat, n: nat, w: nat): nat
    requires w > 0
  {
    TaskIndex(i, n / w, n % w)
  }

  /** task_index after i workers have been given `each` tasks, the first `extra` of them one more. */
  function TaskIndex(i: nat, each: nat, extra: nat): nat {
    if i == 0 then 0 else TaskIndex(i - 1, each, extra) + each + (if i - 1 < extra then 1 else 0)
  }

  /** How many workers a batch of n tasks starts on a pool of w. */
  function Started(n: nat, w: nat): nat { Min(n, w) }

  /** The boundaries of the shares. */
  function Starts(n: nat, w: nat): seq<nat>
    requires w > 0
  {
    seq(Started(n, w) + 1, k requires 0 <= k => ShareStart(k, n, w))
  }

  // ---------- the critical sections on one worker's range ----------

  function TakeFront(w: Worker): Worker
    requires w.lo < w.hi
  {
    w.(lo := w.lo + 1)
  }

  function TakeBack(w: Worker): Worker
    requires w.lo < w.hi
  {
    w.(hi := w.hi - 1)
  }

  // ---------- the steps ----------

  predicate Indexed(s: Pool) {
    forall i :: 0 <= i < |s.ws| ==>
      s.ws[i].target < |s.ws| && (s.ws[i].pc.Tell? ==> s.ws[i].pc.j < |s.ws|)
  }

  function NextTarget(w: Worker, max: nat): nat {
    if w.target + 1 >= max then 0 else w.target + 1
  }

  function FailedSteal(w: Worker, max: nat): Worker {
    if w.fails + 1 >= max then w.(fails := w.fails + 1, pc := StopExchange)
    else w.(fails := w.fails + 1, target := NextTarget(w, max), pc := StealGuard)
  }

  function AfterCall(w: Worker, caller: Caller, max: nat): Worker {
    if caller.OwnLoop? then w.(pc := Dispatch) else w.(target := NextTarget(w, max), pc := StealGuard)
  }

  function AfterTell(w: Worker, caller: Caller, j: nat, max: nat, size: nat): Worker {
    if j + 1 < size then w.(pc := Tell(caller, j + 1, false)) else AfterCall(w, caller, max)
  }

  /** Does worker w, about to lock its victim's range, find a task there? */
  predicate Steals(s: Pool, w: Worker)
    requires w.target < |s.ws|
  {
    w.pc.StealTake? && s.ws[w.target].lo < s.ws[w.target].hi
  }

  /** Does worker w's compare-exchange on worker j succeed? */
  predicate Tells(s: Pool, w: Worker)
    requires w.pc.Tell? ==> w.pc.j < |s.ws|
  {
    w.pc.Tell? && s.ws[w.pc.j].mode == (if w.pc.second then Stealing else Working)
  }

  /** What the step of w does to another worker: it takes the back of its range or tells it to stop. */
  function Others(s: Pool, w: Worker): (ws: seq<Worker>)
    requires w.target < |s.ws| && (w.pc.Tell? ==> w.pc.j < |s.ws|)
    ensures |ws| == |s.ws|
  {
    if Steals(s, w) then s.ws[w.target := TakeBack(s.ws[w.target])]
    else if Tells(s, w) then s.ws[w.pc.j := s.ws[w.pc.j].(mode := ToldToStop)]
    else s.ws
  }

  /** What the step of w does to w itself; `err` is what work_func returns if this step is its return. */
  function Own(s: Pool, w: Worker, err: bool): Worker
    requires w.target < |s.ws| && (w.pc.Tell? ==> w.pc.j < |s.ws|)
  {
    match w.pc
    case Dispatch =>
      (match w.mode
       case Waiting => w
       case ReadyToStart => w.(pc := ReadyCheck)
       case Working => w.(pc := GetTask)
       case Stealing => w.(pc := StealGuard, target := 0, fails := 0)
       case ToldToStop => w.(pc := StopExchange))
    case ReadyCheck => w.(pc := if s.numWorking > 0 then ReadySet else Dispatch)
    case ReadySet => w.(mode := Working, pc := Dispatch)
    case GetTask => if w.lo >= w.hi then w.(pc := SetStealing) else TakeFront(w).(pc := Run(w.lo, OwnLoop))
    case SetStealing => w.(mode := Stealing, pc := IncStealing)
    case IncStealing => w.(counted := true, pc := Dispatch)
    case StealGuard => w.(pc := if s.numStealing < s.max then StealLook else StopExchange)
    case StealLook => if s.ws[w.target].mode != Working then FailedSteal(w, s.max) else w.(pc := StealTake)
    case StealTake =>
      if Steals(s, w) then w.(fails := 0, pc := Run(s.ws[w.target].hi - 1, Thief)) else FailedSteal(w, s.max)
    case Run(_, caller) => if err then w.(pc := ErrExchange(caller)) else AfterCall(w, caller, s.max)
    case ErrExchange(caller) =>
      w.(mode := Waiting, pc := if w.mode != Waiting then ErrDec(caller) else ErrFlag(caller))
    case ErrDec(caller) => w.(pc := ErrFlag(caller))
    case ErrFlag(caller) => if s.errored then AfterCall(w, caller, s.max) else w.(pc := Tell(caller, 0, false))
    case Tell(caller, j, second) =>
      if Tells(s, w) || second then AfterTell(w, caller, j, s.max, |s.ws|) else w.(pc := Tell(caller, j, true))
    case StopExchange => w.(mode := Waiting, pc := if w.mode != Waiting then StopDec else Dispatch)
    case StopDec => w.(pc := Dispatch)
  }

  /** The task index this step hands to a worker, if any. */
  function Handed(s: Pool, w: Worker): seq<nat>
    requires w.target < |s.ws|
  {
    if w.pc.GetTask? && w.lo < w.hi then [w.lo]
    else if Steals(s, w) then [s.ws[w.target].hi - 1]
    else []
  }

  /** One atomic access of worker i. */
  function Step(s: Pool, i: nat, err: bool): Pool
    requires i < |s.ws| && Indexed(s)
  {
    var w := s.ws[i];
    var ws := Others(s, w);
    s.(ws := ws[i := Own(s, ws[i], err)],
       numWorking := s.numWorking - (if w.pc.ErrDec? || w.pc.StopDec? then 1 else 0),
       numStealing := s.numStealing + (if w.pc.IncStealing? then 1 else 0),
       errored := s.errored || w.pc.ErrFlag?,
       given := s.given + Handed(s, w),
       finished := s.finished + (if w.pc.Run? then [w.pc.task] else []),
       failed := s.failed || (w.pc.Run? && err))
  }

  function Put(s: Pool, i: nat, w: Worker): Pool
    requires i < |s.ws|
  {
    s.(ws := s.ws[i := w])
  }

  /** One step of work(): hand the next started worker its share, or publish the batch. */
  function MainStep(s: Pool): Pool
    requires s.main.Assigning? && s.main.next < |s.starts| <= |s.ws| + 1
  {
    var k := s.main.next;
    if k + 1 < |s.starts| then
      Put(s, k, s.ws[k].(lo := s.starts[k], hi := s.starts[k + 1], mode := ReadyToStart)).(main := Assigning(k + 1))
    else
      s.(max := k, numWorking := k, main := Idle)
  }

  /** The stores at the head of work(); `counted` starts afresh with the batch. */
  function Begin(s: Pool, n: nat): Pool
    requires |s.ws| > 0
  {
    s.(ws := seq(|s.ws|, k requires 0 <= k < |s.ws| => s.ws[k].(counted := false)),
       n := n, starts := Starts(n, |s.ws|), errored := false, numStealing := 0, main := Assigning(0),
       given := [], finished := [])
  }

  datatype Action = Thread(i: nat, err: bool) | BeginBatch(n: nat) | MainAdvance

  /** work() is called with tasks, on an idle pool; after a batch in which a task failed it is not called again. */
  predicate Enabled(s: Pool, a: Action) {
    match a
    case Thread(i, _) => i < |s.ws| && Indexed(s)
    case BeginBatch(n) => |s.ws| > 0 && s.main.Idle? && s.numWorking == 0 && !s.failed && n > 0
    case MainAdvance => s.main.Assigning? && s.main.next < |s.starts| <= |s.ws| + 1
  }

  function Apply(s: Pool, a: Action): Pool
    requires Enabled(s, a)
  {
    match a
    case Thread(i, err) => Step(s, i, err)
    case BeginBatch(n) => Begin(s, n)
    case MainAdvance => MainStep(s)
  }

  function Init(w: nat): Pool {
    Pool(seq(w, _ => Worker(Waiting, 0, 0, Dispatch, 0, 0, false)), Idle, 0, [0], 0, 0, 0, false, [], [], false)
  }

  predicate Legal(s: Pool, acts: seq<Action>)
    decreases |acts|
  {
    acts == [] || (Enabled(s, acts[0]) && Legal(Apply(s, acts[0]), acts[1..]))
  }

  function Exec(s: Pool, acts: seq<Action>): Pool
    requires Legal(s, acts)
    decreases |acts|
  {
    if acts == [] then s else Exec(Apply(s, acts[0]), acts[1..])
  }

  /** s is reached from startup(w) by some interleaving of any number of batches. */
  ghost predicate Reachable(s: Pool) {
    exists w: nat, acts: seq<Action> :: w > 0 && Legal(Init(w), acts) && Exec(Init(w), acts) == s
  }

  // ---------- the invariant ----------

  /** Counted by num_working: not WAITING, or WAITING but not yet subtracted. */
  predicate Active(w: Worker) {
    w.mode != Waiting || w.pc.ErrDec? || w.pc.StopDec?
  }

  function ActiveBits(ws: seq<Worker>): seq<nat> { seq(|ws|,
                      i requires 0 <= i < |ws| => if Active(ws[i]) then 1 else 0) }

  function CountedBits(ws: seq<Worker>): seq<nat> { seq(|ws|,
                       i requires 0 <= i < |ws| => if ws[i].counted then 1 else 0) }

  predicate InStealLoop(w: Worker, failed: bool) {
    w.counted && (w.mode == Stealing || (failed && (w.mode == ToldToStop || w.mode == Waiting)))
  }

  predicate InOwnLoop(w: Worker, failed: bool) {
    !w.counted && (w.mode == Working || (failed && w.mode == ToldToStop))
  }

  predicate CallerOk(w: Worker, caller: Caller, failed: bool) {
    if caller.OwnLoop? then InOwnLoop(w, failed) else InStealLoop(w, failed)
  }

  /** Which modes go with which program point. */
  predicate ModeOk(w: Worker, failed: bool) {
    match w.pc
    case Dispatch =>
      (match w.mode
       case Waiting => failed || w.counted
       case ReadyToStart => !w.counted
       case Working => !w.counted
       case Stealing => w.counted
       case ToldToStop => failed)
    case ReadyCheck => w.mode == ReadyToStart && !w.counted
    case ReadySet => w.mode == ReadyToStart && !w.counted
    case GetTask => InOwnLoop(w, failed)
    case SetStealing => InOwnLoop(w, failed) && w.lo == w.hi
    case IncStealing => !w.counted && w.lo == w.hi && (w.mode == Stealing || (failed && w.mode == ToldToStop))
    case StealGuard => InStealLoop(w, failed)
    case StealLook => InStealLoop(w, failed)
    case StealTake => InStealLoop(w, failed)
    case Run(_, caller) => CallerOk(w, caller, failed)
    case ErrExchange(caller) => failed && CallerOk(w, caller, failed)
    case ErrDec(caller) => failed && w.mode == Waiting && (caller.Thief? ==> w.counted)
    case ErrFlag(caller) => failed && w.mode == Waiting && (caller.Thief? ==> w.counted)
    case Tell(caller, _, _) => failed && w.mode == Waiting && (caller.Thief? ==> w.counted)
    case StopExchange => (failed || w.counted) && (w.mode
        == Stealing || (failed && (w.mode == ToldToStop || w.mode == Waiting)))
    case StopDec => w.mode == Waiting && (failed || w.counted)
  }

  predicate IsThief(pc: Pc) {
    match pc
    case StealGuard => true
    case StealLook => true
    case StealTake => true
    case Run(_, caller) => caller.Thief?
    case ErrExchange(caller) => caller.Thief?
    case ErrDec(caller) => caller.Thief?
    case ErrFlag(caller) => caller.Thief?
    case Tell(caller, _, _) => caller.Thief?
    case _ => false
  }

  predicate StartedOk(w: Worker, failed: bool, max: nat) {
    && ModeOk(w, failed)
    && (IsThief(w.pc) ==> w.fails < max && w.target < max)
    && w.lo <= w.hi
    && (w.counted ==> w.lo == w.hi)
  }

  predicate AtRest(w: Worker) { w.mode == Waiting && w.pc == Dispatch }

  predicate WorkersOk(s: Pool) {
    forall i :: 0 <= i < |s.ws| ==>
        if i < s.max then StartedOk(s.ws[i], s.failed, s.max) else AtRest(s.ws[i]) && !s.ws[i].counted
  }

  predicate Runs(w: Worker, t: nat) { w.pc.Run? && w.pc.task == t }

  predicate InRange(w: Worker, t: nat) { w.lo <= t < w.hi }

  /** Share boundaries: from 0 to n, strictly increasing. */
  ghost predicate Shared(starts: seq<nat>, n: nat) {
    && |starts| > 0 && starts[0] == 0 && starts[|starts| - 1] == n
    && forall a, b :: 0 <= a < b < |starts| ==> starts[a] < starts[b]
  }

  /** Every remaining range lies in its share, and a task of the share is outside it exactly when it was handed out. */
  ghost predicate GivenOk(ws: seq<Worker>, given: seq<nat>, starts: seq<nat>)
    requires |starts| <= |ws| + 1
  {
    && NoDup(given)
    && (forall i {:trigger ws[i]} :: 0 <= i < |starts| - 1 ==> starts[i] <= ws[i].lo <= ws[i].hi <= starts[i + 1])
    && (forall i, t {:trigger InRange(ws[i], t)} :: 0 <= i < |starts| - 1 && starts[i] <= t < starts[i + 1] ==>
          (t in given <==> !InRange(ws[i], t)))
  }

  /** A task handed out has either returned, once, or is being run by exactly one worker. */
  ghost predicate FinishedOk(s: Pool) {
    && NoDup(s.finished)
    && (forall t :: t in s.finished ==> t in s.given)
    && (forall t :: t in s.given ==> t in s.finished || exists i :: 0 <= i < |s.ws| && Runs(s.ws[i], t))
    && (forall i :: 0 <= i < |s.ws| && s.ws[i].pc.Run? ==> s.ws[i].pc.task in s.given && s.ws[i].pc.task !in s.finished)
    && (forall i, j :: 0 <= i < j < |s.ws| && s.ws[i].pc.Run? && s.ws[j].pc.Run? ==> s.ws[i].pc.task != s.ws[j].pc.task)
  }

  ghost predicate CountsOk(s: Pool) {
    && s.numWorking == Sum(ActiveBits(s.ws))
    && s.numStealing == Sum(CountedBits(s.ws))
  }

  predicate AssignedOk(w: Worker, lo: nat, hi: nat) {
    w.mode == ReadyToStart && (w.pc == Dispatch || w.pc == ReadyCheck) && w.lo == lo && w.hi == hi
  }

  predicate AssigningOk(s: Pool)
    requires s.main.Assigning?
  {
    && s.main.next < |s.starts| <= |s.ws| + 1
    && s.numWorking == 0 && s.numStealing == 0 && !s.errored && !s.failed && s.given == [] && s.finished == []
    && (forall i :: 0 <= i < |s.ws| ==> !s.ws[i].counted)
    && (forall i {:trigger s.ws[i]} :: 0 <= i < s.main.next ==> AssignedOk(s.ws[i], s.starts[i], s.starts[i + 1]))
    && (forall i :: s.main.next <= i < |s.ws| ==> AtRest(s.ws[i]))
  }

  ghost predicate PublishedOk(s: Pool) {
    && s.max + 1 == |s.starts| <= |s.ws| + 1
    && WorkersOk(s)
    && GivenOk(s.ws, s.given, s.starts)
    && (forall t :: t in s.given ==> t < s.n)
    && FinishedOk(s)
    && CountsOk(s)
  }

  ghost predicate Inv(s: Pool) {
    && |s.ws| > 0
    && Indexed(s)
    && Shared(s.starts, s.n) && |s.starts| == Started(s.n, |s.ws|) + 1
    && if s.main.Assigning? then AssigningOk(s) else PublishedOk(s)
  }

  // ---------- the shares are a partition ----------

  /** The shares are consecutive, cover 0..n-1 exactly, are never empty, and differ in size by at most one. */
  lemma Shares(n: nat, w: nat, i: nat)
    requires w > 0 && i < Started(n, w)
    ensures ShareStart(0, n, w) == 0
    ensures ShareStart(Started(n, w), n, w) == n
    ensures n / w <= ShareStart(i + 1, n, w) - ShareStart(i, n, w) <= n / w + 1
    ensures ShareStart(i, n, w) < ShareStart(i + 1, n, w)
  {
    if n < w {
      DivSmall(n, w);
    }
    TaskIndexClosed(Started(n, w), n / w, n % w);
  }

  lemma {:induction false} TaskIndexClosed(i: nat, each: nat, extra: nat)
    ensures TaskIndex(i, each, extra) == i * each + Min(i, extra)
  {
    if i == 0 {
    } else {
      TaskIndexClosed(i - 1, each, extra);
    }
  }

  lemma DivSmall(n: nat, w: nat)
    requires n < w
    ensures n / w == 0 && n % w == n
  {
  }

  // ---------- every step keeps the invariant ----------

  /** What a step of one worker may do to another: take the back of its range, or tell it to stop. */
  predicate Touched(w: Worker, w': Worker, failed: bool) {
    || w' == w
    || (w.lo < w.hi && w' == TakeBack(w))
    || (failed && (w.mode == Working || w.mode == Stealing) && w' == w.(mode := ToldToStop))
  }

  predicate Returning(pc: Pc) { pc.Run? || pc.ErrExchange? || pc.ErrDec? || pc.ErrFlag? || pc.Tell? }

  lemma StepOwnReturning(s: Pool, w: Worker, err: bool)
    requires w.target < |s.ws| && (w.pc.Tell? ==> w.pc.j < |s.ws|)
    requires 0 < s.max <= |s.ws| && StartedOk(w, s.failed, s.max)
    requires Returning(w.pc)
    ensures var w' := Own(s, w, err);
      && StartedOk(w', s.failed || (w.pc.Run? && err), s.max)
      && w'.target < |s.ws| && (w'.pc.Tell? ==> w'.pc.j < |s.ws|)
  {
  }

  lemma StepOwn(s: Pool, w: Worker, err: bool)
    requires w.target < |s.ws| && (w.pc.Tell? ==> w.pc.j < |s.ws|)
    requires 0 < s.max <= |s.ws| && StartedOk(w, s.failed, s.max)
    ensures var w' := Own(s, w, err);
      && StartedOk(w', s.failed || (w.pc.Run? && err), s.max)
      && w'.target < |s.ws| && (w'.pc.Tell? ==> w'.pc.j < |s.ws|)
  {
    if Returning(w.pc) {
      StepOwnReturning(s, w, err);
    }
  }

  lemma TouchedOk(w: Worker, w': Worker, failed: bool, failed': bool, max: nat)
    requires StartedOk(w, failed, max) && Touched(w, w', failed) && (failed ==> failed')
    ensures StartedOk(w', failed', max)
  {
  }

  lemma StepWorkers(s: Pool, i: nat, err: bool)
    requires Indexed(s) && WorkersOk(s) && i < s.max <= |s.ws|
    ensures WorkersOk(Step(s, i, err)) && Indexed(Step(s, i, err))
  {
    var s' := Step(s, i, err);
    var ws := Others(s, s.ws[i]);
    TouchedOk(s.ws[i], ws[i], s.failed, s.failed, s.max);
    StepOwn(s, ws[i], err);
    forall k | 0 <= k < |s'.ws|
      ensures if k < s'.max then StartedOk(s'.ws[k], s'.failed, s'.max) else AtRest(s'.ws[k]) && !s'.ws[k].counted
      ensures s'.ws[k].target < |s.ws| && (s'.ws[k].pc.Tell? ==> s'.ws[k].pc.j < |s.ws|)
    {
      assert Touched(s.ws[k], ws[k], s.failed);
      if k < s.max && k != i {
        TouchedOk(s.ws[k], s'.ws[k], s.failed, s'.failed, s.max);
      } else if k >= s.max {
        assert AtRest(s.ws[k]);
      }
    }
  }

  /** The parts of a worker's own step that the task and counter records depend on. */
  lemma OwnEffect(s: Pool, w: Worker, err: bool)
    requires w.target < |s.ws| && (w.pc.Tell? ==> w.pc.j < |s.ws|)
    requires StartedOk(w, s.failed, s.max)
    ensures var w' := Own(s, w, err);
      && w'.lo == (if w.pc.GetTask? && w.lo < w.hi then w.lo + 1 else w.lo) && w'.hi == w.hi
      && (w'.pc.Run? <==> Handed(s, w) != []) && (w'.pc.Run? ==> Handed(s, w) == [w'.pc.task])
      && (Active(w) ==> (!Active(w') <==> w.pc.ErrDec? || w.pc.StopDec?))
      && (!Active(w) ==> !Active(w') && !w.pc.ErrDec? && !w.pc.StopDec?)
      && w'.counted == (w.counted || w.pc.IncStealing?) && !(w.counted && w.pc.IncStealing?)
  {
  }

  /** The same about the whole step, with what the other workers keep. */
  lemma StepEffect(s: Pool, i: nat, err: bool)
    requires Indexed(s) && WorkersOk(s) && i < s.max <= |s.ws|
    ensures var s' := Step(s, i, err); var w := s.ws[i]; var w' := s'.ws[i];
      && |s'.ws| == |s.ws|
      && (forall k :: 0 <= k < |s.ws| && k != i ==> Touched(s.ws[k], s'.ws[k], s.failed))
      && (w'.pc.Run? <==> Handed(s, w) != []) && (w'.pc.Run? ==> Handed(s, w) == [w'.pc.task])
      && (Active(w) ==> (!Active(w') <==> w.pc.ErrDec? || w.pc.StopDec?))
      && (!Active(w) ==> !Active(w') && !w.pc.ErrDec? && !w.pc.StopDec?)
      && w'.counted == (w.counted || w.pc.IncStealing?) && !(w.counted && w.pc.IncStealing?)
  {
    var ws := Others(s, s.ws[i]);
    TouchedOk(s.ws[i], ws[i], s.failed, s.failed, s.max);
    OwnEffect(s, ws[i], err);
  }

  // --- hand-outs ---

  lemma StepGiven(s: Pool, i: nat, err: bool, starts: seq<nat>)
    requires Indexed(s) && i < s.max <= |s.ws| && |starts| == s.max + 1
    requires WorkersOk(s)
    requires GivenOk(s.ws, s.given, starts) && Shared(starts, s.n)
    ensures GivenOk(Step(s, i, err).ws, Step(s, i, err).given, starts)
  {
    var s' := Step(s, i, err);
    var w := s.ws[i];
    OwnEffect(s, Others(s, w)[i], err);
    if w.pc.GetTask? && w.lo < w.hi {
      GiveOne(s.ws, s.given, starts, s.n, i, w.lo, s'.ws);
    } else if Steals(s, w) {
      GiveOne(s.ws, s.given, starts, s.n, w.target, s.ws[w.target].hi - 1, s'.ws);
    } else {
      GivenFrame(s.ws, s.given, starts, s'.ws);
      assert s'.given == s.given;
    }
  }

  lemma GivenFrame(ws: seq<Worker>, given: seq<nat>, starts: seq<nat>, ws': seq<Worker>)
    requires |ws| == |ws'| && |starts| <= |ws| + 1 && GivenOk(ws, given, starts)
    requires forall k :: 0 <= k < |ws| ==> ws'[k].lo == ws[k].lo && ws'[k].hi == ws[k].hi
    ensures GivenOk(ws', given, starts)
  {
    forall k, x | 0 <= k < |starts| - 1 && starts[k] <= x < starts[k + 1]
      ensures x in given <==> !InRange(ws'[k], x)
    {
      assert InRange(ws[k], x) == InRange(ws'[k], x);
    }
  }

  /** Handing out task t, an end of worker j's range. */
  lemma GiveOne(ws: seq<Worker>, given: seq<nat>, starts: seq<nat>, n: nat, j: nat, t: nat, ws': seq<Worker>)
    requires |ws| == |ws'| && |starts| <= |ws| + 1 && j + 1 < |starts|
    requires Shared(starts, n)
    requires GivenOk(ws, given, starts)
    requires InRange(ws[j], t)
    requires forall k :: 0 <= k < |ws| && k != j ==> ws'[k].lo == ws[k].lo && ws'[k].hi == ws[k].hi
    requires (t == ws[j].lo && ws'[j].lo == t + 1 && ws'[j].hi == ws[j].hi)
          || (t + 1 == ws[j].hi && ws'[j].lo == ws[j].lo && ws'[j].hi == t)
    ensures GivenOk(ws', given + [t], starts)
  {
    assert t !in given;
    forall k, x | 0 <= k < |starts| - 1 && starts[k] <= x < starts[k + 1]
      ensures x in given + [t] <==> !InRange(ws'[k], x)
    {
      assert x in given <==> !InRange(ws[k], x);
      assert k < j ==> k + 1 == j || starts[k + 1] < starts[j];
      assert j < k ==> j + 1 == k || starts[j + 1] < starts[k];
    }
  }

  // --- returns ---

  lemma StepFinished(s: Pool, i: nat, err: bool)
    requires Indexed(s) && WorkersOk(s) && i < s.max <= |s.ws|
    requires FinishedOk(s)
    requires forall t :: t in Handed(s, s.ws[i]) ==> t !in s.given
    ensures FinishedOk(Step(s, i, err))
  {
    StepEffect(s, i, err);
    var s' := Step(s, i, err);
    FinishedMove(s, s', i, Handed(s, s.ws[i]), if s.ws[i].pc.Run? then [s.ws[i].pc.task] else []);
  }

  /** Worker i returns from what it runs, if anything, and starts what it was handed, if anything. */
  lemma FinishedMove(s: Pool, s': Pool, i: nat, handed: seq<nat>, back: seq<nat>)
    requires FinishedOk(s) && i < |s.ws| == |s'.ws|
    requires forall k :: 0 <= k < |s.ws| && k != i ==> s'.ws[k].pc == s.ws[k].pc
    requires s'.given == s.given + handed && s'.finished == s.finished + back
    requires back == if s.ws[i].pc.Run? then [s.ws[i].pc.task] else []
    requires handed == if s'.ws[i].pc.Run? then [s'.ws[i].pc.task] else []
    requires forall t :: t in handed ==> t !in s.given
    ensures FinishedOk(s')
  {
    forall t | t in s'.given
      ensures t in s'.finished || exists k :: 0 <= k < |s'.ws| && Runs(s'.ws[k], t)
    {
      if t in s.given {
        if t !in s'.finished {
          var k :| 0 <= k < |s.ws| && Runs(s.ws[k], t);
          assert Runs(s'.ws[k], t);
        }
      } else {
        assert Runs(s'.ws[i], t);
      }
    }
  }

  // --- counters ---

  lemma StepCounts(s: Pool, i: nat, err: bool)
    requires Indexed(s) && WorkersOk(s) && i < s.max <= |s.ws|
    requires CountsOk(s)
    ensures CountsOk(Step(s, i, err))
  {
    StepEffect(s, i, err);
    BitsMove(s.ws, Step(s, i, err).ws, i);
  }

  lemma BitsMove(ws: seq<Worker>, ws': seq<Worker>, i: nat)
    requires i < |ws| == |ws'|
    requires forall k :: 0 <= k < |ws| && k != i ==> Active(ws'[k]) == Active(ws[k]) && ws'[k].counted == ws[k].counted
    ensures Sum(ActiveBits(ws')) + (if Active(ws[i]) then 1
            else 0) == Sum(ActiveBits(ws)) + (if Active(ws'[i]) then 1 else 0)
    ensures Sum(CountedBits(ws')) + (if ws[i].counted then 1
            else 0) == Sum(CountedBits(ws)) + (if ws'[i].counted then 1 else 0)
  {
    SumUpdate(ActiveBits(ws), i, if Active(ws'[i]) then 1 else 0);
    SumUpdate(CountedBits(ws), i, if ws'[i].counted then 1 else 0);
    assert ActiveBits(ws') == ActiveBits(ws)[i := if Active(ws'[i]) then 1 else 0];
    assert CountedBits(ws') == CountedBits(ws)[i := if ws'[i].counted then 1 else 0];
  }

  // --- the whole invariant ---

  /** The shares work() computes. */
  lemma StartsAreShared(n: nat, w: nat)
    requires w > 0
    ensures Shared(Starts(n, w), n)
  {
    var st := Starts(n, w);
    if Started(n, w) > 0 {
      Shares(n, w, 0);
    }
    forall a, b | 0 <= a < b < |st|
      ensures st[a] < st[b]
    {
      StartsGrowTo(n, w, a, b);
    }
  }

  lemma {:induction false} StartsGrowTo(n: nat, w: nat, a: nat, b: nat)
    requires w > 0 && a < b <= Started(n, w)
    ensures ShareStart(a, n, w) < ShareStart(b, n, w)
  {
    Shares(n, w, b - 1);
    if a + 1 < b {
      StartsGrowTo(n, w, a, b - 1);
    }
  }

  lemma ThreadKeeps(s: Pool, i: nat, err: bool)
    requires Inv(s) && i < |s.ws|
    ensures Inv(Step(s, i, err))
  {
    if AtRest(s.ws[i]) {
      RestStays(s, i, err);
    } else if s.main.Idle? {
      HandedIsNew(s, i);
      PublishedKeeps(s, i, err);
    }
  }

  lemma RestStays(s: Pool, i: nat, err: bool)
    requires Indexed(s) && i < |s.ws| && AtRest(s.ws[i])
    ensures Step(s, i, err) == s
  {
    assert s.given + [] == s.given && s.finished + [] == s.finished;
  }

  lemma PublishedKeeps(s: Pool, i: nat, err: bool)
    requires Indexed(s) && s.main.Idle? && PublishedOk(s) && Shared(s.starts, s.n) && i < s.max
    requires forall t :: t in Handed(s, s.ws[i]) ==> t !in s.given && t < s.n
    ensures |Step(s, i, err).ws| == |s.ws| && Indexed(Step(s, i, err)) && PublishedOk(Step(s, i, err))
  {
    StepWorkers(s, i, err);
    StepGiven(s, i, err, s.starts);
    StepFinished(s, i, err);
    StepCounts(s, i, err);
  }

  /** A task about to be handed out is a real task and was not handed out before. */
  lemma HandedIsNew(s: Pool, i: nat)
    requires Inv(s) && s.main.Idle? && i < s.max
    ensures forall t :: t in Handed(s, s.ws[i]) ==> t !in s.given && t < s.n
  {
    var w := s.ws[i];
    assert StartedOk(w, s.failed, s.max);
    var j := if Steals(s, w) then w.target else i;
    assert s.starts[j] <= s.ws[j].lo <= s.ws[j].hi <= s.starts[j + 1] <= s.starts[s.max];
    forall t | t in Handed(s, w)
      ensures t !in s.given && t < s.n
    {
      assert InRange(s.ws[j], t);
    }
  }

  lemma BeginKeeps(s: Pool, n: nat)
    requires Inv(s) && Enabled(s, BeginBatch(n))
    ensures Inv(Begin(s, n))
  {
    forall i | 0 <= i < |s.ws|
      ensures AtRest(s.ws[i])
    {
      Resting(s, i);
    }
    StartsAreShared(n, |s.ws|);
  }

  /** When num_working is 0 and no task failed, every worker is parked. */
  lemma Resting(s: Pool, i: nat)
    requires Inv(s) && s.main.Idle? && s.numWorking == 0 && !s.failed && i < |s.ws|
    ensures AtRest(s.ws[i])
  {
    SumAtLeast(ActiveBits(s.ws), i);
    assert ActiveBits(s.ws)[i] == 0;
    assert i < s.max ==> StartedOk(s.ws[i], s.failed, s.max);
  }

  lemma MainKeeps(s: Pool)
    requires Inv(s) && Enabled(s, MainAdvance)
    ensures Inv(MainStep(s))
  {
    if s.main.next + 1 == |s.starts| {
      PublishKeeps(s);
    }
  }

  lemma PublishKeeps(s: Pool)
    requires Indexed(s) && s.main.Assigning? && AssigningOk(s) && s.main.next + 1 == |s.starts| && Shared(s.starts, s.n)
    ensures PublishedOk(MainStep(s))
  {
    forall k | 0 <= k < |s.ws|
      ensures if k < s.main.next then StartedOk(s.ws[k], false, s.main.next) else AtRest(s.ws[k]) && !s.ws[k].counted
      ensures !s.ws[k].pc.Run?
      ensures Active(s.ws[k]) <==> k < s.main.next
    {
      assert k < s.main.next ==> AssignedOk(s.ws[k], s.starts[k], s.starts[k + 1]);
      assert k >= s.main.next ==> AtRest(s.ws[k]);
    }
    SumOfOnes(ActiveBits(s.ws), s.main.next);
    SumZero(CountedBits(s.ws));
  }

  lemma InitInv(w: nat)
    requires w > 0
    ensures Inv(Init(w))
  {
    SumZero(ActiveBits(Init(w).ws));
    SumZero(CountedBits(Init(w).ws));
  }

  /** Every action, by any thread, keeps the invariant. */
  lemma ActionKeeps(s: Pool, a: Action)
    requires Inv(s) && Enabled(s, a)
    ensures Inv(Apply(s, a))
  {
    match a
    case Thread(i, err) => ThreadKeeps(s, i, err);
    case BeginBatch(n) => BeginKeeps(s, n);
    case MainAdvance => MainKeeps(s);
  }

  lemma {:induction false} ExecKeeps(s: Pool, acts: seq<Action>)
    requires Inv(s) && Legal(s, acts)
    ensures Inv(Exec(s, acts))
    decreases |acts|
  {
    if acts == [] {
    } else {
      ActionKeeps(s, acts[0]);
      ExecKeeps(Apply(s, acts[0]), acts[1..]);
    }
  }

  lemma ReachableInv(s: Pool)
    requires Reachable(s)
    ensures Inv(s)
  {
    var w: nat, acts: seq<Action> :| w > 0 && Legal(Init(w), acts) && Exec(Init(w), acts) == s;
    InitInv(w);
    ExecKeeps(Init(w), acts);
  }

  // ---------- main results ----------

  /**
   In every interleaving, failing tasks included, no task of the batch is handed out twice, and none returns twice.
   */
  lemma AtMostOnce(s: Pool)
    requires Reachable(s)
    ensures NoDup(s.given) && NoDup(s.finished)
    ensures forall t :: t in s.finished ==> t in s.given
    ensures s.main.Idle? ==> forall t :: t in s.given ==> t < s.n
    ensures s.main.Idle? ==> forall i, j :: 0 <= i < j < |s.ws| && s.ws[i].pc.Run? && s.ws[j].pc.Run? ==>
              s.ws[i].pc.task != s.ws[j].pc.task
  {
    ReachableInv(s);
  }

  /** When num_working is back to 0 and no task failed, every task has been run and has returned, exactly once. */
  lemma ExactlyOnce(s: Pool)
    requires Reachable(s) && s.main.Idle? && s.numWorking == 0 && !s.failed
    ensures multiset(s.finished) == multiset(s.given) == multiset(seq(s.n, k => k))
    ensures forall i :: 0 <= i < |s.ws| ==> AtRest(s.ws[i])
  {
    ReachableInv(s);
    forall i | 0 <= i < |s.ws|
      ensures AtRest(s.ws[i]) && (i < s.max ==> s.ws[i].lo == s.ws[i].hi)
    {
      Resting(s, i);
      assert i < s.max ==> StartedOk(s.ws[i], s.failed, s.max);
    }
    var all := seq(s.n, k => k);
    forall t: nat
      ensures t in s.given <==> t < s.n
    {
      if t < s.n {
        var i := ShareOf(s.starts, s.n, t);
        assert !InRange(s.ws[i], t);
      }
    }
    forall t: nat
      ensures multiset(s.finished)[t] == multiset(s.given)[t] == multiset(all)[t]
    {
      NoDupCount(s.given, t);
      NoDupCount(s.finished, t);
      NoDupCount(all, t);
      assert t < s.n ==> all[t] == t;
    }
  }

  /** The share a task belongs to. */
  lemma ShareOf(starts: seq<nat>, n: nat, t: nat) returns (i: nat)
    requires Shared(starts, n) && t < n
    ensures i + 1 < |starts| && starts[i] <= t < starts[i + 1]
  {
    i := 0;
    while starts[i + 1] <= t
      invariant i + 1 < |starts| && starts[i] <= t
      decreases |starts| - i
    {
      i := i + 1;
    }
  }

  /**
   num_working is the number of workers that are not WAITING or have exchanged to WAITING without having
   subtracted yet, in every reachable state of a published batch; so it never goes below zero.
   */
  lemma Accounting(s: Pool)
    requires Reachable(s) && s.main.Idle?
    ensures s.numWorking == |set i | 0 <= i < |s.ws| && Active(s.ws[i])|
    ensures 0 <= s.numWorking <= s.max
  {
    ReachableInv(s);
    CountIsCard(s.ws);
    SumOfBits(ActiveBits(s.ws), s.max);
  }

  lemma {:induction false} CountIsCard(ws: seq<Worker>)
    ensures Sum(ActiveBits(ws)) == |set i | 0 <= i < |ws| && Active(ws[i])|
    decreases |ws|
  {
    if ws == [] {
    } else {
      var m := |ws| - 1;
      var rest := ws[..m];
      CountIsCard(rest);
      var a := set i | 0 <= i < |ws| && Active(ws[i]);
      var b := set i | 0 <= i < |rest| && Active(rest[i]);
      assert a == b + (if Active(ws[m]) then {m} else {});
      assert ActiveBits(ws) == ActiveBits(rest) + [if Active(ws[m]) then 1 else 0];
      SumSnoc(ActiveBits(rest), if Active(ws[m]) then 1 else 0);
    }
  }

  lemma {:induction false} SumSnoc(s: seq<nat>, x: nat)
    ensures Sum(s + [x]) == Sum(s) + x
  {
    if s == [] {
    } else {
      assert (s + [x])[1..] == s[1..] + [x];
      SumSnoc(s[1..], x);
    }
  }

  /** A thief that leaves because num_stealing has reached max_num_working leaves no task behind in any range. */
  lemma StealGuardSound(s: Pool)
    requires Reachable(s) && s.main.Idle? && s.numStealing >= s.max
    ensures s.max <= |s.ws| && forall i :: 0 <= i < s.max ==> s.ws[i].lo == s.ws[i].hi
    ensures |s.given| == s.n
  {
    ReachableInv(s);
    SumOfBits(CountedBits(s.ws), s.max);
    forall i | 0 <= i < s.max
      ensures s.ws[i].lo == s.ws[i].hi
    {
      assert CountedBits(s.ws)[i] == 1;
      assert StartedOk(s.ws[i], s.failed, s.max);
    }
    var all := seq(s.n, k => k);
    forall t: nat | t < s.n
      ensures t in s.given
    {
      var i := ShareOf(s.starts, s.n, t);
      assert !InRange(s.ws[i], t);
    }
    forall t: nat
      ensures multiset(s.given)[t] == multiset(all)[t]
    {
      NoDupCount(s.given, t);
      NoDupCount(all, t);
      assert t < s.n ==> all[t] == t;
    }
    assert multiset(s.given) == multiset(all);
    assert |multiset(s.given)| == |multiset(all)|;
  }

  // ---------- the batch terminates ----------

  /** How far a worker is from being parked if it is handed no further task; `size` is the number of workers. */
  function Rank(w: Worker, max: nat, size: nat): nat {
    var b := 4 * max + 4;
    match w.pc
    case Dispatch =>
      (match w.mode
       case Waiting => 0
       case ReadyToStart => b + 8
       case Working => b + 5
       case Stealing => b + 1
       case ToldToStop => 3)
    case ReadyCheck => b + 7
    case ReadySet => b + 6
    case GetTask => b + 4
    case SetStealing => b + 3
    case IncStealing => b + 2
    case StealGuard => if w.fails < max then 4 * (max - w.fails) + 4 else 0
    case StealLook => if w.fails < max then 4 * (max - w.fails) + 3 else 0
    case StealTake => if w.fails < max then 4 * (max - w.fails) + 2 else 0
    case StopExchange => 2
    case StopDec => 1
    case Tell(_, j, second) => b + 9 + (if j < size then 2 * (size - j) else 0) + (if second then 0 else 1)
    case ErrFlag(_) => b + 2 * size + 11
    case ErrDec(_) => b + 2 * size + 12
    case ErrExchange(_) => b + 2 * size + 13
    case Run(_, _) => MaxRank(max, size)
  }

  function MaxRank(max: nat, size: nat): nat { 4 * max + 2 * size + 18 }

  function Ranks(s: Pool): seq<nat> {
    seq(|s.ws|, i requires 0 <= i < |s.ws| => Rank(s.ws[i], s.max, |s.ws|))
  }

  /** The work left in the batch, as a bound on the steps still to be taken by workers that are not parked. */
  function Potential(s: Pool): int {
    (s.n - |s.given|) * (MaxRank(s.max, |s.ws|) + 1) + Sum(Ranks(s))
  }

  lemma OwnRank(s: Pool, w: Worker, err: bool)
    requires w.target < |s.ws| && (w.pc.Tell? ==> w.pc.j < |s.ws|)
    requires 0 < s.max <= |s.ws| && StartedOk(w, s.failed, s.max) && !AtRest(w)
    requires w.pc.ReadyCheck? ==> s.numWorking > 0
    ensures Rank(Own(s, w, err), s.max, |s.ws|) <= MaxRank(s.max, |s.ws|)
    ensures Handed(s, w) == [] ==> Rank(Own(s, w, err), s.max, |s.ws|) < Rank(w, s.max, |s.ws|)
  {
    StepOwn(s, w, err);
    if w.pc.StealLook? || w.pc.StealTake? {
      StealRank(s, w, err);
    } else if Returning(w.pc) {
      ReturnRank(s, w, err);
    }
  }

  /** Between a look at a victim and its outcome. */
  lemma StealRank(s: Pool, w: Worker, err: bool)
    requires w.target < |s.ws| && (w.pc.StealLook? || w.pc.StealTake?) && w.fails < s.max <= |s.ws|
    ensures Rank(Own(s, w, err), s.max, |s.ws|) <= MaxRank(s.max, |s.ws|)
    ensures Handed(s, w) == [] ==> Rank(Own(s, w, err), s.max, |s.ws|) < Rank(w, s.max, |s.ws|)
  {
  }

  /** From the return of a task to the way back into the loop. */
  lemma ReturnRank(s: Pool, w: Worker, err: bool)
    requires w.target < |s.ws| && (w.pc.Tell? ==> w.pc.j < |s.ws|)
    requires 0 < s.max <= |s.ws| && StartedOk(w, s.failed, s.max) && Returning(w.pc)
    ensures Rank(Own(s, w, err), s.max, |s.ws|) <= MaxRank(s.max, |s.ws|)
    ensures Rank(Own(s, w, err), s.max, |s.ws|) < Rank(w, s.max, |s.ws|)
  {
  }

  lemma TouchedRank(w: Worker, w': Worker, failed: bool, max: nat, size: nat)
    requires Touched(w, w', failed)
    ensures Rank(w', max, size) <= Rank(w, max, size)
  {
  }

  /** Whatever the others do in between, each step of a worker that is not parked uses up some of the potential. */
  lemma StepUsesPotential(s: Pool, i: nat, err: bool)
    requires Inv(s) && s.main.Idle? && i < |s.ws| && !AtRest(s.ws[i])
    ensures Potential(Step(s, i, err)) < Potential(s)
  {
    var s' := Step(s, i, err);
    GivenBounded(s, i, err);
    ActiveCounted(s, i);
    RanksMove(s, i, err);
    var r := MaxRank(s.max, |s.ws|);
    assert |s'.given| == |s.given| + |Handed(s, s.ws[i])| <= s.n;
    PotentialMove(s.n - |s.given|, s.n - |s'.given|, r, Sum(Ranks(s)), Sum(Ranks(s')));
  }

  lemma ActiveCounted(s: Pool, i: nat)
    requires CountsOk(s) && WorkersOk(s) && i < |s.ws| && !AtRest(s.ws[i])
    ensures s.ws[i].pc.ReadyCheck? ==> s.numWorking > 0
  {
    SumAtLeast(ActiveBits(s.ws), i);
  }

  lemma GivenBounded(s: Pool, i: nat, err: bool)
    requires Inv(s) && s.main.Idle? && i < |s.ws|
    ensures |Step(s, i, err).given| <= s.n
  {
    ThreadKeeps(s, i, err);
    NoDupBounded(Step(s, i, err).given, s.n);
  }

  lemma PotentialMove(left: nat, left': nat, r: nat, sum: nat, sum': nat)
    requires (left' == left && sum' < sum) || (left' + 1 == left && sum' <= sum + r)
    ensures left' * (r + 1) + sum' < left * (r + 1) + sum
  {
    if left' + 1 == left {
      assert left * (r + 1) == left' * (r + 1) + (r + 1);
    }
  }

  lemma RanksMove(s: Pool, i: nat, err: bool)
    requires Indexed(s) && WorkersOk(s) && i < s.max <= |s.ws| && !AtRest(s.ws[i])
    requires s.ws[i].pc.ReadyCheck? ==> s.numWorking > 0
    ensures var s' := Step(s, i, err);
      && (Handed(s, s.ws[i]) == [] ==> Sum(Ranks(s')) < Sum(Ranks(s)))
      && Sum(Ranks(s')) <= Sum(Ranks(s)) + MaxRank(s.max, |s.ws|)
  {
    var s' := Step(s, i, err);
    var w := s.ws[i];
    var ws := Others(s, w);
    TouchedOk(w, ws[i], s.failed, s.failed, s.max);
    OwnRank(s, ws[i], err);
    forall k | 0 <= k < |s.ws|
      ensures Rank(ws[k], s.max, |s.ws|) <= Rank(s.ws[k], s.max, |s.ws|)
    {
      assert Touched(s.ws[k], ws[k], s.failed);
      TouchedRank(s.ws[k], ws[k], s.failed, s.max, |s.ws|);
    }
    var a, a' := Ranks(s), Ranks(s');
    var v := Rank(s'.ws[i], s.max, |s.ws|);
    if Handed(s, w) == [] {
      SumMonoStrict(a', a, i);
    }
    SumMono(a', a[i := v]);
    SumUpdate(a, i, v);
  }

  predicate AllAtRest(s: Pool) { forall i :: 0 <= i < |s.ws| ==> AtRest(s.ws[i]) }

  /** A batch with no potential left is over. */
  lemma NoPotential(s: Pool)
    requires Inv(s) && s.main.Idle?
    ensures 0 <= Potential(s)
    ensures Potential(s) == 0 ==> s.numWorking == 0 && AllAtRest(s)
  {
    NoDupBounded(s.given, s.n);
    ProductNonneg(s.n - |s.given|, MaxRank(s.max, |s.ws|) + 1);
    if Sum(Ranks(s)) == 0 {
      NoRanks(s);
    }
  }

  lemma ProductNonneg(a: nat, b: nat)
    ensures a * b >= 0
  {
  }

  lemma NoRanks(s: Pool)
    requires WorkersOk(s) && CountsOk(s) && s.max <= |s.ws| && Sum(Ranks(s)) == 0
    ensures s.numWorking == 0 && AllAtRest(s)
  {
    forall i | 0 <= i < |s.ws|
      ensures AtRest(s.ws[i])
    {
      SumAtLeast(Ranks(s), i);
      assert i < s.max ==> StartedOk(s.ws[i], s.failed, s.max);
    }
    SumZero(ActiveBits(s.ws));
  }

  /** The steps in a schedule that were taken by a worker that was not parked. */
  function Busy(s: Pool, acts: seq<Action>): nat
    requires Legal(s, acts)
    decreases |acts|
  {
    if acts == [] then 0
    else
      (if acts[0].Thread? && !AtRest(s.ws[acts[0].i]) then 1 else 0) + Busy(Apply(s, acts[0]), acts[1..])
  }

  /**
   Under every schedule of a published batch, errors included, unparked workers take at most Potential(s) steps
   in all; so no stealing loop runs for ever, and a schedule that keeps picking unparked workers parks them all.
   */
  lemma {:induction false} BatchTerminates(s: Pool, acts: seq<Action>)
    requires Inv(s) && s.main.Idle? && Legal(s, acts) && forall k :: 0 <= k < |acts| ==> acts[k].Thread?
    ensures Busy(s, acts) <= Potential(s)
    ensures Busy(s, acts) == Potential(s) ==>
              Exec(s, acts).numWorking == 0 && AllAtRest(Exec(s, acts))
    decreases |acts|
  {
    if acts == [] {
      NoPotential(s);
    } else {
      var i := acts[0].i;
      ThreadKeeps(s, i, acts[0].err);
      if AtRest(s.ws[i]) {
        RestStays(s, i, acts[0].err);
      } else {
        StepUsesPotential(s, i, acts[0].err);
      }
      BatchTerminates(Apply(s, acts[0]), acts[1..]);
    }
  }

  /** While num_working is not 0 there is a worker that is not parked: the pool never stalls. */
  lemma NeverStalls(s: Pool)
    requires Reachable(s) && s.main.Idle? && s.numWorking != 0
    ensures exists i :: 0 <= i < |s.ws| && !AtRest(s.ws[i])
  {
    ReachableInv(s);
    if forall i :: 0 <= i < |s.ws| ==> AtRest(s.ws[i]) {
      SumZero(ActiveBits(s.ws));
    }
  }

  // ---------- each worker signals once ----------

  /** The step that subtracts the worker from num_working. */
  predicate Signals(w: Worker) { w.pc.ErrDec? || w.pc.StopDec? }

  function Bit(b: bool): nat { if b then 1 else 0 }

  /** How often worker i signals in a schedule. */
  function SignalCount(s: Pool, acts: seq<Action>, i: nat): nat
    requires Legal(s, acts) && i < |s.ws|
    decreases |acts|
  {
    if acts == [] then 0
    else
      var s' := Apply(s, acts[0]);
      Bit(acts[0].Thread? && acts[0].i
          == i && Signals(s.ws[i])) + (if i < |s'.ws| then SignalCount(s', acts[1..], i) else 0)
  }

  lemma StepSignals(s: Pool, j: nat, err: bool, i: nat)
    requires Inv(s) && s.main.Idle? && i < |s.ws| && j < |s.ws|
    ensures var s' := Step(s, j, err);
      |s'.ws| == |s.ws| && Bit(j == i && Signals(s.ws[i])) + Bit(Active(s'.ws[i])) == Bit(Active(s.ws[i]))
  {
    if AtRest(s.ws[j]) {
      RestStays(s, j, err);
    } else {
      StepEffect(s, j, err);
      assert i != j ==> Touched(s.ws[i], Step(s, j, err).ws[i], s.failed);
    }
  }

  /** Signals and num_working balance: what a worker has signalled is what it no longer counts for. */
  lemma {:induction false} SignalsBalance(s: Pool, acts: seq<Action>, i: nat)
    requires Inv(s) && s.main.Idle? && Legal(s, acts) && i < |s.ws|
    requires forall k :: 0 <= k < |acts| ==> acts[k].Thread?
    ensures var t := Exec(s, acts);
      && Inv(t) && t.main.Idle? && |t.ws| == |s.ws|
      && SignalCount(s, acts, i) + Bit(Active(t.ws[i])) == Bit(Active(s.ws[i]))
    decreases |acts|
  {
    if acts == [] {
      // nothing has happened
    } else {
      StepSignals(s, acts[0].i, acts[0].err, i);
      ThreadKeeps(s, acts[0].i, acts[0].err);
      SignalsBalance(Apply(s, acts[0]), acts[1..], i);
    }
  }

  /**
   From the moment a batch is published, in every interleaving and with any failures, each started worker signals at
   most once, the others never; when num_working is back to 0, each started worker has signalled exactly once.
   */
  lemma SignalsOnce(before: Pool, acts: seq<Action>, i: nat)
    requires Reachable(before) && before.main.Assigning? && before.main.next + 1 == |before.starts|
    requires Enabled(before, MainAdvance) && Legal(MainStep(before), acts) && i < |before.ws|
    requires forall k :: 0 <= k < |acts| ==> acts[k].Thread?
    ensures var s := MainStep(before); var t := Exec(s, acts);
      && |s.ws| == |before.ws| && SignalCount(s, acts, i) <= Bit(i < s.max)
      && (t.numWorking == 0 ==> SignalCount(s, acts, i) == Bit(i < s.max))
  {
    var s := MainStep(before);
    PublishedActive(before, i);
    SignalsBalance(s, acts, i);
    CountedIfActive(Exec(s, acts), i);
  }

  lemma PublishedActive(before: Pool, i: nat)
    requires Reachable(before) && before.main.Assigning? && before.main.next + 1 == |before.starts|
    requires Enabled(before, MainAdvance) && i < |before.ws|
    ensures var s := MainStep(before);
      Inv(s) && s.main.Idle? && |s.ws| == |before.ws| && (Active(s.ws[i]) <==> i < s.max)
  {
    ReachableInv(before);
    MainKeeps(before);
    assert i < before.main.next ==> AssignedOk(before.ws[i], before.starts[i], before.starts[i + 1]);
    assert i >= before.main.next ==> AtRest(before.ws[i]);
  }

  lemma CountedIfActive(s: Pool, i: nat)
    requires Inv(s) && s.main.Idle? && i < |s.ws|
    ensures Active(s.ws[i]) ==> s.numWorking > 0
  {
    SumAtLeast(ActiveBits(s.ws), i);
    assert ActiveBits(s.ws)[i] == Bit(Active(s.ws[i]));
  }

  // ---------- longer runs ----------

  lemma ReachableStep(p: Pool, a: Action, q: Pool)
    requires Reachable(p) && Enabled(p, a) && Apply(p, a) == q
    ensures Reachable(q)
  {
    var w: nat, acts: seq<Action> :| w > 0 && Legal(Init(w), acts) && Exec(Init(w), acts) == p;
    ExecSnoc(Init(w), acts, a);
  }

  lemma {:induction false} ExecSnoc(s: Pool, acts: seq<Action>, a: Action)
    requires Legal(s, acts) && Enabled(Exec(s, acts), a)
    ensures Legal(s, acts + [a]) && Exec(s, acts + [a]) == Apply(Exec(s, acts), a)
    decreases |acts|
  {
    if acts == [] {
      assert Legal(Apply(s, a), []);
    } else {
      assert (acts + [a])[1..] == acts[1..] + [a];
      ExecSnoc(Apply(s, acts[0]), acts[1..], a);
    }
  }
}
