/**
 The pool's objects: a worker's critical sections, and work(), which splits the batch.
 Each method is proved against the functions the transition system in ThreadPool is made of.
 */
module ThreadPoolObjects {
  import opened ThreadPool

  datatype TaskResult = NoTask | Task(index: nat)

  class WorkerObject {
    var mode: Mode
    var currentIndex: nat
    var endIndex: nat

    constructor ()
      ensures mode == Waiting && currentIndex == endIndex == 0
    {
      mode, currentIndex, endIndex := Waiting, 0, 0;
    }

    /** This object's fields as the worker of the transition system standing at `w`. */
    ghost predicate IsAt(w: Worker)
      reads this
    {
      w.mode == mode && w.lo == currentIndex && w.hi == endIndex
    }

    method StartWorking(start: nat, end: nat)
      requires mode == Waiting
      modifies this
      ensures mode == ReadyToStart && currentIndex == start && endIndex == end
    {
      currentIndex := start;
      endIndex := end;
      mode := ReadyToStart;
    }

    /**
     One compare-exchange of tell_to_stop_working, made on this object by worker i of the protocol; between the two of
     them the other workers may step.
     */
    method ExchangeToTold(expected: Mode, ghost s: Pool, ghost i: nat) returns (told: bool)
      requires Indexed(s) && i < |s.ws| && s.ws[i].pc.Tell? && IsAt(s.ws[s.ws[i].pc.j])
      requires expected == if s.ws[i].pc.second then Stealing else Working
      modifies this`mode
      ensures told == Tells(s, s.ws[i]) && IsAt(Step(s, i, false).ws[s.ws[i].pc.j])
    {
      told := mode == expected;
      if told {
        mode := ToldToStop;
      }
    }

    /** Both of them, with no step of another worker in between: the second is made only where the first has failed. */
    method TellToStopWorking(ghost s: Pool, ghost i: nat)
      requires Indexed(s) && i < |s.ws| && s.ws[i].pc.Tell? && !s.ws[i].pc.second && IsAt(s.ws[s.ws[i].pc.j])
      modifies this`mode
      ensures var j := s.ws[i].pc.j; var s1 := Step(s, i, false);
        if Tells(s, s.ws[i]) then IsAt(s1.ws[j])
        else Indexed(s1) && s1.ws[i].pc == s.ws[i].pc.(second := true) && IsAt(Step(s1, i, false).ws[j])
    {
      var told := ExchangeToTold(Working, s, i);
      if told { return; }
      told := ExchangeToTold(Stealing, Step(s, i, false), i);
    }

    /** The exchange in stop_working, made by worker i itself; the next access signals the pool just if `signals`. */
    method ExchangeToWaiting(ghost s: Pool, ghost i: nat) returns (signals: bool)
      requires Indexed(s) && i < |s.ws| && (s.ws[i].pc.StopExchange? || s.ws[i].pc.ErrExchange?) && IsAt(s.ws[i])
      modifies this`mode
      ensures IsAt(Step(s, i, false).ws[i]) && signals == Signals(Step(s, i, false).ws[i])
    {
      var oldMode := mode;
      mode := Waiting;
      signals := oldMode != Waiting;
    }

    method GetTask(ghost w: Worker) returns (task: TaskResult)
      requires IsAt(w)
      modifies this`currentIndex
      ensures w.lo >= w.hi ==> task == NoTask && IsAt(w)
      ensures w.lo < w.hi ==> task == Task(w.lo) && IsAt(TakeFront(w))
    {
      if currentIndex >= endIndex {
        return NoTask;
      }
      task := Task(currentIndex);
      currentIndex := currentIndex + 1;
    }

    method ExternallyStealTask(ghost w: Worker) returns (task: TaskResult)
      requires IsAt(w)
      modifies this`endIndex
      ensures w.lo >= w.hi ==> task == NoTask && IsAt(w)
      ensures w.lo < w.hi ==> task == Task(w.hi - 1) && IsAt(TakeBack(w))
    {
      if currentIndex >= endIndex {
        return NoTask;
      }
      endIndex := endIndex - 1;
      task := Task(endIndex);
    }
  }

  class PoolObject {
    const workers: seq<WorkerObject>
    var numTasks: nat
    var maxNumWorking: nat
    var numWorking: nat
    var numStealing: nat
    var errored: bool

    constructor (workers: seq<WorkerObject>)
      ensures this.workers == workers && numWorking == 0
    {
      this.workers := workers;
      numTasks, maxNumWorking, numWorking, numStealing, errored := 0, 0, 0, 0, false;
    }

    ghost predicate Distinct() {
      forall i, j :: 0 <= i < j < |workers| ==> workers[i] != workers[j]
    }

    /** work(): every started worker is given its share and made ready, then the batch is published. */
    method Work(n: nat)
      requires Distinct() && |workers| > 0 && n > 0 && numWorking == 0
      requires forall i :: 0 <= i < |workers| ==> workers[i].mode == Waiting
      modifies this, set i | 0 <= i < |workers| :: workers[i]
      ensures numTasks == n && numStealing == 0 && !errored
      ensures numWorking == maxNumWorking == Started(n, |workers|)
      ensures forall i :: 0 <= i < maxNumWorking ==>
                && workers[i].mode == ReadyToStart
                && workers[i].currentIndex == Starts(n, |workers|)[i]
                && workers[i].endIndex == Starts(n, |workers|)[i + 1]
      ensures forall i :: maxNumWorking <= i < |workers| ==> workers[i].mode == Waiting
    {
      numTasks := n;
      errored := false;
      numStealing := 0;
      if |workers| > n {
        StartOneEach(n);
        UnitShares(n, |workers|);
        maxNumWorking := n;
      } else {
        StartShares(n);
        maxNumWorking := |workers|;
      }
      numWorking := maxNumWorking;
    }

    method StartOneEach(n: nat)
      requires Distinct() && n < |workers|
      requires forall i :: 0 <= i < |workers| ==> workers[i].mode == Waiting
      modifies set i | 0 <= i < |workers| :: workers[i]
      ensures forall k :: 0 <= k < n ==>
                workers[k].mode == ReadyToStart && workers[k].currentIndex == k && workers[k].endIndex == k + 1
      ensures forall k :: n <= k < |workers| ==> workers[k].mode == Waiting
    {
      for i := 0 to n
        invariant forall k :: 0 <= k < i ==>
                    workers[k].mode == ReadyToStart && workers[k].currentIndex == k && workers[k].endIndex == k + 1
        invariant forall k :: i <= k < |workers| ==> workers[k].mode == Waiting
      {
        workers[i].StartWorking(i, i + 1);
      }
    }

    method StartShares(n: nat)
      requires Distinct() && 0 < |workers| <= n
      requires forall i :: 0 <= i < |workers| ==> workers[i].mode == Waiting
      modifies set i | 0 <= i < |workers| :: workers[i]
      ensures forall k :: 0 <= k < |workers| ==>
                && workers[k].mode == ReadyToStart
                && workers[k].currentIndex == ShareStart(k, n, |workers|)
                && workers[k].endIndex == ShareStart(k + 1, n, |workers|)
    {
      var numTasksPerThread := n / |workers|;
      var numRemainingTasks := n % |workers|;
      var taskIndex := 0;
      for i := 0 to |workers|
        invariant taskIndex == TaskIndex(i, numTasksPerThread, numRemainingTasks)
        invariant forall k {:trigger workers[k]} :: 0 <= k < i ==>
                    && workers[k].mode == ReadyToStart
                    && workers[k].currentIndex == TaskIndex(k, numTasksPerThread, numRemainingTasks)
                    && workers[k].endIndex == TaskIndex(k + 1, numTasksPerThread, numRemainingTasks)
        invariant forall k :: i <= k < |workers| ==> workers[k].mode == Waiting
      {
        var numTasksForWorker := numTasksPerThread + (if i < numRemainingTasks then 1 else 0);
        workers[i].StartWorking(taskIndex, taskIndex + numTasksForWorker);
        taskIndex := taskIndex + numTasksForWorker;
      }
    }
  }

  /** With more workers than tasks, the shares of the general formula are the single tasks. */
  lemma UnitShares(n: nat, w: nat)
    requires n < w
    ensures forall k :: 0 <= k <= n ==> Starts(n, w)[k] == k
  {
    forall k | 0 <= k <= n
      ensures ShareStart(k, n, w) == k
    {
      DivSmall(n, w);
      TaskIndexClosed(k, n / w, n % w);
    }
  }
}
