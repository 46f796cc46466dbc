/** The object pool never blocks and never spins: it returns as soon as every call of fn returns. */
module PoolLiveness {
  import opened Arithmetic
  import opened ObjectPool
  import opened PoolSafety
  import opened PoolOutcome
  import opened Sums

  /** A step the pool itself can take, without the end of a call of fn and without a cancellation. */
  predicate OwnStep(s: State, step: Step) {
    !step.FnReturns? && !step.Cancel? && Enabled(s, step)
  }

  /**
   In every reached state that has not returned, the pool can take a step of its own or some worker
   is inside fn: no interleaving, error or cancellation leaves it blocked on the channel or the join.
   */
  lemma NeverStuck(workers: int, n: int, run: seq<Step>, s: State)
    requires Reached(workers, n, run, s) && !s.disp.Returned?
    ensures (exists step :: OwnStep(s, step)) || (exists w :: IsWorker(s, w) && s.workers[w].Running?)
  {
    ReachedInv(workers, n, run, s);
    if s.disp.Testing? {
      assert OwnStep(s, Test);
    } else if s.disp.Closing? {
      assert OwnStep(s, Close);
    } else if s.disp.Joined? {
      assert OwnStep(s, Return);
    } else if s.disp.Waiting? && AllDone(s) {
      assert OwnStep(s, Join);
    } else {
      var w := if s.disp.Sending? then 0 else var v :| IsWorker(s, v) && !s.workers[v].Done?; v;
      assert WorkerOk(s, w);
      match s.workers[w]
      case Receiving =>
        if s.disp.Sending? {
          assert OwnStep(s, Send(w));
        } else {
          assert OwnStep(s, Exit(w));
        }
      case CheckError(_) => assert OwnStep(s, LoadError(w));
      case CheckContext(_) => assert OwnStep(s, LoadContext(w));
      case Cleared(_) => assert OwnStep(s, CallFn(w));
      case Running(_) =>
      case Failed(_, _) => assert OwnStep(s, LoadBeforeStore(w));
      case Storing(_, _) => assert OwnStep(s, Store(w));
    }
  }

  // ---------------------------------------------------------------- termination

  function PhaseWeight(p: Phase): int {
    match p
    case Done => 0
    case Receiving => 1
    case Storing(_, _) => 2
    case Failed(_, _) => 3
    case Running(_) => 4
    case Cleared(_) => 5
    case CheckContext(_) => 6
    case CheckError(_) => 7
  }

  function DispatcherWeight(s: State): int {
    match s.disp
    case Testing => 8 * (AtLeastZero(s.n) - s.next) + 4
    case Sending => 8 * (AtLeastZero(s.n) - s.next) + 3
    case Closing => 3
    case Waiting => 2
    case Joined => 1
    case Returned(_) => 0
  }

  function Weight(s: State): int {
    DispatcherWeight(s) + Sum(s.workers, PhaseWeight) + if s.cancelled then 0 else 1
  }

  lemma WeightNotNegative(s: State)
    requires Inv(s)
    ensures Weight(s) >= 0
  {
    SumBounds(s.workers, PhaseWeight, 0, 7);
  }

  lemma StepLowersWeight(s: State, step: Step)
    requires Inv(s) && Enabled(s, step)
    ensures Weight(Apply(s, step)) < Weight(s)
  {
    StepMoves(s, step, PhaseWeight);
  }

  lemma {:induction false} RunLowersWeight(s: State, run: seq<Step>)
    requires Inv(s) && IsRun(s, run)
    ensures Weight(After(s, run)) + |run| <= Weight(s)
    decreases |run|
  {
    if run != [] {
      StepLowersWeight(s, run[0]);
      StepKeepsInv(s, run[0]);
      RunLowersWeight(Apply(s, run[0]), run[1..]);
    }
  }

  /** No run, whatever its interleaving and its cancellations, is longer than a bound linear in n and the pool size. */
  lemma RunsAreBounded(workers: int, n: int, run: seq<Step>)
    requires IsRun(Start(workers, n), run)
    ensures |run| <= 8 * AtLeastZero(n) + AtLeastZero(PoolSize(workers, n)) + 5
  {
    var s := Start(workers, n);
    StartInv(workers, n);
    RunKeepsInv(s, run);
    RunLowersWeight(s, run);
    WeightNotNegative(After(s, run));
    SumBounds(s.workers, PhaseWeight, 1, 1);
  }

  /**
   The states in which nothing but a cancellation can still happen are exactly the returned ones.
   Together with RunsAreBounded: every schedule that never stops early ends with the pool returned.
   */
  lemma FinalMeansReturned(workers: int, n: int, run: seq<Step>, s: State)
    requires Reached(workers, n, run, s)
    ensures (forall step :: Enabled(s, step) ==> step.Cancel?) <==> s.disp.Returned?
  {
    ReachedInv(workers, n, run, s);
    forall w | IsWorker(s, w) && s.workers[w].Running? ensures Enabled(s, FnReturns(w, None)) {
    }
    if !s.disp.Returned? {
      NeverStuck(workers, n, run, s);
    }
  }
}
