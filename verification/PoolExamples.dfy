/** Runs that show what the object pool does not promise, although its comment may suggest it, and exactly when it does. */
module PoolExamples {
  import opened ObjectPool
  import opened PoolCancellation
  import opened PoolOutcome
  import opened Sums

  lemma Take(workers: int, n: int, run: seq<Step>, s: State, step: Step) returns (longer: seq<Step>, t: State)
    requires Reached(workers, n, run, s) && Enabled(s, step)
    ensures Reached(workers, n, longer, t) && t == Apply(s, step)
  {
    RunsCompose(Start(workers, n), run, [step]);
    longer, t := run + [step], Apply(s, step);
  }

  /** One worker, one index: the context ends before fn is called, and the pool still returns nil. */
  lemma CancelledPoolMayReturnNil() returns (run: seq<Step>, s: State)
    ensures Reached(1, 1, run, s) && s.disp == Returned(None) && s.calls == [0]
  {
    run, s := [], Start(1, 1);
    run, s := Take(1, 1, run, s, Cancel);
    run, s := Take(1, 1, run, s, Test);
    run, s := Take(1, 1, run, s, Send(0));
    run, s := Take(1, 1, run, s, LoadError(0));
    run, s := Take(1, 1, run, s, LoadContext(0));
    run, s := Take(1, 1, run, s, Test);
    run, s := Take(1, 1, run, s, Close);
    run, s := Take(1, 1, run, s, Exit(0));
    run, s := Take(1, 1, run, s, Join);
    run, s := Take(1, 1, run, s, Return);
  }

  // ---------------------------------------------------------------- calls after a cancellation

  /** In every pool with work to do the context may end just after a worker has found it alive. */
  lemma ClearedAndCancelled(workers: int, n: int) returns (run: seq<Step>, s: State)
    requires n >= 1
    ensures Reached(workers, n, run, s) && s.cancelled
    ensures IsWorker(s, 0) && s.workers[0] == Cleared(0)
  {
    run, s := [], Start(workers, n);
    run, s := Take(workers, n, run, s, Test);
    run, s := Take(workers, n, run, s, Send(0));
    run, s := Take(workers, n, run, s, LoadError(0));
    run, s := Take(workers, n, run, s, LoadContext(0));
    run, s := Take(workers, n, run, s, Cancel);
  }

  /** No run from s begins a further call of fn. */
  ghost predicate NoMoreCalls(s: State) {
    forall rest :: IsRun(s, rest) ==> CallCount(After(s, rest)) == CallCount(s)
  }

  /** "A cancelled context lets no further call of fn begin" holds of every interleaving if and only if there is nothing to do. */
  lemma CancelIsImmediateExactlyIfNothingToDo(workers: int, n: int)
    ensures (forall run, s :: Reached(workers, n, run, s) && s.cancelled ==> NoMoreCalls(s)) <==> n < 1
  {
    if n < 1 {
      forall run, s | Reached(workers, n, run, s) && s.cancelled ensures NoMoreCalls(s) {
        ReachedInv(workers, n, run, s);
        CancelIsImmediateExactlyIfNoneCleared(workers, n, run, s);
      }
    } else {
      var run, s := ClearedAndCancelled(workers, n);
      CancelIsImmediateExactlyIfNoneCleared(workers, n, run, s);
      assert !NoMoreCalls(s);
    }
  }

  // ---------------------------------------------------------------- which error is returned

  /** Nothing was stored yet, and workers 0 and 1 stand at p and q; the others are receiving. */
  predicate Two(s: State, p: Phase, q: Phase) {
    && s.stores == [] && s.firstErr == None
    && |s.workers| >= 2 && s.workers[0] == p && s.workers[1] == q
    && forall w :: 2 <= w < |s.workers| ==> s.workers[w].Receiving?
  }

  lemma BothReceived(workers: int, n: int) returns (run: seq<Step>, s: State)
    requires PoolSize(workers, n) >= 2
    ensures Reached(workers, n, run, s) && !s.cancelled && Two(s, CheckError(0), CheckError(1))
  {
    run, s := [], Start(workers, n);
    run, s := Take(workers, n, run, s, Test);
    run, s := Take(workers, n, run, s, Send(0));
    run, s := Take(workers, n, run, s, Test);
    run, s := Take(workers, n, run, s, Send(1));
  }

  lemma BothRunning(workers: int, n: int) returns (run: seq<Step>, s: State)
    requires PoolSize(workers, n) >= 2
    ensures Reached(workers, n, run, s) && Two(s, Running(0), Running(1))
  {
    run, s := BothReceived(workers, n);
    run, s := Take(workers, n, run, s, LoadError(0));
    run, s := Take(workers, n, run, s, LoadError(1));
    run, s := Take(workers, n, run, s, LoadContext(0));
    run, s := Take(workers, n, run, s, LoadContext(1));
    run, s := Take(workers, n, run, s, CallFn(0));
    run, s := Take(workers, n, run, s, CallFn(1));
  }

  const OVERWRITTEN := [Stored(0, 0, "first"), Stored(1, 1, "second")]

  /** Both have failed and found firstErr empty. */
  lemma BothAboutToStore(workers: int, n: int) returns (run: seq<Step>, s: State)
    requires PoolSize(workers, n) >= 2
    ensures Reached(workers, n, run, s) && Two(s, Storing(0, "first"), Storing(1, "second"))
  {
    run, s := BothRunning(workers, n);
    run, s := Take(workers, n, run, s, FnReturns(0, Some("first")));
    run, s := Take(workers, n, run, s, LoadBeforeStore(0));
    run, s := Take(workers, n, run, s, FnReturns(1, Some("second")));
    run, s := Take(workers, n, run, s, LoadBeforeStore(1));
  }

  lemma BothStored(workers: int, n: int) returns (run: seq<Step>, s: State)
    requires PoolSize(workers, n) >= 2
    ensures Reached(workers, n, run, s)
    ensures forall w :: 0 <= w < |s.workers| ==> s.workers[w].Receiving?
    ensures s.stores == OVERWRITTEN && s.firstErr == Some("second")
  {
    run, s := BothAboutToStore(workers, n);
    run, s := Take(workers, n, run, s, Store(0));
    run, s := Take(workers, n, run, s, Store(1));
  }

  /** In every pool of at least two workers the error stored second may overwrite the first one and be what the pool returns. */
  lemma FirstErrorMayBeOverwritten(workers: int, n: int) returns (run: seq<Step>, s: State)
    requires PoolSize(workers, n) >= 2
    ensures Reached(workers, n, run, s) && s.disp == Returned(Some("second"))
    ensures s.stores == OVERWRITTEN
  {
    var before, stored := BothStored(workers, n);
    run, s := CanFinish(workers, n, before, stored);
    var rest := run[|before|..];
    assert run == before + rest;
    RunSplits(Start(workers, n), before, rest);
    ReachedInv(workers, n, before, stored);
    ReachedInv(workers, n, run, s);
    StoresOnlyGrow(stored, rest);
    LateErrorsAreDropped(workers, n, before, stored, rest);
    ZeroSum(stored.workers, AtStore);
  }

  lemma {:induction false} StoresOnlyGrow(s: State, run: seq<Step>)
    requires IsRun(s, run)
    ensures s.stores <= After(s, run).stores
    decreases |run|
  {
    if run != [] {
      StoresOnlyGrow(Apply(s, run[0]), run[1..]);
    }
  }

  /** The pool returned an error, if any, that no earlier one had preceded in firstErr. */
  predicate ReturnsFirstStored(s: State) {
    s.disp.Returned? && s.stores != [] ==> s.disp.result == Some(s.stores[0].e)
  }

  /**
   "The error returned is the first one stored" holds of every interleaving if and only if the pool has
   at most one worker: firstErr is tested and set in two steps, so two failing workers can both store.
   */
  lemma FirstErrorReturnedExactlyIfOneWorker(workers: int, n: int)
    ensures (forall run, s :: Reached(workers, n, run, s) ==> ReturnsFirstStored(s)) <==> (workers <= 1 || n <= 1)
  {
    if workers <= 1 || n <= 1 {
      forall run, s | Reached(workers, n, run, s) ensures ReturnsFirstStored(s) {
        ReachedInv(workers, n, run, s);
        StoresAtMostOncePerWorker(workers, n, run, s);
      }
    } else {
      var run, s := FirstErrorMayBeOverwritten(workers, n);
      assert !ReturnsFirstStored(s);
    }
  }
}
