/** What the return of the object pool says about the calls of fn, whatever the interleaving was. */
module PoolOutcome {
  import opened Arithmetic
  import opened ObjectPool
  import opened PoolSafety
  import opened Sums

  function CallCount(s: State): int {
    Sum(s.calls, Itself)
  }

  lemma CallFnCounts(s: State, w: int)
    requires Inv(s) && Enabled(s, CallFn(w))
    ensures CallCount(Apply(s, CallFn(w))) == CallCount(s) + 1
  {
    assert WorkerOk(s, w);
    var i := s.workers[w].i;
    SumUpdate(s.calls, i, s.calls[i] + 1, Itself);
  }

  /** What a step does to the number of calls begun. */
  lemma StepCounts(s: State, step: Step)
    requires Inv(s) && Enabled(s, step)
    ensures CallCount(Apply(s, step)) == CallCount(s) + if step.CallFn? then 1 else 0
  {
    if step.Send? {
      SumAppend(s.calls, 0, Itself);
    } else if step.CallFn? {
      CallFnCounts(s, step.w);
    } else {
      assert Apply(s, step).calls == s.calls;
    }
  }

  /** How often a run calls fn. */
  function CallFns(run: seq<Step>): nat {
    if run == [] then 0 else (if run[0].CallFn? then 1 else 0) + CallFns(run[1..])
  }

  lemma {:induction false} RunCounts(s: State, run: seq<Step>)
    requires Inv(s) && IsRun(s, run)
    ensures CallCount(After(s, run)) == CallCount(s) + CallFns(run)
    decreases |run|
  {
    if run != [] {
      StepCounts(s, run[0]);
      StepKeepsInv(s, run[0]);
      RunCounts(Apply(s, run[0]), run[1..]);
    }
  }

  /**
   fn is entered at most once on an index, and only on indices of 0..n-1 that were dispatched: the calls
   counted on these are all the calls of the run.
   */
  lemma CallsAtMostOnce(workers: int, n: int, run: seq<Step>)
    requires IsRun(Start(workers, n), run)
    ensures var s := After(Start(workers, n), run);
            && |s.calls| == s.next <= AtLeastZero(n) && (forall i :: 0 <= i < s.next ==> 0 <= s.calls[i] <= 1)
            && CallCount(s) == CallFns(run)
  {
    var s := After(Start(workers, n), run);
    StartInv(workers, n);
    RunKeepsInv(Start(workers, n), run);
    NeverChangesSize(Start(workers, n), run);
    RunCounts(Start(workers, n), run);
    forall i | 0 <= i < s.next ensures 0 <= s.calls[i] <= 1 {
      assert FateOk(s, i);
    }
  }

  lemma {:induction false} NeverChangesSize(s: State, run: seq<Step>)
    requires IsRun(s, run)
    ensures After(s, run).n == s.n && |After(s, run).workers| == |s.workers|
    decreases |run|
  {
    if run != [] {
      NeverChangesSize(Apply(s, run[0]), run[1..]);
    }
  }

  /** A reached state of a pool started with n indices. */
  ghost predicate Reached(workers: int, n: int, run: seq<Step>, s: State) {
    IsRun(Start(workers, n), run) && s == After(Start(workers, n), run)
  }

  lemma ReachedInv(workers: int, n: int, run: seq<Step>, s: State)
    requires Reached(workers, n, run, s)
    ensures Inv(s) && s.n == n && |s.workers| == AtLeastZero(PoolSize(workers, n))
  {
    StartInv(workers, n);
    RunKeepsInv(Start(workers, n), run);
    NeverChangesSize(Start(workers, n), run);
  }

  /** fn ran on i to its end and returned nil. */
  predicate Succeeded(s: State, i: int)
    requires 0 <= i < |s.fate| == |s.calls|
  {
    s.fate[i].Ran? && s.fate[i].result.None? && s.calls[i] == 1
  }

  predicate LeftOut(s: State, i: int)
    requires 0 <= i < |s.fate| == |s.calls|
  {
    s.fate[i].Skipped? && s.calls[i] == 0
  }

  /** fn ran on i to its end and returned e. */
  predicate FailedWith(s: State, i: int, e: Error) {
    0 <= i < |s.fate| && 0 <= i < |s.calls| && s.calls[i] == 1 && s.fate[i].Ran? && s.fate[i].result == Some(e)
  }

  /**
   A pool that returns nil dispatched all n indices; on each one fn either ran once and returned nil
   or was left out, and leaving out needs a cancelled context. Without cancellation fn ran once on
   every index and never failed.
   */
  lemma NilMeansComplete(workers: int, n: int, run: seq<Step>, s: State)
    requires Reached(workers, n, run, s) && s.disp == Returned(None)
    ensures |s.fate| == |s.calls| == AtLeastZero(n)
    ensures forall i :: 0 <= i < n ==> Succeeded(s, i) || (LeftOut(s, i) && s.cancelled)
    ensures !s.cancelled ==> forall i :: 0 <= i < n ==> Succeeded(s, i)
  {
    ReachedInv(workers, n, run, s);
    forall i | 0 <= i < n ensures Succeeded(s, i) || (LeftOut(s, i) && s.cancelled) {
      assert FateOk(s, i);
    }
  }

  /** The pool returns an error exactly when some call of fn returned one, and then it is an error of such a call. */
  lemma ErrorMeansFailure(workers: int, n: int, run: seq<Step>, s: State)
    requires Reached(workers, n, run, s) && s.disp.Returned?
    ensures s.disp.result.Some? <==> exists i, e :: FailedWith(s, i, e)
    ensures s.disp.result.Some? ==> exists i :: FailedWith(s, i, s.disp.result.value)
  {
    ReachedInv(workers, n, run, s);
    if s.disp.result.Some? {
      var last := |s.stores| - 1;
      assert StoreOk(s, last);
      assert FateOk(s, s.stores[last].i);
      assert FailedWith(s, s.stores[last].i, s.disp.result.value);
    }
    forall i, e | FailedWith(s, i, e) ensures s.disp.result.Some? {
      assert FateOk(s, i);
    }
  }

  lemma {:induction false} DistinctBelow(xs: seq<int>, m: nat)
    requires forall k :: 0 <= k < |xs| ==> 0 <= xs[k] < m
    requires forall k, l :: 0 <= k < l < |xs| ==> xs[k] != xs[l]
    ensures |xs| <= m
    decreases m
  {
    if xs == [] {
      return;
    }
    assert 0 <= xs[0] < m;
    if k :| 0 <= k < |xs| && xs[k] == m - 1 {
      DistinctBelow(xs[..k] + xs[k + 1..], m - 1);
    } else {
      DistinctBelow(xs, m - 1);
    }
  }

  /** No worker stores into firstErr twice, so there are at most as many stores as workers; the last one is what is returned. */
  lemma StoresAtMostOncePerWorker(workers: int, n: int, run: seq<Step>, s: State)
    requires Reached(workers, n, run, s)
    ensures forall k, l :: 0 <= k < l < |s.stores| ==> s.stores[k].worker != s.stores[l].worker
    ensures |s.stores| <= |s.workers|
    ensures s.disp.Returned? && s.stores != [] ==> s.disp.result == Some(s.stores[|s.stores| - 1].e)
  {
    ReachedInv(workers, n, run, s);
    var storers := seq(|s.stores|, k requires 0 <= k < |s.stores| => s.stores[k].worker);
    forall k | 0 <= k < |storers| ensures 0 <= storers[k] < |s.workers| {
      assert StoreOk(s, k);
    }
    DistinctBelow(storers, |s.workers|);
  }

  // ---------------------------------------------------------------- after the first error

  /** A worker past its look at firstErr that has not called fn yet. */
  function AtContext(p: Phase): int {
    if p.CheckContext? || p.Cleared? then 1 else 0
  }

  function Pending(s: State): int {
    if s.disp.Sending? then 1 else 0
  }

  predicate MovesWorker(step: Step) {
    !(step.Test? || step.Close? || step.Join? || step.Return? || step.Cancel?)
  }

  /** What a step does to a sum over the workers: only one worker moves. */
  lemma StepMoves(s: State, step: Step, f: Phase -> int)
    requires Enabled(s, step)
    ensures var t := Apply(s, step);
            if MovesWorker(step)
            then IsWorker(s, step.w) && |t.workers| == |s.workers|
                 && Sum(t.workers, f) == Sum(s.workers, f) - f(s.workers[step.w]) + f(t.workers[step.w])
            else t.workers == s.workers
  {
    var t := Apply(s, step);
    if MovesWorker(step) {
      assert t.workers == s.workers[step.w := t.workers[step.w]];
      SumUpdate(s.workers, step.w, t.workers[step.w], f);
    }
  }

  lemma StepAfterError(s: State, step: Step)
    requires Inv(s) && s.firstErr.Some? && Enabled(s, step)
    ensures var t := Apply(s, step);
            && t.firstErr.Some?
            && t.next + Pending(t) <= s.next + Pending(s)
            && CallCount(t) + Sum(t.workers, AtContext) <= CallCount(s) + Sum(s.workers, AtContext)
  {
    StepCounts(s, step);
    StepMoves(s, step, AtContext);
  }

  lemma {:induction false} RunAfterError(s: State, run: seq<Step>)
    requires Inv(s) && s.firstErr.Some? && IsRun(s, run)
    ensures var t := After(s, run);
            && t.firstErr.Some?
            && t.next + Pending(t) <= s.next + Pending(s)
            && CallCount(t) + Sum(t.workers, AtContext) <= CallCount(s) + Sum(s.workers, AtContext)
    decreases |run|
  {
    if run != [] {
      StepAfterError(s, run[0]);
      StepKeepsInv(s, run[0]);
      RunAfterError(Apply(s, run[0]), run[1..]);
    }
  }

  /**
   From the moment firstErr is set it stays set, at most the one index the dispatcher is already
   sending is handed out, and at most PoolSize - 1 further calls of fn begin.
   */
  lemma ErrorStopsThePool(workers: int, n: int, before: seq<Step>, s: State, rest: seq<Step>)
    requires Reached(workers, n, before, s) && s.firstErr.Some? && IsRun(s, rest)
    ensures var t := After(s, rest);
            && t.firstErr.Some?
            && t.next <= s.next + Pending(s)
            && CallCount(t) <= CallCount(s) + PoolSize(workers, n) - 1
  {
    ReachedInv(workers, n, before, s);
    RunAfterError(s, rest);
    var t := After(s, rest);
    SumBounds(t.workers, AtContext, 0, 1);
    assert StoreOk(s, 0);
    SumStrictlyBelow(s.workers, AtContext, 1, s.stores[0].worker);
  }

  // ---------------------------------------------------------------- late errors and cancellation

  function AtStore(p: Phase): int {
    if p.Storing? then 1 else 0
  }

  lemma StepDropsLateErrors(s: State, step: Step)
    requires Inv(s) && s.firstErr.Some? && Enabled(s, step)
    ensures var t := Apply(s, step);
            |t.stores| + Sum(t.workers, AtStore) <= |s.stores| + Sum(s.workers, AtStore) && |t.stores| >= |s.stores|
  {
    StepMoves(s, step, AtStore);
  }

  lemma {:induction false} RunDropsLateErrors(s: State, run: seq<Step>)
    requires Inv(s) && s.firstErr.Some? && IsRun(s, run)
    ensures var t := After(s, run);
            |t.stores| + Sum(t.workers, AtStore) <= |s.stores| + Sum(s.workers, AtStore) && |t.stores| >= |s.stores|
    ensures |After(s, run).stores| == |s.stores| ==> After(s, run).firstErr == s.firstErr
    decreases |run|
  {
    if run != [] {
      StepDropsLateErrors(s, run[0]);
      StepAfterError(s, run[0]);
      StepKeepsInv(s, run[0]);
      RunDropsLateErrors(Apply(s, run[0]), run[1..]);
    }
  }

  /**
   Once firstErr is set, an error that fn returns later is dropped: only workers already past their
   second look at firstErr can still overwrite it, each once, and without any the stored error is final.
   */
  lemma LateErrorsAreDropped(workers: int, n: int, before: seq<Step>, s: State, rest: seq<Step>)
    requires Reached(workers, n, before, s) && s.firstErr.Some? && IsRun(s, rest)
    ensures var t := After(s, rest);
            && |t.stores| <= |s.stores| + Sum(s.workers, AtStore)
            && ((forall w :: 0 <= w < |s.workers| ==> !s.workers[w].Storing?) ==> t.firstErr == s.firstErr)
  {
    ReachedInv(workers, n, before, s);
    RunDropsLateErrors(s, rest);
    SumBounds(After(s, rest).workers, AtStore, 0, 1);
    if forall w :: 0 <= w < |s.workers| ==> !s.workers[w].Storing? {
      ZeroSum(s.workers, AtStore);
    }
  }

  /** A worker that found the context alive and is about to call fn. */
  function AtCall(p: Phase): int {
    if p.Cleared? then 1 else 0
  }

  lemma StepAfterCancel(s: State, step: Step)
    requires Inv(s) && s.cancelled && Enabled(s, step)
    ensures var t := Apply(s, step);
            && t.cancelled && CallCount(s) <= CallCount(t)
            && CallCount(t) + Sum(t.workers, AtCall) <= CallCount(s) + Sum(s.workers, AtCall)
  {
    StepCounts(s, step);
    StepMoves(s, step, AtCall);
  }

  lemma {:induction false} RunAfterCancel(s: State, run: seq<Step>)
    requires Inv(s) && s.cancelled && IsRun(s, run)
    ensures var t := After(s, run);
            && CallCount(s) <= CallCount(t)
            && CallCount(t) + Sum(t.workers, AtCall) <= CallCount(s) + Sum(s.workers, AtCall)
    decreases |run|
  {
    if run != [] {
      StepAfterCancel(s, run[0]);
      StepKeepsInv(s, run[0]);
      RunAfterCancel(Apply(s, run[0]), run[1..]);
    }
  }

  /**
   After a cancellation fn is called by those workers only that had already found the context alive,
   once each, so at most PoolSize times.
   */
  lemma CancelStopsCalls(workers: int, n: int, before: seq<Step>, s: State, rest: seq<Step>)
    requires Reached(workers, n, before, s) && s.cancelled && IsRun(s, rest)
    ensures CallCount(s) <= CallCount(After(s, rest)) <= CallCount(s) + Sum(s.workers, AtCall)
    ensures Sum(s.workers, AtCall) <= AtLeastZero(PoolSize(workers, n))
  {
    ReachedInv(workers, n, before, s);
    RunAfterCancel(s, rest);
    SumBounds(After(s, rest).workers, AtCall, 0, 1);
    SumBounds(s.workers, AtCall, 0, 1);
  }

  /** A cancellation stops the calls of fn at once if and only if no worker stands between its look at the context and fn. */
  lemma CancelIsImmediateExactlyIfNoneCleared(workers: int, n: int, before: seq<Step>, s: State)
    requires Reached(workers, n, before, s) && s.cancelled
    ensures (forall rest :: IsRun(s, rest) ==> CallCount(After(s, rest)) == CallCount(s))
            <==> forall w :: 0 <= w < |s.workers| ==> !s.workers[w].Cleared?
  {
    ReachedInv(workers, n, before, s);
    if w :| 0 <= w < |s.workers| && s.workers[w].Cleared? {
      CallFnCounts(s, w);
      var rest := [CallFn(w)];
      assert IsRun(Apply(s, rest[0]), rest[1..]);
      assert After(s, rest) == Apply(s, CallFn(w));
    } else {
      ZeroSum(s.workers, AtCall);
      forall rest | IsRun(s, rest) ensures CallCount(After(s, rest)) == CallCount(s) {
        CancelStopsCalls(workers, n, before, s, rest);
      }
    }
  }
}
