/** The one gap in what a nil return promises: a context that is already cancelled. */
module PoolCancellation {
  import opened Arithmetic
  import opened ObjectPool
  import opened PoolSafety
  import opened PoolOutcome
  import opened PoolLiveness

  /** From every reached state the pool can be driven to its return, if each fn still running returns nil. */
  lemma {:induction false} CanFinish(workers: int, n: int, run: seq<Step>, s: State) returns (longer: seq<Step>, t: State)
    requires Reached(workers, n, run, s)
    ensures Reached(workers, n, longer, t) && t.disp.Returned?
    ensures run <= longer && (forall k :: |run| <= k < |longer| ==> longer[k] != Cancel)
    decreases Weight(s)
  {
    longer, t := run, s;
    ReachedInv(workers, n, run, s);
    WeightNotNegative(s);
    if !s.disp.Returned? {
      NeverStuck(workers, n, run, s);
      var step :=
        if exists own :: OwnStep(s, own) then var own :| OwnStep(s, own); own
        else var w :| IsWorker(s, w) && s.workers[w].Running?; FnReturns(w, None);
      StepLowersWeight(s, step);
      StepKeepsInv(s, step);
      WeightNotNegative(Apply(s, step));
      RunsCompose(Start(workers, n), run, [step]);
      longer, t := CanFinish(workers, n, run + [step], Apply(s, step));
    }
  }

  /** The context ended before any worker looked at it. */
  predicate NothingRan(s: State) {
    && s.cancelled && s.firstErr.None?
    && (forall w :: 0 <= w < |s.workers| ==>
          s.workers[w].Receiving? || s.workers[w].CheckError? || s.workers[w].CheckContext? || s.workers[w].Done?)
    && (forall i :: 0 <= i < |s.calls| ==> s.calls[i] == 0)
    && (s.disp.Returned? ==> s.disp.result.None?)
  }

  lemma {:induction false} NothingRunsOnceCancelled(s: State, run: seq<Step>)
    requires NothingRan(s) && IsRun(s, run)
    ensures NothingRan(After(s, run))
    decreases |run|
  {
    if run != [] {
      var t := Apply(s, run[0]);
      forall w | 0 <= w < |t.workers|
        ensures t.workers[w].Receiving? || t.workers[w].CheckError? || t.workers[w].CheckContext? || t.workers[w].Done?
      {
        assert 0 <= w < |s.workers|;
      }
      NothingRunsOnceCancelled(t, run[1..]);
    }
  }

  /** With a context cancelled before the call, fn is never called and a pool that returns returns nil. */
  lemma CancelledBeforehand(workers: int, n: int, run: seq<Step>, s: State)
    requires Reached(workers, n, [Cancel] + run, s)
    ensures forall i :: 0 <= i < |s.calls| ==> s.calls[i] == 0
    ensures s.disp.Returned? ==> s.disp.result == None
  {
    assert ([Cancel] + run)[1..] == run;
    NothingRunsOnceCancelled(Apply(Start(workers, n), Cancel), run);
  }

  predicate RanOnAll(s: State) {
    |s.fate| == |s.calls| == AtLeastZero(s.n) && forall i :: 0 <= i < |s.fate| ==> Succeeded(s, i)
  }

  function Beforehand(cancelled: bool): seq<Step> {
    if cancelled then [Cancel] else []
  }

  /**
   Provided the context is not cancelled during the call: "nil means fn succeeded on all of 0..n-1"
   holds of every interleaving if and only if the context was alive at the call or there was nothing to do.
   */
  lemma NilMeansAllExactlyIfContextAlive(workers: int, n: int, cancelled: bool)
    ensures
      (forall run, s ::
         Reached(workers, n, Beforehand(cancelled) + run, s) && Cancel !in run && s.disp == Returned(None) ==> RanOnAll(s))
      <==> (!cancelled || n < 1)
  {
    if !cancelled || n < 1 {
      forall run, s | Reached(workers, n, Beforehand(cancelled) + run, s) && Cancel !in run && s.disp == Returned(None)
        ensures RanOnAll(s)
      {
        NilMeansComplete(workers, n, Beforehand(cancelled) + run, s);
        ReachedInv(workers, n, Beforehand(cancelled) + run, s);
        if !cancelled {
          assert Beforehand(cancelled) + run == run;
          OnlyCancelCancels(Start(workers, n), run);
        }
      }
    } else {
      var start := Start(workers, n);
      assert [Cancel][1..] == [];
      assert IsRun(Apply(start, Cancel), []);
      var longer, t := CanFinish(workers, n, [Cancel], Apply(start, Cancel));
      var run := longer[1..];
      assert Beforehand(cancelled) + run == longer;
      CancelledBeforehand(workers, n, run, t);
      assert t.disp == Returned(None) && Cancel !in run;
      ReachedInv(workers, n, longer, t);
      assert |t.fate| == AtLeastZero(n) ==> !Succeeded(t, 0);
    }
  }

  lemma {:induction false} OnlyCancelCancels(s: State, run: seq<Step>)
    requires IsRun(s, run) && Cancel !in run && !s.cancelled
    ensures !After(s, run).cancelled
    decreases |run|
  {
    if run != [] {
      OnlyCancelCancels(Apply(s, run[0]), run[1..]);
    }
  }
}
