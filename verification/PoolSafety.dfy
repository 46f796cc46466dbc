/** What every interleaving of the object pool keeps, and what its return value then means. */
module PoolSafety {
  import opened Arithmetic
  import opened ObjectPool

  // ---------------------------------------------------------------- the invariant

  predicate Shape(s: State) {
    && 0 <= s.next
    && |s.calls| == |s.fate| == s.next
    && s.next <= AtLeastZero(s.n)
    && (s.disp.Sending? ==> s.next < s.n)
    && (s.n >= 1 ==> |s.workers| >= 1)
  }

  /** The index a worker has received but not yet skipped or finished. */
  predicate Holds(p: Phase, i: int) {
    p == CheckError(i) || p == CheckContext(i) || p == Cleared(i) || p == Running(i)
  }

  predicate WorkerOk(s: State, w: int)
    requires IsWorker(s, w)
  {
    match s.workers[w]
    case CheckError(i) => 0 <= i < |s.fate| && s.fate[i] == Held(w)
    case CheckContext(i) => 0 <= i < |s.fate| && s.fate[i] == Held(w)
    case Cleared(i) => 0 <= i < |s.fate| && s.fate[i] == Held(w)
    case Running(i) => 0 <= i < |s.fate| && s.fate[i] == Held(w)
    case Failed(i, e) => 0 <= i < |s.fate| && s.fate[i] == Ran(w, Some(e))
    case Storing(i, e) => 0 <= i < |s.fate| && s.fate[i] == Ran(w, Some(e))
    case Receiving => true
    case Done => ChannelClosed(s)
  }

  predicate FateOk(s: State, i: int)
    requires 0 <= i < |s.fate| == |s.calls|
  {
    match s.fate[i]
    case Held(w) =>
      IsWorker(s, w) && Holds(s.workers[w], i) && s.calls[i] == if s.workers[w].Running? then 1 else 0
    case Skipped =>
      (s.firstErr.Some? || s.cancelled) && s.calls[i] == 0
    case Ran(w, result) =>
      && IsWorker(s, w) && s.calls[i] == 1
      && (result.Some? && s.firstErr.None? ==>
            s.workers[w] == Failed(i, result.value) || s.workers[w] == Storing(i, result.value))
  }

  predicate Idle(p: Phase) {
    p.Receiving? || p.CheckError? || p.Done?
  }

  predicate StoreOk(s: State, k: int)
    requires 0 <= k < |s.stores|
  {
    var st := s.stores[k];
    && IsWorker(s, st.worker) && Idle(s.workers[st.worker])
    && 0 <= st.i < |s.fate| && s.fate[st.i] == Ran(st.worker, Some(st.e))
  }

  predicate StoresOk(s: State) {
    && s.firstErr == (if s.stores == [] then None else Some(s.stores[|s.stores| - 1].e))
    && (forall k :: 0 <= k < |s.stores| ==> StoreOk(s, k))
    && (forall k, l :: 0 <= k < l < |s.stores| ==> s.stores[k].worker != s.stores[l].worker)
  }

  predicate EndingOk(s: State) {
    && (s.disp.Closing? || ChannelClosed(s) ==> s.next == AtLeastZero(s.n) || s.firstErr.Some?)
    && (s.disp.Joined? || s.disp.Returned? ==> AllDone(s))
    && (s.disp.Returned? ==> s.disp.result == s.firstErr)
  }

  ghost predicate Inv(s: State) {
    && Shape(s)
    && (forall w :: 0 <= w < |s.workers| ==> WorkerOk(s, w))
    && (forall i :: 0 <= i < |s.fate| ==> FateOk(s, i))
    && StoresOk(s)
    && EndingOk(s)
  }

  lemma StartInv(workers: int, n: int)
    ensures Inv(Start(workers, n))
  {}

  lemma DispatcherStepKeepsInv(s: State, step: Step)
    requires Inv(s) && Enabled(s, step)
    requires step.Test? || step.Close? || step.Join? || step.Return? || step.Cancel?
    ensures Inv(Apply(s, step))
  {
    var t := Apply(s, step);
    forall i | 0 <= i < |t.fate| ensures FateOk(t, i) {
      assert FateOk(s, i);
    }
    forall w | 0 <= w < |t.workers| ensures WorkerOk(t, w) {
      assert WorkerOk(s, w);
    }
    forall k | 0 <= k < |t.stores| ensures StoreOk(t, k) {
      assert StoreOk(s, k);
    }
  }

  lemma SendKeepsInv(s: State, w: int)
    requires Inv(s) && Enabled(s, Send(w))
    ensures Inv(Apply(s, Send(w)))
  {
    var t := Apply(s, Send(w));
    forall i | 0 <= i < |t.fate| ensures FateOk(t, i) {
      if i < |s.fate| {
        assert FateOk(s, i);
      }
    }
    forall v | 0 <= v < |t.workers| ensures WorkerOk(t, v) {
      assert WorkerOk(s, v);
    }
    forall k | 0 <= k < |t.stores| ensures StoreOk(t, k) {
      assert StoreOk(s, k);
    }
  }

  predicate IsWorkerStep(step: Step) {
    step.Exit? || step.LoadError? || step.LoadContext? || step.CallFn? || step.FnReturns? || step.LoadBeforeStore?
  }

  lemma WorkerStepKeepsWorkers(s: State, step: Step)
    requires Inv(s) && Enabled(s, step) && IsWorkerStep(step)
    ensures forall w :: 0 <= w < |s.workers| ==> WorkerOk(Apply(s, step), w)
  {
    var t := Apply(s, step);
    assert WorkerOk(s, step.w);
    forall w | 0 <= w < |t.workers| ensures WorkerOk(t, w) {
      assert WorkerOk(s, w);
    }
  }

  lemma WorkerStepKeepsFates(s: State, step: Step)
    requires Inv(s) && Enabled(s, step) && IsWorkerStep(step)
    ensures var t := Apply(s, step);
            |t.fate| == |t.calls| == |s.fate| && forall i :: 0 <= i < |t.fate| ==> FateOk(t, i)
  {
    var t := Apply(s, step);
    assert WorkerOk(s, step.w);
    forall i | 0 <= i < |t.fate| ensures FateOk(t, i) {
      assert FateOk(s, i);
    }
  }

  lemma WorkerStepKeepsInv(s: State, step: Step)
    requires Inv(s) && Enabled(s, step) && IsWorkerStep(step)
    ensures Inv(Apply(s, step))
  {
    var t := Apply(s, step);
    WorkerStepKeepsWorkers(s, step);
    WorkerStepKeepsFates(s, step);
    assert WorkerOk(s, step.w);
    forall k | 0 <= k < |t.stores| ensures StoreOk(t, k) {
      assert StoreOk(s, k);
    }
  }

  lemma StoreKeepsInv(s: State, w: int)
    requires Inv(s) && Enabled(s, Store(w))
    ensures Inv(Apply(s, Store(w)))
  {
    var t := Apply(s, Store(w));
    assert WorkerOk(s, w);
    forall i | 0 <= i < |t.fate| ensures FateOk(t, i) {
      assert FateOk(s, i);
    }
    forall v | 0 <= v < |t.workers| ensures WorkerOk(t, v) {
      assert WorkerOk(s, v);
    }
    forall k | 0 <= k < |t.stores| ensures StoreOk(t, k) {
      if k < |s.stores| {
        assert StoreOk(s, k);
      }
    }
    forall k, l | 0 <= k < l < |t.stores| ensures t.stores[k].worker != t.stores[l].worker {
      assert StoreOk(s, k);
    }
  }

  lemma StepKeepsInv(s: State, step: Step)
    requires Inv(s) && Enabled(s, step)
    ensures Inv(Apply(s, step))
  {
    match step
    case Send(w) => SendKeepsInv(s, w);
    case Store(w) => StoreKeepsInv(s, w);
    case Exit(_) => WorkerStepKeepsInv(s, step);
    case LoadError(_) => WorkerStepKeepsInv(s, step);
    case LoadContext(_) => WorkerStepKeepsInv(s, step);
    case CallFn(_) => WorkerStepKeepsInv(s, step);
    case FnReturns(_, _) => WorkerStepKeepsInv(s, step);
    case LoadBeforeStore(_) => WorkerStepKeepsInv(s, step);
    case _ => DispatcherStepKeepsInv(s, step);
  }

  lemma {:induction false} RunKeepsInv(s: State, run: seq<Step>)
    requires Inv(s) && IsRun(s, run)
    ensures Inv(After(s, run))
    decreases |run|
  {
    if run != [] {
      StepKeepsInv(s, run[0]);
      RunKeepsInv(Apply(s, run[0]), run[1..]);
    }
  }

  // ---------------------------------------------------------------- what a step leaves alone

  lemma CallsOnlyGrow(s: State, step: Step)
    requires Inv(s) && Enabled(s, step)
    ensures var t := Apply(s, step);
            |s.calls| <= |t.calls| && forall i :: 0 <= i < |s.calls| ==> s.calls[i] <= t.calls[i]
  {}

  /** fn(i) goes on until it returns by itself. */
  lemma RunningIsUndisturbed(s: State, step: Step, w: int)
    requires Inv(s) && Enabled(s, step) && !step.FnReturns? && IsWorker(s, w) && s.workers[w].Running?
    ensures var t, i := Apply(s, step), s.workers[w].i;
            t.workers[w] == s.workers[w] && 0 <= i < |s.fate| <= |t.fate| && t.fate[i] == s.fate[i] == Held(w)
  {
    assert WorkerOk(s, w);
    if step.LoadError? || step.LoadContext? {
      assert WorkerOk(s, step.w);
    }
  }

  lemma OnlyFnReturnsFinishes(s: State, step: Step, i: int)
    requires Inv(s) && Enabled(s, step) && !step.FnReturns?
    requires 0 <= i < |Apply(s, step).fate| && Apply(s, step).fate[i].Ran?
    ensures i < |s.fate| && s.fate[i] == Apply(s, step).fate[i]
  {}
}
