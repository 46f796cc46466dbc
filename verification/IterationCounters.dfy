/** What every interleaving of an iteration keeps about its counters. */
module IterationCounters {
  import P = ObjectPool
  import PS = PoolSafety
  import opened Iteration
  import opened Arithmetic
  import opened Sums

  /** A worker between its +1 and its -1 on InFlight. */
  function Flying(b: Body): int {
    if b.Opening? || b.Calling? || b.Finalizing? || b.Counting? || b.Leaving? then 1 else 0
  }

  function Unsettled(m: Move): int {
    if m.settled then 0 else m.amount
  }

  predicate Shape(s: State) {
    && |s.body| == |s.pool.workers|
    && |s.sinks| == |s.credited| == AtLeastZero(s.pool.n)
    && forall w :: 0 <= w < |s.body| ==> (s.body[w].Idle? <==> !s.pool.workers[w].Running?)
  }

  /** What a successful transfer of index i must have added to bytes. */
  predicate Paid(s: State, i: int)
    requires 0 <= i < |s.sinks| == |s.credited|
  {
    match s.mode
    case Upload(size) => s.credited[i] == size
    case Get => s.credited[i] == s.sinks[i]
    case Object(_) => s.credited[i] == s.sinks[i]
    case File => true
  }

  predicate PaidIfNil(s: State, i: int, result: P.Option<P.Error>)
    requires 0 <= i < |s.sinks| == |s.credited|
  {
    if result.None? then Paid(s, i) else s.credited[i] == 0
  }

  predicate BodyOk(s: State, w: int)
    requires 0 <= w < |s.body|
  {
    s.body[w].Idle? ||
    (IsBody(s, w) &&
     var i := IndexOf(s, w);
     match s.body[w]
     case Entered => s.credited[i] == 0
     case Opening => s.credited[i] == 0
     case Calling => s.credited[i] == 0
     case Finalizing(_) => s.mode.Object? && s.credited[i] == 0
     case Counting(amount) =>
       !s.mode.Upload? && s.credited[i] == 0 && (!s.mode.File? ==> amount == s.sinks[i])
     case Leaving(result) => if s.mode.Upload? then s.credited[i] == 0 else PaidIfNil(s, i, result)
     case Crediting(amount) => s.mode.Upload? && amount == s.mode.size && s.credited[i] == 0
     case Exiting(result) => PaidIfNil(s, i, result)
     case Idle => true)
  }

  predicate IndexOk(s: State, i: int)
    requires 0 <= i < |s.sinks| == |s.credited|
  {
    && 0 <= s.sinks[i]
    && (s.mode.Upload? ==> s.sinks[i] <= AtLeastZero(s.mode.size))
    && (i >= |s.pool.calls| || s.pool.calls[i] == 0 ==> s.sinks[i] == 0 && s.credited[i] == 0)
    && (i < |s.pool.fate| && s.pool.fate[i].Ran? ==> PaidIfNil(s, i, s.pool.fate[i].result))
  }

  predicate MoveOk(s: State, m: int)
    requires 0 <= m < |s.moves|
  {
    && 0 <= s.moves[m].amount
    && (!s.mode.File? && !s.moves[m].settled ==> Transferring(s, s.moves[m].i))
  }

  predicate TotalsOk(s: State) {
    && s.inFlight == s.inFlightBefore + Sum(s.body, Flying)
    && s.progBytes + Sum(s.moves, Unsettled) == s.progBytesBefore + Sum(s.sinks, Itself)
    && s.bytes == Sum(s.credited, Itself)
  }

  ghost predicate Inv(s: State) {
    && PS.Inv(s.pool)
    && Shape(s)
    && (forall w :: 0 <= w < |s.body| ==> BodyOk(s, w))
    && (forall i :: 0 <= i < |s.sinks| ==> IndexOk(s, i))
    && (forall m :: 0 <= m < |s.moves| ==> MoveOk(s, m))
    && TotalsOk(s)
  }

  lemma StartInv(mode: Mode, workers: int, n: int, inFlight: int, progBytes: int)
    ensures Inv(Start(mode, workers, n, inFlight, progBytes))
  {
    var s := Start(mode, workers, n, inFlight, progBytes);
    PS.StartInv(workers, n);
    ZeroSum(s.body, Flying);
    ZeroSum(s.sinks, Itself);
    ZeroSum(s.credited, Itself);
  }

  // ---------------------------------------------------------------- the pool's own steps

  lemma PoolStepLeavesBody(s: State, p: P.Step, w: int)
    requires Inv(s) && Enabled(s, Pool(p)) && IsBody(s, w)
    ensures var t := Apply(s, Pool(p));
            IsBody(t, w) && IndexOf(t, w) == IndexOf(s, w) && t.body[w] == s.body[w]
  {
    PS.RunningIsUndisturbed(s.pool, p, w);
  }

  lemma PoolStepKeepsBodies(s: State, p: P.Step)
    requires Inv(s) && Enabled(s, Pool(p))
    ensures forall w :: 0 <= w < |s.body| ==> BodyOk(Apply(s, Pool(p)), w)
  {
    var t := Apply(s, Pool(p));
    if p.CallFn? {
      assert PS.WorkerOk(s.pool, p.w);
      assert PS.FateOk(s.pool, s.pool.workers[p.w].i) && IndexOk(s, s.pool.workers[p.w].i);
    }
    forall w | 0 <= w < |t.body| ensures BodyOk(t, w) {
      assert BodyOk(s, w);
      if IsBody(s, w) {
        PoolStepLeavesBody(s, p, w);
      }
    }
  }

  lemma PoolStepKeepsShape(s: State, p: P.Step)
    requires Inv(s) && Enabled(s, Pool(p))
    ensures Shape(Apply(s, Pool(p)))
  {}

  lemma PoolStepKeepsTotals(s: State, p: P.Step)
    requires Inv(s) && Enabled(s, Pool(p))
    ensures TotalsOk(Apply(s, Pool(p)))
  {
    if p.CallFn? {
      SumUpdate(s.body, p.w, Entered, Flying);
    }
  }

  lemma PoolStepKeepsIndices(s: State, p: P.Step)
    requires Inv(s) && Enabled(s, Pool(p))
    ensures forall i :: 0 <= i < |s.sinks| ==> IndexOk(Apply(s, Pool(p)), i)
  {
    var t := Apply(s, Pool(p));
    PS.CallsOnlyGrow(s.pool, p);
    forall i | 0 <= i < |t.sinks| ensures IndexOk(t, i) {
      assert IndexOk(s, i);
      assert i < |s.pool.fate| ==> PS.FateOk(s.pool, i);
      if i < |t.pool.fate| && t.pool.fate[i].Ran? {
        PS.OnlyFnReturnsFinishes(s.pool, p, i);
      }
    }
  }

  lemma PoolStepKeepsInv(s: State, p: P.Step)
    requires Inv(s) && Enabled(s, Pool(p))
    ensures Inv(Apply(s, Pool(p)))
  {
    var t := Apply(s, Pool(p));
    PS.StepKeepsInv(s.pool, p);
    PoolStepKeepsShape(s, p);
    PoolStepKeepsTotals(s, p);
    PoolStepKeepsBodies(s, p);
    PoolStepKeepsIndices(s, p);
    forall m | 0 <= m < |t.moves| ensures MoveOk(t, m) {
      assert MoveOk(s, m);
      if Transferring(s, s.moves[m].i) {
        PS.RunningIsUndisturbed(s.pool, p, s.pool.fate[s.moves[m].i].worker);
      }
    }
  }

  // ---------------------------------------------------------------- the steps inside a closure

  /** Two workers inside fn never work on the same index. */
  lemma OwnIndices(s: State, v: int, w: int)
    requires PS.Inv(s.pool) && IsBody(s, v) && IsBody(s, w) && v != w
    ensures IndexOf(s, v) != IndexOf(s, w)
    ensures IndexOf(s, w) < |s.pool.fate| && s.pool.fate[IndexOf(s, w)] == P.Held(w)
    ensures s.pool.calls[IndexOf(s, w)] == 1
  {
    assert PS.WorkerOk(s.pool, v) && PS.WorkerOk(s.pool, w);
    assert PS.FateOk(s.pool, IndexOf(s, w));
  }

  lemma CallHasBegun(s: State, w: int)
    requires PS.Inv(s.pool) && IsBody(s, w)
    ensures IndexOf(s, w) < |s.pool.fate| == |s.pool.calls|
    ensures s.pool.fate[IndexOf(s, w)] == P.Held(w) && s.pool.calls[IndexOf(s, w)] == 1
  {
    assert PS.WorkerOk(s.pool, w);
    assert PS.FateOk(s.pool, IndexOf(s, w));
  }

  predicate IsBodyStep(step: Step) {
    step.Enter? || step.Create? || step.SdkReturns? || step.Finalize? || step.Count? || step.Leave? || step.Credit?
  }

  lemma BodyStepKeepsTotals(s: State, step: Step)
    requires Inv(s) && Enabled(s, step) && IsBodyStep(step)
    ensures TotalsOk(Apply(s, step))
  {
    var t := Apply(s, step);
    SumUpdate(s.body, step.w, t.body[step.w], Flying);
    if step.Count? || step.Credit? {
      var i := IndexOf(s, step.w);
      SumUpdate(s.credited, i, t.credited[i], Itself);
    }
    assert BodyOk(s, step.w);
  }

  lemma BodyStepKeepsBodies(s: State, step: Step)
    requires Inv(s) && Enabled(s, step) && IsBodyStep(step)
    ensures forall v :: 0 <= v < |s.body| ==> BodyOk(Apply(s, step), v)
  {
    var t := Apply(s, step);
    var w := step.w;
    assert BodyOk(s, w);
    forall v | 0 <= v < |t.body| ensures BodyOk(t, v) {
      assert BodyOk(s, v);
      if v != w && IsBody(s, v) {
        OwnIndices(s, v, w);
      }
    }
  }

  lemma BodyStepKeepsInv(s: State, step: Step)
    requires Inv(s) && Enabled(s, step) && IsBodyStep(step)
    ensures Inv(Apply(s, step))
  {
    var t := Apply(s, step);
    BodyStepKeepsTotals(s, step);
    BodyStepKeepsBodies(s, step);
    CallHasBegun(s, step.w);
    forall i | 0 <= i < |t.sinks| ensures IndexOk(t, i) {
      assert IndexOk(s, i);
    }
    forall m | 0 <= m < |t.moves| ensures MoveOk(t, m) {
      assert MoveOk(s, m);
    }
  }

  lemma FinishKeepsIndices(s: State, w: int)
    requires Inv(s) && Enabled(s, Finish(w))
    ensures forall i :: 0 <= i < |s.sinks| ==> IndexOk(Apply(s, Finish(w)), i)
  {
    var t := Apply(s, Finish(w));
    CallHasBegun(s, w);
    assert BodyOk(s, w);
    forall i | 0 <= i < |t.sinks| ensures IndexOk(t, i) {
      assert IndexOk(s, i);
    }
  }

  lemma FinishKeepsBodies(s: State, w: int)
    requires Inv(s) && Enabled(s, Finish(w))
    ensures forall v :: 0 <= v < |s.body| ==> BodyOk(Apply(s, Finish(w)), v)
  {
    var t := Apply(s, Finish(w));
    forall v | 0 <= v < |t.body| ensures BodyOk(t, v) {
      assert BodyOk(s, v);
    }
  }

  lemma FinishKeepsInv(s: State, w: int)
    requires Inv(s) && Enabled(s, Finish(w))
    ensures Inv(Apply(s, Finish(w)))
  {
    var t := Apply(s, Finish(w));
    PS.StepKeepsInv(s.pool, P.FnReturns(w, s.body[w].result));
    SumUpdate(s.body, w, Idle, Flying);
    CallHasBegun(s, w);
    FinishKeepsBodies(s, w);
    FinishKeepsIndices(s, w);
    forall m | 0 <= m < |t.moves| ensures MoveOk(t, m) {
      assert MoveOk(s, m);
    }
  }

  lemma BeginKeepsTotals(s: State, i: int, amount: int)
    requires Inv(s) && Enabled(s, Begin(i, amount))
    ensures TotalsOk(Apply(s, Begin(i, amount)))
  {
    var t := Apply(s, Begin(i, amount));
    SumAppend(s.moves, t.moves[|s.moves|], Unsettled);
    SumUpdate(s.sinks, i, t.sinks[i], Itself);
  }

  lemma BeginKeepsBodies(s: State, i: int, amount: int)
    requires Inv(s) && Enabled(s, Begin(i, amount))
    ensures forall v :: 0 <= v < |s.body| ==> BodyOk(Apply(s, Begin(i, amount)), v)
  {
    var t := Apply(s, Begin(i, amount));
    if !s.mode.File? {
      CallHasBegun(s, s.pool.fate[i].worker);
    }
    forall v | 0 <= v < |t.body| ensures BodyOk(t, v) {
      assert BodyOk(s, v);
      if IsBody(s, v) {
        CallHasBegun(s, v);
      }
    }
  }

  lemma BeginKeepsInv(s: State, i: int, amount: int)
    requires Inv(s) && Enabled(s, Begin(i, amount))
    ensures Inv(Apply(s, Begin(i, amount)))
  {
    var t := Apply(s, Begin(i, amount));
    BeginKeepsTotals(s, i, amount);
    BeginKeepsBodies(s, i, amount);
    if !s.mode.File? {
      CallHasBegun(s, s.pool.fate[i].worker);
    }
    forall j | 0 <= j < |t.sinks| ensures IndexOk(t, j) {
      assert IndexOk(s, j);
    }
    forall m | 0 <= m < |t.moves| ensures MoveOk(t, m) {
      if m < |s.moves| {
        assert MoveOk(s, m);
      }
    }
  }

  lemma SettleKeepsInv(s: State, m: int)
    requires Inv(s) && Enabled(s, Settle(m))
    ensures Inv(Apply(s, Settle(m)))
  {
    var t := Apply(s, Settle(m));
    SumUpdate(s.moves, m, t.moves[m], Unsettled);
    forall v | 0 <= v < |t.body| ensures BodyOk(t, v) {
      assert BodyOk(s, v);
    }
    forall j | 0 <= j < |t.sinks| ensures IndexOk(t, j) {
      assert IndexOk(s, j);
    }
    forall k | 0 <= k < |t.moves| ensures MoveOk(t, k) {
      assert MoveOk(s, k);
    }
  }

  lemma StepKeepsInv(s: State, step: Step)
    requires Inv(s) && Enabled(s, step)
    ensures Inv(Apply(s, step))
  {
    match step
    case Pool(p) => PoolStepKeepsInv(s, p);
    case Begin(i, amount) => BeginKeepsInv(s, i, amount);
    case Settle(m) => SettleKeepsInv(s, m);
    case Finish(w) => FinishKeepsInv(s, w);
    case _ => BodyStepKeepsInv(s, step);
  }

  lemma {:induction false} RunKeepsInv(s: State, run: seq<Step>)
    requires Inv(s) && IsRun(s, run)
    ensures Inv(After(s, run))
    decreases |run|
  {
    if run != [] {
      StepKeepsInv(s, run[0]);
      RunKeepsInv(Apply(s, run[0]), run[1..]);
    }
  }
}
