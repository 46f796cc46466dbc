/** How the counters of an iteration agree, in every state and once its pool has returned. */
module IterationOutcome {
  import P = ObjectPool
  import PS = PoolSafety
  import PO = PoolOutcome
  import PL = PoolLiveness
  import opened Iteration
  import opened IterationCounters
  import opened Arithmetic
  import opened Sums

  /** A state reached from counters inFlight and progBytes by some interleaving. */
  ghost predicate Reached(start: State, run: seq<Step>, s: State, mode: Mode, workers: int, n: int) {
    && start == Start(mode, workers, n, start.inFlight, start.progBytes)
    && IsRun(start, run) && s == After(start, run)
  }

  lemma {:induction false} ConstantsStay(s: State, run: seq<Step>)
    requires IsRun(s, run)
    ensures var t := After(s, run);
            t.mode == s.mode && t.inFlightBefore == s.inFlightBefore && t.progBytesBefore == s.progBytesBefore
    decreases |run|
  {
    if run != [] {
      ConstantsStay(Apply(s, run[0]), run[1..]);
    }
  }

  lemma ReachedInv(start: State, run: seq<Step>, s: State, mode: Mode, workers: int, n: int)
    requires Reached(start, run, s, mode, workers, n)
    ensures Inv(s) && s.mode == mode && s.inFlightBefore == start.inFlight && s.progBytesBefore == start.progBytes
    ensures PO.Reached(workers, n, PoolSteps(start, run), s.pool)
    ensures s.pool.n == n && |s.pool.workers| == AtLeastZero(P.PoolSize(workers, n))
    ensures |s.sinks| == |s.credited| == AtLeastZero(n)
  {
    StartInv(mode, workers, n, start.inFlight, start.progBytes);
    RunKeepsInv(start, run);
    ConstantsStay(start, run);
    RefinesPool(start, run);
    PO.ReachedInv(workers, n, PoolSteps(start, run), s.pool);
  }

  /**
   In every state InFlight is its old value plus the number of workers inside a transfer, so at most
   the pool size above it; once the workers have joined it is back where it was, whether the pool
   ends with success, an error or a cancellation.
   */
  lemma InFlightBalance(start: State, run: seq<Step>, s: State, mode: Mode, workers: int, n: int)
    requires Reached(start, run, s, mode, workers, n)
    ensures s.inFlight == start.inFlight + Sum(s.body, Flying)
    ensures start.inFlight <= s.inFlight <= start.inFlight + AtLeastZero(P.PoolSize(workers, n))
    ensures s.pool.disp.Joined? || s.pool.disp.Returned? ==> s.inFlight == start.inFlight
  {
    ReachedInv(start, run, s, mode, workers, n);
    SumBounds(s.body, Flying, 0, 1);
    if s.pool.disp.Joined? || s.pool.disp.Returned? {
      ZeroSum(s.body, Flying);
    }
  }

  predicate AllSettled(s: State) {
    forall m :: 0 <= m < |s.moves| ==> s.moves[m].settled
  }

  /** In every state: prog.Bytes and the amounts still on their way to it grew by what the sinks counted. */
  lemma ByteConservation(start: State, run: seq<Step>, s: State, mode: Mode, workers: int, n: int)
    requires Reached(start, run, s, mode, workers, n)
    ensures s.progBytes + Sum(s.moves, Unsettled) == start.progBytes + Sum(s.sinks, Itself)
    ensures AllSettled(s) ==> s.progBytes == start.progBytes + Sum(s.sinks, Itself)
    ensures s.pool.disp.Returned? && !mode.File? ==> AllSettled(s)
  {
    ReachedInv(start, run, s, mode, workers, n);
    if s.pool.disp.Returned? && !mode.File? {
      forall m | 0 <= m < |s.moves| ensures s.moves[m].settled {
        assert MoveOk(s, m);
      }
    }
    if AllSettled(s) {
      ZeroSum(s.moves, Unsettled);
    }
  }

  /** What the sampler and the watchdog may read at any moment: prog.Bytes never falls. */
  lemma {:induction false} BytesNeverFall(s: State, run: seq<Step>)
    requires Inv(s) && IsRun(s, run)
    ensures s.progBytes <= After(s, run).progBytes
    decreases |run|
  {
    if run != [] {
      if run[0].Settle? {
        assert MoveOk(s, run[0].m);
      }
      StepKeepsInv(s, run[0]);
      BytesNeverFall(Apply(s, run[0]), run[1..]);
    }
  }

  /** fn ran on i and returned an error. */
  predicate FailedOn(s: State, i: int) {
    0 <= i < |s.pool.fate| && s.pool.fate[i].Ran? && s.pool.fate[i].result.Some?
  }

  lemma CreditAtReturn(s: State, i: int)
    requires Inv(s) && s.pool.disp.Returned? && 0 <= i < |s.sinks|
    ensures s.sinks[i] >= 0
    ensures FailedOn(s, i) ==> s.credited[i] == 0
    ensures i < |s.pool.fate| && s.pool.fate[i].Ran? && !FailedOn(s, i) ==> Paid(s, i)
    ensures (i < |s.pool.fate| && s.pool.fate[i].Ran?) || (s.sinks[i] == 0 && s.credited[i] == 0)
  {
    assert IndexOk(s, i);
    if i < |s.pool.fate| {
      assert PS.FateOk(s.pool, i);
    }
  }

  /**
   RunDownload and RunDownloadObject: when the pool returns, the bytes credited to the iteration never
   exceed what the sinks counted, which is the growth of prog.Bytes; the three agree exactly when no
   failed index had moved any byte, in particular whenever the pool returned nil.
   */
  lemma ThreeCountersAgree(start: State, run: seq<Step>, s: State, mode: Mode, workers: int, n: int)
    requires Reached(start, run, s, mode, workers, n)
    requires (mode.Get? || mode.Object?) && s.pool.disp.Returned?
    ensures Sum(s.sinks, Itself) == s.progBytes - start.progBytes
    ensures s.bytes <= Sum(s.sinks, Itself)
    ensures s.bytes == Sum(s.sinks, Itself) <==> forall i :: 0 <= i < |s.sinks| && FailedOn(s, i) ==> s.sinks[i] == 0
    ensures s.pool.disp.result == P.None ==> s.bytes == Sum(s.sinks, Itself)
  {
    ReachedInv(start, run, s, mode, workers, n);
    ByteConservation(start, run, s, mode, workers, n);
    forall i | 0 <= i < |s.sinks|
      ensures s.credited[i] == if FailedOn(s, i) then 0 else s.sinks[i]
      ensures s.sinks[i] >= 0
    {
      CreditAtReturn(s, i);
    }
    SumOrdered(s.credited, Itself, s.sinks, Itself);
    if s.pool.disp.result == P.None {
      PO.NilMeansComplete(workers, n, PoolSteps(start, run), s.pool);
      forall i | 0 <= i < |s.sinks| ensures !FailedOn(s, i) {
        assert PO.Succeeded(s.pool, i) || PO.LeftOut(s.pool, i);
      }
    }
  }

  /** fn ran on i and returned nil. */
  predicate RanOn(s: State, i: int) {
    0 <= i < |s.pool.fate| && s.pool.fate[i].Ran? && s.pool.fate[i].result.None?
  }

  /** The number of indices on which fn ran and returned nil. */
  function RanCount(s: State): int {
    Sum(s.pool.fate, RanWell)
  }

  function RanWell(f: P.Fate): int {
    if f.Ran? && f.result.None? then 1 else 0
  }

  lemma UploadCredit(s: State, size: int, i: int)
    requires Inv(s) && s.mode == Upload(size) && s.pool.disp.Returned? && 0 <= i < |s.sinks| && |s.pool.fate| == |s.pool.calls|
    requires i < |s.pool.fate| && (PO.Succeeded(s.pool, i) || PO.LeftOut(s.pool, i))
    ensures s.credited[i] == if RanOn(s, i) then size else 0
    ensures 0 <= s.sinks[i] <= if RanOn(s, i) then AtLeastZero(size) else 0
  {
    CreditAtReturn(s, i);
    assert IndexOk(s, i);
  }

  /** The credits and what the bodies yielded, added up. */
  lemma UploadSums(s: State, size: int)
    requires |s.pool.fate| == |s.sinks| == |s.credited|
    requires forall i :: 0 <= i < |s.sinks| ==>
               && s.credited[i] == (if RanOn(s, i) then size else 0)
               && 0 <= s.sinks[i] <= if RanOn(s, i) then AtLeastZero(size) else 0
    ensures Sum(s.credited, Itself) == RanCount(s) * size
    ensures size >= 0 ==> Sum(s.sinks, Itself) <= Sum(s.credited, Itself)
    ensures size >= 0 ==>
              (Sum(s.sinks, Itself) == Sum(s.credited, Itself) <==> forall i :: 0 <= i < |s.sinks| && RanOn(s, i) ==> s.sinks[i] == size)
  {
    SumScaled(s.pool.fate, RanWell, s.credited, Itself, size);
    if size >= 0 {
      SumOrdered(s.sinks, Itself, s.credited, Itself);
    }
  }

  /**
   RunUpload: a pool that returns nil, cancelled or not, credits exactly one whole object for every index
   on which fn ran, nothing for the others, and prog.Bytes grew by at most that much; by exactly that
   much if and only if every body that was sent was read to its end. Without cancellation fn ran on all.
   */
  lemma UploadCreditsWholeObjects(start: State, run: seq<Step>, s: State, size: int, workers: int, n: int)
    requires Reached(start, run, s, Upload(size), workers, n)
    requires s.pool.disp == P.Returned(P.None)
    ensures |s.credited| == |s.sinks| && forall i :: 0 <= i < |s.sinks| ==> s.credited[i] == if RanOn(s, i) then size else 0
    ensures s.bytes == RanCount(s) * size
    ensures !s.pool.cancelled ==> RanCount(s) == AtLeastZero(n)
    ensures size >= 0 ==> s.progBytes - start.progBytes <= s.bytes
    ensures size >= 0 ==>
              (s.progBytes - start.progBytes == s.bytes <==> forall i :: 0 <= i < |s.sinks| && RanOn(s, i) ==> s.sinks[i] == size)
  {
    ReachedInv(start, run, s, Upload(size), workers, n);
    ByteConservation(start, run, s, Upload(size), workers, n);
    PO.NilMeansComplete(workers, n, PoolSteps(start, run), s.pool);
    forall i | 0 <= i < |s.sinks|
      ensures s.credited[i] == if RanOn(s, i) then size else 0
      ensures 0 <= s.sinks[i] <= if RanOn(s, i) then AtLeastZero(size) else 0
    {
      UploadCredit(s, size, i);
    }
    UploadSums(s, size);
    if !s.pool.cancelled {
      forall i | 0 <= i < |s.pool.fate| ensures RanWell(s.pool.fate[i]) == 1 {
        assert PO.Succeeded(s.pool, i);
      }
      SumBounds(s.pool.fate, RanWell, 1, 1);
    }
  }

  /** A step that neither cancels nor moves new bytes. */
  predicate Progresses(s: State, step: Step) {
    Enabled(s, step) && !step.Begin? && step != Pool(P.Cancel)
  }

  /** A worker inside fn can go on, wherever it stands. */
  lemma BodyProgresses(s: State, w: int) returns (step: Step)
    requires Inv(s) && P.IsWorker(s.pool, w) && s.pool.workers[w].Running?
    ensures Progresses(s, step)
  {
    assert BodyOk(s, w);
    match s.body[w]
    case Entered => step := Enter(w);
    case Opening => step := Create(w, P.None);
    case Calling =>
      if Settled(s, IndexOf(s, w)) {
        step := SdkReturns(w, P.None, 0);
      } else {
        var m :| 0 <= m < |s.moves| && s.moves[m].i == IndexOf(s, w) && !s.moves[m].settled;
        step := Settle(m);
      }
    case Finalizing(_) => step := Finalize(w, P.None);
    case Counting(_) => step := Count(w);
    case Leaving(_) => step := Leave(w);
    case Crediting(_) => step := Credit(w);
    case Exiting(_) => step := Finish(w);
  }

  /** The closures do not block the pool: until it has returned, the iteration can always take a step forward. */
  lemma NeverStuck(start: State, run: seq<Step>, s: State, mode: Mode, workers: int, n: int)
    requires Reached(start, run, s, mode, workers, n) && !s.pool.disp.Returned?
    ensures exists step :: Progresses(s, step)
  {
    ReachedInv(start, run, s, mode, workers, n);
    PL.NeverStuck(workers, n, PoolSteps(start, run), s.pool);
    if p :| PL.OwnStep(s.pool, p) {
      assert Progresses(s, Pool(p));
    } else {
      var w :| P.IsWorker(s.pool, w) && s.pool.workers[w].Running?;
      var step := BodyProgresses(s, w);
    }
  }

  // ---------------------------------------------------------------- termination

  function BodyWeight(b: Body): int {
    match b
    case Idle => 0
    case Exiting(_) => 1
    case Crediting(_) => 2
    case Leaving(_) => 3
    case Counting(_) => 4
    case Finalizing(_) => 5
    case Calling => 6
    case Opening => 7
    case Entered => 8
  }

  function IsUnsettled(m: Move): int {
    if m.settled then 0 else 1
  }

  /** A step of the pool pays for the body it starts, a step of a body or a settlement for itself. */
  function Weight(s: State): int {
    9 * PL.Weight(s.pool) + Sum(s.body, BodyWeight) + Sum(s.moves, IsUnsettled)
  }

  function IsBegin(step: Step): int {
    if step.Begin? then 1 else 0
  }

  lemma WeightNotNegative(s: State)
    requires Inv(s)
    ensures Weight(s) >= 0
  {
    PL.WeightNotNegative(s.pool);
    SumBounds(s.body, BodyWeight, 0, 8);
    SumBounds(s.moves, IsUnsettled, 0, 1);
  }

  lemma PoolStepLowersWeight(s: State, p: P.Step)
    requires Inv(s) && Enabled(s, Pool(p))
    ensures Weight(Apply(s, Pool(p))) < Weight(s)
  {
    PL.StepLowersWeight(s.pool, p);
    if p.CallFn? {
      SumUpdate(s.body, p.w, Entered, BodyWeight);
    }
  }

  lemma BodyStepLowersWeight(s: State, step: Step)
    requires Inv(s) && Enabled(s, step) && (IsBodyStep(step) || step.Finish?)
    ensures Weight(Apply(s, step)) < Weight(s)
  {
    var t := Apply(s, step);
    SumUpdate(s.body, step.w, t.body[step.w], BodyWeight);
    if step.Finish? {
      PL.StepLowersWeight(s.pool, P.FnReturns(step.w, s.body[step.w].result));
    }
  }

  lemma StepLowersWeight(s: State, step: Step)
    requires Inv(s) && Enabled(s, step)
    ensures Weight(Apply(s, step)) + 1 <= Weight(s) + 2 * IsBegin(step)
  {
    var t := Apply(s, step);
    match step
    case Pool(p) => PoolStepLowersWeight(s, p);
    case Begin(_, _) => SumAppend(s.moves, t.moves[|s.moves|], IsUnsettled);
    case Settle(m) => SumUpdate(s.moves, m, t.moves[m], IsUnsettled);
    case _ => BodyStepLowersWeight(s, step);
  }

  function Begins(run: seq<Step>): nat {
    if run == [] then 0 else IsBegin(run[0]) + Begins(run[1..])
  }

  lemma {:induction false} RunLowersWeight(s: State, run: seq<Step>)
    requires Inv(s) && IsRun(s, run)
    ensures Weight(After(s, run)) + |run| <= Weight(s) + 2 * Begins(run)
    decreases |run|
  {
    if run != [] {
      StepLowersWeight(s, run[0]);
      StepKeepsInv(s, run[0]);
      RunLowersWeight(Apply(s, run[0]), run[1..]);
    }
  }

  /**
   Termination: whatever the interleaving, a run has at most two steps for every amount the SDK moves
   (its two adds) and a number linear in n and the pool size of all others. Together with NeverStuck: an
   iteration whose transfers end, and move finitely many amounts, returns.
   */
  lemma RunsAreBounded(start: State, run: seq<Step>, s: State, mode: Mode, workers: int, n: int)
    requires Reached(start, run, s, mode, workers, n)
    ensures |run| <= 2 * Begins(run) + 9 * (8 * AtLeastZero(n) + AtLeastZero(P.PoolSize(workers, n)) + 5)
  {
    StartInv(mode, workers, n, start.inFlight, start.progBytes);
    RunKeepsInv(start, run);
    RunLowersWeight(start, run);
    WeightNotNegative(s);
    ZeroSum(start.body, BodyWeight);
    SumBounds(start.pool.workers, PL.PhaseWeight, 1, 1);
  }
}
