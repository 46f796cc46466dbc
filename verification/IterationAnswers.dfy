/**
 Whether fn tells the truth: what the closures make of the answers they get from the file system and the
 SDK. The answers are read off the steps of a run, and compared with the results and the credited bytes.
 */
module IterationAnswers {
  import P = ObjectPool
  import PS = PoolSafety
  import PO = PoolOutcome
  import IO = IterationOutcome
  import opened Arithmetic
  import opened Iteration
  import opened IterationCounters
  import opened Sums

  /** What the environment told the closure: that a file was created, that a transfer ended, that a file was closed. */
  datatype Answer =
    | Created(e: P.Option<P.Error>)
    | Transferred(e: P.Option<P.Error>, length: int)
    | Finalized(e: P.Option<P.Error>)

  type Answers = seq<Answer>

  // ---------------------------------------------------------------- the answers of a run

  function Append(all: seq<Answers>, i: int, a: Answer): (longer: seq<Answers>)
    ensures |longer| == |all|
  {
    if 0 <= i < |all| then all[i := all[i] + [a]] else all
  }

  /** The answers per index after one more step. */
  function Recorded(all: seq<Answers>, s: State, step: Step): (longer: seq<Answers>)
    requires Enabled(s, step)
    ensures |longer| == |all|
  {
    match step
    case Create(w, e) => Append(all, IndexOf(s, w), Created(e))
    case SdkReturns(w, e, length) => Append(all, IndexOf(s, w), Transferred(e, length))
    case Finalize(w, e) => Append(all, IndexOf(s, w), Finalized(e))
    case _ => all
  }

  function RecordedIn(all: seq<Answers>, s: State, run: seq<Step>): (longer: seq<Answers>)
    requires IsRun(s, run)
    ensures |longer| == |all|
    decreases |run|
  {
    if run == [] then all else RecordedIn(Recorded(all, s, run[0]), Apply(s, run[0]), run[1..])
  }

  /** The answers per index in a run of n indices. */
  function AnswersIn(start: State, n: int, run: seq<Step>): (all: seq<Answers>)
    requires IsRun(start, run)
    ensures |all| == AtLeastZero(n)
  {
    RecordedIn(seq(AtLeastZero(n), _ => []), start, run)
  }

  // ---------------------------------------------------------------- what fn should make of them

  /** The first error among the answers, or None if all were nil. */
  function Verdict(got: Answers): P.Option<P.Error> {
    if got == [] then P.None else if got[0].e.Some? then got[0].e else Verdict(got[1..])
  }

  lemma {:induction false} VerdictAppend(got: Answers, a: Answer)
    ensures Verdict(got + [a]) == if Verdict(got).Some? then Verdict(got) else a.e
  {
    if got == [] {
      assert [a][1..] == [];
    } else {
      assert (got + [a])[1..] == got[1..] + [a];
      VerdictAppend(got[1..], a);
    }
  }

  /** The answers a transfer begins with: only a download into a file has created one. */
  function Opened(mode: Mode): Answers {
    if mode == Object(true) then [Created(P.None)] else []
  }

  /** The transfer has ended; a file, if any, is still open. */
  predicate TransferEnded(mode: Mode, got: Answers) {
    && |got| == |Opened(mode)| + 1 && got[..|Opened(mode)|] == Opened(mode)
    && got[|Opened(mode)|].Transferred?
  }

  /** All answers that one call of fn gets: it creates its file, transfers once and closes the file, and stops early only if it has no file. */
  predicate Complete(mode: Mode, got: Answers) {
    || (mode == Object(true) && |got| == 1 && got[0].Created? && got[0].e.Some?)
    || (!mode.Object? && TransferEnded(mode, got))
    || (mode.Object? && |got| > 0 && TransferEnded(mode, got[..|got| - 1]) && got[|got| - 1].Finalized?)
  }

  /** The length that the transfer reported. */
  function LengthOf(got: Answers): int {
    if got == [] then 0 else if got[0].Transferred? then got[0].length else LengthOf(got[1..])
  }

  /** What fn has to add to the iteration's bytes: nothing after an error, and nothing before any answer. */
  function Due(mode: Mode, got: Answers, sink: int): int {
    if got == [] || Verdict(got).Some? then 0
    else
      match mode
      case Upload(size) => size
      case Get => sink
      case Object(_) => sink
      case File => LengthOf(got)
  }

  // ---------------------------------------------------------------- the invariant

  predicate BodyAnswers(s: State, w: int, got: Answers, credited: int, sink: int)
    requires 0 <= w < |s.body|
  {
    match s.body[w]
    case Idle => true
    case Entered => got == [] && credited == 0
    case Opening => got == [] && credited == 0 && s.mode == Object(true)
    case Calling => got == Opened(s.mode) && credited == 0
    case Finalizing(e) => s.mode.Object? && TransferEnded(s.mode, got) && Verdict(got) == e && credited == 0
    case Counting(amount) =>
      !s.mode.Upload? && Complete(s.mode, got) && Verdict(got).None? && credited == 0 && amount == Due(s.mode, got, sink)
    case Leaving(result) =>
      && Complete(s.mode, got) && Verdict(got) == result
      && credited == if s.mode.Upload? then 0 else Due(s.mode, got, sink)
    case Crediting(amount) =>
      s.mode.Upload? && Complete(s.mode, got) && Verdict(got).None? && credited == 0 && amount == Due(s.mode, got, sink)
    case Exiting(result) => Complete(s.mode, got) && Verdict(got) == result && credited == Due(s.mode, got, sink)
  }

  predicate WorkerAnswers(s: State, all: seq<Answers>, w: int)
    requires 0 <= w < |s.body|
  {
    s.body[w].Idle? ||
    (IsBody(s, w) && IndexOf(s, w) < |all| &&
     BodyAnswers(s, w, all[IndexOf(s, w)], s.credited[IndexOf(s, w)], s.sinks[IndexOf(s, w)]))
  }

  predicate IndexAnswers(s: State, all: seq<Answers>, i: int)
    requires 0 <= i < |all| == |s.sinks| == |s.credited|
  {
    && (i >= |s.pool.calls| || s.pool.calls[i] == 0 ==> all[i] == [] && s.credited[i] == 0)
    && (i < |s.pool.fate| && s.pool.fate[i].Ran? ==>
          && Complete(s.mode, all[i]) && s.pool.fate[i].result == Verdict(all[i])
          && s.credited[i] == Due(s.mode, all[i], s.sinks[i]))
  }

  ghost predicate AnswersOk(s: State, all: seq<Answers>) {
    && |all| == |s.sinks| == |s.credited|
    && (forall w :: 0 <= w < |s.body| ==> WorkerAnswers(s, all, w))
    && (forall i :: 0 <= i < |all| ==> IndexAnswers(s, all, i))
  }

  lemma PoolStepKeepsAnswers(s: State, all: seq<Answers>, p: P.Step)
    requires Inv(s) && AnswersOk(s, all) && Enabled(s, Pool(p))
    ensures AnswersOk(Apply(s, Pool(p)), all)
  {
    var t := Apply(s, Pool(p));
    PS.CallsOnlyGrow(s.pool, p);
    if p.CallFn? {
      assert PS.WorkerOk(s.pool, p.w);
      assert PS.FateOk(s.pool, s.pool.workers[p.w].i) && IndexAnswers(s, all, s.pool.workers[p.w].i);
    }
    forall w | 0 <= w < |t.body| ensures WorkerAnswers(t, all, w) {
      assert WorkerAnswers(s, all, w) && BodyOk(s, w);
      if IsBody(s, w) {
        PoolStepLeavesBody(s, p, w);
      }
    }
    forall i | 0 <= i < |all| ensures IndexAnswers(t, all, i) {
      assert IndexAnswers(s, all, i);
      assert i < |s.pool.fate| ==> PS.FateOk(s.pool, i);
      if i < |t.pool.fate| && t.pool.fate[i].Ran? {
        PS.OnlyFnReturnsFinishes(s.pool, p, i);
      }
    }
  }

  lemma BeginKeepsAnswers(s: State, all: seq<Answers>, i: int, amount: int)
    requires Inv(s) && AnswersOk(s, all) && Enabled(s, Begin(i, amount))
    ensures AnswersOk(Apply(s, Begin(i, amount)), all)
  {
    var t := Apply(s, Begin(i, amount));
    if !s.mode.File? {
      CallHasBegun(s, s.pool.fate[i].worker);
    }
    forall w | 0 <= w < |t.body| ensures WorkerAnswers(t, all, w) {
      assert WorkerAnswers(s, all, w) && BodyOk(s, w);
      if IsBody(s, w) {
        CallHasBegun(s, w);
      }
    }
    forall j | 0 <= j < |all| ensures IndexAnswers(t, all, j) {
      assert IndexAnswers(s, all, j);
    }
  }

  /** An answer arrives and decides where the body goes. */
  lemma AnswerArrives(s: State, all: seq<Answers>, step: Step)
    requires Inv(s) && AnswersOk(s, all) && Enabled(s, step) && (step.Create? || step.SdkReturns? || step.Finalize?)
    ensures WorkerAnswers(Apply(s, step), Recorded(all, s, step), step.w)
  {
    var w := step.w;
    var got := all[IndexOf(s, w)];
    assert WorkerAnswers(s, all, w) && BodyOk(s, w);
    match step
    case Create(_, e) => VerdictAppend(got, Created(e));
    case SdkReturns(_, e, length) => TransferAnswered(s.mode, got, e, length);
    case Finalize(_, e) =>
      VerdictAppend(got, Finalized(e));
      assert (got + [Finalized(e)])[..|got|] == got;
  }

  /** What the step of a body makes of its own answers. */
  lemma BodyStepAnswers(s: State, all: seq<Answers>, step: Step)
    requires Inv(s) && AnswersOk(s, all) && Enabled(s, step) && IsBodyStep(step)
    ensures WorkerAnswers(Apply(s, step), Recorded(all, s, step), step.w)
  {
    if step.Create? || step.SdkReturns? || step.Finalize? {
      AnswerArrives(s, all, step);
    } else {
      assert WorkerAnswers(s, all, step.w) && BodyOk(s, step.w);
    }
  }

  lemma TransferAnswered(mode: Mode, got: Answers, e: P.Option<P.Error>, length: int)
    requires got == Opened(mode)
    ensures var longer := got + [Transferred(e, length)];
            && TransferEnded(mode, longer) && Verdict(longer) == e && LengthOf(longer) == length
            && (!mode.Object? ==> Complete(mode, longer))
  {
    var longer := got + [Transferred(e, length)];
    VerdictAppend(got, Transferred(e, length));
    assert longer[..|got|] == got;
    if mode == Object(true) {
      assert longer[1..] == [Transferred(e, length)];
    }
  }

  lemma BodyStepKeepsAnswers(s: State, all: seq<Answers>, step: Step)
    requires Inv(s) && AnswersOk(s, all) && Enabled(s, step) && IsBodyStep(step)
    ensures AnswersOk(Apply(s, step), Recorded(all, s, step))
  {
    var t, later := Apply(s, step), Recorded(all, s, step);
    BodyStepAnswers(s, all, step);
    CallHasBegun(s, step.w);
    forall w | 0 <= w < |t.body| ensures WorkerAnswers(t, later, w) {
      assert WorkerAnswers(s, all, w) && BodyOk(s, w);
      if w != step.w && IsBody(s, w) {
        OwnIndices(s, w, step.w);
      }
    }
    forall i | 0 <= i < |later| ensures IndexAnswers(t, later, i) {
      assert IndexAnswers(s, all, i);
    }
  }

  lemma FinishKeepsAnswers(s: State, all: seq<Answers>, w: int)
    requires Inv(s) && AnswersOk(s, all) && Enabled(s, Finish(w))
    ensures AnswersOk(Apply(s, Finish(w)), all)
  {
    var t := Apply(s, Finish(w));
    CallHasBegun(s, w);
    assert WorkerAnswers(s, all, w);
    forall v | 0 <= v < |t.body| ensures WorkerAnswers(t, all, v) {
      assert WorkerAnswers(s, all, v) && BodyOk(s, v);
    }
    forall i | 0 <= i < |all| ensures IndexAnswers(t, all, i) {
      assert IndexAnswers(s, all, i);
    }
  }

  lemma StepKeepsAnswers(s: State, all: seq<Answers>, step: Step)
    requires Inv(s) && AnswersOk(s, all) && Enabled(s, step)
    ensures AnswersOk(Apply(s, step), Recorded(all, s, step))
  {
    match step
    case Pool(p) => PoolStepKeepsAnswers(s, all, p);
    case Begin(i, amount) => BeginKeepsAnswers(s, all, i, amount);
    case Settle(_) => SettleKeepsAnswers(s, all, step);
    case Finish(w) => FinishKeepsAnswers(s, all, w);
    case _ => BodyStepKeepsAnswers(s, all, step);
  }

  lemma SettleKeepsAnswers(s: State, all: seq<Answers>, step: Step)
    requires AnswersOk(s, all) && Enabled(s, step) && step.Settle?
    ensures AnswersOk(Apply(s, step), all)
  {
    var t := Apply(s, step);
    forall w | 0 <= w < |t.body| ensures WorkerAnswers(t, all, w) {
      assert WorkerAnswers(s, all, w);
    }
    forall i | 0 <= i < |all| ensures IndexAnswers(t, all, i) {
      assert IndexAnswers(s, all, i);
    }
  }

  lemma {:induction false} RunKeepsAnswers(s: State, all: seq<Answers>, run: seq<Step>)
    requires Inv(s) && AnswersOk(s, all) && IsRun(s, run)
    ensures AnswersOk(After(s, run), RecordedIn(all, s, run))
    decreases |run|
  {
    if run != [] {
      StepKeepsAnswers(s, all, run[0]);
      StepKeepsInv(s, run[0]);
      RunKeepsAnswers(Apply(s, run[0]), Recorded(all, s, run[0]), run[1..]);
    }
  }

  // ---------------------------------------------------------------- results

  lemma ReachedAnswers(start: State, run: seq<Step>, s: State, mode: Mode, workers: int, n: int)
    requires IO.Reached(start, run, s, mode, workers, n)
    ensures AnswersOk(s, AnswersIn(start, n, run))
  {
    StartInv(mode, workers, n, start.inFlight, start.progBytes);
    RunKeepsAnswers(start, seq(AtLeastZero(n), _ => []), run);
  }

  /**
   fn hides no error and invents none: an index on which it has finished got all its answers, and its
   result is the first error among them, nil only if all were nil. It added to bytes what is due, which is
   nothing after an error; an index on which it was not called got no answer and adds nothing.
   */
  lemma ResultsAreTruthful(start: State, run: seq<Step>, s: State, mode: Mode, workers: int, n: int, i: int)
    requires IO.Reached(start, run, s, mode, workers, n) && 0 <= i < n
    ensures |s.credited| == |s.sinks| == n
    ensures var got := AnswersIn(start, n, run)[i];
            && (i < |s.pool.fate| && s.pool.fate[i].Ran? ==>
                  Complete(mode, got) && s.pool.fate[i].result == Verdict(got) && s.credited[i] == Due(mode, got, s.sinks[i]))
            && (i >= |s.pool.calls| || s.pool.calls[i] == 0 ==> got == [] && s.credited[i] == 0)
  {
    IO.ReachedInv(start, run, s, mode, workers, n);
    ReachedAnswers(start, run, s, mode, workers, n);
    assert IndexAnswers(s, AnswersIn(start, n, run), i);
  }

  predicate AllFine(all: seq<Answers>) {
    forall i :: 0 <= i < |all| ==> Verdict(all[i]).None?
  }

  /**
   When the pool has returned: it returns nil if and only if no answer was an error, and otherwise an error
   that was the answer for some index. bytes are what is due on all indices. If the context was never
   cancelled and the result is nil, every index got all its answers.
   */
  lemma NilExactlyIfNoErrorReported(start: State, run: seq<Step>, s: State, mode: Mode, workers: int, n: int)
    requires IO.Reached(start, run, s, mode, workers, n) && s.pool.disp.Returned?
    ensures var all := AnswersIn(start, n, run);
            && (s.pool.disp.result.None? <==> AllFine(all))
            && (s.pool.disp.result.Some? ==> exists i :: 0 <= i < |all| && Verdict(all[i]) == s.pool.disp.result)
            && |s.sinks| == |all| && s.bytes == Sum(seq(|all|, i requires 0 <= i < |all| => Due(mode, all[i], s.sinks[i])), Itself)
            && (s.pool.disp.result.None? && !s.pool.cancelled ==> forall i :: 0 <= i < |all| ==> Complete(mode, all[i]))
  {
    var all := AnswersIn(start, n, run);
    IO.ReachedInv(start, run, s, mode, workers, n);
    forall i | 0 <= i < |all|
      ensures s.credited[i] == Due(mode, all[i], s.sinks[i])
      ensures Verdict(all[i]).Some? <==> exists e :: PO.FailedWith(s.pool, i, e)
      ensures forall e :: PO.FailedWith(s.pool, i, e) ==> Verdict(all[i]) == P.Some(e)
      ensures i < |s.pool.fate| && s.pool.fate[i].Ran? ==> Complete(mode, all[i])
    {
      ReturnedIndex(start, run, s, mode, workers, n, i);
    }
    PO.ErrorMeansFailure(workers, n, PoolSteps(start, run), s.pool);
    var due := seq(|all|, i requires 0 <= i < |all| => Due(mode, all[i], s.sinks[i]));
    assert due == s.credited;
    if s.pool.disp.result.None? && !s.pool.cancelled {
      PO.NilMeansComplete(workers, n, PoolSteps(start, run), s.pool);
      forall i | 0 <= i < |all| ensures Complete(mode, all[i]) {
        assert PO.Succeeded(s.pool, i);
      }
    }
  }

  lemma ReturnedIndex(start: State, run: seq<Step>, s: State, mode: Mode, workers: int, n: int, i: int)
    requires IO.Reached(start, run, s, mode, workers, n) && s.pool.disp.Returned? && 0 <= i < n
    ensures |s.credited| == |s.sinks| == n
    ensures var got := AnswersIn(start, n, run)[i];
            && s.credited[i] == Due(mode, got, s.sinks[i])
            && (Verdict(got).Some? <==> exists e :: PO.FailedWith(s.pool, i, e))
            && (forall e :: PO.FailedWith(s.pool, i, e) ==> Verdict(got) == P.Some(e))
            && (i < |s.pool.fate| && s.pool.fate[i].Ran? ==> Complete(mode, got))
  {
    IO.ReachedInv(start, run, s, mode, workers, n);
    ResultsAreTruthful(start, run, s, mode, workers, n, i);
    var got := AnswersIn(start, n, run)[i];
    if i < |s.pool.fate| {
      assert PS.FateOk(s.pool, i);
      if Verdict(got).Some? {
        assert PO.FailedWith(s.pool, i, Verdict(got).value);
      }
    }
  }
}
