/**
 RunUpload as it really counts (internal/tmbench/tmbench.go): the pool and its closures together with
 the sizedReader of every object. The iteration's Begin is replaced by reads of these bodies, and the
 result is shown to be a run of the iteration.
 */
module UploadBodies {
  import I = Iteration
  import IO = IterationOutcome
  import P = ObjectPool
  import opened Arithmetic
  import opened Rotation
  import opened SizedReader
  import opened Sums

  /** The sizedReader of one object, and what it has handed to the SDK so far; sent is history only. */
  datatype Body = Body(pattern: seq<byte>, at: Position, sent: seq<byte>)

  datatype State = State(transfers: I.State, bodies: seq<Body>)

  datatype Step =
    | Transfer(t: I.Step)
    | Read(i: int, length: nat)        // the SDK reads object i into a buffer of this length

  /** The SDK reads a body only inside its call. A Read at the end of the body changes nothing and is no step. */
  predicate Enabled(s: State, step: Step) {
    match step
    case Transfer(t) => !t.Begin? && I.Enabled(s.transfers, t)
    case Read(i, _) =>
      && 0 <= i < |s.bodies| && i < |s.transfers.sinks| && I.MayMove(s.transfers, i)
      && s.bodies[i].at.remaining > 0 && |s.bodies[i].pattern| > 0
  }

  function AfterRead(b: Body, length: nat): Body
    requires |b.pattern| > 0
  {
    var n := Yield(b.at, length);
    b.(at := Advanced(b.at, n, |b.pattern|), sent := b.sent + Stream(b.pattern, b.at.off, n))
  }

  function Apply(s: State, step: Step): State
    requires Enabled(s, step)
  {
    match step
    case Transfer(t) => s.(transfers := I.Apply(s.transfers, t))
    case Read(i, length) =>
      State(I.Moved(s.transfers, i, Yield(s.bodies[i].at, length)),
            s.bodies[i := AfterRead(s.bodies[i], length)])
  }

  function Start(size: int, patterns: seq<seq<byte>>, workers: int, n: int, inFlight: int, progBytes: int): State {
    State(I.Start(I.Upload(size), workers, n, inFlight, progBytes),
          seq(|patterns|, i requires 0 <= i < |patterns| => Body(patterns[i], Position(size, 0), [])))
  }

  predicate IsRun(s: State, steps: seq<Step>)
    decreases |steps|
  {
    steps == [] || (Enabled(s, steps[0]) && IsRun(Apply(s, steps[0]), steps[1..]))
  }

  function After(s: State, steps: seq<Step>): State
    requires IsRun(s, steps)
    decreases |steps|
  {
    if steps == [] then s else After(Apply(s, steps[0]), steps[1..])
  }

  // ---------------------------------------------------------------- what the bodies keep

  /** A body that has yielded `yielded` of its `size` bytes: they are the first ones of its stream. */
  predicate BodyOk(b: Body, size: int, yielded: int) {
    && |b.pattern| > 0
    && 0 <= yielded <= AtLeastZero(size)
    && b.at == Position(size - yielded, Slot(yielded, |b.pattern|))
    && b.sent == Stream(b.pattern, 0, yielded)
  }

  predicate Inv(s: State) {
    && s.transfers.mode.Upload? && |s.bodies| == |s.transfers.sinks|
    && forall i :: 0 <= i < |s.bodies| ==> BodyOk(s.bodies[i], s.transfers.mode.size, s.transfers.sinks[i])
  }

  lemma ReadKeepsBody(b: Body, size: int, yielded: int, length: nat)
    requires BodyOk(b, size, yielded) && b.at.remaining > 0
    ensures BodyOk(AfterRead(b, length), size, yielded + Yield(b.at, length))
  {
    var n := Yield(b.at, length);
    SlotOfSum(yielded, n, |b.pattern|);
    StreamSplits(b.pattern, 0, yielded, n);
  }

  /** The step of the iteration that a step amounts to. */
  function Behind(s: State, step: Step): I.Step
    requires Enabled(s, step)
  {
    match step
    case Transfer(t) => t
    case Read(i, length) => I.Begin(i, Yield(s.bodies[i].at, length))
  }

  lemma StepSimulated(s: State, step: Step)
    requires Inv(s) && Enabled(s, step)
    ensures Inv(Apply(s, step))
    ensures I.Enabled(s.transfers, Behind(s, step)) && I.Apply(s.transfers, Behind(s, step)) == Apply(s, step).transfers
  {
    if step.Read? {
      ReadKeepsBody(s.bodies[step.i], s.transfers.mode.size, s.transfers.sinks[step.i], step.length);
    }
  }

  /** Every run with real bodies is, step by step, a run of the iteration: the bound on what a body yields is kept by the readers. */
  lemma {:induction false} Simulated(s: State, run: seq<Step>) returns (matching: seq<I.Step>)
    requires Inv(s) && IsRun(s, run)
    ensures I.IsRun(s.transfers, matching) && I.After(s.transfers, matching) == After(s, run).transfers
    ensures Inv(After(s, run))
    decreases |run|
  {
    if run == [] {
      return [];
    }
    StepSimulated(s, run[0]);
    var rest := Simulated(Apply(s, run[0]), run[1..]);
    matching := [Behind(s, run[0])] + rest;
    assert matching[1..] == rest;
  }

  lemma {:induction false} PatternsStay(s: State, run: seq<Step>)
    requires IsRun(s, run)
    ensures |After(s, run).bodies| == |s.bodies|
    ensures forall i :: 0 <= i < |s.bodies| ==> After(s, run).bodies[i].pattern == s.bodies[i].pattern
    decreases |run|
  {
    if run != [] {
      PatternsStay(Apply(s, run[0]), run[1..]);
    }
  }

  function SentCount(b: Body): int {
    |b.sent|
  }

  /**
   RunUpload with its bodies: whatever the interleaving, when the pool returns nil, prog.Bytes grew by
   exactly the bytes handed to the SDK, which for every object are the first ones of its own stream. The
   iteration's bytes count one whole object for each index on which fn ran, so they are never less, and
   they agree with prog.Bytes exactly if each of these bodies was read to its end.
   */
  lemma UploadCounts(size: int, patterns: seq<seq<byte>>, workers: int, n: int, inFlight: int, progBytes: int,
                     run: seq<Step>, s: State)
    requires |patterns| == AtLeastZero(n) && forall i :: 0 <= i < |patterns| ==> patterns[i] != []
    requires var start := Start(size, patterns, workers, n, inFlight, progBytes); IsRun(start, run) && s == After(start, run)
    requires s.transfers.pool.disp == P.Returned(P.None)
    ensures |s.bodies| == |patterns|
    ensures forall i :: 0 <= i < |patterns| ==>
              patterns[i] != [] && |s.bodies[i].sent| <= AtLeastZero(size)
              && s.bodies[i].sent == Stream(patterns[i], 0, |s.bodies[i].sent|)
    ensures s.transfers.progBytes == progBytes + Sum(s.bodies, SentCount)
    ensures s.transfers.bytes == IO.RanCount(s.transfers) * size
    ensures size >= 0 ==> s.transfers.progBytes - progBytes <= s.transfers.bytes
    ensures size >= 0 ==>
              (s.transfers.progBytes - progBytes == s.transfers.bytes
               <==> forall i :: 0 <= i < |s.bodies| && IO.RanOn(s.transfers, i) ==> s.bodies[i].at.remaining == 0)
  {
    var start := Start(size, patterns, workers, n, inFlight, progBytes);
    var matching := Simulated(start, run);
    PatternsStay(start, run);
    IO.ReachedInv(start.transfers, matching, s.transfers, I.Upload(size), workers, n);
    IO.ByteConservation(start.transfers, matching, s.transfers, I.Upload(size), workers, n);
    IO.UploadCreditsWholeObjects(start.transfers, matching, s.transfers, size, workers, n);
    forall i | 0 <= i < |s.bodies| ensures BodyOk(s.bodies[i], size, s.transfers.sinks[i]) {
    }
    SumCongruent(s.bodies, SentCount, s.transfers.sinks, Itself);
  }
}
