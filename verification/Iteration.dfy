/**
 One timed iteration of RunUpload, RunDownload, RunDownloadObject or RunDownloadFile
 (internal/tmbench/tmbench.go): the closure passed to the object pool, run by its workers, together
 with the three counters it moves: prog.InFlight, prog.Bytes and the iteration's own bytes.

 The SDK is an environment: while a transfer call is under way it may move any amounts at any time,
 and it may return success or any error. Every atomic add of the source is a step of its own.
 */
module Iteration {
  import P = ObjectPool
  import opened Arithmetic

  datatype Mode =
    | Upload(size: int)        // RunUpload; a body yields at most `size` bytes (proved in UploadBodies)
    | Get                      // RunDownload: GetObject drained by io.Copy
    | Object(toFile: bool)     // RunDownloadObject: DownloadObject into a counting WriterAt
    | File                     // RunDownloadFile: DownloadFile with a progress listener

  /** Where a worker stands inside the closure; each of these holds no index when the pool's worker is not running. */
  datatype Body =
    | Idle                                         // not inside fn
    | Entered                                      // about to add 1 to InFlight
    | Opening                                      // about to create the file of the sink
    | Calling                                      // inside the SDK call, or draining its body
    | Finalizing(e: P.Option<P.Error>)             // the SDK call returned e; the file is still open
    | Counting(amount: int)                        // a download succeeded; about to add amount to bytes
    | Leaving(result: P.Option<P.Error>)           // about to subtract 1 from InFlight
    | Crediting(amount: int)                       // an upload succeeded and left; about to add amount to bytes
    | Exiting(result: P.Option<P.Error>)           // about to return to the pool

  /**
   One amount on its way through two adds: it is in the sink's own total, and once settled also in
   prog.Bytes. The count that Copy keeps for Get is local to the worker, so there both adds are one step.
   */
  datatype Move = Move(i: int, amount: int, settled: bool)

  /**
   sinks[i] is the own total of index i: the bytes its WriterAt counted, its Copy returned, its
   sizedReader yielded, or its listener's maximum. credited[i] is what index i added to bytes; it is
   history only.
   */
  datatype State = State(
    mode: Mode,
    pool: P.State,
    body: seq<Body>,
    inFlight: int, inFlightBefore: int,
    progBytes: int, progBytesBefore: int,
    bytes: int,
    sinks: seq<int>,
    credited: seq<int>,
    moves: seq<Move>)

  datatype Step =
    | Pool(step: P.Step)                           // any step of the pool but the end of fn
    | Enter(w: int)
    | Create(w: int, e: P.Option<P.Error>)
    | Begin(i: int, amount: int)                   // an amount enters the own total of index i
    | Settle(m: int)                               // and later prog.Bytes
    | SdkReturns(w: int, e: P.Option<P.Error>, length: int)
    | Finalize(w: int, e: P.Option<P.Error>)
    | Count(w: int)
    | Leave(w: int)
    | Credit(w: int)
    | Finish(w: int)                               // fn returns to the pool

  predicate IsBody(s: State, w: int) {
    && 0 <= w < |s.body| == |s.pool.workers|
    && s.pool.workers[w].Running?
    && 0 <= s.pool.workers[w].i < |s.sinks| == |s.credited|
  }

  function IndexOf(s: State, w: int): int
    requires IsBody(s, w)
  {
    s.pool.workers[w].i
  }

  /** All moves of index i have reached prog.Bytes. */
  predicate Settled(s: State, i: int) {
    forall m :: 0 <= m < |s.moves| && s.moves[m].i == i ==> s.moves[m].settled
  }

  /** The worker that is running fn(i), if its transfer is under way. */
  predicate Transferring(s: State, i: int) {
    && 0 <= i < |s.pool.fate| && s.pool.fate[i].Held?
    && IsBody(s, s.pool.fate[i].worker)
    && IndexOf(s, s.pool.fate[i].worker) == i
    && s.body[s.pool.fate[i].worker].Calling?
  }

  /** A listener may even be told of bytes after DownloadFile returned; the other sinks are used by the call alone. */
  predicate MayMove(s: State, i: int) {
    if s.mode.File? then 0 <= i < |s.pool.calls| && s.pool.calls[i] == 1 else Transferring(s, i)
  }

  predicate Enabled(s: State, step: Step) {
    match step
    case Pool(p) => !p.FnReturns? && P.Enabled(s.pool, p)
    case Enter(w) => IsBody(s, w) && s.body[w].Entered?
    case Create(w, _) => IsBody(s, w) && s.body[w].Opening?
    case Begin(i, amount) =>
      && amount >= 0 && 0 <= i < |s.sinks| && MayMove(s, i)
      && (s.mode.Upload? ==> s.sinks[i] + amount <= AtLeastZero(s.mode.size))
    case Settle(m) => 0 <= m < |s.moves| && !s.moves[m].settled
    case SdkReturns(w, _, _) =>
      && IsBody(s, w) && s.body[w].Calling?
      && (!s.mode.File? ==> Settled(s, IndexOf(s, w)))
    case Finalize(w, e) => IsBody(s, w) && s.body[w].Finalizing? && (s.mode == Object(false) ==> e.None?)
    case Count(w) => IsBody(s, w) && s.body[w].Counting?
    case Leave(w) => IsBody(s, w) && s.body[w].Leaving?
    case Credit(w) => IsBody(s, w) && s.body[w].Crediting?
    case Finish(w) => IsBody(s, w) && s.body[w].Exiting?
  }

  function SetBody(s: State, w: int, b: Body): State
    requires 0 <= w < |s.body|
  {
    s.(body := s.body[w := b])
  }

  function AddToBytes(s: State, i: int, amount: int): State
    requires 0 <= i < |s.credited|
  {
    s.(bytes := s.bytes + amount, credited := s.credited[i := s.credited[i] + amount])
  }

  /** The pool's worker has just called fn. */
  function EnterIfCalled(s: State, p: P.Step): State {
    if p.CallFn? && 0 <= p.w < |s.body|
    then SetBody(s, p.w, Entered) else s
  }

  function AfterSdk(s: State, i: int, e: P.Option<P.Error>, length: int): Body
    requires 0 <= i < |s.sinks|
  {
    match s.mode
    case Upload(_) => Leaving(e)
    case Get => if e.Some? then Leaving(e) else Counting(s.sinks[i])
    case Object(_) => Finalizing(e)
    case File => if e.Some? then Leaving(e) else Counting(length)
  }

  function Moved(s: State, i: int, amount: int): State
    requires 0 <= i < |s.sinks|
  {
    s.(sinks := s.sinks[i := s.sinks[i] + amount],
       moves := s.moves + [Move(i, amount, s.mode.Get?)],
       progBytes := s.progBytes + if s.mode.Get? then amount else 0)
  }

  function Apply(s: State, step: Step): State
    requires Enabled(s, step)
  {
    match step
    case Pool(p) => EnterIfCalled(s.(pool := P.Apply(s.pool, p)), p)
    case Enter(w) =>
      SetBody(s, w, if s.mode == Object(true) then Opening else Calling).(inFlight := s.inFlight + 1)
    case Create(w, e) => SetBody(s, w, if e.Some? then Leaving(e) else Calling)
    case Begin(i, amount) => Moved(s, i, amount)
    case Settle(m) =>
      s.(progBytes := s.progBytes + s.moves[m].amount, moves := s.moves[m := s.moves[m].(settled := true)])
    case SdkReturns(w, e, length) => SetBody(s, w, AfterSdk(s, IndexOf(s, w), e, length))
    case Finalize(w, e) =>
      var sdk := s.body[w].e;
      SetBody(s, w, if sdk.Some? then Leaving(sdk) else if e.Some? then Leaving(e) else Counting(s.sinks[IndexOf(s, w)]))
    case Count(w) => SetBody(AddToBytes(s, IndexOf(s, w), s.body[w].amount), w, Leaving(P.None))
    case Leave(w) =>
      var result := s.body[w].result;
      SetBody(s, w, if s.mode.Upload? && result.None? then Crediting(s.mode.size) else Exiting(result))
        .(inFlight := s.inFlight - 1)
    case Credit(w) => SetBody(AddToBytes(s, IndexOf(s, w), s.body[w].amount), w, Exiting(P.None))
    case Finish(w) =>
      SetBody(s, w, Idle).(pool := P.Apply(s.pool, P.FnReturns(w, s.body[w].result)))
  }

  function Start(mode: Mode, workers: int, n: int, inFlight: int, progBytes: int): State {
    var pool := P.Start(workers, n);
    State(mode, pool, seq(|pool.workers|, _ => Idle), inFlight, inFlight, progBytes, progBytes, 0,
          seq(AtLeastZero(n), _ => 0), seq(AtLeastZero(n), _ => 0), [])
  }

  predicate IsRun(s: State, steps: seq<Step>)
    decreases |steps|
  {
    steps == [] || (Enabled(s, steps[0]) && IsRun(Apply(s, steps[0]), steps[1..]))
  }

  function After(s: State, steps: seq<Step>): State
    requires IsRun(s, steps)
    decreases |steps|
  {
    if steps == [] then s else After(Apply(s, steps[0]), steps[1..])
  }

  // ---------------------------------------------------------------- the pool underneath

  /** The steps of the pool hidden in a run of the iteration. */
  function PoolSteps(s: State, steps: seq<Step>): seq<P.Step>
    requires IsRun(s, steps)
    decreases |steps|
  {
    if steps == [] then []
    else
      var rest := PoolSteps(Apply(s, steps[0]), steps[1..]);
      match steps[0]
      case Pool(p) => [p] + rest
      case Finish(w) => [P.FnReturns(w, s.body[w].result)] + rest
      case _ => rest
  }

  /** Every run of an iteration is, seen through its pool, a run of the pool: nothing the closures do disturbs it. */
  lemma {:induction false} RefinesPool(s: State, run: seq<Step>)
    requires IsRun(s, run)
    ensures P.IsRun(s.pool, PoolSteps(s, run))
    ensures P.After(s.pool, PoolSteps(s, run)) == After(s, run).pool
    decreases |run|
  {
    if run != [] {
      var t := Apply(s, run[0]);
      RefinesPool(t, run[1..]);
      var rest := PoolSteps(t, run[1..]);
      if run[0].Pool? {
        P.RunsCompose(s.pool, [run[0].step], rest);
      } else if run[0].Finish? {
        P.RunsCompose(s.pool, [P.FnReturns(run[0].w, s.body[run[0].w].result)], rest);
      }
    }
  }
}
