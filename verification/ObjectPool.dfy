/**
 The object pool of internal/tmbench/tmbench.go, runObjectsParallel: a dispatching loop that hands
 the indices 0..n-1 to worker goroutines over an unbuffered channel, as a state machine whose steps
 may interleave in any order.

 Each atomic action of the source is one step: a load or a store of firstErr, a look at the context,
 a rendezvous on the channel, closing it, the join and the return. A call of fn is entered by CallFn,
 some time after the look at the context, and left by FnReturns, whose result the environment chooses.
 */
module ObjectPool {
  import opened Arithmetic

  datatype Option<+T> = None | Some(value: T)

  type Error = string

  /** Where a worker goroutine stands. */
  datatype Phase =
    | Receiving                       // at the head of "for i := range idx"
    | CheckError(i: int)              // about to load firstErr
    | CheckContext(i: int)            // firstErr was nil, about to look at the context
    | Cleared(i: int)                 // the context was alive, about to call fn(i)
    | Running(i: int)                 // inside fn(i)
    | Failed(i: int, e: Error)        // fn(i) returned e, about to load firstErr again
    | Storing(i: int, e: Error)       // that load was nil, about to store e
    | Done                            // the range loop ended

  /** Where the calling goroutine stands. */
  datatype Dispatcher =
    | Testing                         // at the loop guard and the load of firstErr
    | Sending                         // blocked in "idx <- i"
    | Closing                         // after the loop, before close(idx)
    | Waiting                         // in wg.Wait()
    | Joined                          // every worker is done, about to load firstErr
    | Returned(result: Option<Error>)

  /** What became of an index that was handed to a worker. */
  datatype Fate =
    | Held(worker: int)                              // received, neither skipped nor finished
    | Skipped                                      // received, fn not called
    | Ran(worker: int, result: Option<Error>)          // fn was called and returned

  datatype Stored = Stored(worker: int, i: int, e: Error)

  /** next is the loop variable i of the dispatcher. calls, fate and stores are history only: no step's guard reads them. */
  datatype State = State(
    n: int,
    workers: seq<Phase>,
    disp: Dispatcher,
    next: int,
    firstErr: Option<Error>,
    cancelled: bool,
    calls: seq<int>,                  // how often fn was called on each index dispatched so far
    fate: seq<Fate>,                  // for each index dispatched so far
    stores: seq<Stored>)              // every store into firstErr, in order

  datatype Step =
    | Test
    | Send(w: int)
    | Close
    | Join
    | Return
    | Exit(w: int)
    | LoadError(w: int)
    | LoadContext(w: int)
    | CallFn(w: int)
    | FnReturns(w: int, result: Option<Error>)
    | LoadBeforeStore(w: int)
    | Store(w: int)
    | Cancel

  /** The two clamps on the pool size: as many workers as asked for, at least one, unless n (even a negative n) is less. */
  function PoolSize(workers: int, n: int): (size: int)
    ensures n >= 1 ==> 1 <= size <= n
    ensures n >= 1 && workers >= 1 ==> size <= workers
    ensures size == n || size >= workers
    ensures n < 1 ==> size <= 0
  {
    var atLeastOne := if workers < 1 then 1 else workers;
    if atLeastOne > n then n else atLeastOne
  }

  function Start(workers: int, n: int): State {
    State(n, seq(AtLeastZero(PoolSize(workers, n)), _ => Receiving), Testing, 0, None, false, [], [], [])
  }

  predicate IsWorker(s: State, w: int) {
    0 <= w < |s.workers|
  }

  predicate ChannelClosed(s: State) {
    s.disp.Waiting? || s.disp.Joined? || s.disp.Returned?
  }

  predicate AllDone(s: State) {
    forall w :: 0 <= w < |s.workers| ==> s.workers[w].Done?
  }

  predicate Enabled(s: State, step: Step) {
    match step
    case Test => s.disp.Testing?
    case Send(w) => s.disp.Sending? && IsWorker(s, w) && s.workers[w].Receiving?
    case Close => s.disp.Closing?
    case Join => s.disp.Waiting? && AllDone(s)
    case Return => s.disp.Joined?
    case Exit(w) => ChannelClosed(s) && IsWorker(s, w) && s.workers[w].Receiving?
    case LoadError(w) => IsWorker(s, w) && s.workers[w].CheckError?
    case LoadContext(w) => IsWorker(s, w) && s.workers[w].CheckContext?
    case CallFn(w) => IsWorker(s, w) && s.workers[w].Cleared?
    case FnReturns(w, _) => IsWorker(s, w) && s.workers[w].Running?
    case LoadBeforeStore(w) => IsWorker(s, w) && s.workers[w].Failed?
    case Store(w) => IsWorker(s, w) && s.workers[w].Storing?
    case Cancel => !s.cancelled
  }

  function SetWorker(s: State, w: int, p: Phase): State
    requires IsWorker(s, w)
  {
    s.(workers := s.workers[w := p])
  }

  function SetFate(s: State, i: int, f: Fate): State {
    if 0 <= i < |s.fate| then s.(fate := s.fate[i := f]) else s
  }

  function CountCall(s: State, i: int): State {
    if 0 <= i < |s.calls| then s.(calls := s.calls[i := s.calls[i] + 1]) else s
  }

  function Apply(s: State, step: Step): State
    requires Enabled(s, step)
  {
    match step
    case Test =>
      s.(disp := if s.next >= s.n || s.firstErr.Some? then Closing else Sending)
    case Send(w) =>
      SetWorker(s, w, CheckError(s.next))
        .(disp := Testing, next := s.next + 1, calls := s.calls + [0], fate := s.fate + [Held(w)])
    case Close => s.(disp := Waiting)
    case Join => s.(disp := Joined)
    case Return => s.(disp := Returned(s.firstErr))
    case Exit(w) => SetWorker(s, w, Done)
    case LoadError(w) =>
      var i := s.workers[w].i;
      if s.firstErr.Some? then SetFate(SetWorker(s, w, Receiving), i, Skipped)
      else SetWorker(s, w, CheckContext(i))
    case LoadContext(w) =>
      var i := s.workers[w].i;
      if s.cancelled then SetFate(SetWorker(s, w, Receiving), i, Skipped)
      else SetWorker(s, w, Cleared(i))
    case CallFn(w) =>
      var i := s.workers[w].i;
      CountCall(SetWorker(s, w, Running(i)), i)
    case FnReturns(w, result) =>
      var i := s.workers[w].i;
      var p := match result case None => Receiving case Some(e) => Failed(i, e);
      SetFate(SetWorker(s, w, p), i, Ran(w, result))
    case LoadBeforeStore(w) =>
      var p := s.workers[w];
      SetWorker(s, w, if s.firstErr.Some? then Receiving else Storing(p.i, p.e))
    case Store(w) =>
      var p := s.workers[w];
      SetWorker(s, w, Receiving).(firstErr := Some(p.e), stores := s.stores + [Stored(w, p.i, p.e)])
    case Cancel => s.(cancelled := true)
  }

  /** steps can be taken one after the other from s. */
  predicate IsRun(s: State, steps: seq<Step>)
    decreases |steps|
  {
    steps == [] || (Enabled(s, steps[0]) && IsRun(Apply(s, steps[0]), steps[1..]))
  }

  function After(s: State, steps: seq<Step>): State
    requires IsRun(s, steps)
    decreases |steps|
  {
    if steps == [] then s else After(Apply(s, steps[0]), steps[1..])
  }

  lemma {:induction false} RunsCompose(s: State, first: seq<Step>, second: seq<Step>)
    requires IsRun(s, first) && IsRun(After(s, first), second)
    ensures IsRun(s, first + second)
    ensures After(s, first + second) == After(After(s, first), second)
    decreases |first|
  {
    if first == [] {
      assert first + second == second;
    } else {
      RunsCompose(Apply(s, first[0]), first[1..], second);
      assert (first + second)[1..] == first[1..] + second;
    }
  }

  lemma {:induction false} RunSplits(s: State, first: seq<Step>, second: seq<Step>)
    requires IsRun(s, first + second)
    ensures IsRun(s, first) && IsRun(After(s, first), second)
    ensures After(s, first + second) == After(After(s, first), second)
    decreases |first|
  {
    if first == [] {
      assert first + second == second;
    } else {
      assert (first + second)[1..] == first[1..] + second;
      RunSplits(Apply(s, first[0]), first[1..], second);
    }
  }
}
