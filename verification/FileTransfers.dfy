/**
 RunDownloadFile as it really counts (internal/tmbench/tmbench.go): the pool and its closures together
 with the compare-and-swap listeners of all objects. The iteration's Begin and Settle are replaced by
 the listeners' own steps, and the result is shown to behave like the iteration.
 */
module FileTransfers {
  import P = ObjectPool
  import PS = PoolSafety
  import I = Iteration
  import IC = IterationCounters
  import IO = IterationOutcome
  import L = ProgressListener
  import LO = ListenerOutcome
  import opened Arithmetic
  import opened Sums

  /** The pool, the bodies and the counters are those of transfers; last and prog.Bytes are those of listeners. */
  datatype State = State(transfers: I.State, listeners: L.State)

  datatype Step =
    | Transfer(t: I.Step)
    | Listen(l: L.Step)

  /** An event is delivered for an object only once its fn, which registers the listener, was called. */
  predicate Enabled(s: State, step: Step) {
    match step
    case Transfer(t) => !t.Begin? && !t.Settle? && I.Enabled(s.transfers, t)
    case Listen(l) =>
      && !l.Register? && L.Enabled(s.listeners, l)
      && (l.Invoke? ==> l.l < |s.transfers.pool.calls| && s.transfers.pool.calls[l.l] == 1)
  }

  function Apply(s: State, step: Step): State
    requires Enabled(s, step)
  {
    match step
    case Transfer(t) => s.(transfers := I.Apply(s.transfers, t))
    case Listen(l) => s.(listeners := L.Apply(s.listeners, l))
  }

  function Start(workers: int, n: int, inFlight: int, progBytes: int): State {
    State(I.Start(I.File, workers, n, inFlight, progBytes),
          L.State(progBytes, progBytes, seq(AtLeastZero(n), _ => L.Listener(0, [])), []))
  }

  predicate IsRun(s: State, steps: seq<Step>)
    decreases |steps|
  {
    steps == [] || (Enabled(s, steps[0]) && IsRun(Apply(s, steps[0]), steps[1..]))
  }

  function After(s: State, steps: seq<Step>): State
    requires IsRun(s, steps)
    decreases |steps|
  {
    if steps == [] then s else After(Apply(s, steps[0]), steps[1..])
  }

  // ---------------------------------------------------------------- the simulation

  /** Equal but for the byte counting. */
  predicate SameTransfers(a: I.State, b: I.State) {
    && a.mode == b.mode && a.pool == b.pool && a.body == b.body && |a.sinks| == |b.sinks|
    && a.inFlight == b.inFlight && a.inFlightBefore == b.inFlightBefore && a.progBytesBefore == b.progBytesBefore
    && a.bytes == b.bytes && a.credited == b.credited
  }

  /** origin[m] is the invocation whose swap is the m-th move. */
  predicate MovesMatch(calls: seq<L.Call>, moves: seq<I.Move>, origin: seq<int>) {
    && |origin| == |moves|
    && (forall m :: 0 <= m < |origin| ==>
          && 0 <= origin[m] < |calls|
          && (if moves[m].settled then calls[origin[m]].pc.Finished? else calls[origin[m]].pc == L.Adding(moves[m].amount)))
    && (forall k, m :: 0 <= k < m < |origin| ==> origin[k] != origin[m])
    && (forall c :: 0 <= c < |calls| && calls[c].pc.Adding? ==> c in origin)
  }

  lemma SwapMatches(calls: seq<L.Call>, moves: seq<I.Move>, origin: seq<int>, c: int, call: L.Call, move: I.Move)
    requires MovesMatch(calls, moves, origin) && 0 <= c < |calls| && calls[c].pc.Swapping?
    requires call.pc == L.Adding(move.amount) && !move.settled
    ensures MovesMatch(calls[c := call], moves + [move], origin + [c])
  {
    assert c !in origin;
    forall d | 0 <= d < |calls| && calls[c := call][d].pc.Adding? ensures d in origin + [c] {
    }
  }

  lemma AddMatches(calls: seq<L.Call>, moves: seq<I.Move>, origin: seq<int>, m: int, call: L.Call)
    requires MovesMatch(calls, moves, origin) && 0 <= m < |moves| && !moves[m].settled
    requires call.pc.Finished?
    ensures MovesMatch(calls[origin[m] := call], moves[m := moves[m].(settled := true)], origin)
  {}

  predicate SinksMatch(listeners: seq<L.Listener>, sinks: seq<int>) {
    |listeners| == |sinks| && forall i :: 0 <= i < |sinks| ==> sinks[i] == listeners[i].last
  }

  lemma SwapKeepsSinks(listeners: seq<L.Listener>, sinks: seq<int>, i: int, l: L.Listener, value: int)
    requires SinksMatch(listeners, sinks) && 0 <= i < |sinks| && l.last == value
    ensures SinksMatch(listeners[i := l], sinks[i := value])
  {}

  predicate CallsBegun(ls: L.State, it: I.State) {
    forall c :: 0 <= c < |ls.calls| ==>
      0 <= ls.calls[c].listener < |it.pool.calls| && it.pool.calls[ls.calls[c].listener] == 1
  }

  ghost predicate Linked(s: State, it: I.State, origin: seq<int>) {
    && it.mode.File? && IC.Inv(it) && L.Inv(s.listeners)
    && SameTransfers(s.transfers, it)
    && SinksMatch(s.listeners.listeners, it.sinks)
    && it.progBytes == s.listeners.bytes
    && MovesMatch(s.listeners.calls, it.moves, origin)
    && CallsBegun(s.listeners, it)
  }

  /** The transfers never look at the byte counting, so a step of theirs does the same to both. */
  lemma TransfersAgree(a: I.State, b: I.State, t: I.Step)
    requires SameTransfers(a, b) && a.mode.File? && !t.Begin? && !t.Settle? && !t.Finalize?
    ensures I.Enabled(a, t) <==> I.Enabled(b, t)
    ensures I.Enabled(a, t) ==>
              && SameTransfers(I.Apply(a, t), I.Apply(b, t))
              && I.Apply(b, t).sinks == b.sinks && I.Apply(b, t).moves == b.moves
              && I.Apply(b, t).progBytes == b.progBytes && I.Apply(b, t).mode == b.mode
  {
    assert forall w :: I.IsBody(a, w) <==> I.IsBody(b, w);
    match t
    case Pool(_) =>
    case Enter(_) =>
    case Create(_, _) =>
    case SdkReturns(_, _, _) =>
    case Count(_) =>
    case Leave(_) =>
    case Credit(_) =>
    case Finish(_) =>
  }

  /** A listener has no file to close. */
  lemma NoneFinalizes(it: I.State)
    requires IC.Inv(it) && it.mode.File?
    ensures forall w :: 0 <= w < |it.body| ==> !it.body[w].Finalizing?
  {
    forall w | 0 <= w < |it.body| ensures !it.body[w].Finalizing? {
      assert IC.BodyOk(it, w);
    }
  }

  lemma TransferSimulated(s: State, it: I.State, origin: seq<int>, t: I.Step)
    requires Linked(s, it, origin) && Enabled(s, Transfer(t))
    ensures I.Enabled(it, t) && Linked(Apply(s, Transfer(t)), I.Apply(it, t), origin)
  {
    NoneFinalizes(it);
    TransfersAgree(s.transfers, it, t);
    IC.StepKeepsInv(it, t);
    BegunStayBegun(s, it, t);
  }

  lemma BegunStayBegun(s: State, it: I.State, t: I.Step)
    requires IC.Inv(it) && I.Enabled(it, t) && CallsBegun(s.listeners, it)
    ensures CallsBegun(s.listeners, I.Apply(it, t))
  {
    var after := I.Apply(it, t);
    PoolStepBehind(it, t);
    IC.StepKeepsInv(it, t);
    forall c | 0 <= c < |s.listeners.calls|
      ensures var l := s.listeners.calls[c].listener; 0 <= l < |after.pool.calls| && after.pool.calls[l] == 1
    {
      assert PS.FateOk(after.pool, s.listeners.calls[c].listener);
    }
  }

  lemma PoolStepBehind(it: I.State, t: I.Step)
    requires IC.Inv(it) && I.Enabled(it, t)
    ensures var calls, later := it.pool.calls, I.Apply(it, t).pool.calls;
            |calls| <= |later| && forall i :: 0 <= i < |calls| ==> calls[i] <= later[i]
  {
    if t.Pool? {
      PS.CallsOnlyGrow(it.pool, t.step);
    } else if t.Finish? {
      PS.CallsOnlyGrow(it.pool, P.FnReturns(t.w, it.body[t.w].result));
    }
  }

  /** No step, or the one step from s to t. */
  predicate AtMostOne(steps: seq<I.Step>, s: I.State, t: I.State) {
    (steps == [] && t == s) || (|steps| == 1 && I.Enabled(s, steps[0]) && t == I.Apply(s, steps[0]))
  }

  /** The swap of c, about to succeed, seen from the iteration. */
  function BeginOf(ls: L.State, c: int): I.Step
    requires 0 <= c < |ls.calls| && ls.calls[c].pc.Swapping?
  {
    I.Begin(ls.calls[c].listener, ls.calls[c].value - ls.calls[c].pc.loaded)
  }

  predicate WillSucceed(ls: L.State, c: int) {
    L.Enabled(ls, L.Swap(c)) && ls.listeners[ls.calls[c].listener].last == ls.calls[c].pc.loaded
  }

  lemma SwapEnablesBegin(s: State, it: I.State, origin: seq<int>, c: int)
    requires Linked(s, it, origin) && WillSucceed(s.listeners, c)
    ensures I.Enabled(it, BeginOf(s.listeners, c)) && BeginOf(s.listeners, c).amount > 0
  {
    assert L.CallOk(s.listeners, c);
  }

  lemma SwapEffect(ls: L.State, c: int, after: L.State)
    requires WillSucceed(ls, c) && after == L.Apply(ls, L.Swap(c))
    ensures var call := ls.calls[c];
            && after.bytes == ls.bytes && 0 <= c < |after.calls|
            && after.calls == ls.calls[c := after.calls[c]]
            && after.calls[c].pc == L.Adding(call.value - call.pc.loaded) && after.calls[c].listener == call.listener
            && 0 <= call.listener < |after.listeners|
            && after.listeners == ls.listeners[call.listener := after.listeners[call.listener]]
            && after.listeners[call.listener].last == call.value
  {}

  lemma SwapKeepsMatches(s: State, it: I.State, origin: seq<int>, c: int, ls: L.State)
    requires Linked(s, it, origin) && WillSucceed(s.listeners, c) && ls == L.Apply(s.listeners, L.Swap(c))
    ensures var begin := BeginOf(s.listeners, c);
            && begin.i < |it.sinks| && 0 <= begin.i
            && MovesMatch(ls.calls, it.moves + [I.Move(begin.i, begin.amount, false)], origin + [c])
            && SinksMatch(ls.listeners, it.sinks[begin.i := it.sinks[begin.i] + begin.amount])
            && CallsBegun(ls, it) && ls.bytes == it.progBytes
  {
    var begin := BeginOf(s.listeners, c);
    SwapEffect(s.listeners, c, ls);
    SwapMatches(s.listeners.calls, it.moves, origin, c, ls.calls[c], I.Move(begin.i, begin.amount, false));
    SwapKeepsSinks(s.listeners.listeners, it.sinks, begin.i, ls.listeners[begin.i], s.listeners.calls[c].value);
  }

  lemma SwapSimulated(s: State, it: I.State, origin: seq<int>, c: int) returns (begin: I.Step, after: I.State)
    requires Linked(s, it, origin) && WillSucceed(s.listeners, c)
    ensures AtMostOne([begin], it, after) && Linked(Apply(s, Listen(L.Swap(c))), after, origin + [c])
  {
    begin := BeginOf(s.listeners, c);
    SwapEnablesBegin(s, it, origin, c);
    SwapKeepsMatches(s, it, origin, c, L.Apply(s.listeners, L.Swap(c)));
    after := I.Apply(it, begin);
    IC.BeginKeepsInv(it, begin.i, begin.amount);
    L.StepKeepsInv(s.listeners, L.Swap(c));
  }

  lemma AddSimulated(s: State, it: I.State, origin: seq<int>, c: int) returns (settle: I.Step, after: I.State)
    requires Linked(s, it, origin) && Enabled(s, Listen(L.Add(c)))
    ensures AtMostOne([settle], it, after) && Linked(Apply(s, Listen(L.Add(c))), after, origin)
  {
    var ls := s.listeners;
    var m :| 0 <= m < |origin| && origin[m] == c;
    settle, after := I.Settle(m), I.Apply(it, I.Settle(m));
    L.StepKeepsInv(ls, L.Add(c));
    IC.SettleKeepsInv(it, m);
    AddMatches(ls.calls, it.moves, origin, m, L.Apply(ls, L.Add(c)).calls[c]);
  }

  lemma OtherListenerStep(s: State, it: I.State, origin: seq<int>, l: L.Step)
    requires Linked(s, it, origin) && Enabled(s, Listen(l)) && !l.Add?
    requires l.Swap? ==> !WillSucceed(s.listeners, l.c)
    ensures Linked(Apply(s, Listen(l)), it, origin)
  {
    L.StepKeepsInv(s.listeners, l);
  }

  /** What a listener's step amounts to in the iteration: a successful swap begins a move, its add settles it, other steps nothing. */
  lemma ListenSimulated(s: State, it: I.State, origin: seq<int>, l: L.Step)
    returns (matching: seq<I.Step>, after: I.State, grown: seq<int>)
    requires Linked(s, it, origin) && Enabled(s, Listen(l))
    ensures AtMostOne(matching, it, after) && Linked(Apply(s, Listen(l)), after, grown)
  {
    matching, after, grown := [], it, origin;
    if l.Swap? && WillSucceed(s.listeners, l.c) {
      var begin;
      begin, after := SwapSimulated(s, it, origin, l.c);
      matching, grown := [begin], origin + [l.c];
    } else if l.Add? {
      var settle;
      settle, after := AddSimulated(s, it, origin, l.c);
      matching := [settle];
    } else {
      OtherListenerStep(s, it, origin, l);
    }
  }

  lemma Prepend(s: I.State, steps: seq<I.Step>, t: I.State, rest: seq<I.Step>)
    requires AtMostOne(steps, s, t) && I.IsRun(t, rest)
    ensures I.IsRun(s, steps + rest) && I.After(s, steps + rest) == I.After(t, rest)
  {
    if steps == [] {
      assert steps + rest == rest;
    } else {
      assert (steps + rest)[1..] == rest && (steps + rest)[0] == steps[0];
    }
  }

  /** Every run with real listeners is matched, step by step, by a run of the iteration with the same pool and counters. */
  lemma {:induction false} Simulated(s: State, it: I.State, origin: seq<int>, run: seq<Step>)
    returns (matching: seq<I.Step>, after: I.State, grown: seq<int>)
    requires Linked(s, it, origin) && IsRun(s, run)
    ensures I.IsRun(it, matching) && after == I.After(it, matching)
    ensures Linked(After(s, run), after, grown)
    decreases |run|
  {
    if run == [] {
      return [], it, origin;
    }
    var first, next, known := [], it, origin;
    match run[0] {
      case Transfer(t) =>
        TransferSimulated(s, it, origin, t);
        first, next := [t], I.Apply(it, t);
      case Listen(l) =>
        first, next, known := ListenSimulated(s, it, origin, l);
    }
    var rest;
    rest, after, grown := Simulated(Apply(s, run[0]), next, known, run[1..]);
    Prepend(it, first, next, rest);
    matching := first + rest;
  }

  lemma StartLinked(workers: int, n: int, inFlight: int, progBytes: int)
    ensures var s := Start(workers, n, inFlight, progBytes); Linked(s, s.transfers, [])
  {
    var s := Start(workers, n, inFlight, progBytes);
    IC.StartInv(I.File, workers, n, inFlight, progBytes);
    SumBounds(s.listeners.listeners, L.LastOf, 0, 0);
    forall l | 0 <= l < |s.listeners.listeners| ensures L.ListenerOk(s.listeners, l) {
    }
  }

  /**
   RunDownloadFile with its listeners: whatever the interleaving, once the pool has returned and no
   event is being handled, prog.Bytes grew by exactly the sum over the objects of the largest count
   reported for each, and InFlight is back where it was.
   */
  lemma FileDownloadCounts(workers: int, n: int, inFlight: int, progBytes: int, run: seq<Step>, s: State)
    requires IsRun(Start(workers, n, inFlight, progBytes), run) && s == After(Start(workers, n, inFlight, progBytes), run)
    requires s.transfers.pool.disp.Returned? && LO.Quiet(s.listeners)
    ensures s.listeners.bytes == progBytes + Sum(LO.Reported(s.listeners), Itself)
    ensures |LO.Reported(s.listeners)| == AtLeastZero(n)
    ensures s.transfers.inFlight == inFlight
  {
    var start := Start(workers, n, inFlight, progBytes);
    StartLinked(workers, n, inFlight, progBytes);
    var matching, it, origin := Simulated(start, start.transfers, [], run);
    IO.ReachedInv(start.transfers, matching, it, I.File, workers, n);
    IO.InFlightBalance(start.transfers, matching, it, I.File, workers, n);
    LO.QuietState(s.listeners);
    InitialStays(start, run);
  }

  lemma {:induction false} InitialStays(s: State, run: seq<Step>)
    requires IsRun(s, run)
    ensures After(s, run).listeners.initial == s.listeners.initial
    decreases |run|
  {
    if run != [] {
      InitialStays(Apply(s, run[0]), run[1..]);
    }
  }
}
