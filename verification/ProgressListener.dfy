/**
 The lock-free progress listeners of internal/tmbench/tmbench.go, progBytesListener: every object has
 a listener with an atomic "last", any number of callers report cumulative byte counts to it in any
 order, and the growth of "last" is added to the shared prog.Bytes. Loads, compare-and-swaps and adds
 of all callers interleave freely.
 */
module ProgressListener {
  import opened Arithmetic
  import opened Sums

  /** Where one invocation of OnObjectBytesTransferred stands. */
  datatype Pc =
    | Loading                          // at the head of the loop
    | Swapping(loaded: int, seen: int)    // loaded this value, when the listener had been won `seen` times
    | Adding(delta: int)               // its swap succeeded; prog.Bytes not yet increased
    | Finished

  /** retries and steps count the failed swaps and the atomic actions of this invocation so far. */
  datatype Call = Call(listener: int, value: int, pc: Pc, retries: int, steps: int)

  /** winners lists, in order, the invocations whose swap succeeded on this listener. */
  datatype Listener = Listener(last: int, winners: seq<int>)

  datatype State = State(initial: int, bytes: int, listeners: seq<Listener>, calls: seq<Call>)

  datatype Step =
    | Register                         // an object starts: a fresh listener
    | Invoke(l: int, value: int)       // the SDK reports a cumulative count to listener l
    | Load(c: int)
    | Swap(c: int)
    | Add(c: int)

  predicate Enabled(s: State, step: Step) {
    match step
    case Register => true
    case Invoke(l, _) => 0 <= l < |s.listeners|
    case Load(c) => 0 <= c < |s.calls| && s.calls[c].pc.Loading? && 0 <= s.calls[c].listener < |s.listeners|
    case Swap(c) => 0 <= c < |s.calls| && s.calls[c].pc.Swapping? && 0 <= s.calls[c].listener < |s.listeners|
    case Add(c) => 0 <= c < |s.calls| && s.calls[c].pc.Adding?
  }

  function Moved(s: State, c: int, pc: Pc, retries: int): State
    requires 0 <= c < |s.calls|
  {
    s.(calls := s.calls[c := s.calls[c].(pc := pc, retries := retries, steps := s.calls[c].steps + 1)])
  }

  function Apply(s: State, step: Step): State
    requires Enabled(s, step)
  {
    match step
    case Register => s.(listeners := s.listeners + [Listener(0, [])])
    case Invoke(l, value) => s.(calls := s.calls + [Call(l, value, Loading, 0, 0)])
    case Load(c) =>
      var call := s.calls[c];
      var listener := s.listeners[call.listener];
      Moved(s, c, if call.value <= listener.last then Finished else Swapping(listener.last, |listener.winners|), call.retries)
    case Swap(c) =>
      var call := s.calls[c];
      var listener := s.listeners[call.listener];
      if listener.last == call.pc.loaded then
        Moved(s, c, Adding(call.value - call.pc.loaded), call.retries)
          .(listeners := s.listeners[call.listener := Listener(call.value, listener.winners + [c])])
      else
        Moved(s, c, Loading, call.retries + 1)
    case Add(c) => Moved(s, c, Finished, s.calls[c].retries).(bytes := s.bytes + s.calls[c].pc.delta)
  }

  function Start(bytes: int): State {
    State(bytes, bytes, [], [])
  }

  predicate IsRun(s: State, steps: seq<Step>)
    decreases |steps|
  {
    steps == [] || (Enabled(s, steps[0]) && IsRun(Apply(s, steps[0]), steps[1..]))
  }

  function After(s: State, steps: seq<Step>): State
    requires IsRun(s, steps)
    decreases |steps|
  {
    if steps == [] then s else After(Apply(s, steps[0]), steps[1..])
  }

  // ---------------------------------------------------------------- the invariant

  function LastOf(l: Listener): int { l.last }

  /** What an invocation has won by its swap but not yet added. */
  function Unadded(c: Call): int {
    if c.pc.Adding? then c.pc.delta else 0
  }

  /** The value of listener l after its first k successful swaps. */
  function ValueAfter(s: State, l: int, k: int): int
    requires 0 <= l < |s.listeners| && 0 <= k <= |s.listeners[l].winners|
  {
    if k == 0 then 0
    else
      var c := s.listeners[l].winners[k - 1];
      if 0 <= c < |s.calls| then s.calls[c].value else 0
  }

  predicate ListenerOk(s: State, l: int)
    requires 0 <= l < |s.listeners|
  {
    var winners := s.listeners[l].winners;
    && s.listeners[l].last == ValueAfter(s, l, |winners|)
    && (forall k :: 0 <= k < |winners| ==>
          && 0 <= winners[k] < |s.calls|
          && s.calls[winners[k]].listener == l
          && (s.calls[winners[k]].pc.Adding? || s.calls[winners[k]].pc.Finished?))
    && (forall j, k :: 0 <= j < k <= |winners| ==> ValueAfter(s, l, j) < ValueAfter(s, l, k))
  }

  predicate CallOk(s: State, c: int)
    requires 0 <= c < |s.calls|
  {
    var call := s.calls[c];
    && 0 <= call.listener < |s.listeners|
    && 0 <= call.retries <= AtLeastZero(call.value)
    && var last := s.listeners[call.listener].last;
    && match call.pc
       case Loading =>
         call.retries <= last && call.steps == 2 * call.retries
       case Swapping(loaded, seen) =>
         && 0 <= seen <= |s.listeners[call.listener].winners|
         && loaded == ValueAfter(s, call.listener, seen)
         && call.retries <= loaded < call.value && call.steps == 2 * call.retries + 1
       case Adding(delta) =>
         0 < delta && call.value <= last && call.steps == 2 * call.retries + 2
       case Finished =>
         call.value <= last && call.steps <= 2 * call.retries + 3
  }

  ghost predicate Inv(s: State) {
    && (forall l :: 0 <= l < |s.listeners| ==> ListenerOk(s, l))
    && (forall c :: 0 <= c < |s.calls| ==> CallOk(s, c))
    && s.bytes + Sum(s.calls, Unadded) == s.initial + Sum(s.listeners, LastOf)
  }

  lemma OpeningKeepsInv(s: State, step: Step)
    requires Inv(s) && Enabled(s, step) && (step.Register? || step.Invoke?)
    ensures Inv(Apply(s, step))
  {
    var t := Apply(s, step);
    if step.Register? {
      SumAppend(s.listeners, Listener(0, []), LastOf);
    } else {
      SumAppend(s.calls, Call(step.l, step.value, Loading, 0, 0), Unadded);
    }
    forall l | 0 <= l < |t.listeners| ensures ListenerOk(t, l) {
      if l < |s.listeners| {
        assert ListenerOk(s, l);
        SameValues(s, t, l);
      }
    }
    forall c | 0 <= c < |t.calls| ensures CallOk(t, c) {
      if c < |s.calls| {
        assert CallOk(s, c);
        SameValues(s, t, s.calls[c].listener);
      } else {
        assert ListenerOk(s, step.l);
        assert ValueAfter(s, step.l, 0) <= s.listeners[step.l].last;
      }
    }
  }

  /** A step that leaves listener l and the reported values alone leaves its value history alone. */
  lemma SameValues(s: State, t: State, l: int)
    requires 0 <= l < |s.listeners| && ListenerOk(s, l)
    requires l < |t.listeners| && s.listeners[l].winners <= t.listeners[l].winners
    requires |s.calls| <= |t.calls| && forall c :: 0 <= c < |s.calls| ==> t.calls[c].value == s.calls[c].value
    ensures forall k :: 0 <= k <= |s.listeners[l].winners| ==> ValueAfter(t, l, k) == ValueAfter(s, l, k)
  {}

  lemma CallStepKeepsListeners(s: State, step: Step)
    requires Inv(s) && Enabled(s, step) && (step.Load? || step.Swap? || step.Add?)
    ensures forall l :: 0 <= l < |s.listeners| ==> ListenerOk(Apply(s, step), l)
  {
    var t := Apply(s, step);
    assert CallOk(s, step.c);
    forall l | 0 <= l < |t.listeners| ensures ListenerOk(t, l) {
      assert ListenerOk(s, l);
      SameValues(s, t, l);
    }
  }

  lemma CallStepKeepsCalls(s: State, step: Step)
    requires Inv(s) && Enabled(s, step) && (step.Load? || step.Swap? || step.Add?)
    ensures forall c :: 0 <= c < |s.calls| ==> CallOk(Apply(s, step), c)
  {
    var t := Apply(s, step);
    var mine := s.calls[step.c].listener;
    assert CallOk(s, step.c);
    forall c | 0 <= c < |t.calls| ensures CallOk(t, c) {
      assert CallOk(s, c);
      assert ListenerOk(s, s.calls[c].listener);
      SameValues(s, t, s.calls[c].listener);
    }
  }

  lemma CallStepKeepsTotal(s: State, step: Step)
    requires Inv(s) && Enabled(s, step) && (step.Load? || step.Swap? || step.Add?)
    ensures var t := Apply(s, step);
            t.bytes + Sum(t.calls, Unadded) == t.initial + Sum(t.listeners, LastOf)
  {
    var t := Apply(s, step);
    assert CallOk(s, step.c);
    SumUpdate(s.calls, step.c, t.calls[step.c], Unadded);
    var l := s.calls[step.c].listener;
    SumUpdate(s.listeners, l, t.listeners[l], LastOf);
    assert t.listeners == s.listeners[l := t.listeners[l]];
  }

  lemma StepKeepsInv(s: State, step: Step)
    requires Inv(s) && Enabled(s, step)
    ensures Inv(Apply(s, step))
  {
    if step.Register? || step.Invoke? {
      OpeningKeepsInv(s, step);
    } else {
      CallStepKeepsListeners(s, step);
      CallStepKeepsCalls(s, step);
      CallStepKeepsTotal(s, step);
    }
  }

  lemma {:induction false} RunKeepsInv(s: State, run: seq<Step>)
    requires Inv(s) && IsRun(s, run)
    ensures Inv(After(s, run))
    decreases |run|
  {
    if run != [] {
      StepKeepsInv(s, run[0]);
      RunKeepsInv(Apply(s, run[0]), run[1..]);
    }
  }
}
