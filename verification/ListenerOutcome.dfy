/** What the lock-free listeners guarantee, for any number of objects, callers and interleavings. */
module ListenerOutcome {
  import opened ProgressListener
  import opened Arithmetic
  import opened Sums

  ghost predicate Reached(bytes: int, run: seq<Step>, s: State) {
    IsRun(Start(bytes), run) && s == After(Start(bytes), run)
  }

  lemma {:induction false} InitialStays(s: State, run: seq<Step>)
    requires IsRun(s, run)
    ensures After(s, run).initial == s.initial
    decreases |run|
  {
    if run != [] {
      InitialStays(Apply(s, run[0]), run[1..]);
    }
  }

  lemma ReachedInv(bytes: int, run: seq<Step>, s: State)
    requires Reached(bytes, run, s)
    ensures Inv(s) && s.initial == bytes
  {
    RunKeepsInv(Start(bytes), run);
    InitialStays(Start(bytes), run);
  }

  /**
   Nothing is lost or counted twice: the shared total plus the deltas won but not yet added is the
   initial value plus all listeners' maxima, so the total never runs ahead of them.
   */
  lemma Conservation(bytes: int, run: seq<Step>, s: State)
    requires Reached(bytes, run, s)
    ensures s.bytes + Sum(s.calls, Unadded) == bytes + Sum(s.listeners, LastOf)
    ensures s.bytes <= bytes + Sum(s.listeners, LastOf)
  {
    ReachedInv(bytes, run, s);
    forall c | 0 <= c < |s.calls| ensures Unadded(s.calls[c]) >= 0 {
      assert CallOk(s, c);
    }
    SumNotNegative(s.calls, Unadded);
  }

  // ---------------------------------------------------------------- what the callers reported

  /** The largest value reported to listener l, or 0 when none was positive. */
  function Largest(calls: seq<Call>, l: int): (m: int)
    ensures m >= 0
    ensures forall c :: 0 <= c < |calls| && calls[c].listener == l ==> calls[c].value <= m
    ensures m == 0 || exists c :: 0 <= c < |calls| && calls[c].listener == l && calls[c].value == m
  {
    if calls == [] then 0
    else
      var rest, last := Largest(calls[..|calls| - 1], l), calls[|calls| - 1];
      if last.listener == l && last.value > rest then last.value else rest
  }

  predicate Quiet(s: State) {
    forall c :: 0 <= c < |s.calls| ==> s.calls[c].pc.Finished?
  }

  /** The largest counts reported to the listeners. */
  function Reported(s: State): seq<int> {
    seq(|s.listeners|, l => Largest(s.calls, l))
  }

  lemma QuietListener(s: State, l: int)
    requires Inv(s) && Quiet(s) && 0 <= l < |s.listeners|
    ensures s.listeners[l].last == Largest(s.calls, l)
  {
    assert ListenerOk(s, l);
    var m := Largest(s.calls, l);
    if m > 0 {
      var c :| 0 <= c < |s.calls| && s.calls[c].listener == l && s.calls[c].value == m;
      assert CallOk(s, c);
    }
    assert ValueAfter(s, l, 0) <= s.listeners[l].last;
  }

  lemma QuietState(s: State)
    requires Inv(s) && Quiet(s)
    ensures forall l :: 0 <= l < |s.listeners| ==> s.listeners[l].last == Largest(s.calls, l)
    ensures s.bytes == s.initial + Sum(Reported(s), Itself)
  {
    forall l | 0 <= l < |s.listeners| ensures s.listeners[l].last == Largest(s.calls, l) {
      QuietListener(s, l);
    }
    SumBounds(s.calls, Unadded, 0, 0);
    SumCongruent(s.listeners, LastOf, Reported(s), Itself);
  }

  /** Once no invocation is under way, each listener has contributed exactly the largest count reported to it. */
  lemma QuietTotals(bytes: int, run: seq<Step>, s: State)
    requires Reached(bytes, run, s) && Quiet(s)
    ensures forall l :: 0 <= l < |s.listeners| ==> s.listeners[l].last == Largest(s.calls, l)
    ensures s.bytes == bytes + Sum(Reported(s), Itself)
  {
    ReachedInv(bytes, run, s);
    QuietState(s);
  }

  // ---------------------------------------------------------------- progress

  /** Neither a listener's maximum nor the shared total ever moves backwards. */
  lemma {:induction false} NeverBackwards(s: State, run: seq<Step>)
    requires Inv(s) && IsRun(s, run)
    ensures var t := After(s, run);
            && s.bytes <= t.bytes
            && |s.listeners| <= |t.listeners|
            && forall l :: 0 <= l < |s.listeners| ==> s.listeners[l].last <= t.listeners[l].last
    decreases |run|
  {
    if run != [] {
      var step := run[0];
      if step.Load? || step.Swap? || step.Add? {
        assert CallOk(s, step.c);
      }
      StepKeepsInv(s, step);
      NeverBackwards(Apply(s, step), run[1..]);
    }
  }

  /**
   A compare-and-swap about to be tried will fail exactly if another invocation's swap succeeded on
   the same listener since the load: equal values never hide a change.
   */
  lemma SwapFailsExactlyIfOvertaken(bytes: int, run: seq<Step>, s: State, c: int)
    requires Reached(bytes, run, s) && 0 <= c < |s.calls| && s.calls[c].pc.Swapping?
    ensures 0 <= s.calls[c].listener < |s.listeners|
    ensures var listener, pc := s.listeners[s.calls[c].listener], s.calls[c].pc;
            && 0 <= pc.seen <= |listener.winners|
            && (listener.last != pc.loaded <==> pc.seen < |listener.winners|)
            && c !in listener.winners
  {
    ReachedInv(bytes, run, s);
    assert CallOk(s, c);
    assert ListenerOk(s, s.calls[c].listener);
  }

  /** The invocation c takes its next step; every unfinished one always can. */
  predicate Moves(s: State, step: Step, c: int) {
    step in [Load(c), Swap(c), Add(c)] && Enabled(s, step)
  }

  /** Every invocation is wait-free: it can always move, and reporting v takes it at most 2 * max(0, v) + 3 actions and max(0, v) retries. */
  lemma BoundedWork(bytes: int, run: seq<Step>, s: State, c: int)
    requires Reached(bytes, run, s) && 0 <= c < |s.calls|
    ensures s.calls[c].retries <= AtLeastZero(s.calls[c].value)
    ensures s.calls[c].steps <= 2 * AtLeastZero(s.calls[c].value) + 3
    ensures !s.calls[c].pc.Finished? <==> exists step :: Moves(s, step, c)
  {
    ReachedInv(bytes, run, s);
    assert CallOk(s, c);
    match s.calls[c].pc
    case Loading => assert Moves(s, Load(c), c);
    case Swapping(_, _) => assert Moves(s, Swap(c), c);
    case Adding(_) => assert Moves(s, Add(c), c);
    case Finished =>
  }
}
