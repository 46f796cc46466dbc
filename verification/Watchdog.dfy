/**
 The stall watchdog of internal/metrics/watchdog.go: a ticker-driven loop that counts a stall whenever
 prog.Bytes has not moved for a whole timeout while requests are in flight. Times are nanoseconds.
 */
module Watchdog {
  import opened Arithmetic

  /** What the loop sees when the ticker fires: its time stamp and the two counters. */
  datatype Tick = Tick(now: int, bytes: int, inFlight: int)

  /** The loop's local state. stalls lists the positions of the ticks counted as stalls. */
  datatype Memory = Memory(last: int, lastMove: int, stalls: seq<int>)

  predicate Stalled(timeout: int, m: Memory, t: Tick) {
    t.bytes == m.last && t.now - m.lastMove >= timeout && t.inFlight > 0
  }

  /** What the loop makes of tick k. */
  function Looked(timeout: int, m: Memory, t: Tick, k: nat): Memory {
    if t.bytes != m.last then m.(last := t.bytes, lastMove := t.now)
    else if Stalled(timeout, m, t) then m.(lastMove := t.now, stalls := m.stalls + [k])
    else m
  }

  /** The watchdog after the first k ticks, when it started at time `start` seeing `bytes`. */
  function Watched(timeout: int, start: int, bytes: int, ticks: seq<Tick>, k: nat): Memory
    requires k <= |ticks|
  {
    if k == 0 then Memory(bytes, start, [])
    else Looked(timeout, Watched(timeout, start, bytes, ticks, k - 1), ticks[k - 1], k - 1)
  }

  /** The positions of the ticks at which a watchdog with this timeout counts a stall; a timeout of 0 or less never does. */
  function Stalls(timeout: int, start: int, bytes: int, ticks: seq<Tick>): seq<int> {
    if timeout <= 0 then [] else Watched(timeout, start, bytes, ticks, |ticks|).stalls
  }

  class Watchdog {
    const timeout: int
    var stalls: int

    constructor (timeout: int)
      ensures this.timeout == timeout && stalls == 0
    {
      this.timeout, stalls := timeout, 0;
    }

    /** The goroutine of Start over the ticks it receives before it is stopped. */
    method Run(start: int, bytes: int, ticks: seq<Tick>)
      modifies this
      ensures stalls == old(stalls) + |Stalls(timeout, start, bytes, ticks)|
    {
      if timeout <= 0 {
        return;
      }
      var last, lastMove := bytes, start;
      for k := 0 to |ticks|
        invariant var m := Watched(timeout, start, bytes, ticks, k);
                  last == m.last && lastMove == m.lastMove && stalls == old(stalls) + |m.stalls|
      {
        var now, cur := ticks[k].now, ticks[k].bytes;
        if cur != last {
          last, lastMove := cur, now;
          continue;
        }
        if now - lastMove >= timeout && ticks[k].inFlight > 0 {
          stalls := stalls + 1;
          lastMove := now;
        }
      }
    }
  }

  /** The ticker period chosen by Start for a positive timeout. */
  function CheckPeriod(timeout: int): (check: int)
    requires timeout > 0
    ensures 0 < check <= timeout && (timeout >= 2 ==> 2 * check <= timeout < 2 * check + 2)
  {
    var check := timeout / 2;
    if check <= 0 then timeout else check
  }

  // ---------------------------------------------------------------- soundness

  /** A ticker's time stamps never go back. */
  predicate Ordered(ticks: seq<Tick>) {
    forall j, k :: 0 <= j < k < |ticks| ==> ticks[j].now <= ticks[k].now
  }

  /** The earliest time the watchdog knows of; the first tick may be stamped before the loop reads its start time. */
  function Origin(start: int, ticks: seq<Tick>): int {
    if ticks != [] && ticks[0].now < start then ticks[0].now else start
  }

  /** The time of observation k: 0 is what the loop reads when it starts, k the k-th tick. */
  function ObservedAt(start: int, ticks: seq<Tick>, k: nat): int
    requires k <= |ticks|
  {
    if k == 0 then start else ticks[k - 1].now
  }

  /** What observation k saw of the counter. */
  function Observed(bytes: int, ticks: seq<Tick>, k: nat): int
    requires k <= |ticks|
  {
    if k == 0 then bytes else ticks[k - 1].bytes
  }

  /** Observations a to k all saw the same value. */
  predicate Unchanged(bytes: int, ticks: seq<Tick>, a: nat, k: nat) {
    a <= k <= |ticks| && forall j: nat :: a <= j <= k ==> Observed(bytes, ticks, j) == Observed(bytes, ticks, k)
  }

  /**
   Requests were in flight at tick s, and from some observation at least a timeout before it up to tick s
   itself the counter was never seen to change.
   */
  predicate RealStall(timeout: int, start: int, bytes: int, ticks: seq<Tick>, s: int) {
    && 0 <= s < |ticks|
    && ticks[s].inFlight > 0
    && exists a: nat :: a <= s && ObservedAt(start, ticks, a) <= ticks[s].now - timeout && Unchanged(bytes, ticks, a, s + 1)
  }

  /** lastMove is the time of an observation since which the counter was only seen at last. */
  lemma {:induction false} KnownSince(timeout: int, start: int, bytes: int, ticks: seq<Tick>, k: nat) returns (a: nat)
    requires k <= |ticks|
    ensures var m := Watched(timeout, start, bytes, ticks, k);
            && a <= k && ObservedAt(start, ticks, a) == m.lastMove
            && Observed(bytes, ticks, k) == m.last && Unchanged(bytes, ticks, a, k)
  {
    a := k;
    if k > 0 {
      var m, t := Watched(timeout, start, bytes, ticks, k - 1), ticks[k - 1];
      if t.bytes == m.last && !Stalled(timeout, m, t) {
        a := KnownSince(timeout, start, bytes, ticks, k - 1);
      }
    }
  }

  lemma CountedIsReal(timeout: int, start: int, bytes: int, ticks: seq<Tick>, s: nat)
    requires s < |ticks| && Stalled(timeout, Watched(timeout, start, bytes, ticks, s), ticks[s])
    ensures RealStall(timeout, start, bytes, ticks, s)
  {
    var a := KnownSince(timeout, start, bytes, ticks, s);
    assert Unchanged(bytes, ticks, a, s + 1);
  }

  /** The a-th stall counted is real. */
  lemma {:induction false} StallIsReal(timeout: int, start: int, bytes: int, ticks: seq<Tick>, k: nat, a: nat)
    requires k <= |ticks| && a < |Watched(timeout, start, bytes, ticks, k).stalls|
    ensures RealStall(timeout, start, bytes, ticks, Watched(timeout, start, bytes, ticks, k).stalls[a])
    ensures Watched(timeout, start, bytes, ticks, k).stalls[a] < k
  {
    var before, t := Watched(timeout, start, bytes, ticks, k - 1), ticks[k - 1];
    if a < |before.stalls| {
      StallIsReal(timeout, start, bytes, ticks, k - 1, a);
    } else {
      CountedIsReal(timeout, start, bytes, ticks, k - 1);
    }
  }

  /** The stalls counted among the first k ticks are in order, a timeout apart, and none is after lastMove. */
  predicate Apart(timeout: int, ticks: seq<Tick>, m: Memory, k: nat) {
    && k <= |ticks|
    && (forall a :: 0 <= a < |m.stalls| ==> 0 <= m.stalls[a] < k && ticks[m.stalls[a]].now <= m.lastMove)
    && (forall a, b :: 0 <= a < b < |m.stalls| ==>
          m.stalls[a] < m.stalls[b] && ticks[m.stalls[b]].now - ticks[m.stalls[a]].now >= timeout)
  }

  lemma LookKeepsApart(timeout: int, ticks: seq<Tick>, m: Memory, k: nat)
    requires timeout > 0 && Ordered(ticks) && 0 < k <= |ticks| && Apart(timeout, ticks, m, k - 1)
    ensures Apart(timeout, ticks, Looked(timeout, m, ticks[k - 1], k - 1), k)
  {}

  lemma {:induction false} StallsAreApart(timeout: int, start: int, bytes: int, ticks: seq<Tick>, k: nat)
    requires timeout > 0 && Ordered(ticks) && k <= |ticks|
    ensures Apart(timeout, ticks, Watched(timeout, start, bytes, ticks, k), k)
  {
    if k > 0 {
      StallsAreApart(timeout, start, bytes, ticks, k - 1);
      LookKeepsApart(timeout, ticks, Watched(timeout, start, bytes, ticks, k - 1), k);
    }
  }

  lemma {:induction false} RoomForStalls(timeout: int, start: int, bytes: int, ticks: seq<Tick>, k: nat)
    requires timeout > 0 && Ordered(ticks) && k <= |ticks|
    ensures var m := Watched(timeout, start, bytes, ticks, k);
            && |m.stalls| * timeout <= m.lastMove - Origin(start, ticks)
            && (m.stalls != [] ==> k > 0 && m.lastMove <= ticks[k - 1].now)
  {
    if k > 0 {
      RoomForStalls(timeout, start, bytes, ticks, k - 1);
      var before, m := Watched(timeout, start, bytes, ticks, k - 1), Watched(timeout, start, bytes, ticks, k);
      assert Origin(start, ticks) <= ticks[k - 1].now;
      if m.stalls != before.stalls {
        assert |m.stalls| * timeout == |before.stalls| * timeout + timeout;
      } else if before.stalls != [] {
        assert ticks[k - 2].now <= ticks[k - 1].now;
      }
    }
  }

  /**
   Every stall counted is real: nothing was seen to move for a whole timeout and requests were in flight.
   Counted stalls are at least a timeout apart, so there are at most elapsed / timeout of them.
   */
  lemma StallsAreReal(timeout: int, start: int, bytes: int, ticks: seq<Tick>)
    requires Ordered(ticks)
    ensures var stalls := Stalls(timeout, start, bytes, ticks);
            && (forall a :: 0 <= a < |stalls| ==> RealStall(timeout, start, bytes, ticks, stalls[a]))
            && (forall a, b :: 0 <= a < b < |stalls| ==>
                  stalls[a] < stalls[b] && ticks[stalls[b]].now - ticks[stalls[a]].now >= timeout)
            && (stalls != [] ==> |stalls| * timeout <= ticks[|ticks| - 1].now - Origin(start, ticks))
  {
    if timeout > 0 {
      StallsAreApart(timeout, start, bytes, ticks, |ticks|);
      var stalls := Stalls(timeout, start, bytes, ticks);
      forall a: nat | a < |stalls| ensures RealStall(timeout, start, bytes, ticks, stalls[a]) {
        StallIsReal(timeout, start, bytes, ticks, |ticks|, a);
      }
      RoomForStalls(timeout, start, bytes, ticks, |ticks|);
    }
  }

  // ---------------------------------------------------------------- exactly which ticks

  /** The tick with which the clock of the next stall started, if it is not the start: one that saw a move, or a stall. */
  predicate Restarts(bytes: int, ticks: seq<Tick>, stalls: seq<int>, c: int) {
    0 <= c < |ticks| && (Observed(bytes, ticks, c + 1) != Observed(bytes, ticks, c) || c in stalls)
  }

  /** lastMove is the start, or the time of a tick that saw a move or was counted; ticks with nothing in flight leave it alone. */
  lemma {:induction false} LastMoveFrom(timeout: int, start: int, bytes: int, ticks: seq<Tick>, k: nat) returns (c: int)
    requires k <= |ticks|
    ensures var m := Watched(timeout, start, bytes, ticks, k);
            || (c < 0 && m.lastMove == start)
            || (0 <= c < k && m.lastMove == ticks[c].now && Restarts(bytes, ticks, m.stalls, c))
  {
    c := -1;
    if k > 0 {
      c := LastMoveFrom(timeout, start, bytes, ticks, k - 1);
      var a := KnownSince(timeout, start, bytes, ticks, k - 1);
      var m, t := Watched(timeout, start, bytes, ticks, k - 1), ticks[k - 1];
      assert Watched(timeout, start, bytes, ticks, k) == Looked(timeout, m, t, k - 1);
      if t.bytes != m.last {
        assert Observed(bytes, ticks, k) != Observed(bytes, ticks, k - 1);
        c := k - 1;
      } else if Stalled(timeout, m, t) {
        c := k - 1;
      }
    }
  }

  /** The stalls counted first are not forgotten, and those counted later are later ticks. */
  lemma {:induction false} CountedByThen(timeout: int, start: int, bytes: int, ticks: seq<Tick>, s: nat, k: nat)
    requires s < k <= |ticks|
    ensures var now, later := Watched(timeout, start, bytes, ticks, s), Watched(timeout, start, bytes, ticks, k);
            && (forall c :: c in now.stalls ==> 0 <= c < s)
            && (forall c :: c < s ==> (c in later.stalls <==> c in now.stalls))
            && (s in later.stalls <==> Stalled(timeout, now, ticks[s]))
    decreases k
  {
    StallsBefore(timeout, start, bytes, ticks, s);
    var m := Watched(timeout, start, bytes, ticks, k - 1);
    assert Watched(timeout, start, bytes, ticks, k) == Looked(timeout, m, ticks[k - 1], k - 1);
    if s < k - 1 {
      CountedByThen(timeout, start, bytes, ticks, s, k - 1);
    }
  }

  lemma {:induction false} StallsBefore(timeout: int, start: int, bytes: int, ticks: seq<Tick>, k: nat)
    requires k <= |ticks|
    ensures forall c :: c in Watched(timeout, start, bytes, ticks, k).stalls ==> 0 <= c < k
  {
    if k > 0 {
      StallsBefore(timeout, start, bytes, ticks, k - 1);
      assert Watched(timeout, start, bytes, ticks, k)
             == Looked(timeout, Watched(timeout, start, bytes, ticks, k - 1), ticks[k - 1], k - 1);
    }
  }

  lemma MovedBefore(bytes: int, ticks: seq<Tick>, a: nat, k: nat, c: nat)
    requires Unchanged(bytes, ticks, a, k) && c < k && Observed(bytes, ticks, c + 1) != Observed(bytes, ticks, c)
    ensures c < a
  {}

  /** A real stall is counted unless the timeout since an earlier counted one is not over. */
  lemma RealIsStalled(timeout: int, start: int, bytes: int, ticks: seq<Tick>, s: nat)
    requires Ordered(ticks) && s < |ticks| && start <= ticks[0].now
    requires RealStall(timeout, start, bytes, ticks, s)
    requires forall c :: c in Watched(timeout, start, bytes, ticks, s).stalls ==> 0 <= c < s && ticks[c].now <= ticks[s].now - timeout
    ensures Stalled(timeout, Watched(timeout, start, bytes, ticks, s), ticks[s])
  {
    var a: nat :| a <= s && ObservedAt(start, ticks, a) <= ticks[s].now - timeout && Unchanged(bytes, ticks, a, s + 1);
    var known := KnownSince(timeout, start, bytes, ticks, s);
    assert Observed(bytes, ticks, s) == Observed(bytes, ticks, s + 1);
    var c := LastMoveFrom(timeout, start, bytes, ticks, s);
    if c < 0 {
      assert a > 0 ==> ticks[0].now <= ticks[a - 1].now;
    } else if c !in Watched(timeout, start, bytes, ticks, s).stalls {
      MovedBefore(bytes, ticks, a, s + 1, c);
      assert ticks[c].now <= ticks[a - 1].now;
    }
  }

  /**
   The exact condition, for ticks in order that do not come before the start: a tick is counted if and only
   if it is a real stall and no tick counted before it is less than a timeout old. Ticks with nothing in
   flight may lie in between; they neither count nor restart anything.
   */
  lemma CountedExactlyIf(timeout: int, start: int, bytes: int, ticks: seq<Tick>, s: nat)
    requires timeout > 0 && Ordered(ticks) && s < |ticks| && start <= ticks[0].now
    ensures var stalls := Stalls(timeout, start, bytes, ticks);
            s in stalls <==>
            && RealStall(timeout, start, bytes, ticks, s)
            && forall c :: c in stalls && c < s ==> 0 <= c && ticks[c].now <= ticks[s].now - timeout
  {
    var now, stalls := Watched(timeout, start, bytes, ticks, s), Stalls(timeout, start, bytes, ticks);
    CountedByThen(timeout, start, bytes, ticks, s, |ticks|);
    if s in stalls {
      CountedIsReal(timeout, start, bytes, ticks, s);
      StallsAreApart(timeout, start, bytes, ticks, s);
      forall c | c in stalls && c < s ensures 0 <= c && ticks[c].now <= ticks[s].now - timeout {
        var a :| 0 <= a < |now.stalls| && now.stalls[a] == c;
      }
    } else if RealStall(timeout, start, bytes, ticks, s)
              && forall c :: c in stalls && c < s ==> 0 <= c && ticks[c].now <= ticks[s].now - timeout {
      RealIsStalled(timeout, start, bytes, ticks, s);
    }
  }

  // ---------------------------------------------------------------- completeness

  /** Ticks a to b - 1 all see the value already known, with requests in flight, and come at most `gap` apart. */
  predicate Frozen(timeout: int, start: int, bytes: int, ticks: seq<Tick>, a: nat, b: nat, gap: int) {
    && a < b <= |ticks|
    && (forall j :: a <= j < b ==> ticks[j].bytes == Watched(timeout, start, bytes, ticks, a).last && ticks[j].inFlight > 0)
    && (forall j :: a < j < b ==> ticks[j].now <= ticks[j - 1].now + gap)
  }

  function Later(a: int, b: int): int {
    if a < b then b else a
  }

  /** When the window of frozen ticks opens: at lastMove, or one gap before its first tick if that came long after. */
  function Opening(timeout: int, start: int, bytes: int, ticks: seq<Tick>, a: nat, gap: int): int
    requires a < |ticks|
  {
    Later(Watched(timeout, start, bytes, ticks, a).lastMove, ticks[a].now - gap)
  }

  /** The stalls counted at ticks a to b - 1. */
  function Counted(timeout: int, start: int, bytes: int, ticks: seq<Tick>, a: nat, b: nat): int
    requires a <= b <= |ticks|
  {
    |Watched(timeout, start, bytes, ticks, b).stalls| - |Watched(timeout, start, bytes, ticks, a).stalls|
  }

  lemma {:induction false} FrozenSoFar(timeout: int, start: int, bytes: int, ticks: seq<Tick>, a: nat, b: nat, gap: int)
    requires timeout > 0 && gap >= 0 && Frozen(timeout, start, bytes, ticks, a, b, gap)
    ensures var t, counted := Watched(timeout, start, bytes, ticks, b), Counted(timeout, start, bytes, ticks, a, b);
            && t.last == Watched(timeout, start, bytes, ticks, a).last && counted >= 0
            && t.lastMove - Opening(timeout, start, bytes, ticks, a, gap) <= counted * (timeout + gap)
            && ticks[b - 1].now - t.lastMove < timeout
    decreases b
  {
    if a + 1 < b {
      FrozenSoFar(timeout, start, bytes, ticks, a, b - 1, gap);
      var before := Watched(timeout, start, bytes, ticks, b - 1);
      if Stalled(timeout, before, ticks[b - 1]) {
        OneMore(Counted(timeout, start, bytes, ticks, a, b - 1), timeout + gap);
        assert ticks[b - 1].now - before.lastMove <= timeout + gap;
      }
    }
  }

  /**
   No long stall is missed: while the ticks see a frozen counter with requests in flight, the stalls
   counted over a window number more than (window - timeout) / (timeout + gap), hence at least
   window / (timeout + gap); StallsAreReal bounds them by window / timeout from above. The window starts
   at lastMove whenever the first of the ticks comes within a gap of it.
   */
  lemma LongStallsAreCounted(timeout: int, start: int, bytes: int, ticks: seq<Tick>, a: nat, b: nat, gap: int)
    requires timeout > 0 && gap >= 0 && Frozen(timeout, start, bytes, ticks, a, b, gap)
    ensures var window := ticks[b - 1].now - Opening(timeout, start, bytes, ticks, a, gap);
            var counted := Counted(timeout, start, bytes, ticks, a, b);
            window - timeout < counted * (timeout + gap) && window / (timeout + gap) <= counted
    ensures var lastMove := Watched(timeout, start, bytes, ticks, a).lastMove;
            ticks[a].now <= lastMove + gap ==> Opening(timeout, start, bytes, ticks, a, gap) == lastMove
  {
    FrozenSoFar(timeout, start, bytes, ticks, a, b, gap);
    var counted := Counted(timeout, start, bytes, ticks, a, b);
    OneMore(counted, timeout + gap);
    FloorAtMost(ticks[b - 1].now - Opening(timeout, start, bytes, ticks, a, gap), counted, timeout + gap);
  }

  lemma {:induction false} MoveNoLaterThanTick(timeout: int, start: int, bytes: int, ticks: seq<Tick>, k: nat)
    requires Ordered(ticks) && 0 < k <= |ticks|
    ensures Watched(timeout, start, bytes, ticks, k).lastMove <= Later(start, ticks[k - 1].now)
  {
    if k > 1 {
      MoveNoLaterThanTick(timeout, start, bytes, ticks, k - 1);
      assert ticks[k - 2].now <= ticks[k - 1].now;
    }
  }

  // ---------------------------------------------------------------- how long a freeze may go unreported

  /**
   A run of the watchdog together with the counter it samples, as a function of time. The loop reads the
   counter for the first time at `read` and the clock, just after that, at `start`.
   */
  datatype History = History(read: int, start: int, bytes: int, ticks: seq<Tick>, counter: int -> int)

  /** The loop sees the counter's true values, and ticks come at most one check period apart from the creation of the ticker on. */
  ghost predicate Sampled(h: History, timeout: int)
    requires timeout > 0
  {
    && h.read <= h.start && h.bytes == h.counter(h.read)
    && Ordered(h.ticks)
    && (forall j :: 0 <= j < |h.ticks| ==> h.ticks[j].bytes == h.counter(h.ticks[j].now))
    && (h.ticks != [] ==> h.ticks[0].now <= h.read + CheckPeriod(timeout))
    && (forall j :: 0 < j < |h.ticks| ==> h.ticks[j].now <= h.ticks[j - 1].now + CheckPeriod(timeout))
  }

  /** The time of the tick after the first b ones, or when it is due if the watchdog stops before it. */
  function NextTick(h: History, timeout: int, b: nat): int
    requires timeout > 0 && b <= |h.ticks|
  {
    if b < |h.ticks| then h.ticks[b].now else CheckPeriod(timeout) + if b > 0 then h.ticks[b - 1].now else h.read
  }

  /**
   The counter does not move from time x to time y, while the watchdog is running; a to b - 1 are the
   ticks in that time, and all of them find requests in flight. They may be the very first ones, and
   the last ones too: the freeze may still go on when the watchdog stops.
   */
  ghost predicate FrozenDuring(h: History, timeout: int, x: int, y: int, a: nat, b: nat)
    requires timeout > 0
  {
    && h.start <= x && a <= b <= |h.ticks|
    && (a > 0 ==> h.ticks[a - 1].now < x) && y < NextTick(h, timeout, b)
    && (forall t :: x <= t <= y ==> h.counter(t) == h.counter(x))
    && (forall j :: a <= j < b ==> x <= h.ticks[j].now <= y && h.ticks[j].inFlight > 0)
  }

  /** Some tick in the window counts a stall. */
  predicate Reported(h: History, timeout: int, a: nat, b: nat)
    requires a <= b <= |h.ticks|
  {
    Counted(timeout, h.start, h.bytes, h.ticks, a, b) >= 1
  }

  lemma WindowIsReported(h: History, timeout: int, a: nat, b: nat, origin: int)
    requires timeout > 0 && Frozen(timeout, h.start, h.bytes, h.ticks, a, b, CheckPeriod(timeout))
    requires Opening(timeout, h.start, h.bytes, h.ticks, a, CheckPeriod(timeout)) <= origin
    requires h.ticks[b - 1].now - origin >= timeout
    ensures Reported(h, timeout, a, b)
  {
    LongStallsAreCounted(timeout, h.start, h.bytes, h.ticks, a, b, CheckPeriod(timeout));
    var counted := Counted(timeout, h.start, h.bytes, h.ticks, a, b);
    if counted <= 0 {
      MultipliesOrdered(counted, 0, timeout + CheckPeriod(timeout));
    }
  }

  /**
   The first tick of a freeze comes less than a check period into it, unless the freeze begins with the
   watchdog, which then already knows the frozen value.
   */
  lemma NoticedInTime(h: History, timeout: int, x: int, y: int, a: nat, b: nat)
    requires timeout > 0 && Sampled(h, timeout) && FrozenDuring(h, timeout, x, y, a, b)
    requires a < |h.ticks|
    ensures h.ticks[a].now <= x + CheckPeriod(timeout)
    ensures h.ticks[a].now < x + CheckPeriod(timeout) || (a == 0 && h.bytes == h.counter(x))
    ensures Watched(timeout, h.start, h.bytes, h.ticks, a).lastMove <= x
  {
    if a > 0 {
      MoveNoLaterThanTick(timeout, h.start, h.bytes, h.ticks, a);
    }
  }

  lemma SeesFrozenValue(h: History, timeout: int, x: int, y: int, a: nat, b: nat, j: nat)
    requires timeout > 0 && Sampled(h, timeout) && FrozenDuring(h, timeout, x, y, a, b) && a <= j < b
    ensures h.ticks[j].bytes == h.counter(x)
  {
    assert h.counter(h.ticks[j].now) == h.counter(x);
  }

  /** A freeze this long cannot escape the ticks: at most a check period passes before it is noticed, and one more after the timeout. */
  lemma LongFreezeIsReported(h: History, timeout: int, x: int, y: int, a: nat, b: nat)
    requires timeout > 0 && Sampled(h, timeout) && FrozenDuring(h, timeout, x, y, a, b)
    requires y - x >= timeout + 2 * CheckPeriod(timeout) - 2
    ensures Reported(h, timeout, a, b)
  {
    var ticks, gap := h.ticks, CheckPeriod(timeout);
    assert a < |ticks|;
    NoticedInTime(h, timeout, x, y, a, b);
    assert a < b;
    assert NextTick(h, timeout, b) <= ticks[b - 1].now + gap;
    forall j: nat | a <= j < b ensures ticks[j].bytes == h.counter(x) {
      SeesFrozenValue(h, timeout, x, y, a, b, j);
    }
    if Watched(timeout, h.start, h.bytes, ticks, a).last == h.counter(x) {
      WindowIsReported(h, timeout, a, b, x);
    } else {
      assert Watched(timeout, h.start, h.bytes, ticks, a + 1).lastMove == ticks[a].now;
      assert a + 1 < b;
      WindowIsReported(h, timeout, a + 1, b, ticks[a].now);
    }
  }

  /** The counter of an unlucky history: it moves one nanosecond after a tick, and again just as the timeout would expire. */
  function StepsAt(first: int, second: int): int -> int {
    (t: int) => if t < first then 0 else if t < second then 1 else 2
  }

  /** The last moment before that timeout would expire. */
  function JustBefore(timeout: int): int
    requires timeout > 0
  {
    CheckPeriod(timeout) + timeout - 1
  }

  function Unlucky(timeout: int): History
    requires timeout > 0
  {
    var g := CheckPeriod(timeout);
    var middle := if 2 * g < JustBefore(timeout) then 2 * g else JustBefore(timeout);
    var end := JustBefore(timeout) + g;
    History(0, 0, 0,
            [Tick(0, 0, 1), Tick(g, 1, 1), Tick(middle, 1, 1), Tick(JustBefore(timeout), 1, 1), Tick(end, 2, 1)],
            StepsAt(1, end))
  }

  lemma UnluckyIsUnreported(timeout: int)
    requires timeout > 0
    ensures Sampled(Unlucky(timeout), timeout)
    ensures forall a, b :: 0 <= a <= b <= 5 ==> !Reported(Unlucky(timeout), timeout, a, b)
  {
    var h, g := Unlucky(timeout), CheckPeriod(timeout);
    var ticks := h.ticks;
    assert Watched(timeout, 0, 0, ticks, 1) == Memory(0, 0, []);
    assert Watched(timeout, 0, 0, ticks, 2) == Memory(1, g, []);
    assert Watched(timeout, 0, 0, ticks, 3) == Memory(1, g, []);
    assert Watched(timeout, 0, 0, ticks, 4) == Memory(1, g, []);
    assert Watched(timeout, 0, 0, ticks, 5).stalls == [];
  }

  /** The unlucky history is frozen from time 1 to just before its end. */
  lemma UnluckyIsFrozen(timeout: int, length: int) returns (b: nat)
    requires timeout > 0 && 0 <= length < timeout + 2 * CheckPeriod(timeout) - 2
    ensures FrozenDuring(Unlucky(timeout), timeout, 1, 1 + length, 1, b) && b <= 4
  {
    var ticks := Unlucky(timeout).ticks;
    b := if 1 + length < ticks[1].now then 1 else if 1 + length < ticks[2].now then 2
         else if 1 + length < ticks[3].now then 3 else 4;
  }

  /**
   The exact threshold. The watchdog's comment promises a warning whenever nothing moves for longer
   than the timeout; a freeze is certain to be reported if and only if it lasts at least
   timeout + 2 * check - 2 nanoseconds, about twice the timeout.
   */
  lemma CertainToBeReported(timeout: int, length: int)
    requires timeout > 0 && length >= 0
    ensures
      (forall h, x, y, a, b ::
         Sampled(h, timeout) && FrozenDuring(h, timeout, x, y, a, b) && y - x >= length ==> Reported(h, timeout, a, b))
      <==> length >= timeout + 2 * CheckPeriod(timeout) - 2
  {
    if length >= timeout + 2 * CheckPeriod(timeout) - 2 {
      forall h, x, y, a, b | Sampled(h, timeout) && FrozenDuring(h, timeout, x, y, a, b) && y - x >= length
        ensures Reported(h, timeout, a, b)
      {
        LongFreezeIsReported(h, timeout, x, y, a, b);
      }
    } else {
      UnluckyIsUnreported(timeout);
      var b := UnluckyIsFrozen(timeout, length);
      assert !Reported(Unlucky(timeout), timeout, 1, b);
    }
  }

  // ---------------------------------------------------------------- a ticker that is never late or early

  /** After how many check periods the timeout is over. */
  function Periods(timeout: int): (k: nat)
    requires timeout > 0
    ensures 1 <= k <= 3 && (k - 1) * CheckPeriod(timeout) < timeout <= k * CheckPeriod(timeout)
    ensures timeout % 2 == 0 ==> k == 2 && timeout == 2 * CheckPeriod(timeout)
  {
    if timeout == 1 then 1 else if timeout % 2 == 0 then 2 else 3
  }

  /** Ticks come exactly one check period apart. */
  ghost predicate Regular(h: History, timeout: int)
    requires timeout > 0
  {
    Sampled(h, timeout) && forall j :: 0 < j < |h.ticks| ==> h.ticks[j].now == h.ticks[j - 1].now + CheckPeriod(timeout)
  }

  lemma {:induction false} RegularSpacing(h: History, timeout: int, i: nat, j: nat)
    requires timeout > 0 && Regular(h, timeout) && i <= j < |h.ticks|
    ensures h.ticks[j].now == h.ticks[i].now + (j - i) * CheckPeriod(timeout)
    decreases j
  {
    if i < j {
      RegularSpacing(h, timeout, i, j - 1);
      OneMore(j - 1 - i, CheckPeriod(timeout));
    }
  }

  /** Without a stall lastMove stays, and the timeout after it is not over. */
  lemma {:induction false} UncountedStays(timeout: int, start: int, bytes: int, ticks: seq<Tick>, a: nat, b: nat, gap: int)
    requires timeout > 0 && gap >= 0 && Frozen(timeout, start, bytes, ticks, a, b, gap)
    requires Counted(timeout, start, bytes, ticks, a, b) <= 0
    ensures Watched(timeout, start, bytes, ticks, b).lastMove == Watched(timeout, start, bytes, ticks, a).lastMove
    ensures ticks[b - 1].now - Watched(timeout, start, bytes, ticks, a).lastMove < timeout
    decreases b
  {
    FrozenSoFar(timeout, start, bytes, ticks, a, b, gap);
    if a + 1 < b {
      FrozenSoFar(timeout, start, bytes, ticks, a, b - 1, gap);
      UncountedStays(timeout, start, bytes, ticks, a, b - 1, gap);
    }
  }

  lemma FewPeriods(h: History, timeout: int, i: nat, j: nat)
    requires timeout > 0 && Regular(h, timeout) && i <= j < |h.ticks| && h.ticks[j].now - h.ticks[i].now < timeout
    ensures h.ticks[j].now <= h.ticks[i].now + (Periods(timeout) - 1) * CheckPeriod(timeout)
  {
    RegularSpacing(h, timeout, i, j);
    if j - i >= Periods(timeout) {
      MultipliesOrdered(Periods(timeout), j - i, CheckPeriod(timeout));
    } else {
      MultipliesOrdered(j - i, Periods(timeout) - 1, CheckPeriod(timeout));
    }
  }

  /** The freeze was already known at its first tick: only the timeout has to pass. */
  lemma KnownFreezeIsReported(h: History, timeout: int, x: int, y: int, a: nat, b: nat)
    requires timeout > 0 && Regular(h, timeout) && FrozenDuring(h, timeout, x, y, a, b) && a < b
    requires Watched(timeout, h.start, h.bytes, h.ticks, a).last == h.counter(x)
    requires y - x >= timeout + CheckPeriod(timeout) - 1
    ensures Reported(h, timeout, a, b)
  {
    NoticedInTime(h, timeout, x, y, a, b);
    forall j: nat | a <= j < b ensures h.ticks[j].bytes == h.counter(x) {
      SeesFrozenValue(h, timeout, x, y, a, b, j);
    }
    assert NextTick(h, timeout, b) <= h.ticks[b - 1].now + CheckPeriod(timeout);
    if !Reported(h, timeout, a, b) {
      UncountedStays(timeout, h.start, h.bytes, h.ticks, a, b, CheckPeriod(timeout));
      assert false;
    }
  }

  /** The freeze is noticed at its first tick, as a move: from there on the periods count. */
  lemma NewFreezeIsReported(h: History, timeout: int, x: int, y: int, a: nat, b: nat)
    requires timeout > 0 && Regular(h, timeout) && FrozenDuring(h, timeout, x, y, a, b) && a < b
    requires Watched(timeout, h.start, h.bytes, h.ticks, a).last != h.counter(x)
    requires y - x >= (Periods(timeout) - 1) * CheckPeriod(timeout) + 2 * CheckPeriod(timeout) - 1
    ensures Reported(h, timeout, a, b)
  {
    var ticks, gap := h.ticks, CheckPeriod(timeout);
    NoticedInTime(h, timeout, x, y, a, b);
    forall j: nat | a <= j < b ensures ticks[j].bytes == h.counter(x) {
      SeesFrozenValue(h, timeout, x, y, a, b, j);
    }
    assert NextTick(h, timeout, b) <= ticks[b - 1].now + gap;
    assert Watched(timeout, h.start, h.bytes, ticks, a + 1).lastMove == ticks[a].now;
    if !Reported(h, timeout, a, b) {
      if a + 1 < b {
        UncountedStays(timeout, h.start, h.bytes, ticks, a + 1, b, gap);
      }
      FewPeriods(h, timeout, a, b - 1);
      assert false;
    }
  }

  /** With regular ticks the freeze that escapes longest begins just after a tick and ends just before the one that would report it. */
  lemma RegularFreezeIsReported(h: History, timeout: int, x: int, y: int, a: nat, b: nat)
    requires timeout > 0 && Regular(h, timeout) && FrozenDuring(h, timeout, x, y, a, b)
    requires y - x >= (Periods(timeout) + 1) * CheckPeriod(timeout) - 1
    ensures Reported(h, timeout, a, b)
  {
    OneMore(Periods(timeout), CheckPeriod(timeout));
    OneMore(Periods(timeout) - 1, CheckPeriod(timeout));
    assert a < |h.ticks|;
    NoticedInTime(h, timeout, x, y, a, b);
    assert a < b;
    if Watched(timeout, h.start, h.bytes, h.ticks, a).last == h.counter(x) {
      KnownFreezeIsReported(h, timeout, x, y, a, b);
    } else {
      NewFreezeIsReported(h, timeout, x, y, a, b);
    }
  }

  /** When the regular watchdog would report what it first sees at one check period. */
  function ReportTime(timeout: int): int
    requires timeout > 0
  {
    var g := CheckPeriod(timeout);
    match Periods(timeout)
    case 1 => 2 * g
    case 2 => 3 * g
    case _ => 4 * g
  }

  lemma ReportTimeIsProduct(timeout: int)
    requires timeout > 0
    ensures ReportTime(timeout) == (Periods(timeout) + 1) * CheckPeriod(timeout)
  {}

  /** The counter moves just after the start and again at the time of the report. */
  function UnluckyRegular(timeout: int): History
    requires timeout > 0
  {
    var g, counter := CheckPeriod(timeout), StepsAt(1, ReportTime(timeout));
    History(0, 0, 0,
            [Tick(g, counter(g), 1), Tick(2 * g, counter(2 * g), 1), Tick(3 * g, counter(3 * g), 1), Tick(4 * g, counter(4 * g), 1)],
            counter)
  }

  lemma UnluckyRegularIsUnreported(timeout: int, b: nat)
    requires timeout > 0 && b <= Periods(timeout)
    ensures !Reported(UnluckyRegular(timeout), timeout, 0, b)
  {
    var g, ticks := CheckPeriod(timeout), UnluckyRegular(timeout).ticks;
    assert Watched(timeout, 0, 0, ticks, 0) == Memory(0, 0, []);
    assert Watched(timeout, 0, 0, ticks, 1) == Memory(1, g, []);
    if Periods(timeout) >= 2 {
      assert Watched(timeout, 0, 0, ticks, 2) == Memory(1, g, []);
    }
    if Periods(timeout) >= 3 {
      assert Watched(timeout, 0, 0, ticks, 3) == Memory(1, g, []);
    }
  }

  lemma UnluckyRegularIsRegular(timeout: int)
    requires timeout > 0
    ensures Regular(UnluckyRegular(timeout), timeout)
  {}

  lemma UnluckyRegularIsFrozen(timeout: int, length: int) returns (b: nat)
    requires timeout > 0 && 0 <= length < ReportTime(timeout) - 1
    ensures FrozenDuring(UnluckyRegular(timeout), timeout, 1, 1 + length, 0, b) && b <= Periods(timeout)
  {
    var g := CheckPeriod(timeout);
    b := if 1 + length < g then 0 else if 1 + length < 2 * g then 1 else if 1 + length < 3 * g then 2 else 3;
  }

  /**
   The exact threshold for a ticker that keeps its period: the check periods that cover the timeout and
   one more, less a nanosecond. For an even timeout this is timeout + check - 1.
   */
  lemma CertainForRegularTicker(timeout: int, length: int)
    requires timeout > 0 && length >= 0
    ensures
      (forall h, x, y, a, b ::
         Regular(h, timeout) && FrozenDuring(h, timeout, x, y, a, b) && y - x >= length ==> Reported(h, timeout, a, b))
      <==> length >= (Periods(timeout) + 1) * CheckPeriod(timeout) - 1
    ensures timeout % 2 == 0 ==> (Periods(timeout) + 1) * CheckPeriod(timeout) - 1 == timeout + CheckPeriod(timeout) - 1
  {
    ReportTimeIsProduct(timeout);
    if length >= (Periods(timeout) + 1) * CheckPeriod(timeout) - 1 {
      forall h, x, y, a, b | Regular(h, timeout) && FrozenDuring(h, timeout, x, y, a, b) && y - x >= length
        ensures Reported(h, timeout, a, b)
      {
        RegularFreezeIsReported(h, timeout, x, y, a, b);
      }
    } else {
      UnluckyRegularIsRegular(timeout);
      var b := UnluckyRegularIsFrozen(timeout, length);
      UnluckyRegularIsUnreported(timeout, b);
    }
  }
}
