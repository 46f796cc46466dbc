/**
 The source-address rotation of internal/s3client/client.go, newDialer: concurrent dials draw tickets
 from one atomic 64-bit counter and index the local addresses with them.
 */
module SourceDialer {
  import opened Arithmetic
  import opened Rotation
  import opened Sums

  const WRAP := 0x1_0000_0000_0000_0000

  datatype Dial =
    | Beginning
    | Ticketed(ticket: nat)             // the atomic add is done
    | Bound(ticket: nat, slot: nat)     // and the address is chosen
    | Unbound                           // there are no local addresses

  /** addresses is the number of local addresses; initial and taken are history: the counter at the start and the adds since. */
  datatype State = State(addresses: nat, li: nat, dials: seq<Dial>, initial: nat, taken: nat)

  datatype Step = Begin | Draw(d: int) | Choose(d: int) | Skip(d: int)

  predicate Enabled(s: State, step: Step) {
    match step
    case Begin => true
    case Draw(d) => s.addresses > 0 && 0 <= d < |s.dials| && s.dials[d].Beginning?
    case Choose(d) => s.addresses > 0 && 0 <= d < |s.dials| && s.dials[d].Ticketed?
    case Skip(d) => s.addresses == 0 && 0 <= d < |s.dials| && s.dials[d].Beginning?
  }

  function Apply(s: State, step: Step): State
    requires Enabled(s, step)
  {
    match step
    case Begin => s.(dials := s.dials + [Beginning])
    case Draw(d) =>
      var li := (s.li + 1) % WRAP;
      s.(li := li, taken := s.taken + 1, dials := s.dials[d := Ticketed(li)])
    case Choose(d) =>
      s.(dials := s.dials[d := Bound(s.dials[d].ticket, Slot(s.dials[d].ticket, s.addresses))])
    case Skip(d) => s.(dials := s.dials[d := Unbound])
  }

  function Start(addresses: nat, li: nat): State {
    State(addresses, li, [], li, 0)
  }

  predicate IsRun(s: State, steps: seq<Step>)
    decreases |steps|
  {
    steps == [] || (Enabled(s, steps[0]) && IsRun(Apply(s, steps[0]), steps[1..]))
  }

  function After(s: State, steps: seq<Step>): State
    requires IsRun(s, steps)
    decreases |steps|
  {
    if steps == [] then s else After(Apply(s, steps[0]), steps[1..])
  }

  predicate Drawn(d: Dial) {
    d.Ticketed? || d.Bound?
  }

  /** Counts the dials whose ticket leads to the slot. */
  function LeadsTo(addresses: nat, slot: nat): Dial -> int {
    (d: Dial) => if Drawn(d) && addresses > 0 && Slot(d.ticket, addresses) == slot then 1 else 0
  }

  function HasTicket(d: Dial): int {
    if Drawn(d) then 1 else 0
  }

  /** The rotation goes on undisturbed: the counter has not wrapped, or wrapping does not show. */
  predicate Undisturbed(s: State) {
    s.initial + s.taken < WRAP || (s.addresses > 0 && WRAP % s.addresses == 0)
  }

  predicate BoundOk(s: State) {
    forall d :: 0 <= d < |s.dials| && s.dials[d].Bound? ==>
      s.addresses > 0 && s.dials[d].slot < s.addresses && s.dials[d].slot == Slot(s.dials[d].ticket, s.addresses)
  }

  predicate TicketsOk(s: State) {
    && s.initial < WRAP && s.li == (s.initial + s.taken) % WRAP
    && (s.initial + s.taken < WRAP ==>
          && (forall d :: 0 <= d < |s.dials| && Drawn(s.dials[d]) ==> s.initial < s.dials[d].ticket <= s.li)
          && (forall d, e :: 0 <= d < e < |s.dials| && Drawn(s.dials[d]) && Drawn(s.dials[e]) ==>
                s.dials[d].ticket != s.dials[e].ticket))
  }

  predicate SharesOk(s: State, slot: nat) {
    slot < s.addresses && Undisturbed(s) ==>
      Sum(s.dials, LeadsTo(s.addresses, slot)) == Visits(s.initial + 1, s.taken, slot, s.addresses)
  }

  /** Taking the ticket modulo 2^64 first changes nothing if m divides 2^64. */
  lemma TicketSlot(order: nat, m: nat)
    requires m > 0 && (order < WRAP || WRAP % m == 0)
    ensures Slot(order % WRAP, m) == Slot(order, m)
  {
    if order >= WRAP {
      var q, p := order / WRAP, WRAP / m;
      assert WRAP == p * m;
      assert order == order % WRAP + (q * p) * m by {
        assert q * WRAP == (q * p) * m;
      }
      SlotAfterRounds(order % WRAP, q * p, m);
    }
  }

  lemma StepKeepsBound(s: State, step: Step)
    requires Enabled(s, step) && BoundOk(s)
    ensures BoundOk(Apply(s, step))
  {}

  lemma DrawKeepsTickets(s: State, d: int)
    requires Enabled(s, Draw(d)) && TicketsOk(s)
    ensures TicketsOk(Apply(s, Draw(d)))
  {
    NextTicket(s.initial + s.taken);
    if s.initial + s.taken + 1 < WRAP {
      assert s.li == s.initial + s.taken;
      assert (s.li + 1) % WRAP == s.li + 1;
    }
  }

  lemma StepKeepsTickets(s: State, step: Step)
    requires Enabled(s, step) && TicketsOk(s)
    ensures TicketsOk(Apply(s, step))
  {
    if step.Draw? {
      DrawKeepsTickets(s, step.d);
    } else {
      assert Apply(s, step).li == s.li && Apply(s, step).taken == s.taken;
    }
  }

  lemma StepKeepsCount(s: State, step: Step)
    requires Enabled(s, step) && Sum(s.dials, HasTicket) == s.taken
    ensures Sum(Apply(s, step).dials, HasTicket) == Apply(s, step).taken
  {
    var t := Apply(s, step);
    if step.Begin? {
      SumAppend(s.dials, Beginning, HasTicket);
    } else {
      SumUpdate(s.dials, step.d, t.dials[step.d], HasTicket);
    }
  }

  /** The effect of one draw on the share of a slot, with the ticket already known to be the right one. */
  lemma DrawCounts(dials: seq<Dial>, d: int, ticket: nat, order: nat, addresses: nat, slot: nat)
    requires 0 <= d < |dials| && dials[d].Beginning? && slot < addresses
    requires Slot(ticket, addresses) == Slot(order, addresses)
    ensures Sum(dials[d := Ticketed(ticket)], LeadsTo(addresses, slot))
            == Sum(dials, LeadsTo(addresses, slot)) + if Slot(order, addresses) == slot then 1 else 0
  {
    SumUpdate(dials, d, Ticketed(ticket), LeadsTo(addresses, slot));
  }

  /** The next ticket leads to the next slot. */
  lemma DrawnTicket(s: State, d: int)
    requires Enabled(s, Draw(d)) && TicketsOk(s) && Undisturbed(Apply(s, Draw(d)))
    ensures Slot(Apply(s, Draw(d)).li, s.addresses) == Slot(s.initial + 1 + s.taken, s.addresses)
  {
    NextTicket(s.initial + s.taken);
    TicketSlot(s.initial + 1 + s.taken, s.addresses);
  }

  lemma DrawKeepsShares(s: State, d: int, slot: nat)
    requires Enabled(s, Draw(d)) && TicketsOk(s) && SharesOk(s, slot)
    ensures SharesOk(Apply(s, Draw(d)), slot)
  {
    var t := Apply(s, Draw(d));
    if slot < t.addresses && Undisturbed(t) {
      DrawnTicket(s, d);
      DrawCounts(s.dials, d, t.li, s.initial + 1 + s.taken, s.addresses, slot);
    }
  }

  lemma NextTicket(x: nat)
    ensures (x % WRAP + 1) % WRAP == (x + 1) % WRAP
  {}

  lemma StepKeepsShares(s: State, step: Step, slot: nat)
    requires Enabled(s, step) && TicketsOk(s) && SharesOk(s, slot)
    ensures SharesOk(Apply(s, step), slot)
  {
    var t := Apply(s, step);
    match step
    case Begin => SumAppend(s.dials, Beginning, LeadsTo(s.addresses, slot));
    case Draw(d) => DrawKeepsShares(s, d, slot);
    case Choose(d) => SumUpdate(s.dials, d, t.dials[d], LeadsTo(s.addresses, slot));
    case Skip(d) => SumUpdate(s.dials, d, t.dials[d], LeadsTo(s.addresses, slot));
  }

  ghost predicate Ok(s: State, slot: nat) {
    BoundOk(s) && TicketsOk(s) && Sum(s.dials, HasTicket) == s.taken && SharesOk(s, slot)
  }

  lemma {:induction false} RunKeeps(s: State, run: seq<Step>, slot: nat)
    requires IsRun(s, run) && Ok(s, slot)
    ensures var t := After(s, run);
            Ok(t, slot) && t.addresses == s.addresses && t.initial == s.initial
    decreases |run|
  {
    if run != [] {
      StepKeepsBound(s, run[0]);
      StepKeepsTickets(s, run[0]);
      StepKeepsCount(s, run[0]);
      StepKeepsShares(s, run[0], slot);
      RunKeeps(Apply(s, run[0]), run[1..], slot);
    }
  }

  /** Among the k tickets drawn, the slot was used floor(k/m) or ceil(k/m) times. */
  predicate FairlyUsed(s: State, m: nat, slot: nat)
    requires m > 0
  {
    s.taken / m <= Sum(s.dials, LeadsTo(m, slot)) <= (s.taken + m - 1) / m
  }

  /**
   Under any interleaving of dials, the dials that drew a ticket use each of the m local addresses
   floor(k/m) or ceil(k/m) times, where k is their number, as long as the counter does not wrap or m
   divides 2^64; every index is in range, and short of the wrap-around no two dials share a ticket.
   */
  lemma SourcesAreFair(addresses: nat, li: nat, run: seq<Step>, slot: nat)
    requires IsRun(Start(addresses, li), run) && li < WRAP && slot < addresses
    ensures var s := After(Start(addresses, li), run);
            && Sum(s.dials, HasTicket) == s.taken
            && (Undisturbed(s) ==> FairlyUsed(s, addresses, slot))
            && (forall d :: 0 <= d < |s.dials| && s.dials[d].Bound? ==>
                  s.dials[d].slot < addresses && s.dials[d].slot == s.dials[d].ticket % addresses)
            && (li + s.taken < WRAP ==>
                  forall d :: 0 <= d < |s.dials| && Drawn(s.dials[d]) ==> li < s.dials[d].ticket <= li + s.taken)
            && (li + s.taken < WRAP ==>
                  forall d, e :: 0 <= d < e < |s.dials| && Drawn(s.dials[d]) && Drawn(s.dials[e]) ==>
                    s.dials[d].ticket != s.dials[e].ticket)
  {
    RunKeeps(Start(addresses, li), run, slot);
    var s := After(Start(addresses, li), run);
    FairShare(li + 1, s.taken, slot, addresses);
  }

  lemma DrawIsNext(s: State, d: int)
    requires TicketsOk(s) && Enabled(s, Draw(d))
    ensures Apply(s, Draw(d)).li == (s.initial + s.taken + 1) % WRAP
  {
    NextTicket(s.initial + s.taken);
  }

  lemma DrawThenChoose(s: State, d: int, ticket: nat)
    requires s.addresses > 0 && Enabled(s, Draw(d)) && Apply(s, Draw(d)).li == ticket
    ensures var drawn := Apply(s, Draw(d));
            && drawn.dials[d] == Ticketed(ticket) && drawn.taken == s.taken + 1
            && Enabled(drawn, Choose(d)) && Apply(drawn, Choose(d)).dials[d] == Bound(ticket, Slot(ticket, s.addresses))
  {}

  lemma ReachedTickets(addresses: nat, li: nat, run: seq<Step>)
    requires IsRun(Start(addresses, li), run) && li < WRAP
    ensures var s := After(Start(addresses, li), run);
            TicketsOk(s) && s.addresses == addresses && s.initial == li
  {
    RunKeeps(Start(addresses, li), run, 0);
  }

  /**
   Which address: whatever happened before, a dial that draws after `taken` others gets ticket
   li + taken + 1, modulo 2^64, and then binds the address with that number modulo m. So the first dial of
   a counter at 0 uses address 1 % m.
   */
  lemma TicketsCountUp(addresses: nat, li: nat, run: seq<Step>, d: int, s: State) returns (ticket: nat)
    requires IsRun(Start(addresses, li), run) && s == After(Start(addresses, li), run)
    requires li < WRAP && addresses > 0 && Enabled(s, Draw(d))
    ensures ticket == (li + s.taken + 1) % 0x1_0000_0000_0000_0000
    ensures var drawn := Apply(s, Draw(d));
            && drawn.dials[d] == Ticketed(ticket) && drawn.taken == s.taken + 1
            && Enabled(drawn, Choose(d)) && Apply(drawn, Choose(d)).dials[d] == Bound(ticket, ticket % addresses)
  {
    ReachedTickets(addresses, li, run);
    DrawIsNext(s, d);
    ticket := Apply(s, Draw(d)).li;
    DrawThenChoose(s, d, ticket);
  }

  /** When the counter wraps, the ticket after 2^64 - 1 continues the rotation exactly if m divides 2^64. */
  lemma WrapContinuesExactlyIfDivides(m: nat)
    requires m > 0
    ensures Slot(0, m) == Slot(Slot(WRAP - 1, m) + 1, m) <==> WRAP % m == 0
  {
    SlotOfSum(WRAP - 1, 1, m);
  }

  // ---------------------------------------------------------------- across the wrap-around

  lemma {:induction false} RunsExtend(s: State, run: seq<Step>, step: Step)
    requires IsRun(s, run) && Enabled(After(s, run), step)
    ensures IsRun(s, run + [step]) && After(s, run + [step]) == Apply(After(s, run), step)
    decreases |run|
  {
    if run == [] {
      assert run + [step] == [step];
      assert IsRun(Apply(s, step), [step][1..]);
    } else {
      assert (run + [step])[1..] == run[1..] + [step];
      RunsExtend(Apply(s, run[0]), run[1..], step);
    }
  }

  /** The ticket of the j-th draw, counted from 0. */
  function Ticket(li: nat, j: nat): nat {
    (li + 1 + j) % WRAP
  }

  /** k dials that drew their tickets one after the other. */
  function InOrder(li: nat, k: nat): seq<Dial> {
    seq(k, j requires 0 <= j => Ticketed(Ticket(li, j)))
  }

  lemma {:induction false} DialInOrder(m: nat, li: nat, k: nat) returns (run: seq<Step>)
    requires m > 0 && li < WRAP
    ensures IsRun(Start(m, li), run) && After(Start(m, li), run) == State(m, (li + k) % WRAP, InOrder(li, k), li, k)
  {
    run := [];
    if k > 0 {
      run := DialInOrder(m, li, k - 1);
      var begun := Apply(After(Start(m, li), run), Begin);
      RunsExtend(Start(m, li), run, Begin);
      run := run + [Begin];
      RunsExtend(Start(m, li), run, Draw(k - 1));
      run := run + [Draw(k - 1)];
      NextTicket(li + k - 1);
      assert Ticket(li, k - 1) == (li + k) % WRAP;
      assert begun.dials[k - 1 := Ticketed(Ticket(li, k - 1))] == InOrder(li, k);
    }
  }

  /** The counter from which the (r + 1)-st ticket is the first one after the wrap-around. */
  lemma CounterBefore(r: nat) returns (li: nat)
    requires 0 < r <= WRAP
    ensures li < WRAP && Ticket(li, 0) == WRAP - r && Ticket(li, r) == 0
  {
    li := if r == WRAP then WRAP - 1 else WRAP - r - 1;
  }

  lemma SlotOfMultiple(x: nat, q: nat, m: nat)
    requires m > 0 && x == q * m
    ensures Slot(x, m) == 0
  {
    SlotAfterRounds(0, q, m);
    SlotOfSmall(0, m);
  }

  lemma TwiceIsUnfair(s: State, m: nat, r: nat, first: nat, last: nat)
    requires 0 < r < m && s.taken == r + 1 == |s.dials|
    requires s.dials[0] == Ticketed(first) && Slot(first, m) == 0
    requires s.dials[r] == Ticketed(last) && Slot(last, m) == 0
    ensures !FairlyUsed(s, m, 0)
  {
    SumOfTwo(s.dials, LeadsTo(m, 0), 0);
    DivModUnique(s.taken + m - 1, 1, r, m);
  }

  /** If m does not divide 2^64, there are dials around the wrap-around that use slot 0 twice before some other slot is used at all. */
  lemma WrapIsUnfair(m: nat, q: nat, r: nat) returns (li: nat, run: seq<Step>)
    requires 0 < r < m && WRAP - r == q * m
    ensures li < WRAP && IsRun(Start(m, li), run) && !FairlyUsed(After(Start(m, li), run), m, 0)
  {
    li := CounterBefore(r);
    run := DialInOrder(m, li, r + 1);
    SlotOfMultiple(WRAP - r, q, m);
    SlotOfMultiple(0, 0, m);
    TwiceIsUnfair(After(Start(m, li), run), m, r, Ticket(li, 0), Ticket(li, r));
  }

  /** Floor/ceil fairness holds of all dials from all values of the counter if and only if m divides 2^64. */
  lemma FairExactlyIfDivides(m: nat)
    requires m > 0
    ensures (forall li: nat, run, slot: nat ::
               li < WRAP && slot < m && IsRun(Start(m, li), run) ==> FairlyUsed(After(Start(m, li), run), m, slot))
            <==> WRAP % m == 0
  {
    if WRAP % m == 0 {
      forall li: nat, run, slot: nat | li < WRAP && slot < m && IsRun(Start(m, li), run)
        ensures FairlyUsed(After(Start(m, li), run), m, slot)
      {
        RunKeeps(Start(m, li), run, slot);
        SourcesAreFair(m, li, run, slot);
      }
    } else {
      var li, run := WrapIsUnfair(m, WRAP / m, WRAP % m);
    }
  }
}
