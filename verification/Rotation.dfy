/** Going round m places: the place of the x-th step, and how often each place is visited. */
module Rotation {
  import opened Arithmetic

  /** The place reached after x steps round m places. */
  function Slot(x: nat, m: nat): (r: nat)
    requires m > 0
    ensures r < m
  {
    x % m
  }

  lemma SlotOfSmall(x: nat, m: nat)
    requires x < m
    ensures Slot(x, m) == x
  {
    DivModUnique(x, 0, x, m);
  }

  lemma SlotAfterRounds(r: nat, q: nat, m: nat)
    requires m > 0
    ensures Slot(r + q * m, m) == Slot(r, m)
  {
    var p := r / m;
    assert r == p * m + r % m;
    Carry(p, q, 0, m);
    DivModUnique(r + q * m, p + q, r % m, m);
  }

  /** Steps may be counted from the slot instead of from the start. */
  lemma SlotOfSum(x: nat, k: nat, m: nat)
    requires m > 0
    ensures Slot(Slot(x, m) + k, m) == Slot(x + k, m)
  {
    var q := x / m;
    assert x == q * m + x % m;
    SlotAfterRounds(x % m + k, q, m);
    assert x % m + k + q * m == x + k;
  }

  // ---------------------------------------------------------------- fairness

  /** How many of the k steps start, start + 1, ... fall on the given slot. */
  function Visits(start: nat, k: nat, slot: nat, m: nat): (n: nat)
    requires m > 0
  {
    if k == 0 then 0
    else Visits(start, k - 1, slot, m) + if Slot(start + k - 1, m) == slot then 1 else 0
  }

  /** How many of the steps 0 .. x-1 fall on the slot, in closed form. */
  function Before(x: nat, slot: nat, m: nat): nat
    requires slot < m
  {
    (x + (m - 1 - slot)) / m
  }

  lemma BeforeStep(x: nat, slot: nat, m: nat)
    requires slot < m
    ensures Before(x + 1, slot, m) == Before(x, slot, m) + if Slot(x, m) == slot then 1 else 0
  {
    var q, r := x / m, x % m;
    assert x == q * m + r;
    Carry(q, 1, 0, m);
    var rest := m - 1 - slot;
    DivModUnique(x + rest, if r <= slot then q else q + 1, if r <= slot then r + rest else r - 1 - slot, m);
    DivModUnique(x + 1 + rest, if r < slot then q else q + 1, if r < slot then r + 1 + rest else r - slot, m);
  }

  lemma {:induction false} VisitsClosedForm(start: nat, k: nat, slot: nat, m: nat)
    requires slot < m
    ensures Visits(start, k, slot, m) == Before(start + k, slot, m) - Before(start, slot, m)
  {
    if k > 0 {
      VisitsClosedForm(start, k - 1, slot, m);
      BeforeStep(start + k - 1, slot, m);
    }
  }

  /** Any k consecutive steps fall on each of the m slots floor(k/m) or ceil(k/m) times. */
  lemma FairShare(start: nat, k: nat, slot: nat, m: nat)
    requires slot < m
    ensures k / m <= Visits(start, k, slot, m) <= (k + m - 1) / m
  {
    VisitsClosedForm(start, k, slot, m);
    var b := start + (m - 1 - slot);
    FloorOfSum(b, k, m);
    assert start + k + (m - 1 - slot) == b + k;
  }

  lemma FloorOfSum(b: nat, k: nat, m: nat)
    requires m > 0
    ensures k / m <= (b + k) / m - b / m <= (k + m - 1) / m
  {
    var q, r := b / m, b % m;
    var p, s := k / m, k % m;
    assert b == q * m + r;
    assert k == p * m + s;
    Carry(p, 1, 0, m);
    DivModUnique(k + m - 1, if s == 0 then p else p + 1, if s == 0 then m - 1 else s - 1, m);
    if r + s < m {
      Carry(q, p, 0, m);
      DivModUnique(b + k, q + p, r + s, m);
    } else {
      Carry(q, p, 1, m);
      DivModUnique(b + k, q + p + 1, r + s - m, m);
    }
  }

  lemma Carry(q: int, p: int, c: int, m: int)
    ensures (q + p + c) * m == q * m + p * m + c * m
  {}
}
