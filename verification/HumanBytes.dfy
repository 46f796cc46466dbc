/** The size formatter of cmd/tmbench/main.go, humanBytes. Numbers are int64 values. */
module HumanBytes {
  import opened Arithmetic

  const UNIT := 1024
  const MAX_INT64 := 0x7fff_ffff_ffff_ffff
  const SUFFIXES := "KMGTPE"

  /** What is printed: the number itself with a B, or a scaled value (then rounded to one digit) with a letter and iB. */
  datatype Text = Plain(n: int) | Scaled(value: real, letter: char)

  function Power(e: nat): (p: int)
    ensures p >= 1
  {
    if e == 0 then 1 else UNIT * Power(e - 1)
  }

  /** n is read with the e-th letter: at least one of that unit and less than one of the next. */
  predicate Scale(n: int, e: nat) {
    Power(e + 1) <= n < Power(e + 2)
  }

  lemma {:induction false} PowerMonotone(a: nat, b: nat)
    requires a <= b
    ensures Power(a) <= Power(b)
    decreases b
  {
    if a < b {
      PowerMonotone(a, b - 1);
    }
  }

  /** The scale of a number is unique. */
  lemma ScaleUnique(n: int, d: nat, e: nat)
    requires Scale(n, d) && Scale(n, e)
    ensures d == e
  {
    if d < e {
      PowerMonotone(d + 2, e + 1);
    } else if e < d {
      PowerMonotone(e + 2, d + 1);
    }
  }

  lemma Regroup(p: int, s: int, r: int, a: int, b: int)
    requires 0 <= s < b && 0 <= r < a
    ensures (p * b + s) * a + r == p * (a * b) + (s * a + r)
    ensures 0 <= s * a + r < a * b
  {
    assert (p * b + s) * a == p * b * a + s * a;
    assert p * b * a == p * (a * b);
    assert s * a <= (b - 1) * a;
    assert (b - 1) * a == a * b - a;
  }

  /** Dividing twice is dividing once by the product. */
  lemma NestedDivision(n: int, a: int, b: int)
    requires n >= 0 && a > 0 && b > 0
    ensures a * b > 0 && n / a / b == n / (a * b)
  {
    var q, r := n / a, n % a;
    var p, s := q / b, q % b;
    assert n == q * a + r;
    assert q == p * b + s;
    Regroup(p, s, r, a, b);
    DivModUnique(n, p, s * a + r, a * b);
  }

  lemma QuotientAtLeast(x: int, r: int, d: int, k: int)
    requires 0 <= r < d
    ensures x >= k <==> x * d + r >= k * d
  {
    if x >= k {
      MultipliesOrdered(k, x, d);
    } else {
      MultipliesOrdered(x + 1, k, d);
      OneMore(x, d);
    }
  }

  lemma BelowNextUnit(n: int, d: int)
    requires n >= 0 && d > 0
    ensures n / d >= 1 <==> d <= n
    ensures n / d < UNIT <==> n < UNIT * d
  {
    QuotientAtLeast(n / d, n % d, d, 1);
    QuotientAtLeast(n / d, n % d, d, UNIT);
  }

  /**
   For every int64: numbers below 1024 are printed as they are; for the others the loop stops with div
   the largest power of 1024 not above n, which stays an int64, and with a suffix index in range.
   */
  method Humanize(n: int) returns (text: Text, ghost div: int, ghost exp: nat)
    requires -MAX_INT64 - 1 <= n <= MAX_INT64
    ensures n < UNIT ==> text == Plain(n)
    ensures n >= UNIT ==>
              && Scale(n, exp) && exp < |SUFFIXES| && div == Power(exp + 1) <= MAX_INT64
              && text == Scaled(n as real / div as real, SUFFIXES[exp])
              && 1.0 <= text.value < UNIT as real
  {
    if n < UNIT {
      return Plain(n), 1, 0;
    }
    var d, e := UNIT, 0;
    var x := n / UNIT;
    assert Power(1) == UNIT;
    while x >= UNIT
      invariant d == Power(e + 1) && x == n / d && d <= n
      decreases x
    {
      NestedDivision(n, d, UNIT);
      BelowNextUnit(n, d);
      d := d * UNIT;
      e := e + 1;
      x := x / UNIT;
    }
    BelowNextUnit(n, d);
    SuffixInRange(n, e);
    text := Scaled(n as real / d as real, SUFFIXES[e]);
    ScaledValue(n, d);
    div, exp := d, e;
  }

  lemma SuffixInRange(n: int, e: nat)
    requires Power(e + 1) <= n <= MAX_INT64
    ensures e < |SUFFIXES|
  {
    SmallPowers();
    assert Power(7) == 0x40_0000_0000_0000_0000;
    if e >= 6 {
      PowerMonotone(7, e + 1);
    }
  }

  lemma ScaledValue(n: int, d: int)
    requires 0 < d <= n < UNIT * d
    ensures 1.0 <= n as real / d as real < UNIT as real
  {
    QuotientWithin(n as real, d as real, 1.0, UNIT as real);
  }

  /** The letters in order: KiB up to a mebibyte, then MiB, GiB, TiB, PiB and EiB, each for a factor of 1024. */
  lemma LetterOfScale(n: int, e: nat)
    requires Scale(n, e) && n <= MAX_INT64
    ensures e < |SUFFIXES| && n >= 1024
    ensures SUFFIXES[e] == (if n < 0x10_0000 then 'K' else if n < 0x4000_0000 then 'M' else if n < 0x100_0000_0000 then 'G'
                            else if n < 0x4_0000_0000_0000 then 'T' else if n < 0x1000_0000_0000_0000 then 'P' else 'E')
  {
    SuffixInRange(n, e);
    SmallPowers();
  }

  lemma SmallPowers()
    ensures Power(1) == 0x400 && Power(2) == 0x10_0000 && Power(3) == 0x4000_0000
    ensures Power(4) == 0x100_0000_0000 && Power(5) == 0x4_0000_0000_0000 && Power(6) == 0x1000_0000_0000_0000
  {
    assert Power(1) == UNIT;
    assert Power(2) == 0x10_0000;
    assert Power(3) == 0x4000_0000;
    assert Power(4) == 0x100_0000_0000;
    assert Power(5) == 0x4_0000_0000_0000;
  }

  // ---------------------------------------------------------------- the printed digit

  /** The value in tenths, rounded to the nearest one and at a tie to the even one. */
  function Tenths(value: real): int {
    var t := value * 10.0;
    var below := t.Floor;
    var rest := t - below as real;
    if rest < 0.5 || (rest == 0.5 && below % 2 == 0) then below else below + 1
  }

  lemma AtLeastMultiple(x: real, d: real, lo: real)
    requires d > 0.0
    ensures x / d >= lo <==> x >= lo * d
  {
    var v := x / d;
    assert v * d == x;
    assert v >= lo ==> v * d >= lo * d;
    assert v < lo ==> v * d < lo * d;
  }

  /**
   What is printed lies between 1.0 and 1024.0; "1024.0", which is one of the next unit, is printed
   exactly from 1023.95 units on, as for 1048575.
   */
  lemma PrintedValue(n: int, e: nat)
    requires Scale(n, e)
    ensures var tenths := Tenths(n as real / Power(e + 1) as real);
            && 10 <= tenths <= 10240
            && (tenths == 10240 <==> 20 * n >= 20479 * Power(e + 1))
    ensures Scale(1048575, 0) && Tenths(1048575 as real / Power(1) as real) == 10240
  {
    var d := Power(e + 1);
    var v := n as real / d as real;
    ScaledValue(n, d);
    assert 20 * n >= 20479 * d <==> v >= 1023.95 by {
      AtLeastMultiple(n as real, d as real, 1023.95);
    }
    assert Power(0) == 1;
    assert Power(1) == UNIT;
  }
}
