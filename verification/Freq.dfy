/**
The mantissa-and-exponent normalisation of wl_iw_set_freq: m * 10^e hertz become megahertz, in place,
in a 32-bit mantissa and a 16-bit exponent. Multiplication wraps, as the kernel builds its C code.
*/
module Freq {

  newtype int32 = x: int | -0x8000_0000 <= x < 0x8000_0000
  newtype int16 = x: int | -0x8000 <= x < 0x8000

  function Pow10(n: nat): int { if n == 0 then 1 else 10 * Pow10(n - 1) }

  lemma {:induction false} Pow10Positive(n: nat)
    ensures Pow10(n) >= 1
  {
    if n > 0 { Pow10Positive(n - 1); }
  }

  lemma Associate(x: int, y: int, z: int)
    ensures x * (y * z) == (x * y) * z
  {
  }

  lemma {:induction false} Pow10Sum(a: nat, b: nat)
    ensures Pow10(a + b) == Pow10(a) * Pow10(b)
  {
    if a > 0 {
      Pow10Sum(a - 1, b);
      Associate(10, Pow10(a - 1), Pow10(b));
    }
  }

  lemma {:induction false} MulMono(d: nat, x: int, y: int)
    requires x <= y
    ensures d * x <= d * y
  {
    if d > 0 { MulMono(d - 1, x, y); }
  }

  /** q is a / d truncated towards zero, as C divides. */
  predicate Truncated(a: int, d: nat, q: int) {
    if a >= 0 then q >= 0 && d * q <= a < d * q + d
    else q <= 0 && d * -q <= -a < d * -q + d
  }

  /** Truncation determines the quotient. */
  lemma TruncatedUnique(a: int, d: nat, q: int, r: int)
    requires Truncated(a, d, q) && Truncated(a, d, r)
    ensures q == r
  {
    var x, y := if a >= 0 then q else -q, if a >= 0 then r else -r;
    if x < y {
      MulMono(d, x + 1, y);
      Distribute(d, x);
    } else if y < x {
      MulMono(d, y + 1, x);
      Distribute(d, y);
    }
  }

  lemma Distribute(d: int, x: int)
    ensures d * (x + 1) == d * x + d
  {
  }

  /** Dividing twice truncates like dividing once by the product. */
  lemma TruncatedTwice(a: nat, d: nat, q: nat, r: nat)
    requires Truncated(a, d, q) && Truncated(q, 10, r)
    ensures Truncated(a, 10 * d, r)
  {
    MulMono(d, 10 * r, q);
    MulMono(d, q + 1, 10 * r + 10);
    Distribute(d, q);
    assert d * (10 * r) == (10 * d) * r;
    assert d * (10 * r + 10) == (10 * d) * r + 10 * d;
  }

  lemma OneMoreDigit(a: int, d: nat, q: int, r: int)
    requires Truncated(a, d, q) && Truncated(q, 10, r)
    ensures Truncated(a, 10 * d, r)
  {
    if a >= 0 {
      TruncatedTwice(a, d, q, r);
    } else {
      assert Truncated(-a, d, -q);
      assert Truncated(-q, 10, -r);
      TruncatedTwice(-a, d, -q, -r);
    }
  }

  /** v is m * 10^e hertz in megahertz: an exact product, or one truncated quotient. */
  ghost predicate IsMegahertz(m: int, e: int, v: int) {
    if e >= 6 then v == m * Pow10(e - 6) else Pow10(6 - e) >= 0 && Truncated(m, Pow10(6 - e), v)
  }

  function Numerator(e: int): int { if e >= 0 then Pow10(e) else 1 }

  function Denominator(e: int): int { if e >= 0 then Pow10(6) else Pow10(6 - e) }

  /** Truncation is towards zero: a negative mantissa gives the negative of what its absolute value gives. */
  lemma MegahertzIsOdd(m: int, e: int, v: int)
    ensures IsMegahertz(m, e, v) <==> IsMegahertz(-m, e, -v)
  {
    if e < 6 {
      Pow10Positive(6 - e);
      if m == 0 {
        ZeroIsTruncated(Pow10(6 - e), v);
      }
    } else {
      assert -m * Pow10(e - 6) == -(m * Pow10(e - 6));
    }
  }

  lemma ZeroIsTruncated(d: nat, v: int)
    requires d >= 1
    ensures Truncated(0, d, v) <==> v == 0
    ensures Truncated(0, d, -v) <==> v == 0
  {
    if v >= 1 { MulMono(d, 1, v); }
    if v <= -1 { MulMono(d, 1, -v); }
  }

  /** v is the megahertz, and no other value is. */
  ghost predicate OnlyMegahertz(m: int, e: int, v: int) {
    IsMegahertz(m, e, v) && forall w :: IsMegahertz(m, e, w) ==> w == v
  }

  lemma MegahertzUnique(m: int, e: int, v: int)
    requires IsMegahertz(m, e, v)
    ensures OnlyMegahertz(m, e, v)
  {
    forall w | IsMegahertz(m, e, w) ensures w == v {
      if e < 6 {
        TruncatedUnique(m, Pow10(6 - e), v, w);
      }
    }
  }

  /** For a non-negative mantissa that is the floor of the exact fraction m * 10^e / 10^6. */
  lemma MegahertzIsFloor(m: nat, e: int, v: int)
    requires IsMegahertz(m, e, v)
    ensures var d := Denominator(e); d * v <= m * Numerator(e) < d * v + d
  {
    if e >= 6 {
      Pow10Sum(e - 6, 6);
      Pow10Positive(6);
      Associate(m, Pow10(e - 6), Pow10(6));
    } else if e >= 0 {
      var p, d := Pow10(e), Pow10(6 - e);
      Pow10Sum(6 - e, e);
      Pow10Positive(e);
      MulMono(p, d * v, m);
      MulMono(p, m + 1, d * v + d);
      Distribute(p, m);
      Reorder(p, d, v);
    }
  }

  lemma Reorder(p: int, d: int, v: int)
    ensures p * (d * v) == (d * p) * v
    ensures p * (d * v + d) == (d * p) * v + d * p
  {
  }

  predicate Fits(v: int) { -0x8000_0000 <= v < 0x8000_0000 }

  lemma Grows(a: int, p: nat)
    requires p >= 1
    ensures a >= 0 ==> a * p >= a
    ensures a <= 0 ==> a * p <= a
  {
    if a >= 0 { MulMono(a, 1, p); } else { MulMono(-a, 1, p); }
  }

  /** If the product fits in the end, it fits on the way. */
  lemma StepsFit(m: int, done: nat, left: nat)
    requires Fits(m * Pow10(done + left))
    ensures Fits(m * Pow10(done))
  {
    Pow10Sum(done, left);
    Pow10Positive(left);
    Associate(m, Pow10(done), Pow10(left));
    Grows(m * Pow10(done), Pow10(left));
  }

  /**
  No step of the multiplying loop overflows exactly if the final product fits, so a product that does
  not fit is always the product of an overflow on the way.
  */
  lemma NoOverflowExactly(m: int, k: nat)
    ensures (forall n: nat :: n <= k ==> Fits(m * Pow10(n))) <==> Fits(m * Pow10(k))
  {
    if Fits(m * Pow10(k)) {
      forall n: nat | n <= k ensures Fits(m * Pow10(n)) {
        StepsFit(m, n, k - n);
      }
    }
  }

  // ---------------------------------------------------------------- wrap-around

  /** Two's complement reduction to 32 bits. */
  function Wrap(v: int): int { (v + 0x8000_0000) % 0x1_0000_0000 - 0x8000_0000 }

  lemma WrapFits(v: int)
    ensures Fits(Wrap(v)) && (Wrap(v) == v <==> Fits(v))
  {
  }

  lemma {:induction false} WrapPeriodic(v: int, k: nat)
    ensures Wrap(v + k * 0x1_0000_0000) == Wrap(v)
  {
    if k > 0 {
      WrapPeriodic(v, k - 1);
      WrapOnce(v + (k - 1) * 0x1_0000_0000);
    }
  }

  lemma WrapOnce(v: int)
    ensures Wrap(v + 0x1_0000_0000) == Wrap(v)
  {
  }

  /** Reducing before multiplying by ten changes nothing. */
  lemma WrapTimes10(v: int)
    ensures Wrap(Wrap(v) * 10) == Wrap(v * 10)
  {
    var q := (v + 0x8000_0000) / 0x1_0000_0000;
    assert v == Wrap(v) + q * 0x1_0000_0000;
    assert v * 10 == Wrap(v) * 10 + q * 10 * 0x1_0000_0000;
    if q >= 0 {
      WrapPeriodic(Wrap(v) * 10, q * 10);
    } else {
      WrapPeriodic(v * 10, -q * 10);
    }
  }

  method MultiplyBy10(m: int32) returns (r: int32)
    ensures r as int == Wrap(m as int * 10)
  {
    WrapFits(m as int * 10);
    r := Wrap(m as int * 10) as int32;
  }

  /** fwrq->m /= 10 */
  method DivideBy10(m: int32) returns (q: int32)
    ensures Truncated(m as int, 10, q as int)
  {
    q := if m >= 0 then m / 10 else if m == -0x8000_0000 then -214748364 else -(-m / 10);
  }

  /** e >= 6: multiply. The condition leaves e at -1. */
  method MultiplyLoop(m0: int32, e0: int16) returns (m: int32, e: int16)
    requires e0 >= 6
    ensures m as int == Wrap(m0 as int * Pow10(e0 as int - 6)) && e == -1
  {
    m, e := m0, e0 - 6;
    ghost var n: nat := 0;
    WrapFits(m0 as int);
    while true
      invariant 0 <= e && n + e as int == e0 as int - 6
      invariant m as int == Wrap(m0 as int * Pow10(n))
      decreases e
    {
      e := e - 1;
      if e + 1 == 0 { break; }
      WrapTimes10(m0 as int * Pow10(n));
      OneMoreZero(m0 as int, n);
      m := MultiplyBy10(m);
      n := n + 1;
    }
  }

  lemma OneMoreZero(m: int, n: nat)
    ensures m * Pow10(n) * 10 == m * Pow10(n + 1)
  {
    Associate(m, Pow10(n), 10);
  }

  /** e < 6: divide, also when e is negative. The condition leaves e at 7. */
  method DivideLoop(m0: int32, e0: int16) returns (m: int32, e: int16)
    requires e0 < 6
    ensures OnlyMegahertz(m0 as int, e0 as int, m as int) && e == 7
  {
    m, e := m0, e0;
    ghost var n: nat := 0;
    while true
      invariant e <= 6 && n == e as int - e0 as int
      invariant Pow10(n) > 0 && Truncated(m0 as int, Pow10(n), m as int)
      decreases 6 - e as int
    {
      e := e + 1;
      if e - 1 >= 6 { break; }
      ghost var q := m;
      m := DivideBy10(m);
      OneMoreDigit(m0 as int, Pow10(n), q as int, m as int);
      n := n + 1;
    }
    MegahertzUnique(m0 as int, e0 as int, m as int);
  }

  datatype Result = Channel(channel: int32) | Frequency(mhz: int32, fourGHz: bool)

  /** Channel or frequency. The frequency is right exactly if the exact value fits in 32 bits. */
  method SetFreq(m0: int32, e0: int16, maxChannel: int32) returns (r: Result, m: int32, e: int16)
    ensures r.Channel? <==> e0 == 0 && m0 < maxChannel
    ensures r.Channel? ==> r.channel == m0 && m == m0 && e == e0
    ensures r.Frequency? ==> m == r.mhz && e == (if e0 >= 6 then -1 else 7) && (r.fourGHz <==> 4000 < r.mhz < 5000)
    ensures r.Frequency? && e0 >= 6 ==> r.mhz as int == Wrap(m0 as int * Pow10(e0 as int - 6))
    ensures r.Frequency? ==>
      (OnlyMegahertz(m0 as int, e0 as int, r.mhz as int) <==> e0 < 6 || Fits(m0 as int * Pow10(e0 as int - 6)))
  {
    m, e := m0, e0;
    if e == 0 && m < maxChannel {
      return Channel(m), m, e;
    }
    if e >= 6 {
      ghost var exact: int := m as int * Pow10(e as int - 6);
      WrapFits(exact);
      MegahertzUnique(m as int, e as int, exact);
      m, e := MultiplyLoop(m, e);
    } else {
      m, e := DivideLoop(m, e);
    }
    r := Frequency(m, 4000 < m < 5000);
  }

  /** Such an input: 3 * 10^16 hertz would be 30000000000 megahertz. */
  lemma ThreeTimesTenToTheTenOverflows(e: nat)
    requires e == 16
    ensures !Fits(3 * Pow10(e - 6)) && !IsMegahertz(3, e, Wrap(3 * Pow10(e - 6)))
  {
    Pow10Sum(5, e - 11);
    assert Pow10(e - 14) == 100;
    assert Pow10(e - 11) == 1000 * Pow10(e - 14);
    WrapFits(3 * Pow10(e - 6));
  }
}
