/** The exact arithmetic of the port layer and of the benchmark. */
module Arithmetic {
  import opened Arith
  import opened Types
  import opened Bits

  function Min(a: int, b: int): int {
    if a < b then a else b
  }

  /** The least integer not below a / b. */
  function CeilDiv(a: nat, b: nat): nat
    requires b > 0
  {
    (a + b - 1) / b
  }

  /** Whole thousands of milliseconds and the rest, converted separately. */
  lemma SplitProduct(ms: nat, rate: nat)
    ensures ms * rate == (ms / 1000 * rate + ms % 1000 * (rate / 1000)) * 1000 + ms % 1000 * (rate % 1000)
  {
    var q, r, q', r' := ms / 1000, ms % 1000, rate / 1000, rate % 1000;
    assert ms == q * 1000 + r && rate == q' * 1000 + r';
    assert (q * 1000 + r) * rate == q * rate * 1000 + r * rate;
    assert r * (q' * 1000 + r') == r * q' * 1000 + r * r';
  }

  lemma SmallProduct(a: nat, b: nat, c: nat, d: nat)
    requires a <= c && b <= d
    ensures a * b <= c * d
  {
    TimesMonotone(a, c, b);
    TimesMonotone(b, d, c);
    assert c * b == b * c && d * c == c * d;
  }

  /** The source's overflow test before a multiplication. */
  predicate ProductOverflows(a: Word, b: Word): (r: bool)
    requires b > 0
    ensures r <==> a * b > MAX_WORD
  {
    ProductFits(a, b);
    a > MAX_WORD / b
  }

  /** JRT_MillisecondsToTicks: every intermediate value is a 32-bit word. */
  function MillisecondsToTicks(ms: Word, rate: Word): (r: Word)
    requires rate > 0
    ensures r == Min(CeilDiv(ms * rate, 1000), MAX_WORD)
  {
    hide CeilDiv, ProductOverflows;
    TicksAreCeiling(ms, rate);
    if ProductOverflows(ms / 1000, rate) then MAX_WORD
    else
      var wholeTicks: Word := ms / 1000 * rate;
      var evenTicks: Word := ms % 1000 * (rate / 1000);
      var fractional: Word := ms % 1000 * (rate % 1000);
      var restTicks: Word := evenTicks + (fractional + 999) / 1000;
      if wholeTicks > MAX_WORD - restTicks then MAX_WORD else wholeTicks + restTicks
  }

  lemma TicksAreCeiling(ms: Word, rate: Word)
    ensures
      var even, fraction := ms % 1000 * (rate / 1000), ms % 1000 * (rate % 1000);
      && CeilDiv(ms * rate, 1000) == ms / 1000 * rate + even + (fraction + 999) / 1000
      && even <= 999 * 4294967 && fraction <= 999 * 999
  {
    SplitProduct(ms, rate);
    SmallProduct(ms % 1000, rate / 1000, 999, 4294967);
    SmallProduct(ms % 1000, rate % 1000, 999, 999);
  }

  lemma ProductFits(s: nat, rate: Word)
    requires rate > 0
    ensures s * rate <= MAX_WORD <==> s <= MAX_WORD / rate
  {
    var most := MAX_WORD / rate;
    assert MAX_WORD == most * rate + MAX_WORD % rate;
    if s > most {
      TimesMonotone(most + 1, s, rate);
      assert (most + 1) * rate == most * rate + rate;
    } else {
      TimesMonotone(s, most, rate);
    }
  }

  // ---- division ----

  lemma NextBit(n: nat, k: nat)
    ensures n / Pow2(k) == 2 * (n / Pow2(k + 1)) + n / Pow2(k) % 2
  {
    HalfQuotient(n, Pow2(k));
  }

  lemma HalfQuotient(n: nat, p: nat)
    requires p > 0
    ensures n / p / 2 == n / (2 * p)
  {
    var q := n / p;
    var h := q / 2;
    DivisionOf(n, p);
    Doubled(h, q % 2, p);
    QuotientIs(n, 2 * p, h);
  }

  lemma DivisionOf(n: nat, p: nat)
    requires p > 0
    ensures n / p * p <= n < n / p * p + p
  {}

  lemma Doubled(h: nat, b: nat, p: nat)
    requires b < 2
    ensures (2 * h + b) * p == h * (2 * p) + b * p && b * p <= p
  {
    assert (2 * h + b) * p == 2 * h * p + b * p;
  }

  lemma QuotientBelow(n: nat, p: nat)
    requires p > 0
    ensures n / p <= n
  {
    DivisionOf(n, p);
    TimesMonotone(1, p, n / p);
    assert p * (n / p) == n / p * p;
  }

  /** The division so far: the quotient's bits from bit up, and the remainder of the numerator's. */
  ghost predicate Divided(n: nat, d: Word, bit: nat, q: nat, r: nat) {
    && n / Pow2(bit) == q * d + r
    && (if d > 0 then r < d else bit <= 64 && q == Pow2(64 - bit) - 1)
  }

  lemma DivideStep(n: nat, d: Word, bit: nat, q: nat, r: nat)
    requires bit > 0 && Divided(n, d, bit, q, r)
    ensures
      var r' := 2 * r + n / Pow2(bit - 1) % 2;
      if r' >= d then Divided(n, d, bit - 1, 2 * q + 1, r' - d) else Divided(n, d, bit - 1, 2 * q, r')
    ensures 2 * q * Pow2(bit - 1) == q * Pow2(bit)
    ensures (2 * q + 1) * Pow2(bit - 1) == q * Pow2(bit) + Pow2(bit - 1)
  {
    NextBit(n, bit - 1);
    Regroup(q, Pow2(bit - 1));
    Regroup(q, d);
    assert d == 0 ==> Pow2(64 - (bit - 1)) == 2 * Pow2(64 - bit);
  }

  lemma DivisionStarts(n: nat, d: Word)
    requires n < 0x1_0000_0000_0000_0000
    ensures Divided(n, d, 64, 0, 0) && 0 * Pow2(64) == 0
  {
    WordSize();
    QuotientIs(n, Pow2(64), 0);
  }

  lemma DivisionEnds(n: nat, d: Word, q: nat, r: nat)
    requires Divided(n, d, 0, q, r)
    ensures q * Pow2(0) == q && (if d > 0 then q == n / d else q == 0xFFFF_FFFF_FFFF_FFFF)
  {
    WordSize();
    assert n / Pow2(0) == n;
    if d > 0 {
      QuotientIs(n, d, q);
    }
  }

  /** divide_u64_u32, one bit at a time from the top. Setting bit k of a quotient whose lower bits are clear
      adds 2^k. */
  method DivideU64U32(numerator: nat, denominator: Word) returns (quotient: nat)
    requires numerator < 0x1_0000_0000_0000_0000
    ensures denominator > 0 ==> quotient == numerator / denominator
    ensures denominator == 0 ==> quotient == 0xFFFF_FFFF_FFFF_FFFF
  {
    hide Pow2, Divided;
    quotient := 0;
    var remainder: nat := 0;
    var bit := 64;
    ghost var q: nat := 0;
    DivisionStarts(numerator, denominator);
    while bit > 0
      invariant 0 <= bit <= 64
      invariant quotient == q * Pow2(bit) && Divided(numerator, denominator, bit, q, remainder)
    {
      DivideStep(numerator, denominator, bit, q, remainder);
      RemainderFits(numerator, denominator, q, remainder, bit);
      assert 2 * remainder + 1 < 0x1_0000_0000_0000_0000;
      remainder := 2 * remainder + numerator / Pow2(bit - 1) % 2;
      if remainder >= denominator {
        remainder := remainder - denominator;
        quotient := quotient + Pow2(bit - 1);
        q := 2 * q + 1;
      } else {
        q := 2 * q;
      }
      bit := bit - 1;
    }
    DivisionEnds(numerator, denominator, q, remainder);
  }

  /** The remainder register of the division never leaves 64 bits. */
  lemma RemainderFits(numerator: nat, denominator: Word, q: nat, remainder: nat, bit: nat)
    requires numerator < 0x1_0000_0000_0000_0000 && 0 < bit <= 64
    requires Divided(numerator, denominator, bit, q, remainder)
    ensures 2 * remainder + 1 < 0x1_0000_0000_0000_0000
  {
    if denominator == 0 {
      NextBit(numerator, bit - 1);
      QuotientBelow(numerator, Pow2(bit - 1));
      assert q * denominator == 0;
    }
  }

  /** period_to_cycles: 0 when the result does not fit a word. */
  method PeriodToCycles(periodTicks: Word, clock: Word, rate: Word) returns (r: Word)
    requires rate > 0
    ensures r == if periodTicks * clock / rate <= MAX_WORD then periodTicks * clock / rate else 0
  {
    SmallProduct(periodTicks, clock, MAX_WORD, MAX_WORD);
    var cycles := DivideU64U32(periodTicks * clock, rate);
    return if cycles <= MAX_WORD then cycles else 0;
  }
}
