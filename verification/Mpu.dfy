/** Memory protection regions: aligned power-of-two blocks of at least 32 bytes, encoded as SIZE with
    2^(SIZE+1) bytes (section B3.5.9 of the ARMv7-M Architecture Reference Manual). */
module Mpu {
  import opened Arith
  import opened Types
  import opened Bits

  /** base and the SIZE field of an enabled region, or a disabled one. */
  datatype Region = Disabled | Region(base: Word, size: nat)

  function Bytes(r: Region): nat
    requires r.Region?
  {
    Pow2(r.size + 1)
  }

  /** Some block of 2^k bytes, aligned to its size, holds start .. end - 1. */
  ghost predicate Coverable(start: nat, end: nat, k: nat) {
    exists b: nat :: AlignedCover(start, end, k, b)
  }

  predicate AlignedCover(start: nat, end: nat, k: nat, b: nat) {
    b % Pow2(k) == 0 && b <= start && end <= b + Pow2(k)
  }

  function RoundDown(a: nat, p: nat): (r: nat)
    requires p > 0
    ensures r <= a < r + p && r % p == 0
  {
    BlockAligned(a, p);
    a - a % p
  }

  lemma BlockAligned(start: nat, p: nat)
    requires p > 0
    ensures (start - start % p) % p == 0
  {
    assert start == start / p * p + start % p;
    RemainderIs(start - start % p, p, start / p, 0);
  }

  /** The block of 2^k bytes that start lies in. */
  function BlockBase(start: nat, k: nat): nat {
    RoundDown(start, Pow2(k))
  }

  /** If any aligned block of 2^k bytes covers the range, start's own block does. */
  lemma OnlyOwnBlock(start: nat, end: nat, k: nat)
    requires start < end
    ensures Coverable(start, end, k) <==> end <= BlockBase(start, k) + Pow2(k)
  {
    if b: nat :| AlignedCover(start, end, k, b) {
      AlignedIsBlock(start, Pow2(k), b);
    }
    if end <= BlockBase(start, k) + Pow2(k) {
      assert AlignedCover(start, end, k, BlockBase(start, k));
    }
  }

  lemma AlignedIsBlock(start: nat, p: nat, b: nat)
    requires p > 0 && b % p == 0 && b <= start < b + p
    ensures b == start - start % p
  {
    assert b == b / p * p;
    RemainderIs(start, p, b / p, start - b);
  }

  lemma HalfRemainder2(a: nat, p: nat)
    requires p > 0
    ensures a - a % (2 * p) <= a - a % p <= a - a % (2 * p) + p
  {
    var q, r := Divide(a, 2 * p);
    HalfBlock(a, p, 2 * p, q, r);
  }

  lemma Divide(a: nat, n: nat) returns (q: nat, r: nat)
    requires n > 0
    ensures a == q * n + r && r < n && a % n == r
  {
    q, r := a / n, a % n;
  }

  lemma HalfBlock(a: nat, p: nat, m: nat, q: nat, r: nat)
    requires p > 0 && m == 2 * p && a == q * m + r && r < m
    ensures a % p == if r < p then r else r - p
  {
    Regroup(q, p);
    if r < p {
      RemainderIs(a, p, 2 * q, r);
    } else {
      RemainderIs(a, p, 2 * q + 1, r - p);
    }
  }

  /** The block of the right size that the loops look for does not wrap around the address space. */
  ghost predicate Representable(start: Word, end: Word) {
    exists k: nat :: Fitting(start, end, k)
  }

  predicate Fitting(start: Word, end: Word, k: nat) {
    5 <= k <= 31 && end <= BlockBase(start, k) + Pow2(k) <= MAX_WORD
  }

  lemma FittingBlock(start: Word, end: Word) returns (fit: nat)
    requires Representable(start, end)
    ensures Fitting(start, end, fit)
  {
    fit :| Fitting(start, end, fit);
  }

  /** Every range in the lower half of the address space has one. */
  lemma LowerHalfRepresentable(start: Word, end: Word)
    requires start < end <= 0x8000_0000
    ensures Representable(start, end)
  {
    WordSize();
    RemainderIs(start, Pow2(31), 0, start);
    assert Fitting(start, end, 31);
  }

  /** The first loop: the smallest power of two of at least 32 that is not shorter than the range. */
  method SizeForLength(start: Word, end: Word, ghost fit: nat) returns (size: Word, encoding: nat)
    requires start < end && Fitting(start, end, fit)
    ensures 4 <= encoding < fit && size == Pow2(encoding + 1)
    ensures forall k | 5 <= k <= encoding :: !Coverable(start, end, k)
  {
    WordSize();
    hide Pow2, BlockBase, Coverable;
    size := 32;
    encoding := 4;
    while size < end - start
      invariant 4 <= encoding < fit && size == Pow2(encoding + 1)
      invariant forall k | 5 <= k <= encoding :: !Coverable(start, end, k)
      decreases fit - encoding
    {
      TooSmall(start, end, encoding + 1, fit);
      size := size * 2;
      encoding := encoding + 1;
    }
  }

  /** configure_region_range: the smallest aligned power-of-two block of at least 32 bytes that covers the range. */
  method ConfigureRegionRange(start: Word, end: Word) returns (r: Region)
    requires start < end ==> Representable(start, end)
    ensures r.Disabled? <==> end <= start
    ensures r.Region? ==>
              && r.size >= 4
              && AlignedCover(start, end, r.size + 1, r.base)
              && r.base + Bytes(r) <= MAX_WORD
              && forall k | 5 <= k <= r.size :: !Coverable(start, end, k)
  {
    if end <= start {
      return Disabled;
    }
    ghost var fit := FittingBlock(start, end);
    var size, encoding := SizeForLength(start, end, fit);
    var base, field := GrowToCover(start, end, size, encoding, fit);
    return Region(base, field);
  }

  /** The second loop: double the size, and align anew, until the block reaches the end. */
  method GrowToCover(start: Word, end: Word, startSize: Word, startEncoding: nat, ghost fit: nat)
    returns (base: Word, encoding: nat)
    requires start < end && Fitting(start, end, fit)
    requires 4 <= startEncoding < fit && startSize == Pow2(startEncoding + 1)
    requires forall k | 5 <= k <= startEncoding :: !Coverable(start, end, k)
    ensures encoding >= 4 && AlignedCover(start, end, encoding + 1, base) && base + Pow2(encoding + 1) <= MAX_WORD
    ensures forall k | 5 <= k <= encoding :: !Coverable(start, end, k)
  {
    hide Pow2, BlockBase, Coverable, AlignedCover, Wrap;
    var size := startSize;
    encoding := startEncoding;
    base := AlignDown(start, size, encoding + 1, fit);
    while Wrap(base + size) < end
      invariant 4 <= encoding < fit && size == Pow2(encoding + 1) && base == BlockBase(start, encoding + 1)
      invariant forall k | 5 <= k <= encoding :: !Coverable(start, end, k)
      decreases fit - encoding
    {
      NotYet(start, end, encoding + 1, fit);
      size := size * 2;
      encoding := encoding + 1;
      base := AlignDown(start, size, encoding + 1, fit);
    }
    Covered(start, end, encoding + 1, fit);
  }

  /** start & ~(size - 1) */
  method AlignDown(start: Word, size: Word, k: nat, ghost fit: nat) returns (base: Word)
    requires k <= fit <= 31 && size == Pow2(k)
    ensures base == BlockBase(start, k)
  {
    WordPow2(k, fit);
    HighMask(start, k);
    base := And(start, Not(size - 1));
  }

  /** The second loop goes on only while the block is too small, so it stops before it reaches the wrap. */
  lemma NotYet(start: Word, end: Word, k: nat, fit: nat)
    requires start < end && k <= fit && Fitting(start, end, fit)
    requires Wrap(BlockBase(start, k) + Pow2(k)) < end
    ensures !Coverable(start, end, k) && k < fit && 2 * Pow2(k) == Pow2(k + 1) <= MAX_WORD
  {
    hide RoundDown, Coverable, Pow2;
    BlockFits(start, k, fit);
    OnlyOwnBlock(start, end, k);
    assert k < fit;
    WordPow2(k + 1, fit);
    Pow2Next(k);
  }

  lemma Covered(start: Word, end: Word, k: nat, fit: nat)
    requires start < end && k <= fit && Fitting(start, end, fit)
    requires Wrap(BlockBase(start, k) + Pow2(k)) >= end
    ensures AlignedCover(start, end, k, BlockBase(start, k)) && BlockBase(start, k) + Pow2(k) <= MAX_WORD
  {
    hide Pow2;
    BlockFits(start, k, fit);
    NoWrap(BlockBase(start, k) + Pow2(k));
  }

  lemma NoWrap(x: nat)
    ensures x <= MAX_WORD ==> Wrap(x) == x
  {}

  lemma Pow2Next(k: nat)
    ensures Pow2(k + 1) == 2 * Pow2(k)
  {}

  lemma WordPow2(k: nat, fit: nat)
    requires k <= fit <= 31
    ensures Pow2(k) - 1 <= MAX_WORD && Pow2(k) <= MAX_WORD
  {
    Pow2Monotone(k, 31);
    WordSize();
  }

  /** A block shorter than the range does not cover it; so it is smaller than the one that does. */
  lemma TooSmall(start: Word, end: Word, k: nat, fit: nat)
    requires start < end && Pow2(k) < end - start && k <= fit && Fitting(start, end, fit)
    ensures !Coverable(start, end, k) && k < fit && 2 * Pow2(k) == Pow2(k + 1) <= MAX_WORD
  {
    OnlyOwnBlock(start, end, k);
    Pow2Monotone(k, fit);
    WordPow2(fit, fit);
  }

  /** start's smaller blocks lie inside its larger ones. */
  lemma {:induction false} BlockFits(start: Word, k: nat, fit: nat)
    requires k <= fit
    ensures BlockBase(start, k) + Pow2(k) <= BlockBase(start, fit) + Pow2(fit)
    decreases fit - k
  {
    if k < fit {
      HalfRemainder2(start, Pow2(k));
      BlockFits(start, k + 1, fit);
    }
  }

  // ---- and when there is no such block ----

  /** size after n rounds of either loop. */
  function SizeAfter(n: nat): Word {
    Wrap(Pow2(5 + n))
  }

  /** Without a representable block the guard of the second loop holds whatever number of rounds has doubled the size,
      also after the size has wrapped to 0; so once in that loop the source never leaves it, and the loops end exactly
      on representable ranges. */
  lemma NeverLeaves(start: Word, end: Word, n: nat)
    requires start < end && !Representable(start, end)
    ensures
      var size := SizeAfter(n);
      Wrap(And(start, Not(Wrap(size - 1))) + size) < end
  {
    hide Pow2, And, BlockBase, Representable, Fitting;
    if n >= 27 {
      SizeVanishes(n);
      BaseVanishes(start);
    } else {
      StillTooSmall(start, end, 5 + n);
    }
  }

  lemma BaseVanishes(start: Word)
    ensures And(start, Not(Wrap(0 - 1))) == 0
  {}

  /** The last block of the address space: on a range that ends with its last byte the loops do not end. */
  lemma TopOfMemory()
    ensures !Representable(0xFFFF_FFE0, 0xFFFF_FFFF)
    ensures forall n: nat :: Wrap(And(0xFFFF_FFE0, Not(Wrap(SizeAfter(n) - 1))) + SizeAfter(n)) < 0xFFFF_FFFF
  {
    hide And, Not, Wrap, SizeAfter, BlockBase;
    forall k: nat | 5 <= k <= 31 ensures !Fitting(0xFFFF_FFE0, 0xFFFF_FFFF, k) {
      TopBlock(k);
    }
    forall n: nat ensures Wrap(And(0xFFFF_FFE0, Not(Wrap(SizeAfter(n) - 1))) + SizeAfter(n)) < 0xFFFF_FFFF {
      NeverLeaves(0xFFFF_FFE0, 0xFFFF_FFFF, n);
    }
  }

  lemma TopBlock(k: nat)
    requires 5 <= k <= 31
    ensures BlockBase(0xFFFF_FFE0, k) + Pow2(k) == 0x1_0000_0000
  {
    hide Pow2;
    WordSize();
    Pow2Sum(32 - k, k);
    Pow2Monotone(5, k);
    TopRemainder(Pow2(32 - k), Pow2(k));
  }

  lemma TopRemainder(q: nat, p: nat)
    requires q > 0 && p >= 32 && q * p == 0x1_0000_0000
    ensures 0xFFFF_FFE0 % p == p - 32
  {
    assert (q - 1) * p == q * p - p;
    RemainderIs(0xFFFF_FFE0, p, q - 1, p - 32);
  }

  lemma SizeVanishes(n: nat)
    requires n >= 27
    ensures SizeAfter(n) == 0
  {
    Pow2Sum(32, n - 27);
    WordSize();
    RemainderIs(Pow2(5 + n), 0x1_0000_0000, Pow2(n - 27), 0);
  }

  lemma StillTooSmall(start: Word, end: Word, k: nat)
    requires start < end && 5 <= k <= 31 && !Representable(start, end)
    ensures
      && Wrap(Pow2(k)) == Pow2(k)
      && Wrap(And(start, Not(Wrap(Pow2(k) - 1))) + Pow2(k)) < end
  {
    hide Pow2, And, Not, Wrap, BlockBase;
    WordPow2(k, 31);
    WrapSmall(Pow2(k));
    WrapSmall(Pow2(k) - 1);
    HighMask(start, k);
    OwnBase(start, k);
    assert !Fitting(start, end, k);
    WrapEnd(BlockBase(start, k) + Pow2(k), end);
  }

  lemma WrapEnd(x: nat, end: nat)
    requires 0 < end <= MAX_WORD && x <= WORD && !(end <= x <= MAX_WORD)
    ensures Wrap(x) < end
  {}

  /** start's block ends at the end of the address space or below. */
  lemma OwnBase(start: Word, k: nat)
    requires k <= 31
    ensures BlockBase(start, k) == start - start % Pow2(k) && BlockBase(start, k) + Pow2(k) <= 0x1_0000_0000
  {
    BlockFits(start, k, 32);
    WordSize();
    RemainderIs(start, Pow2(32), 0, start);
  }

  // ---- private regions ----

  /** arch_set_task_private_data: the SIZE field for a task's private region. */
  method PrivateRegion(base: Word, bytes: Word) returns (r: Region)
    requires bytes <= 0x8000_0000
    ensures r.Disabled? <==> bytes == 0
    ensures r.Region? ==> r.base == base && r.size >= 4 && bytes <= Bytes(r) && (r.size > 4 ==> Bytes(r) < 2 * bytes)
    ensures IsPow2(bytes) && bytes >= 32 ==> r.Region? && Bytes(r) == bytes
  {
    if bytes == 0 {
      return Disabled;
    }
    var encoding := 4;
    var represented: Word := 32;
    WordSize();
    while represented < bytes
      invariant 4 <= encoding && represented == Pow2(encoding + 1)
      invariant encoding > 4 ==> represented < 2 * bytes
      invariant represented <= 0x8000_0000
      decreases bytes - represented
    {
      if encoding + 1 < 31 {
        Pow2Monotone(encoding + 1, 31);
      } else {
        Pow2Monotone(31, encoding + 1);
      }
      represented := represented * 2;
      encoding := encoding + 1;
    }
    if IsPow2(bytes) && bytes >= 32 {
      PowerOfTwoExact(bytes, encoding);
    }
    return Region(base, encoding);
  }

  /** An accepted private region, a power of two of at least 32 bytes, is encoded exactly. */
  lemma PowerOfTwoExact(bytes: nat, size: nat)
    requires IsPow2(bytes) && bytes >= 32 && size >= 4
    requires bytes <= Pow2(size + 1) && (size > 4 ==> Pow2(size + 1) < 2 * bytes)
    ensures Pow2(size + 1) == bytes
  {
    var k: nat :| bytes == Pow2(k);
    WordSize();
    if k < size + 1 {
      Pow2Monotone(k, size + 1);
    } else if size + 1 < k {
      Pow2Monotone(size + 1, k);
    }
  }
}
