/** 32-bit words as sets of bits: the bit tricks of the source in terms of numbers. */
module Bits {
  import opened Arith
  import opened Types

  function Pow2(k: nat): (r: nat)
    ensures r > 0
  {
    if k == 0 then 1 else 2 * Pow2(k - 1)
  }

  lemma WordSize()
    ensures Pow2(32) == 0x1_0000_0000 && Pow2(64) == 0x1_0000_0000_0000_0000 && Pow2(31) == 0x8000_0000 && Pow2(5) == 32
  {
    assert Pow2(8) == 256;
    assert Pow2(16) == 65536;
    assert Pow2(24) == 0x100_0000;
    Pow2Sum(32, 32);
  }

  lemma {:induction false} Pow2Sum(a: nat, b: nat)
    ensures Pow2(a + b) == Pow2(a) * Pow2(b)
  {
    if a > 0 {
      Pow2Sum(a - 1, b);
    }
  }

  lemma {:induction false} Pow2Monotone(a: nat, b: nat)
    requires a <= b
    ensures Pow2(a) <= Pow2(b) && (a < b ==> 2 * Pow2(a) <= Pow2(b))
    decreases b - a
  {
    if a < b {
      Pow2Monotone(a + 1, b);
    }
  }

  // ---- operators ----

  /** a & b */
  function And(a: nat, b: nat): (r: nat)
    ensures r <= a && r <= b
  {
    if a == 0 || b == 0 then 0 else 2 * And(a / 2, b / 2) + if a % 2 == 1 && b % 2 == 1 then 1 else 0
  }

  /** a | b */
  function Or(a: nat, b: nat): (r: nat)
    ensures a <= r && b <= r
    decreases a + b
  {
    if a == 0 then b else if b == 0 then a
    else 2 * Or(a / 2, b / 2) + if a % 2 == 1 || b % 2 == 1 then 1 else 0
  }

  /** ~a on 32 bits. */
  function Not(a: Word): Word {
    MAX_WORD - a
  }

  /** Bit j of a. */
  predicate Bit(a: nat, j: nat) {
    if j == 0 then a % 2 == 1 else Bit(a / 2, j - 1)
  }

  lemma {:induction false} AndBit(a: nat, b: nat, j: nat)
    ensures Bit(And(a, b), j) <==> Bit(a, j) && Bit(b, j)
    decreases j
  {
    if a == 0 || b == 0 {
      ZeroBit(j);
    } else if j > 0 {
      assert And(a, b) / 2 == And(a / 2, b / 2);
      AndBit(a / 2, b / 2, j - 1);
    }
  }

  lemma {:induction false} OrBit(a: nat, b: nat, j: nat)
    ensures Bit(Or(a, b), j) <==> Bit(a, j) || Bit(b, j)
    decreases j
  {
    if a == 0 || b == 0 {
      ZeroBit(j);
    } else if j > 0 {
      assert Or(a, b) / 2 == Or(a / 2, b / 2);
      OrBit(a / 2, b / 2, j - 1);
    }
  }

  lemma {:induction false} ZeroBit(j: nat)
    ensures !Bit(0, j)
  {
    if j > 0 {
      ZeroBit(j - 1);
    }
  }

  lemma {:induction false} Pow2Bit(k: nat, j: nat)
    ensures Bit(Pow2(k), j) <==> j == k
    decreases k
  {
    if k == 0 {
      if j > 0 {
        ZeroBit(j - 1);
      }
    } else if j > 0 {
      assert Pow2(k) / 2 == Pow2(k - 1);
      Pow2Bit(k - 1, j - 1);
    }
  }

  lemma {:induction false} ComplementBit(a: nat, n: nat, j: nat)
    requires a < Pow2(n) && j < n
    ensures Bit(Pow2(n) - 1 - a, j) <==> !Bit(a, j)
    decreases j
  {
    var c := Pow2(n) - 1 - a;
    assert a + c == 2 * Pow2(n - 1) - 1;
    if j > 0 {
      assert c / 2 == Pow2(n - 1) - 1 - a / 2;
      ComplementBit(a / 2, n - 1, j - 1);
    }
  }

  lemma NotBit(a: Word, j: nat)
    requires j < 32
    ensures Bit(Not(a), j) <==> !Bit(a, j)
  {
    WordSize();
    ComplementBit(a, 32, j);
  }

  /** A word is determined by its bits. */
  lemma {:induction false} BitsDetermine(a: nat, b: nat, n: nat)
    requires a < Pow2(n) && b < Pow2(n) && forall j: nat | j < n :: Bit(a, j) <==> Bit(b, j)
    ensures a == b
    decreases n
  {
    if n > 0 {
      forall j: nat | j < n - 1 ensures Bit(a / 2, j) <==> Bit(b / 2, j) {
        assert Bit(a, j + 1) <==> Bit(b, j + 1);
      }
      BitsDetermine(a / 2, b / 2, n - 1);
      assert Bit(a, 0) <==> Bit(b, 0);
    }
  }

  // ---- masks ----

  /** a & (2^k - 1) */
  lemma {:induction false} LowMask(a: nat, k: nat)
    ensures And(a, Pow2(k) - 1) == a % Pow2(k)
    decreases k
  {
    hide And;
    if k > 0 {
      var h := Pow2(k - 1);
      LowMask(a / 2, k - 1);
      HalfRemainder(a, h);
      assert (2 * h - 1) / 2 == h - 1 && (2 * h - 1) % 2 == 1;
      AndHalves(a, 2 * h - 1);
    } else {
      AndHalves(a, 0);
      AndZero(a / 2);
    }
  }

  lemma AndZero(a: nat)
    ensures And(a, 0) == 0
  {}

  lemma HalfRemainder(a: nat, h: nat)
    requires h > 0
    ensures a % (2 * h) == 2 * ((a / 2) % h) + a % 2
  {
    var q, r := (a / 2) / h, (a / 2) % h;
    assert a / 2 == q * h + r;
    assert a == 2 * (a / 2) + a % 2;
    assert a == q * (2 * h) + (2 * r + a % 2) by {
      assert 2 * (q * h) == q * (2 * h);
    }
    RemainderIs(a, 2 * h, q, 2 * r + a % 2);
  }

  lemma RemainderIs(a: nat, n: nat, q: nat, r: nat)
    requires n > 0 && r < n && a == q * n + r
    ensures a % n == r && a / n == q
  {
    QuotientIs(a, n, q);
  }

  /** a & ~(2^k - 1): a rounded down to a multiple of 2^k. */
  lemma HighMask(a: Word, k: nat)
    requires k <= 32 && Pow2(k) - 1 <= MAX_WORD
    ensures And(a, Not(Pow2(k) - 1)) == a - a % Pow2(k)
  {
    WordSize();
    LowMask(a, k);
    HighAndLow(a, Pow2(k) - 1, 32);
  }

  /** What a mask keeps and what its complement keeps add up. */
  lemma {:induction false} HighAndLow(a: nat, m: nat, n: nat)
    requires a < Pow2(n) && m < Pow2(n)
    ensures And(a, Pow2(n) - 1 - m) + And(a, m) == a
    decreases n
  {
    hide And;
    if n > 0 {
      HighAndLow(a / 2, m / 2, n - 1);
      var c := Pow2(n) - 1 - m;
      assert c / 2 == Pow2(n - 1) - 1 - m / 2;
      assert c % 2 == 1 - m % 2;
      AndHalves(a, c);
      AndHalves(a, m);
    } else {
      AndZero(a);
    }
  }

  lemma AndHalves(a: nat, b: nat)
    ensures And(a, b) == 2 * And(a / 2, b / 2) + if a % 2 == 1 && b % 2 == 1 then 1 else 0
  {}

  ghost predicate IsPow2(x: nat) {
    exists k: nat :: x == Pow2(k)
  }

  /** x & (x - 1) is 0 exactly for powers of two (and for 0). */
  lemma {:induction false} PowerOfTwoTest(x: nat)
    requires x > 0
    ensures And(x, x - 1) == 0 <==> IsPow2(x)
    decreases x
  {
    AndHalves(x, x - 1);
    if x == 1 {
      assert x == Pow2(0);
    } else if x % 2 == 1 {
      assert (x - 1) / 2 == x / 2;
      AndSelf(x / 2);
      forall k: nat ensures x != Pow2(k) {
        if k > 0 {
          assert Pow2(k) % 2 == 0;
        }
      }
    } else {
      assert (x - 1) / 2 == x / 2 - 1;
      PowerOfTwoTest(x / 2);
      if k: nat :| x / 2 == Pow2(k) {
        assert x == Pow2(k + 1);
      }
      if k: nat :| x == Pow2(k) {
        assert k > 0 && x / 2 == Pow2(k - 1);
      }
    }
  }

  lemma {:induction false} AndSelf(x: nat)
    ensures And(x, x) == x
  {
    if x > 0 {
      AndSelf(x / 2);
    }
  }
}
