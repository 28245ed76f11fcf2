/** Event bits one by one. */
module EventBits {
  import opened Machine

  /** Bit j of a word of event bits. */
  predicate On(b: bv32, j: bv6)
    requires j < 32
  {
    (b >> j) & 1 == 1
  }

  /** What an event wait asks for: every requested bit, or some requested bit. */
  ghost predicate Meets(b: bv32, requested: bv32, all: bool) {
    if all then forall j: bv6 | j < 32 && On(requested, j) :: On(b, j)
    else exists j: bv6 :: j < 32 && On(requested, j) && On(b, j)
  }

  lemma {:induction false} SomeBitFrom(x: bv32, k: bv6) returns (j: bv6)
    requires k < 32 && x >> k != 0
    ensures j < 32 && On(x, j)
    decreases 32 - k as int
  {
    if On(x, k) {
      j := k;
    } else {
      assert k < 31;
      j := SomeBitFrom(x, k + 1);
    }
  }

  lemma SomeBit(x: bv32) returns (j: bv6)
    requires x != 0
    ensures j < 32 && On(x, j)
  {
    j := SomeBitFrom(x, 0);
  }

  lemma OrBit(a: bv32, b: bv32, j: bv6)
    requires j < 32
    ensures On(a | b, j) <==> On(a, j) || On(b, j)
  {}

  lemma AndBit(a: bv32, b: bv32, j: bv6)
    requires j < 32
    ensures On(a & b, j) <==> On(a, j) && On(b, j)
  {}

  lemma AndNotBit(a: bv32, b: bv32, j: bv6)
    requires j < 32
    ensures On(a & !b, j) <==> On(a, j) && !On(b, j)
  {}

  lemma ZeroBit(j: bv6)
    requires j < 32
    ensures !On(0, j)
  {}

  /** The test of the kernel, read bit by bit. */
  lemma ConditionIffMeets(b: bv32, requested: bv32, all: bool)
    ensures EventCondition(b, requested, all) <==> Meets(b, requested, all)
  {
    hide On;
    if all {
      AllIffMeets(b, requested);
    } else {
      SomeIffMeets(b, requested);
    }
  }

  lemma AllIffMeets(b: bv32, requested: bv32)
    ensures b & requested == requested <==> Meets(b, requested, true)
  {
    hide On;
    if b & requested == requested {
      forall j: bv6 | j < 32 && On(requested, j) ensures On(b, j) {
        AndBit(b, requested, j);
      }
    } else {
      MissingBit(b, requested);
      var j := SomeBit(requested & !b);
      AndNotBit(requested, b, j);
    }
  }

  lemma MissingBit(b: bv32, requested: bv32)
    requires b & requested != requested
    ensures requested & !b != 0
  {}

  lemma SomeIffMeets(b: bv32, requested: bv32)
    ensures b & requested != 0 <==> Meets(b, requested, false)
  {
    hide On;
    if b & requested != 0 {
      var j := SomeBit(b & requested);
      AndBit(b, requested, j);
    }
    if Meets(b, requested, false) {
      var j: bv6 :| j < 32 && On(requested, j) && On(b, j);
      AndBit(b, requested, j);
      ZeroBit(j);
    }
  }

  /** The three masks of the kernel, bit by bit. */
  lemma WithBit(b: bv32, bits: bv32, j: bv6)
    requires j < 32
    ensures On(WithBits(b, bits), j) <==> On(b, j) || On(bits, j)
  {
    hide On;
    OrBit(b, bits, j);
  }

  lemma WithoutBit(b: bv32, bits: bv32, j: bv6)
    requires j < 32
    ensures On(WithoutBits(b, bits), j) <==> On(b, j) && !On(bits, j)
  {
    hide On;
    AndNotBit(b, bits, j);
  }

  lemma CommonBit(b: bv32, bits: bv32, j: bv6)
    requires j < 32
    ensures On(CommonBits(b, bits), j) <==> On(b, j) && On(bits, j)
  {
    hide On;
    AndBit(b, bits, j);
  }
}
