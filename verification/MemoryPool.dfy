/** Fixed-block memory pools over a bitmap of 32-bit words. */
module MemoryPool {
  import opened Arith
  import opened Types
  import opened Bits

  /** Block i is marked in the bitmap. */
  predicate Marked(words: seq<Word>, i: nat) {
    i / 32 < |words| && Bit(words[i / 32], i % 32)
  }

  /** The marked blocks among the first count. */
  ghost function Live(words: seq<Word>, count: nat): set<nat> {
    set i: nat | i < count && Marked(words, i)
  }

  function BitmapWords(count: Word): Word
    requires count <= MAX_WORD - 31
  {
    (count + 31) / 32
  }

  function SetMark(words: seq<Word>, i: nat): (r: seq<Word>)
    requires i / 32 < |words|
    ensures |r| == |words|
  {
    MaskFits(i % 32);
    OrFits(words[i / 32], Pow2(i % 32));
    words[i / 32 := Or(words[i / 32], Pow2(i % 32))]
  }

  function ClearMark(words: seq<Word>, i: nat): (r: seq<Word>)
    requires i / 32 < |words|
    ensures |r| == |words|
  {
    MaskFits(i % 32);
    words[i / 32 := And(words[i / 32], Not(Pow2(i % 32)))]
  }

  lemma MaskFits(k: nat)
    requires k < 32
    ensures Pow2(k) <= 0x8000_0000
  {
    Pow2Monotone(k, 31);
    WordSize();
  }

  lemma {:induction false} OrBelow(a: nat, b: nat, n: nat)
    requires a < Pow2(n) && b < Pow2(n)
    ensures Or(a, b) < Pow2(n)
    decreases n
  {
    if a > 0 && b > 0 {
      OrBelow(a / 2, b / 2, n - 1);
    }
  }

  lemma OrFits(a: Word, b: Word)
    ensures Or(a, b) <= MAX_WORD
  {
    WordSize();
    OrBelow(a, b, 32);
  }

  lemma SetMarkAt(words: seq<Word>, i: nat, j: nat)
    requires i / 32 < |words|
    ensures Marked(SetMark(words, i), j) <==> j == i || Marked(words, j)
  {
    if j / 32 == i / 32 {
      OrBit(words[i / 32], Pow2(i % 32), j % 32);
      Pow2Bit(i % 32, j % 32);
    }
  }

  lemma ClearMarkAt(words: seq<Word>, i: nat, j: nat)
    requires i / 32 < |words|
    ensures Marked(ClearMark(words, i), j) <==> j != i && Marked(words, j)
  {
    if j / 32 == i / 32 {
      MaskFits(i % 32);
      AndBit(words[i / 32], Not(Pow2(i % 32)), j % 32);
      NotBit(Pow2(i % 32), j % 32);
      Pow2Bit(i % 32, j % 32);
    }
  }

  /** The test of the source: a word and a mask of one bit have that bit in common, or nothing. */
  lemma TestMark(words: seq<Word>, i: nat)
    requires i / 32 < |words|
    ensures And(words[i / 32], Pow2(i % 32)) == 0 <==> !Marked(words, i)
  {
    var w, k := words[i / 32], i % 32;
    AndBit(w, Pow2(k), k);
    Pow2Bit(k, k);
    ZeroBit(k);
    if !Bit(w, k) {
      forall j: nat | j < 32 ensures Bit(And(w, Pow2(k)), j) <==> Bit(0, j) {
        AndBit(w, Pow2(k), j);
        Pow2Bit(k, j);
        ZeroBit(j);
      }
      WordSize();
      BitsDetermine(And(w, Pow2(k)), 0, 32);
    }
  }

  /** Freeing what was just allocated restores the bitmap, word for word. */
  lemma ClearAfterSet(words: seq<Word>, i: nat)
    requires i / 32 < |words| && !Marked(words, i)
    ensures ClearMark(SetMark(words, i), i) == words
  {
    var r := ClearMark(SetMark(words, i), i);
    var q := i / 32;
    WordSize();
    forall j: nat | j < 32 ensures Bit(r[q], j) <==> Bit(words[q], j) {
      var n := q * 32 + j;
      RemainderIs(n, 32, q, j);
      SetMarkAt(words, i, n);
      ClearMarkAt(SetMark(words, i), i, n);
    }
    BitsDetermine(r[q], words[q], 32);
  }

  lemma LiveAfterSet(words: seq<Word>, i: nat, count: nat)
    requires i / 32 < |words| && i < count
    ensures Live(SetMark(words, i), count) == Live(words, count) + {i}
  {
    forall j: nat ensures Marked(SetMark(words, i), j) <==> j == i || Marked(words, j) {
      SetMarkAt(words, i, j);
    }
  }

  lemma LiveAfterClear(words: seq<Word>, i: nat, count: nat)
    requires i / 32 < |words|
    ensures Live(ClearMark(words, i), count) == Live(words, count) - {i}
  {
    forall j: nat ensures Marked(ClearMark(words, i), j) <==> j != i && Marked(words, j) {
      ClearMarkAt(words, i, j);
    }
  }

  datatype Address = Null | At(address: nat)

  /** storage is an address and 0 the null pointer; a pool that was never created has neither storage nor bitmap. */
  class Pool {
    var storage: nat
    var blockSize: Word
    var blockCount: Word
    var used: array?<Word>

    ghost predicate Created()
      reads this
    {
      storage > 0 && used != null
    }

    /** The storage of a created pool lies inside the address space, and may reach its end. */
    ghost predicate Valid()
      reads this
    {
      Created() ==>
        && blockSize >= 4 && blockCount > 0
        && storage + blockSize * blockCount <= WORD
        && blockCount <= MAX_WORD - 31
        && used.Length >= BitmapWords(blockCount)
    }

    /** The live blocks, as a set of indices. */
    ghost function Contents(): set<nat>
      reads this, used
    {
      if Created() then Live(used[..], blockCount) else {}
    }

    /** Where block i lives. */
    function BlockAddress(i: nat): nat
      reads this
    {
      storage + i * blockSize
    }

    constructor ()
      ensures Valid() && !Created() && storage == 0 && used == null && blockSize == 0
    {
      storage, blockSize, blockCount, used := 0, 0, 0, null;
    }

    /** Arguments that the create call accepts. */
    predicate Acceptable(storage: nat, blockSize: Word, blockCount: Word, bitmap: array?<Word>) {
      storage != 0 && bitmap != null && blockSize >= 4 && blockCount != 0
    }

    lemma CountFits(storage: nat, blockSize: Word, blockCount: Word)
      requires storage > 0 && blockSize >= 4 && storage + blockSize * blockCount <= WORD
      ensures blockCount <= MAX_WORD - 31
    {
      TimesMonotone(4, blockSize, blockCount);
    }

    /** Unacceptable arguments leave the pool as it is; acceptable ones give a pool without live blocks. */
    method Create(storage: nat, blockSize: Word, blockCount: Word, bitmap: array?<Word>)
      requires Valid()
      requires Acceptable(storage, blockSize, blockCount, bitmap) ==>
                 && storage + blockSize * blockCount <= WORD
                 && bitmap.Length * 32 >= blockCount
      modifies this, bitmap
      ensures !Acceptable(storage, blockSize, blockCount, bitmap) ==>
              unchanged(this) && (bitmap != null ==> unchanged(bitmap))
      ensures Acceptable(storage, blockSize, blockCount, bitmap) ==>
                && Created() && Contents() == {} && used == bitmap
                && this.storage == storage && this.blockSize == blockSize && this.blockCount == blockCount
      ensures Valid()
    {
      if storage == 0 || bitmap == null || blockSize < 4 || blockCount == 0 {
        return;
      }
      CountFits(storage, blockSize, blockCount);
      this.storage, this.used, this.blockSize, this.blockCount := storage, bitmap, blockSize, blockCount;
      var index := 0;
      while index < BitmapWords(blockCount)
        invariant index <= BitmapWords(blockCount) <= bitmap.Length
        invariant this.storage == storage && this.used == bitmap && this.blockSize == blockSize
                  && this.blockCount == blockCount
        invariant forall k | 0 <= k < index :: bitmap[k] == 0
      {
        bitmap[index] := 0;
        index := index + 1;
      }
      forall i: nat | i < blockCount ensures !Marked(bitmap[..], i) {
        ZeroBit(i % 32);
      }
    }

    /** The lowest block that is not marked, -1 if there is none. */
    method FirstFree() returns (index: int)
      requires Valid() && Created()
      ensures -1 <= index < blockCount
      ensures index >= 0 ==> !Marked(used[..], index)
      ensures forall j: nat | j < (if index >= 0 then index else blockCount) :: Marked(used[..], j)
    {
      hide Marked;
      index := 0;
      while index < blockCount
        invariant 0 <= index <= blockCount
        invariant forall j: nat | j < index :: Marked(used[..], j)
      {
        MaskFits(index % 32);
        TestMark(used[..], index);
        if And(used[index / 32], Pow2(index % 32)) == 0 {
          return;
        }
        index := index + 1;
      }
      return -1;
    }

    /** The lowest free block, or null exactly when every block is live. */
    method Allocate() returns (block: Address)
      requires Valid()
      modifies used
      ensures Valid()
      ensures !Created() ==> block.Null?
      ensures Created() ==> (block.Null? <==> forall i: nat | i < blockCount :: i in old(Contents()))
      ensures used != null && block.Null? ==> used[..] == old(used[..])
      ensures block.At? ==> exists i: nat ::
                && i < blockCount && block.address == BlockAddress(i)
                && i !in old(Contents()) && (forall j: nat | j < i :: j in old(Contents()))
                && Contents() == old(Contents()) + {i}
                && i / 32 < used.Length && used[..] == SetMark(old(used[..]), i)
    {
      if storage == 0 || used == null {
        return Null;
      }
      hide BlockAddress, Marked, SetMark;
      ghost var before := Contents();
      var index := FirstFree();
      if index < 0 {
        return Null;
      }
      assert index !in before && forall j: nat | j < index :: j in before;
      LiveAfterSet(used[..], index, blockCount);
      Mark(index);
      return At(BlockAddress(index));
    }

    method Mark(index: nat)
      requires used != null && index / 32 < used.Length
      modifies used
      ensures used[..] == SetMark(old(used[..]), index)
    {
      MaskFits(index % 32);
      OrFits(used[index / 32], Pow2(index % 32));
      used[index / 32] := Or(used[index / 32], Pow2(index % 32));
    }

    /** The storage ends with the address space, so that its end address wraps to 0. */
    ghost predicate ReachesTop()
      reads this
    {
      storage + blockSize * blockCount == WORD
    }

    /** The block that starts at an address, -1 if none does; in a pool that reaches the top of memory none is found. */
    method BlockAt(address: nat) returns (index: int)
      requires Valid() && Created()
      ensures index == -1 ==> ReachesTop() || forall i: nat | i < blockCount :: BlockAddress(i) != address
      ensures index != -1 ==> !ReachesTop() && 0 <= index < blockCount && BlockAddress(index) == address
      ensures index != -1 ==> forall i: nat | BlockAddress(i) == address :: i == index
    {
      WrapEnd(storage + blockSize * blockCount);
      if address < storage || address >= Wrap(storage + blockSize * blockCount) {
        if !ReachesTop() {
          OutsideStorage(address);
        }
        return -1;
      }
      var offset := address - storage;
      if offset % blockSize != 0 {
        OffBlocks(offset);
        return -1;
      }
      IndexOf(offset);
      return offset / blockSize;
    }

    lemma WrapEnd(end: nat)
      requires end <= WORD
      ensures Wrap(end) == if end == WORD then 0 else end
    {}

    /** Succeeds exactly on the start address of a live block, and frees it, unless the pool reaches the top of
        memory. */
    method Free(block: Address) returns (ok: bool)
      requires Valid()
      modifies used
      ensures Valid()
      ensures ok <==>
              && block.At? && !ReachesTop()
              && exists i: nat :: i in old(Contents()) && block.address == BlockAddress(i)
      ensures used != null && !ok ==> used[..] == old(used[..])
      ensures forall i: nat | Created() && i < blockCount && ok && block.address == BlockAddress(i) ::
                Contents() == old(Contents()) - {i} && i / 32 < used.Length && used[..] == ClearMark(old(used[..]), i)
    {
      if block.Null? || storage == 0 || used == null || blockSize == 0 {
        return false;
      }
      hide BlockAddress, And, Pow2, Marked, SetMark, ClearMark;
      var index := BlockAt(block.address);
      if index == -1 {
        return false;
      }
      TestMark(used[..], index);
      MaskFits(index % 32);
      if And(used[index / 32], Pow2(index % 32)) == 0 {
        return false;
      }
      assert index in Contents();
      LiveAfterClear(used[..], index, blockCount);
      Unmark(index);
      return true;
    }

    method Unmark(index: nat)
      requires used != null && index / 32 < used.Length
      modifies used
      ensures used[..] == ClearMark(old(used[..]), index)
    {
      MaskFits(index % 32);
      used[index / 32] := And(used[index / 32], Not(Pow2(index % 32)));
    }

    lemma BlockInside(i: nat)
      requires Valid() && Created() && i < blockCount
      ensures storage <= BlockAddress(i) && BlockAddress(i) + blockSize <= storage + blockSize * blockCount
    {
      TimesMonotone(i + 1, blockCount, blockSize);
      assert (i + 1) * blockSize == i * blockSize + blockSize;
      assert blockCount * blockSize == blockSize * blockCount;
    }

    lemma OutsideStorage(address: nat)
      requires Valid() && Created() && (address < storage || address >= storage + blockSize * blockCount)
      ensures forall i: nat | i < blockCount :: BlockAddress(i) != address
    {
      forall i: nat | i < blockCount ensures BlockAddress(i) != address {
        BlockInside(i);
      }
    }

    lemma OffBlocks(offset: nat)
      requires Valid() && Created() && offset % blockSize != 0
      ensures forall i: nat | i < blockCount :: BlockAddress(i) != storage + offset
    {
      forall i: nat | i < blockCount ensures BlockAddress(i) != storage + offset {
        RemainderIs(i * blockSize, blockSize, i, 0);
      }
    }

    lemma IndexOf(offset: nat)
      requires Valid() && Created() && offset < blockSize * blockCount && offset % blockSize == 0
      ensures offset / blockSize < blockCount && BlockAddress(offset / blockSize) == storage + offset
      ensures forall i: nat | BlockAddress(i) == storage + offset :: i == offset / blockSize
    {
      var index := offset / blockSize;
      assert offset == index * blockSize;
      assert blockCount * blockSize == blockSize * blockCount;
      if index >= blockCount {
        TimesMonotone(blockCount, index, blockSize);
      }
      forall i: nat | BlockAddress(i) == storage + offset ensures i == index {
        RemainderIs(offset, blockSize, i, 0);
      }
    }

    /** Different blocks share no byte. */
    lemma BlocksDisjoint(i: nat, j: nat)
      requires Valid() && Created() && i < j < blockCount
      ensures BlockAddress(i) + blockSize <= BlockAddress(j)
              && BlockAddress(j) + blockSize <= storage + blockSize * blockCount
    {
      BlockInside(j);
      TimesMonotone(i + 1, j, blockSize);
      assert (i + 1) * blockSize == i * blockSize + blockSize;
    }
  }

  /** Allocating and freeing at once gives the bitmap back. */
  method AllocateThenFree(pool: Pool) returns (block: Address)
    requires pool.Valid() && pool.Created() && !pool.ReachesTop()
    modifies pool.used
    ensures pool.used[..] == old(pool.used[..])
    ensures block.At? <==> exists i: nat :: i < pool.blockCount && i !in pool.Contents()
  {
    ghost var words := pool.used[..];
    assert pool.Contents() == Live(words, pool.blockCount);
    block := pool.Allocate();
    if block.At? {
      ghost var i: nat :| i < pool.blockCount && block.address == pool.BlockAddress(i)
        && i !in Live(words, pool.blockCount) && i / 32 < |words| && pool.used[..] == SetMark(words, i)
        && pool.Contents() == Live(words, pool.blockCount) + {i};
      ClearAfterSet(words, i);
      var ok := pool.Free(block);
      assert ok;
    }
    assert pool.Contents() == Live(words, pool.blockCount);
  }
}
