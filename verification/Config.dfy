/** The compile-time choices of include/block.h. */
module Configuration {
  import opened Arithmetic
  import opened Bytes
  import opened Slots

  datatype Config = Config(levels: nat, blocks: nat, blockSize: nat) {

    /** The blocks of the whole tree, the number that selects the width of a block id. */
    function Capacity(): nat {
      (Pow2(levels) - 1) * blocks
    }

    /** The `#error` directives, and sizes at least one. With 256 or more blocks per bucket the 8-bit
        counter of src/server.cpp:518 never reaches their number, see `SlotLoopEndsIff`. */
    predicate Legal() {
      && levels > 1 && 0 < blocks < Space(1)
      && Capacity() < Space(8)
      && blockSize > 0 && blockSize % 16 == 0 && blockSize <= 100000
      && blockSize * blocks * levels <= 9000000
    }

    /** `sizeof(blkid_t)` */
    function IdBytes(): nat {
      if Capacity() < 0x100 then 1
      else if Capacity() < 0x10000 then 2
      else if Capacity() < 0x100000000 then 4
      else 8
    }

    function IdSpace(): nat {
      Space(IdBytes())
    }

    /** `BYTES_PER_DATA` */
    function DataBytes(): nat
      requires Legal()
    {
      blockSize - IdBytes()
    }

    /** A block id has a value for every block of the tree besides 0, and all indices of leaves,
        buckets and slots fit its width. */
    lemma IdsSuffice()
      requires Legal()
      ensures Capacity() < IdSpace()
      ensures Pow2(levels) - 1 < IdSpace() == Pow2(8 * IdBytes())
      ensures levels <= 8 * IdBytes() && levels <= IdSpace() && 1 < IdSpace()
      ensures Start(blocks, levels) < IdSpace()
    {
      SpaceValues();
      SpaceIsPow2(IdBytes());
      MulMonotone(1, blocks, Pow2(levels) - 1);
      if levels > 8 * IdBytes() {
        Pow2Monotone(8 * IdBytes(), levels);
        assert false;
      }
      LevelsBelowPow2(levels);
      StartIsProduct(blocks, levels);
      MulMonotone(levels, Pow2(levels) - 1, blocks);
    }

    /** The width is the least of 1, 2, 4 and 8 whose values outnumber the blocks of the tree. */
    lemma WidthIsLeast(w: nat)
      requires Legal() && w in {1, 2, 4, 8}
      ensures IdBytes() in {1, 2, 4, 8}
      ensures Capacity() < Space(w) <==> IdBytes() <= w
    {
      SpaceValues();
      EightBytes();
    }

    lemma BucketFits()
      requires Legal()
      ensures 0 < blockSize * blocks <= 9000000
    {
      BucketBytesFit(blockSize, blocks, levels);
    }
  }

  lemma BucketBytesFit(blockSize: nat, blocks: nat, levels: nat)
    requires blockSize > 0 && blocks > 0 && levels > 0 && blockSize * blocks * levels <= 9000000
    ensures 0 < blockSize * blocks <= 9000000
  {
    MulMonotone(1, blockSize, blocks);
    MulMonotone(1, levels, blockSize * blocks);
  }

  /** Some value of an 8-bit counter ends the loop over the blocks of a bucket exactly when there are
      less than 256. */
  lemma SlotLoopEndsIff(blocks: nat)
    ensures (exists n: nat :: Wrap(n, Space(1)) >= blocks) <==> blocks < Space(1)
  {
    SpaceValues();
    if blocks < Space(1) {
      WrapFits(blocks, Space(1));
    }
    forall n: nat
      ensures Wrap(n, Space(1)) < Space(1)
    {
      WrapBelow(n, Space(1));
    }
  }

  /** The build without options: one byte for an id, and 1023 bytes of data in a block. */
  const DEFAULT := Config(8, 1, 1024)

  lemma DefaultBuild()
    ensures DEFAULT.Legal() && DEFAULT.Capacity() == 255
    ensures DEFAULT.IdBytes() == 1 && DEFAULT.IdSpace() == 256 && DEFAULT.DataBytes() == 1023
  {
    SmallPowers();
    SpaceValues();
    EightBytes();
  }

  /** Configurations at the edges of the guards: those on the left compile, those on the right do not. */
  lemma LegalEdges()
    ensures Config(2, 1, 16).Legal() && !Config(1, 1, 16).Legal() && !Config(2, 0, 16).Legal()
    ensures !Config(2, 1, 0).Legal() && !Config(2, 1, 17).Legal() && !Config(2, 1, 24).Legal()
    ensures Config(2, 1, 100000).Legal() && !Config(2, 1, 100016).Legal()
    ensures Config(10, 9, 100000).Legal() && !Config(10, 10, 90016).Legal()
    ensures Config(2, 255, 16).Legal() && !Config(2, 256, 16).Legal()
  {
    SmallPowers();
    SpaceValues();
    EightBytes();
  }

  lemma SmallPowers()
    ensures Pow2(1) == 2 && Pow2(2) == 4 && Pow2(8) == 256 && Pow2(10) == 1024
  {
    assert Pow2(4) == 16;
    assert Pow2(7) == 128;
  }

  lemma EightBytes()
    ensures Space(8) > Space(4)
  {
    assert Space(5) == 256 * Space(4);
    assert Space(6) == 256 * Space(5);
    assert Space(7) == 256 * Space(6);
    assert Space(8) == 256 * Space(7);
  }

  lemma SpaceValues()
    ensures Space(1) == 0x100 && Space(2) == 0x10000 && Space(4) == 0x100000000
  {
    assert Space(3) == 256 * Space(2);
  }

  lemma {:induction false} SpaceGrows(w: nat)
    requires w <= 4
    ensures Space(w) <= Space(4)
    decreases 4 - w
  {
    if w < 4 {
      SpaceGrows(w + 1);
    }
  }

  lemma {:induction false} SpaceIsPow2(w: nat)
    ensures Space(w) == Pow2(8 * w)
  {
    if w > 0 {
      SpaceIsPow2(w - 1);
      Pow2Add(8, 8 * (w - 1));
      assert Pow2(8) == 256 by { assert Pow2(4) == 16; }
      assert 8 + 8 * (w - 1) == 8 * w;
    }
  }

  lemma {:induction false} LevelsBelowPow2(n: nat)
    ensures n < Pow2(n)
  {
    if n > 0 {
      LevelsBelowPow2(n - 1);
    }
  }
}
