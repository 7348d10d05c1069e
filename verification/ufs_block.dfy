/** Raw blocks of the store below a file system.

    A block is its bits: words are 32 consecutive bits, least significant first, and byte j is
    bits 8j to 8j+7.  The superblock, the inode blocks and the indirect blocks are read as words,
    the free bitmap as bytes, all of the same bits, as the union in ufsdisk.h does. */
module BlockStore {

  /** References that fit in one indirect block.  A block holds at least one 16-word inode, and is
      at most 4096 bytes, so that offsets into the largest file fit in the code's 32-bit integers. */
  type RefCount = n: nat | 16 <= n <= 1024 witness 16

  const REFS_PER_BLOCK: RefCount
  const REFS_PER_INODE: nat := 15
  const WORDS_PER_INODE: nat := 16
  const INODES_PER_BLOCK: nat := REFS_PER_BLOCK / WORDS_PER_INODE
  const BLOCK_SIZE: nat := 4 * REFS_PER_BLOCK
  const BLOCK_BITS: nat := 32 * REFS_PER_BLOCK
  const WORD_LIMIT: nat := 0x1_0000_0000

  type Block = b: seq<bool> | |b| == BLOCK_BITS witness seq(BLOCK_BITS, i => false)

  /** null_block */
  function NullBlock(): Block {
    seq(BLOCK_BITS, i => false)
  }

  function FromBits(bits: seq<bool>): nat {
    if bits == [] then 0 else (if bits[0] then 1 else 0) + 2 * FromBits(bits[1..])
  }

  function ToBits(value: nat, width: nat): (bits: seq<bool>)
    ensures |bits| == width
  {
    if width == 0 then [] else [value % 2 == 1] + ToBits(value / 2, width - 1)
  }

  function Pow2(n: nat): nat {
    if n == 0 then 1 else 2 * Pow2(n - 1)
  }

  lemma {:induction false} BitsRoundTrip(value: nat, width: nat)
    requires value < Pow2(width)
    ensures FromBits(ToBits(value, width)) == value
  {
    if width > 0 {
      BitsRoundTrip(value / 2, width - 1);
      assert ToBits(value, width)[1..] == ToBits(value / 2, width - 1);
    }
  }

  lemma {:induction false} NoBitsNoValue(bits: seq<bool>)
    requires forall i | 0 <= i < |bits| :: !bits[i]
    ensures FromBits(bits) == 0
  {
    if bits != [] {
      NoBitsNoValue(bits[1..]);
    }
  }

  lemma {:induction false} BitsBelow(bits: seq<bool>)
    ensures FromBits(bits) < Pow2(|bits|)
  {
    if bits != [] {
      BitsBelow(bits[1..]);
    }
  }

  function WordAt(block: Block, i: nat): nat
    requires i < REFS_PER_BLOCK
  {
    FromBits(block[32 * i..32 * i + 32])
  }

  lemma WordBelow(block: Block, i: nat)
    requires i < REFS_PER_BLOCK
    ensures WordAt(block, i) < WORD_LIMIT
  {
    BitsBelow(block[32 * i..32 * i + 32]);
    Pow2Of32();
  }

  /** Store a word: only that word changes. */
  function SetWord(block: Block, i: nat, value: nat): (r: Block)
    requires i < REFS_PER_BLOCK && value < WORD_LIMIT
    ensures forall j: nat | j < REFS_PER_BLOCK :: WordAt(r, j) == if j == i then value else WordAt(block, j)
  {
    var r := block[..32 * i] + ToBits(value, 32) + block[32 * i + 32..];
    assert WordAt(r, i) == value by {
      assert r[32 * i..32 * i + 32] == ToBits(value, 32);
      assert Pow2(32) == WORD_LIMIT by { Pow2Of32(); }
      BitsRoundTrip(value, 32);
    }
    assert forall j: nat | j < REFS_PER_BLOCK && j != i :: WordAt(r, j) == WordAt(block, j) by {
      forall j: nat | j < REFS_PER_BLOCK && j != i
        ensures r[32 * j..32 * j + 32] == block[32 * j..32 * j + 32]
      {
        if j < i {
          assert 32 * j + 32 <= 32 * i;
        } else {
          assert 32 * i + 32 <= 32 * j;
        }
      }
    }
    r
  }

  lemma Pow2Of32()
    ensures Pow2(32) == WORD_LIMIT
  {
    assert Pow2(8) == 256;
    assert Pow2(16) == 65536 by { assert Pow2(12) == 4096; }
    assert Pow2(24) == 16777216 by { assert Pow2(20) == 1048576; }
    assert Pow2(28) == 268435456;
  }

  lemma NullWords()
    ensures forall i: nat | i < REFS_PER_BLOCK :: WordAt(NullBlock(), i) == 0
  {
    forall i: nat | i < REFS_PER_BLOCK
      ensures WordAt(NullBlock(), i) == 0
    {
      NoBitsNoValue(NullBlock()[32 * i..32 * i + 32]);
    }
  }

  /** The block store below: numbered blocks, read and written whole. */
  class Store {
    var blocks: seq<Block>

    constructor (blocks: seq<Block>)
      ensures this.blocks == blocks
    {
      this.blocks := blocks;
    }

    method Read(b: nat) returns (block: Block)
      requires b < |blocks|
      ensures block == blocks[b]
    {
      block := blocks[b];
    }

    method Write(b: nat, block: Block)
      requires b < |blocks|
      modifies this
      ensures blocks == old(blocks)[b := block]
    {
      blocks := blocks[b := block];
    }
  }
}
