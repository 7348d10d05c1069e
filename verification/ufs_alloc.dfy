/** The block allocator: finding and marking a free block, and marking a block free again. */
module UfsAlloc {
  import opened BlockStore
  import opened Division
  import opened UfsTree

  /** The n-th bit of a bitmap block in the order the allocator looks at them. */
  predicate ScanBit(block: Block, n: nat)
    requires n < 8 * BLOCK_SIZE
  {
    block[BitIndex(n / 8, n % 8)]
  }

  /** The first `m` bits looked at are all set. */
  predicate Scanned(block: Block, m: nat)
    requires m <= 8 * BLOCK_SIZE
  {
    forall n: nat | n < m :: ScanBit(block, n)
  }

  /** The status byte is 255. */
  predicate ByteFull(block: Block, j: nat)
    requires j < BLOCK_SIZE
  {
    forall i: nat | 8 * j <= i < 8 * j + 8 :: block[i]
  }

  lemma FullByteBits(block: Block, j: nat, n: nat)
    requires j < BLOCK_SIZE && ByteFull(block, j) && 8 * j <= n < 8 * j + 8
    ensures ScanBit(block, n)
  {
    assert n / 8 == j;
    assert block[BitIndex(j, n % 8)];
  }

  /** Look through one bitmap block for a clear bit, counting block numbers on from `before`.
      Full bytes are skipped whole; the outcome is that of looking at every bit in turn. */
  method FindInBlock(block: Block, before: nat) returns (found: bool, byte: nat, bit: nat, b: nat)
    ensures b >= before
    ensures found ==> byte < BLOCK_SIZE && bit < 8 && b == before + 1 + 8 * byte + bit
                      && !block[BitIndex(byte, bit)]
                      && Scanned(block, 8 * byte + bit)
    ensures !found ==> b == before + 8 * BLOCK_SIZE && Scanned(block, 8 * BLOCK_SIZE)
  {
    b := before;
    var j := 0;
    while j < BLOCK_SIZE
      invariant j <= BLOCK_SIZE && b == before + 8 * j
      invariant Scanned(block, 8 * j)
    {
      if ByteFull(block, j) {
        forall n: nat | 8 * j <= n < 8 * j + 8
          ensures ScanBit(block, n)
        {
          FullByteBits(block, j, n);
        }
        b := b + 8;
      } else {
        var k := 0;
        while k < 8
          invariant k <= 8 && b == before + 8 * j + k
          invariant Scanned(block, 8 * j + k)
        {
          b := b + 1;
          if !block[BitIndex(j, k)] {
            return true, j, k, b;
          }
          assert ScanBit(block, 8 * j + k);
          k := k + 1;
        }
      }
      j := j + 1;
    }
    found, byte, bit := false, 0, 0;
  }

  lemma ScanPosition(c: nat, n: nat)
    requires n < 8 * BLOCK_SIZE
    ensures MapBitOf(MapBits(c) + n) == MapBit(c, n / 8, n % 8)
  {
    EighthOf(c, n);
    QuotOfTimes(c, n / 8, BLOCK_SIZE);
  }

  lemma {:induction false} EighthOf(c: nat, n: nat)
    ensures (MapBits(c) + n) / 8 == Times(c, BLOCK_SIZE) + n / 8 && (MapBits(c) + n) % 8 == n % 8
  {
    if c > 0 {
      EighthOf(c - 1, n);
    }
  }

  /** Bit `n` of bitmap block `c` belongs to one data block. */
  lemma ScanBitInUse(d: Disk, c: nat, n: nat)
    requires Formatted(d) && c < BitmapBlocks(d) && n < 8 * BLOCK_SIZE
    ensures var b := DataStart(d) + MapBits(c) + n;
            IsData(d, b) && MapStart(d) + c < |d| && InUse(d, b) == ScanBit(d[MapStart(d) + c], n)
  {
    ScanPosition(c, n);
    TimesMonotone(c + 1, BitmapBlocks(d), 8 * BLOCK_SIZE);
  }

  /** The data blocks before number `limit` are all in use. */
  ghost predicate FullBelow(d: Disk, limit: nat)
    requires Formatted(d)
  {
    forall b: nat | IsData(d, b) && b < limit :: InUse(d, b)
  }

  lemma FullBlockFull(d: Disk, c: nat, m: nat)
    requires Formatted(d) && c < BitmapBlocks(d) && m <= 8 * BLOCK_SIZE
    requires FullBelow(d, DataStart(d) + MapBits(c))
    requires MapStart(d) + c < |d|
    requires Scanned(d[MapStart(d) + c], m)
    ensures FullBelow(d, DataStart(d) + MapBits(c) + m)
  {
    forall b: nat | IsData(d, b) && DataStart(d) + MapBits(c) <= b < DataStart(d) + MapBits(c) + m
      ensures InUse(d, b)
    {
      ScanBitInUse(d, c, b - DataStart(d) - MapBits(c));
    }
  }

  /** Setting a clear bit where the allocator found it marks that block and no other. */
  lemma MarkScanned(d: Disk, c: nat, j: nat, k: nat)
    requires Formatted(d) && c < BitmapBlocks(d) && j < BLOCK_SIZE && k < 8 && MapStart(d) + c < |d|
    requires !d[MapStart(d) + c][BitIndex(j, k)]
    requires FullBelow(d, DataStart(d) + MapBits(c)) && Scanned(d[MapStart(d) + c], 8 * j + k)
    ensures var b := DataStart(d) + MapBits(c) + (8 * j + k); var at := MapStart(d) + c;
            && b in FreeBlocks(d) && FullBelow(d, b)
            && FlipBit(d, b) == d[at := d[at][BitIndex(j, k) := true]]
  {
    ScanBitInUse(d, c, 8 * j + k);
    ScanPosition(c, 8 * j + k);
    FullBlockFull(d, c, 8 * j + k);
  }

  lemma NothingFree(d: Disk)
    requires Formatted(d) && FullBelow(d, DataStart(d) + DataCount(d))
    ensures FreeBlocks(d) == {}
  {
  }

  /** Write `content` to the lowest free block and mark that block used; an error, and no
      change, exactly when no block is free. */
  method WriteNextFreeBlock(below: Store, ino: nat, content: Block) returns (ok: bool, b: nat)
    requires Formatted(below.blocks) && ino < InodeCount(below.blocks)
    modifies below
    ensures var d := old(below.blocks);
            && (ok <==> FreeBlocks(d) != {})
            && (ok ==> b in FreeBlocks(d) && FullBelow(d, b) && below.blocks == FlipBit(d, b)[b := content])
            && (!ok ==> below.blocks == d)
  {
    ghost var d := below.blocks;
    var superblock := below.Read(0);
    var start := WordAt(superblock, 1) + 1;
    var end := start + WordAt(superblock, 2);
    b := end - 1;
    var i := start;
    while i < end
      invariant start <= i <= end && below.blocks == d
      invariant b == DataStart(d) - 1 + MapBits(i - start)
      invariant FullBelow(d, DataStart(d) + MapBits(i - start))
    {
      ghost var c := i - start;
      var block := below.Read(i);
      var found, j, k, b' := FindInBlock(block, b);
      if found {
        MarkScanned(d, c, j, k);
        below.Write(i, block[BitIndex(j, k) := true]);
        below.Write(b', content);
        return true, b';
      }
      FullBlockFull(d, c, 8 * BLOCK_SIZE);
      b := b';
      i := i + 1;
    }
    NothingFree(d);
    ok := false;
  }

  /** Invert the bit of a data block. */
  method SetBlockFree(below: Store, ino: nat, b: nat)
    requires Formatted(below.blocks) && ino < InodeCount(below.blocks) && IsData(below.blocks, b)
    modifies below
    ensures below.blocks == FlipBit(old(below.blocks), b)
  {
    var superblock := below.Read(0);
    var start := WordAt(superblock, 1) + 1;
    var sub := start + WordAt(superblock, 2);
    MapBitBlock(below.blocks, b - sub);
    SlotArithmetic(b - sub);
    var mapBlock := start + (b - sub) / (BLOCK_SIZE * 8);
    var byte := (b - sub) / 8 % BLOCK_SIZE;
    var bit := (b - sub) % 8;
    var block := below.Read(mapBlock);
    below.Write(mapBlock, block[BitIndex(byte, bit) := !block[BitIndex(byte, bit)]]);
  }

  /** The place of a bit as the code computes it. */
  lemma SlotArithmetic(o: nat)
    ensures o / (BLOCK_SIZE * 8) == MapBitOf(o).block && o / 8 % BLOCK_SIZE == MapBitOf(o).byte
  {
    QuotIsDiv(o / 8, BLOCK_SIZE);
    QuotRem(o / 8, BLOCK_SIZE);
    var m := MapBitOf(o);
    DivUnique(o, BLOCK_SIZE * 8, m.block, m.byte * 8 + m.bit);
  }
}
