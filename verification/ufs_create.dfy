/** ufsdisk_create: laying out an empty file system. */
module UfsCreate {
  import opened BlockStore
  import opened Division
  import opened UfsTree
  import opened UfsFile
  import opened UfsAlloc

  /** The layout create chooses: inode blocks, then bitmap blocks as many as have something to
      describe. */
  function InodeBlocksFor(inodes: nat): nat {
    Quot(inodes + INODES_PER_BLOCK - 1, INODES_PER_BLOCK)
  }

  function BitmapBlocksFor(blocks: nat, mapStart: nat): nat
    requires mapStart <= blocks
  {
    Quot(blocks - mapStart, 1 + BLOCK_SIZE * 8)
  }

  /** Every bit of that many bitmap blocks has a block to describe. */
  lemma BitmapFits(blocks: nat, mapStart: nat)
    requires mapStart <= blocks
    ensures var n := BitmapBlocksFor(blocks, mapStart); mapStart + n + MapBits(n) <= blocks
    ensures var n := BitmapBlocksFor(blocks, mapStart); n > 0 ==> n < blocks
  {
    FloorFits(blocks - mapStart);
  }

  /** Not so with one more. */
  lemma BitmapLargest(blocks: nat, mapStart: nat)
    requires mapStart <= blocks
    ensures var n := BitmapBlocksFor(blocks, mapStart); blocks < mapStart + (n + 1) + MapBits(n + 1)
  {
    FloorFits(blocks - mapStart);
  }

  lemma {:induction false} FloorFits(k: nat)
    ensures var n := Quot(k, 1 + BLOCK_SIZE * 8); n + MapBits(n) <= k < (n + 1) + MapBits(n + 1)
    decreases k
  {
    if k >= 1 + BLOCK_SIZE * 8 {
      FloorFits(k - (1 + BLOCK_SIZE * 8));
    }
  }

  /** The bitmap blocks the code leaves as they were: its loop counts up to the number of bitmap
      blocks, not to the last of them. */
  predicate LeftUnzeroed(mapStart: nat, count: nat, c: nat) {
    mapStart <= c < mapStart + count && count < c
  }

  /** Write `n_freebitmapblocks` bitmap blocks, at most. */
  method SetupBitmap(below: Store, nextFree: nat) returns (count: nat)
    requires 1 <= nextFree <= |below.blocks|
    modifies below
    ensures var d := old(below.blocks);
            && count == BitmapBlocksFor(|d|, nextFree)
            && |below.blocks| == |d|
            && forall c: nat | c < |d| :: below.blocks[c] == if nextFree <= c <= count then NullBlock() else d[c]
  {
    ghost var d := below.blocks;
    QuotIsDiv(|below.blocks| - nextFree, 1 + BLOCK_SIZE * 8);
    count := (|below.blocks| - nextFree) / (1 + BLOCK_SIZE * 8);
    BitmapFits(|d|, nextFree);
    var i := nextFree;
    while i <= count
      invariant nextFree <= i && (i <= count + 1 || i == nextFree)
      invariant |below.blocks| == |d|
      invariant forall c: nat | c < |d| ::
                  below.blocks[c] == if nextFree <= c < i && c <= count then NullBlock() else d[c]
    {
      below.Write(i, NullBlock());
      i := i + 1;
    }
  }

  /** Lay out a file system for `inodes` files. */
  method Create(below: Store, inodes: nat, magic: nat) returns (ok: bool)
    requires |below.blocks| <= WORD_LIMIT && magic < WORD_LIMIT
    modifies below
    ensures var d := old(below.blocks); var f := below.blocks; var n := InodeBlocksFor(inodes);
            && (ok <==> |d| >= n + 2)
            && (!ok ==> f == d)
            && (ok ==> Created(d, f, inodes, magic))
  {
    hide Quot, Rem, Times, FromBits, BitmapBlocksFor;
    ghost var d := below.blocks;
    QuotIsDiv(inodes + INODES_PER_BLOCK - 1, INODES_PER_BLOCK);
    var n := (inodes + INODES_PER_BLOCK - 1) / INODES_PER_BLOCK;
    if |below.blocks| < n + 2 {
      return false;
    }
    BitmapFits(|d|, n + 1);
    var superblock := SetWord(NullBlock(), 0, magic);
    superblock := SetWord(superblock, 1, n);
    var count := SetupBitmap(below, n + 1);
    superblock := SetWord(superblock, 2, count);
    below.Write(0, superblock);
    ghost var e := below.blocks;
    var i := 1;
    while i <= n
      invariant 1 <= i <= n + 1 && |below.blocks| == |d|
      invariant forall c: nat | c < |d| ::
                  below.blocks[c] == if 1 <= c < i then NullBlock() else e[c]
    {
      below.Write(i, NullBlock());
      i := i + 1;
    }
    ok := true;
  }

  /** The disk that create makes of `d`. */
  ghost predicate Created(d: Disk, f: Disk, inodes: nat, magic: nat) {
    var n := InodeBlocksFor(inodes);
    && |d| == |f| && n + 2 <= |d| <= WORD_LIMIT
    && WordAt(f[0], 0) == magic && WordAt(f[0], 1) == n && WordAt(f[0], 2) == BitmapBlocksFor(|d|, n + 1)
    && (forall c: nat | 1 <= c <= n :: f[c] == NullBlock())
    && (forall c: nat | n < c < |d| ::
          f[c] == if c <= BitmapBlocksFor(|d|, n + 1) then NullBlock() else d[c])
  }

  lemma CreatedFormatted(d: Disk, f: Disk, inodes: nat, magic: nat)
    requires Created(d, f, inodes, magic)
    ensures Formatted(f) && InodeCount(f) >= inodes
  {
    var n := InodeBlocksFor(inodes);
    BitmapFits(|d|, n + 1);
    EnoughInodes(inodes);
  }

  /** The layout is the tightest there is: with one inode block fewer some file would have no inode, and one bitmap
      block more would describe a block that does not exist. */
  lemma CreatedTight(d: Disk, f: Disk, inodes: nat, magic: nat)
    requires Created(d, f, inodes, magic)
    ensures Formatted(f) && MapStart(f) == InodeBlocks(f) + 1
    ensures if inodes == 0 then InodeBlocks(f) == 0
            else InodeBlocks(f) > 0 && Times(InodeBlocks(f) - 1, INODES_PER_BLOCK) < inodes
    ensures |f| < MapStart(f) + (BitmapBlocks(f) + 1) + MapBits(BitmapBlocks(f) + 1)
  {
    CreatedFormatted(d, f, inodes, magic);
    BitmapLargest(|d|, InodeBlocksFor(inodes) + 1);
    NoInodeBlockToSpare(inodes);
  }

  lemma {:induction false} NoInodeBlockToSpare(inodes: nat)
    ensures var n := InodeBlocksFor(inodes);
            if inodes == 0 then n == 0 else n > 0 && Times(n - 1, INODES_PER_BLOCK) < inodes
    decreases inodes
  {
    var m := inodes + INODES_PER_BLOCK - 1;
    if inodes > INODES_PER_BLOCK {
      NoInodeBlockToSpare(inodes - INODES_PER_BLOCK);
      assert Quot(m, INODES_PER_BLOCK) == 1 + Quot(m - INODES_PER_BLOCK, INODES_PER_BLOCK);
    } else if inodes > 0 {
      assert Quot(m, INODES_PER_BLOCK) == 1 + Quot(m - INODES_PER_BLOCK, INODES_PER_BLOCK) == 1;
    }
  }

  lemma {:induction false} EnoughInodes(inodes: nat)
    ensures Times(InodeBlocksFor(inodes), INODES_PER_BLOCK) >= inodes
    decreases inodes
  {
    if inodes >= INODES_PER_BLOCK {
      EnoughInodes(inodes - INODES_PER_BLOCK);
    } else if inodes > 0 {
      var m := inodes + INODES_PER_BLOCK - 1;
      assert Quot(m, INODES_PER_BLOCK) == 1 + Quot(m - INODES_PER_BLOCK, INODES_PER_BLOCK) == 1;
    }
  }

  /** On the new disk all files are empty. */
  lemma {:induction false} CreatedEmpty(d: Disk, f: Disk, inodes: nat, magic: nat, p: Path)
    requires Created(d, f, inodes, magic) && Formatted(f) && ValidPath(f, p)
    ensures NodeAt(f, p) == 0
  {
    if p.Child? {
      CreatedEmpty(d, f, inodes, magic, p.up);
    } else {
      InodeOnDisk(f, p.ino);
      NullWords();
    }
  }

  lemma CreatedSizes(d: Disk, f: Disk, inodes: nat, magic: nat, ino: nat)
    requires Created(d, f, inodes, magic) && Formatted(f) && ino < InodeCount(f)
    ensures NBlocks(f, ino) == 0
  {
    InodeOnDisk(f, ino);
    NullWords();
  }

  /** The bitmap comes out clear of every bit exactly if the blocks the loop does not reach held
      nothing but zeros before. */
  ghost predicate RestWasZero(d: Disk, inodes: nat)
    requires InodeBlocksFor(inodes) + 2 <= |d|
  {
    var start := InodeBlocksFor(inodes) + 1;
    forall c: nat | c < |d| && LeftUnzeroed(start, BitmapBlocksFor(|d|, start), c) :: d[c] == NullBlock()
  }

  /** The new file system is consistent if and only if the rest of the bitmap held zeros. */
  lemma CreatedConsistent(d: Disk, f: Disk, inodes: nat, magic: nat)
    requires Created(d, f, inodes, magic)
    ensures Consistent(f) <==> RestWasZero(d, inodes)
  {
    CreatedFormatted(d, f, inodes, magic);
    if RestWasZero(d, inodes) {
      CreatedClear(d, f, inodes, magic);
      CreatedFiles(d, f, inodes, magic);
    } else {
      var start := InodeBlocksFor(inodes) + 1;
      var c: nat :| c < |d| && LeftUnzeroed(start, BitmapBlocksFor(|d|, start), c) && d[c] != NullBlock();
      var b := StrayBit(f, c);
      CreatedOwnsNothing(d, f, inodes, magic);
    }
  }

  lemma CreatedOwnsNothing(d: Disk, f: Disk, inodes: nat, magic: nat)
    requires Created(d, f, inodes, magic) && Formatted(f)
    ensures forall p :: !Owned(f, p)
  {
    forall p
      ensures !Owned(f, p)
    {
      if ValidPath(f, p) {
        CreatedEmpty(d, f, inodes, magic, p);
      }
    }
  }

  lemma CreatedClear(d: Disk, f: Disk, inodes: nat, magic: nat)
    requires Created(d, f, inodes, magic) && Formatted(f) && RestWasZero(d, inodes)
    ensures forall b: nat | IsData(f, b) :: !InUse(f, b)
  {
    forall b: nat | IsData(f, b)
      ensures !InUse(f, b)
    {
      MapBitBlock(f, b - DataStart(f));
      var c := MapStart(f) + MapBitOf(b - DataStart(f)).block;
      assert f[c] == NullBlock();
    }
  }

  lemma CreatedFiles(d: Disk, f: Disk, inodes: nat, magic: nat)
    requires Created(d, f, inodes, magic) && Formatted(f)
    requires forall b: nat | IsData(f, b) :: !InUse(f, b)
    ensures Consistent(f)
  {
    CreatedOwnsNothing(d, f, inodes, magic);
    forall ino: nat, offset: nat | ino < InodeCount(f) && offset < Capacity()
      ensures !Mapped(f, ino, offset)
    {
      PathValid(f, ino, offset);
      assert !Owned(f, PathOf(ino, offset));
    }
    forall ino: nat | ino < InodeCount(f)
      ensures EndsInBlock(f, ino)
    {
      CreatedSizes(d, f, inodes, magic, ino);
    }
  }

  /** A bitmap block that is not all zeros marks some data block as used. */
  lemma StrayBit(f: Disk, c: nat) returns (b: nat)
    requires Formatted(f) && MapStart(f) <= c < DataStart(f) && f[c] != NullBlock()
    ensures IsData(f, b) && InUse(f, b)
  {
    var i: nat :| i < BLOCK_BITS && f[c][i];
    var n := 8 * (i / 8) + (7 - i % 8);
    assert BitIndex(n / 8, n % 8) == i;
    ScanBitInUse(f, c - MapStart(f), n);
    b := DataStart(f) + MapBits(c - MapStart(f)) + n;
  }
}
