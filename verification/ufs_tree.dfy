/** The file system as a mathematical object: where inodes, references and bitmap bits live on a
    disk, which block a reference path leads to, and what it means for a disk to be consistent. */
module UfsTree {
  import opened BlockStore
  import opened Division

  type Disk = seq<Block>

  // ---------------------------------------------------------------- geometry

  function InodeBlocks(d: Disk): nat
    requires |d| > 0
  {
    WordAt(d[0], 1)
  }

  function BitmapBlocks(d: Disk): nat
    requires |d| > 0
  {
    WordAt(d[0], 2)
  }

  function InodeCount(d: Disk): nat
    requires |d| > 0
  {
    Times(InodeBlocks(d), INODES_PER_BLOCK)
  }

  /** The first bitmap block. */
  function MapStart(d: Disk): nat
    requires |d| > 0
  {
    InodeBlocks(d) + 1
  }

  /** The first of the blocks the bitmap keeps track of. */
  function DataStart(d: Disk): nat
    requires |d| > 0
  {
    MapStart(d) + BitmapBlocks(d)
  }

  /** Bits in `n` bitmap blocks. */
  function MapBits(n: nat): nat {
    Times(n, 8 * BLOCK_SIZE)
  }

  /** Bits in the whole bitmap, one per data block. */
  function DataCount(d: Disk): nat
    requires |d| > 0
  {
    MapBits(BitmapBlocks(d))
  }

  predicate IsData(d: Disk, b: nat)
    requires |d| > 0
  {
    DataStart(d) <= b < DataStart(d) + DataCount(d)
  }

  /** Every block the bitmap describes exists, and block numbers fit in a word. */
  predicate Formatted(d: Disk) {
    0 < |d| <= WORD_LIMIT && DataStart(d) + DataCount(d) <= |d|
  }

  predicate SameGeometry(d: Disk, e: Disk) {
    0 < |d| == |e| && InodeBlocks(d) == InodeBlocks(e) && BitmapBlocks(d) == BitmapBlocks(e)
  }

  // ---------------------------------------------------------------- the bitmap

  /** Block of the bitmap, byte in that block and bit in that byte (counted from the most
      significant one) for the data block number `o` past the first. */
  datatype MapBit = MapBit(block: nat, byte: nat, bit: nat)

  function MapBitOf(o: nat): (m: MapBit)
    ensures m.byte < BLOCK_SIZE && m.bit < 8
  {
    MapBit(Quot(o / 8, BLOCK_SIZE), Rem(o / 8, BLOCK_SIZE), o % 8)
  }

  /** The position of that bit within its block: masks run from 128 down to 1. */
  function BitIndex(byte: nat, bit: nat): (i: nat)
    requires byte < BLOCK_SIZE && bit < 8
    ensures i < BLOCK_BITS
  {
    8 * byte + 7 - bit
  }

  lemma MapBitBlock(d: Disk, o: nat)
    requires |d| > 0 && o < DataCount(d)
    ensures MapBitOf(o).block < BitmapBlocks(d)
  {
    EighthBelow(o, BitmapBlocks(d));
    QuotBelowTimes(o / 8, BitmapBlocks(d), BLOCK_SIZE);
  }

  lemma {:induction false} EighthBelow(o: nat, n: nat)
    requires o < MapBits(n)
    ensures o / 8 < Times(n, BLOCK_SIZE)
  {
    if o >= 8 * BLOCK_SIZE {
      EighthBelow(o - 8 * BLOCK_SIZE, n - 1);
    }
  }

  predicate InUse(d: Disk, b: nat)
    requires Formatted(d) && IsData(d, b)
  {
    var m := MapBitOf(b - DataStart(d));
    MapBitBlock(d, b - DataStart(d));
    d[MapStart(d) + m.block][BitIndex(m.byte, m.bit)]
  }

  ghost function FreeBlocks(d: Disk): set<nat>
    requires Formatted(d)
  {
    set b: nat | b < |d| && IsData(d, b) && !InUse(d, b)
  }

  /** The disk with the bit of data block `b` inverted. */
  function FlipBit(d: Disk, b: nat): (e: Disk)
    requires Formatted(d) && IsData(d, b)
    ensures |e| == |d|
  {
    var m := MapBitOf(b - DataStart(d));
    MapBitBlock(d, b - DataStart(d));
    var at := MapStart(d) + m.block;
    var i := BitIndex(m.byte, m.bit);
    d[at := d[at][i := !d[at][i]]]
  }

  lemma MapBitUnique(o: nat, p: nat)
    requires BitIndex(MapBitOf(o).byte, MapBitOf(o).bit) == BitIndex(MapBitOf(p).byte, MapBitOf(p).bit)
    requires MapBitOf(o).block == MapBitOf(p).block
    ensures o == p
  {
    QuotRemUnique(o / 8, p / 8, BLOCK_SIZE);
  }

  lemma MapBitSame(o: nat, p: nat)
    ensures var m, n := MapBitOf(o), MapBitOf(p);
            m.block == n.block && BitIndex(m.byte, m.bit) == BitIndex(n.byte, n.bit) <==> o == p
  {
    var m, n := MapBitOf(o), MapBitOf(p);
    hide MapBitOf, BitIndex;
    if m.block == n.block && BitIndex(m.byte, m.bit) == BitIndex(n.byte, n.bit) {
      MapBitUnique(o, p);
    }
  }

  lemma FlipOne(d: Disk, at: nat, i: nat, block: nat, j: nat)
    requires at < |d| && i < |d[at]| && block < |d| && j < |d[block]|
    ensures var e := d[at := d[at][i := !d[at][i]]];
            j < |e[block]| && e[block][j] == if block == at && j == i then !d[block][j] else d[block][j]
  {
  }

  lemma FlipBitWord(d: Disk, b: nat, block: nat, j: nat)
    requires Formatted(d) && IsData(d, b) && block < |d| && j < |d[block]|
    ensures var e, m := FlipBit(d, b), MapBitOf(b - DataStart(d));
            && j < |e[block]|
            && e[block][j]
               == if block == MapStart(d) + m.block && j == BitIndex(m.byte, m.bit) then !d[block][j] else d[block][j]
  {
    MapBitBlock(d, b - DataStart(d));
    var m := MapBitOf(b - DataStart(d));
    FlipOne(d, MapStart(d) + m.block, BitIndex(m.byte, m.bit), block, j);
  }

  lemma FlipBitAt(d: Disk, b: nat, c: nat)
    requires Formatted(d) && IsData(d, b) && IsData(d, c)
    requires var e := FlipBit(d, b); Formatted(e) && SameGeometry(d, e)
    ensures InUse(FlipBit(d, b), c) == if c == b then !InUse(d, c) else InUse(d, c)
  {
    MapBitBlock(d, c - DataStart(d));
    MapBitSame(b - DataStart(d), c - DataStart(d));
    var n := MapBitOf(c - DataStart(d));
    hide MapBitOf, BitIndex, FlipBit;
    FlipBitWord(d, b, MapStart(d) + n.block, BitIndex(n.byte, n.bit));
  }

  lemma FlipBitBlocks(d: Disk, b: nat)
    requires Formatted(d) && IsData(d, b)
    ensures var e := FlipBit(d, b);
            && Formatted(e) && SameGeometry(d, e)
            && (forall c: nat | c < |d| && (c < MapStart(d) || DataStart(d) <= c) :: e[c] == d[c])
  {
    MapBitBlock(d, b - DataStart(d));
    assert FlipBit(d, b)[0] == d[0];
  }

  lemma FlipBitTwice(d: Disk, b: nat)
    requires Formatted(d) && IsData(d, b)
    ensures var e := FlipBit(d, b); Formatted(e) && IsData(e, b) && FlipBit(e, b) == d
  {
    FlipBitBlocks(d, b);
    MapBitBlock(d, b - DataStart(d));
    var m := MapBitOf(b - DataStart(d));
    var at := MapStart(d) + m.block;
    FlipTwice(d, at, BitIndex(m.byte, m.bit));
  }

  lemma FlipTwice(d: Disk, at: nat, i: nat)
    requires at < |d| && i < |d[at]|
    ensures var e := d[at := d[at][i := !d[at][i]]]; e[at := e[at][i := !e[at][i]]] == d
  {
    var e := d[at := d[at][i := !d[at][i]]];
    assert e[at][i := !e[at][i]] == d[at];
    assert e[at := d[at]] == d;
  }

  /** Inverting a bit changes the status of that block and of no other, and inverting it again restores the disk. */
  lemma FlipBitFlips(d: Disk, b: nat)
    requires Formatted(d) && IsData(d, b)
    ensures var e := FlipBit(d, b);
            && Formatted(e) && SameGeometry(d, e)
            && (forall c: nat | IsData(d, c) :: InUse(e, c) == if c == b then !InUse(d, c) else InUse(d, c))
            && (forall c: nat | c < |d| && (c < MapStart(d) || DataStart(d) <= c) :: e[c] == d[c])
            && IsData(e, b) && FlipBit(e, b) == d
  {
    FlipBitBlocks(d, b);
    FlipBitTwice(d, b);
    forall c: nat | IsData(d, c)
      ensures InUse(FlipBit(d, b), c) == if c == b then !InUse(d, c) else InUse(d, c)
    {
      FlipBitAt(d, b, c);
    }
  }

  lemma BitmapFrame(d: Disk, e: Disk)
    requires Formatted(d) && Formatted(e) && SameGeometry(d, e)
    requires forall c: nat | MapStart(d) <= c < DataStart(d) :: c < |d| && e[c] == d[c]
    ensures forall b: nat | IsData(d, b) :: InUse(e, b) == InUse(d, b)
  {
    forall b: nat | IsData(d, b)
      ensures InUse(e, b) == InUse(d, b)
    {
      MapBitBlock(d, b - DataStart(d));
      var at := MapStart(d) + MapBitOf(b - DataStart(d)).block;
      assert e[at] == d[at];
    }
  }

  // ---------------------------------------------------------------- inodes and reference paths

  /** A reference path: one of the 15 references of an inode, or reference `i` of the indirect
      block that a shorter path leads to. */
  datatype Path = Root(ino: nat, slot: nat) | Child(up: Path, i: nat) {
    function Slot(): nat {
      if Root? then slot else up.Slot()
    }

    function Inode(): nat {
      if Root? then ino else up.Inode()
    }

    function Depth(): nat {
      if Root? then 0 else up.Depth() + 1
    }

    /** The path is `other` or goes on from it. */
    predicate Through(other: Path) {
      this == other || (Child? && up.Through(other))
    }
  }

  /** Levels of indirection under an inode's reference: 0 for the direct ones, then 1, 2, 3. */
  function Levels(slot: nat): nat {
    if slot < REFS_PER_INODE - 3 then 0 else slot - (REFS_PER_INODE - 4)
  }

  predicate ValidPath(d: Disk, p: Path)
    requires |d| > 0
  {
    match p
    case Root(ino, slot) => ino < InodeCount(d) && slot < REFS_PER_INODE
    case Child(up, i) => i < REFS_PER_BLOCK && ValidPath(d, up) && up.Depth() < Levels(up.Slot())
  }

  /** A valid path that leads to a data block rather than to an indirect block. */
  predicate IsLeaf(p: Path) {
    p.Depth() == Levels(p.Slot())
  }

  function InodeBlock(ino: nat): nat {
    1 + Quot(ino, INODES_PER_BLOCK)
  }

  /** The word of its inode block where an inode starts: first its size, then its references. */
  function InodeWord(ino: nat): (w: nat)
    ensures w + REFS_PER_INODE < REFS_PER_BLOCK
  {
    Rem(ino, INODES_PER_BLOCK) * WORDS_PER_INODE
  }

  lemma InodeOnDisk(d: Disk, ino: nat)
    requires Formatted(d) && ino < InodeCount(d)
    ensures InodeBlock(ino) < MapStart(d) <= |d|
  {
    QuotBelowTimes(ino, InodeBlocks(d), INODES_PER_BLOCK);
  }

  /** Inodes do not overlap: block and word of a field tell the inode and the field. */
  lemma InodePlaceUnique(a: nat, x: nat, b: nat, y: nat)
    requires x <= REFS_PER_INODE && y <= REFS_PER_INODE
    requires InodeBlock(a) == InodeBlock(b) && InodeWord(a) + x == InodeWord(b) + y
    ensures a == b && x == y
  {
    QuotRemUnique(a, b, INODES_PER_BLOCK);
  }

  /** Number of blocks recorded in the inode. */
  function NBlocks(d: Disk, ino: nat): nat
    requires Formatted(d) && ino < InodeCount(d)
  {
    InodeOnDisk(d, ino);
    WordAt(d[InodeBlock(ino)], InodeWord(ino))
  }

  /** The block a path leads to, 0 for none. */
  function NodeAt(d: Disk, p: Path): nat
    requires Formatted(d) && ValidPath(d, p)
  {
    match p
    case Root(ino, slot) =>
      InodeOnDisk(d, ino);
      WordAt(d[InodeBlock(ino)], InodeWord(ino) + 1 + slot)
    case Child(up, i) =>
      var b := NodeAt(d, up);
      if 0 < b < |d| then WordAt(d[b], i) else 0
  }

  predicate Owned(d: Disk, p: Path)
    requires Formatted(d)
  {
    ValidPath(d, p) && NodeAt(d, p) != 0
  }

  /** References lead to data blocks that the bitmap marks as used. */
  ghost predicate Marked(d: Disk) {
    Formatted(d) && forall p | Owned(d, p) :: IsData(d, NodeAt(d, p)) && InUse(d, NodeAt(d, p))
  }

  /** No block is referenced twice, within one file or between two. */
  ghost predicate Unshared(d: Disk) {
    Formatted(d) && forall p, q | Owned(d, p) && Owned(d, q) && NodeAt(d, p) == NodeAt(d, q) :: p == q
  }

  /** Every block marked as used is referenced: none is lost. */
  ghost predicate Tracked(d: Disk) {
    Formatted(d) && forall b: nat | IsData(d, b) && InUse(d, b) :: exists p :: Owned(d, p) && NodeAt(d, p) == b
  }

  /** Trees share nothing and the bitmap marks exactly the blocks in some tree. */
  ghost predicate Sound(d: Disk) {
    Marked(d) && Unshared(d) && Tracked(d)
  }

  lemma GeometryValid(d: Disk, e: Disk, p: Path)
    requires SameGeometry(d, e)
    ensures ValidPath(d, p) == ValidPath(e, p)
  {
    if p.Child? {
      GeometryValid(d, e, p.up);
    }
  }

  lemma {:induction false} ThroughDeeper(q: Path, p: Path)
    requires q.Through(p)
    ensures q.Depth() >= p.Depth() && q.Slot() == p.Slot() && q.Inode() == p.Inode()
  {
    if q != p {
      ThroughDeeper(q.up, p);
    }
  }

  /** A path never goes on from a data block. */
  lemma LeafIsLast(d: Disk, target: Path, p: Path)
    requires |d| > 0 && ValidPath(d, target) && ValidPath(d, p) && IsLeaf(p) && target.Through(p)
    ensures target == p
  {
    if target != p {
      ThroughDeeper(target.up, p);
    }
  }
}
