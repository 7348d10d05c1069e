/** The format of the disk and of files, spelt out with the numbers of the header file. */
module UfsLayout {
  import opened BlockStore
  import opened Division
  import opened UfsTree
  import opened UfsFile

  // ---------------------------------------------------------------- words

  /** Bit `k` of a number. */
  predicate BitOf(value: nat, k: nat) {
    if k == 0 then value % 2 == 1 else BitOf(value / 2, k - 1)
  }

  lemma {:induction false} BitsInOrder(bits: seq<bool>, k: nat)
    requires k < |bits|
    ensures BitOf(FromBits(bits), k) <==> bits[k]
  {
    if k > 0 {
      BitsInOrder(bits[1..], k - 1);
    }
  }

  /** Word `i` of a block is bytes 4i to 4i + 3, the least significant bit first. */
  lemma WordFormat(block: Block, i: nat, k: nat)
    requires i < REFS_PER_BLOCK && k < 32
    ensures BitOf(WordAt(block, i), k) <==> block[32 * i + k]
  {
    BitsInOrder(block[32 * i..32 * i + 32], k);
  }

  // ---------------------------------------------------------------- the disk

  /** Where an inode is: sixteen words of an inode block, the size first and then fifteen references. */
  lemma InodeFormat(d: Disk, ino: nat, slot: nat)
    requires Formatted(d) && ino < InodeCount(d) && slot < 15
    ensures InodeBlock(ino) == 1 + ino / INODES_PER_BLOCK && InodeWord(ino) == 16 * (ino % INODES_PER_BLOCK)
    ensures InodeBlock(ino) < 1 + WordAt(d[0], 1) <= |d|
    ensures NBlocks(d, ino) == WordAt(d[InodeBlock(ino)], InodeWord(ino))
    ensures NodeAt(d, Root(ino, slot)) == WordAt(d[InodeBlock(ino)], InodeWord(ino) + 1 + slot)
  {
    InodeOnDisk(d, ino);
    hide FromBits, Quot, Rem, Times;
    QuotIsDiv(ino, INODES_PER_BLOCK);
  }

  /** Where the status of a data block is: bit 7 - n % 8 of byte n / 8 of the bitmap, which goes through the bitmap
      blocks one after the other; bitmap and data blocks follow the inodes. */
  lemma BitmapFormat(d: Disk, n: nat)
    requires Formatted(d) && n < DataCount(d)
    ensures MapStart(d) == 1 + WordAt(d[0], 1) && DataStart(d) == MapStart(d) + WordAt(d[0], 2)
    ensures var m := MapBitOf(n);
            && m.block == n / 8 / BLOCK_SIZE && BitIndex(m.byte, m.bit) == 8 * (n / 8 % BLOCK_SIZE) + 7 - n % 8
            && IsData(d, DataStart(d) + n) && MapStart(d) + m.block < DataStart(d) <= |d|
            && (InUse(d, DataStart(d) + n) <==> d[MapStart(d) + m.block][BitIndex(m.byte, m.bit)])
  {
    MapBitBlock(d, n);
    hide FromBits, Quot, Rem, Times;
    QuotIsDiv(n / 8, BLOCK_SIZE);
  }

  // ---------------------------------------------------------------- files

  lemma OneDown(p: Path, levels: nat, x: nat)
    requires levels > 0
    ensures Descend(p, levels, x) == Descend(Child(p, x / Span(levels - 1)), levels - 1, x % Span(levels - 1))
  {
    QuotIsDiv(x, Span(levels - 1));
    hide Quot, Rem, Span;
  }

  /** Which reference serves an offset: twelve direct ones, then one level of indirection, then two, then three, the
      base of the last leaving out the single indirect blocks as the code does. */
  lemma FileFormat(ino: nat, offset: nat)
    ensures var r := REFS_PER_BLOCK;
            PathOf(ino, offset) ==
              if offset < 12 then Root(ino, offset)
              else if offset < 12 + r then Child(Root(ino, 12), offset - 12)
              else if offset < 12 + r + r * r then
                var x := offset - 12 - r;
                Child(Child(Root(ino, 13), x / r), x % r)
              else
                var x := offset - 12 - r * r;
                Child(Child(Child(Root(ino, 14), x / (r * r)), x % (r * r) / r), x % (r * r) % r)
  {
    SpanProducts();
    var p := PlaceOf(offset);
    var root, x := Root(ino, p.slot), p.index;
    hide Span;
    if p.levels == 1 {
      OneDown(root, 1, x);
    } else if p.levels == 2 {
      OneDown(root, 2, x);
      OneDown(Child(root, x / Span(1)), 1, x % Span(1));
    } else if p.levels == 3 {
      OneDown(root, 3, x);
      OneDown(Child(root, x / Span(2)), 2, x % Span(2));
      OneDown(Child(Child(root, x / Span(2)), x % Span(2) / Span(1)), 1, x % Span(2) % Span(1));
    }
  }
}
