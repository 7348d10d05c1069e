/** Files as flat arrays of blocks: which reference path serves an offset, and ufsdisk_read. */
module UfsFile {
  import opened BlockStore
  import opened Division
  import opened UfsTree

  /** REFS_PER_BLOCK to the power n: the offsets one reference with n levels below it serves. */
  function Span(n: nat): (s: nat)
    ensures s > 0
  {
    TimesMonotone(1, REFS_PER_BLOCK, if n == 0 then 1 else Span(n - 1));
    if n == 0 then 1 else Times(REFS_PER_BLOCK, Span(n - 1))
  }

  /** Which of the 15 references serves an offset, the levels of indirection below it, and the
      index of the block within that reference's tree. */
  datatype Place = Place(slot: nat, levels: nat, index: nat)

  /** Offsets count through the direct references, then the single, double and triple indirect
      ones.  The triple tree is entered at index REFS_PER_BLOCK, as in the code: its base leaves
      out the single indirect blocks. */
  function PlaceOf(offset: nat): (p: Place)
    ensures p.slot < REFS_PER_INODE && p.levels == Levels(p.slot)
  {
    var direct := REFS_PER_INODE - 3;
    if offset < direct then
      Place(offset, 0, 0)
    else if offset - direct < REFS_PER_BLOCK then
      Place(direct, 1, offset - direct)
    else if offset - direct - REFS_PER_BLOCK < REFS_PER_BLOCK * REFS_PER_BLOCK then
      Place(direct + 1, 2, offset - (direct + REFS_PER_BLOCK))
    else
      Place(direct + 2, 3, offset - (direct + REFS_PER_BLOCK * REFS_PER_BLOCK))
  }

  /** Offsets the trees can serve.  Beyond, the code indexes past the end of an indirect block. */
  function Capacity(): nat {
    REFS_PER_INODE - 3 + Span(2) + Span(3)
  }

  lemma SpanProducts()
    ensures Span(0) == 1 && Span(1) == REFS_PER_BLOCK
    ensures Span(2) == REFS_PER_BLOCK * REFS_PER_BLOCK
    ensures Span(3) == REFS_PER_BLOCK * REFS_PER_BLOCK * REFS_PER_BLOCK
    ensures REFS_PER_BLOCK < Span(2) < Span(3)
  {
    SpanStep(0);
    SpanStep(1);
    SpanStep(2);
    MulMonotone(16, REFS_PER_BLOCK, REFS_PER_BLOCK);
    MulMonotone(16, REFS_PER_BLOCK, Span(2));
  }

  lemma SpanOne()
    ensures Span(0) == 1 && Span(1) == REFS_PER_BLOCK
  {
    SpanStep(0);
  }

  lemma SpanStep(n: nat)
    ensures Span(n + 1) == Times(REFS_PER_BLOCK, Span(n)) == Span(n) * REFS_PER_BLOCK
  {
    TimesIsProduct(REFS_PER_BLOCK, Span(n));
  }

  lemma CapacityInWord()
    ensures Capacity() < WORD_LIMIT
  {
    SpanProducts();
    MulMonotone(REFS_PER_BLOCK, 1024, REFS_PER_BLOCK);
    MulMonotone(Span(2), 1024 * 1024, REFS_PER_BLOCK);
  }

  /** Go down `levels` levels, at each picking a reference by the leading digit of the index in
      base REFS_PER_BLOCK. */
  function Descend(from: Path, levels: nat, index: nat): Path
    decreases levels
  {
    if levels == 0 then from
    else Descend(Child(from, Quot(index, Span(levels - 1))), levels - 1, Rem(index, Span(levels - 1)))
  }

  /** The reference path that serves an offset of a file. */
  function PathOf(ino: nat, offset: nat): Path {
    var p := PlaceOf(offset);
    Descend(Root(ino, p.slot), p.levels, p.index)
  }

  lemma {:induction false} DescendValid(d: Disk, from: Path, levels: nat, index: nat)
    requires |d| > 0 && ValidPath(d, from)
    requires from.Depth() + levels == Levels(from.Slot()) && index < Span(levels)
    ensures var p := Descend(from, levels, index);
            ValidPath(d, p) && IsLeaf(p) && p.Inode() == from.Inode() && p.Slot() == from.Slot() && p.Through(from)
    decreases levels
  {
    if levels > 0 {
      QuotBelowTimes(index, REFS_PER_BLOCK, Span(levels - 1));
      var next := Child(from, Quot(index, Span(levels - 1)));
      DescendValid(d, next, levels - 1, Rem(index, Span(levels - 1)));
      ThroughTransitive(Descend(from, levels, index), next, from);
    }
  }

  lemma {:induction false} ThroughTransitive(p: Path, q: Path, r: Path)
    requires p.Through(q) && q.Through(r)
    ensures p.Through(r)
  {
    if p != q {
      ThroughTransitive(p.up, q, r);
    }
  }

  /** Different indices take different paths. */
  lemma {:induction false} DescendUnique(p: Path, q: Path, levels: nat, i: nat, j: nat)
    requires Descend(p, levels, i) == Descend(q, levels, j)
    requires i < Span(levels) && j < Span(levels)
    ensures p == q && i == j
    decreases levels
  {
    if levels > 0 {
      var s := Span(levels - 1);
      DescendUnique(Child(p, Quot(i, s)), Child(q, Quot(j, s)), levels - 1, Rem(i, s), Rem(j, s));
      QuotRemUnique(i, j, s);
    }
  }

  lemma PlaceInRange(offset: nat)
    requires offset < Capacity()
    ensures PlaceOf(offset).index < Span(PlaceOf(offset).levels)
  {
    SpanProducts();
  }

  lemma PathValid(d: Disk, ino: nat, offset: nat)
    requires |d| > 0 && ino < InodeCount(d) && offset < Capacity()
    ensures var p := PathOf(ino, offset);
            ValidPath(d, p) && IsLeaf(p) && p.Inode() == ino && p.Slot() == PlaceOf(offset).slot
  {
    PlaceInRange(offset);
    var place := PlaceOf(offset);
    DescendValid(d, Root(ino, place.slot), place.levels, place.index);
  }

  /** No two offsets of one file or of two are served by the same reference. */
  lemma PathUnique(d: Disk, ino: nat, offset: nat, ino2: nat, offset2: nat)
    requires |d| > 0 && ino < InodeCount(d) && ino2 < InodeCount(d)
    requires offset < Capacity() && offset2 < Capacity()
    requires PathOf(ino, offset) == PathOf(ino2, offset2)
    ensures ino == ino2 && offset == offset2
  {
    PathValid(d, ino, offset);
    PathValid(d, ino2, offset2);
    var p, q := PlaceOf(offset), PlaceOf(offset2);
    PlaceInRange(offset);
    PlaceInRange(offset2);
    DescendUnique(Root(ino, p.slot), Root(ino2, q.slot), p.levels, p.index, q.index);
  }

  /** Nothing hangs below a missing block. */
  lemma {:induction false} DescendFromNothing(d: Disk, from: Path, levels: nat, index: nat)
    requires Formatted(d) && ValidPath(d, from) && NodeAt(d, from) == 0
    requires from.Depth() + levels == Levels(from.Slot()) && index < Span(levels)
    ensures ValidPath(d, Descend(from, levels, index)) && NodeAt(d, Descend(from, levels, index)) == 0
    decreases levels
  {
    if levels > 0 {
      QuotBelowTimes(index, REFS_PER_BLOCK, Span(levels - 1));
      DescendFromNothing(d, Child(from, Quot(index, Span(levels - 1))), levels - 1, Rem(index, Span(levels - 1)));
    }
  }

  /** Walking down to `target`: `at` has been reached, `levels` levels and `index` remain. */
  ghost predicate OnWay(d: Disk, target: Path, at: Path, levels: nat, index: nat)
    requires |d| > 0
  {
    && ValidPath(d, at) && at.Depth() + levels == Levels(at.Slot())
    && index < Span(levels) && Descend(at, levels, index) == target
  }

  lemma OnWayFromRoot(d: Disk, ino: nat, offset: nat)
    requires |d| > 0 && ino < InodeCount(d) && offset < Capacity()
    ensures var p := PlaceOf(offset);
            OnWay(d, PathOf(ino, offset), Root(ino, p.slot), p.levels, p.index)
  {
    PlaceInRange(offset);
  }

  lemma OnWayDown(d: Disk, target: Path, at: Path, levels: nat, index: nat, digit: nat, rest: nat)
    requires |d| > 0 && OnWay(d, target, at, levels, index) && levels > 0
    requires digit == Quot(index, Span(levels - 1)) < REFS_PER_BLOCK
    requires rest == Rem(index, Span(levels - 1)) < Span(levels - 1)
    ensures OnWay(d, target, Child(at, digit), levels - 1, rest)
  {
  }

  lemma OnWayEnd(d: Disk, target: Path, at: Path, index: nat)
    requires |d| > 0 && OnWay(d, target, at, 0, index)
    ensures at == target
  {
  }

  /** The references of the file lead to data blocks, marked as used or not. */
  ghost predicate Placed(d: Disk, ino: nat)
    requires Formatted(d)
  {
    forall p | Owned(d, p) && p.Inode() == ino :: IsData(d, NodeAt(d, p))
  }

  lemma PlacedBlock(d: Disk, p: Path)
    requires Formatted(d) && Placed(d, p.Inode()) && Owned(d, p)
    ensures NodeAt(d, p) < |d|
  {
  }

  /** The leading digit of an index, below REFS_PER_BLOCK, and what remains. */
  lemma DigitStep(index: nat, levels: nat) returns (digit: nat, rest: nat)
    requires 0 < levels && index < Span(levels)
    ensures digit == index / Span(levels - 1) == Quot(index, Span(levels - 1)) < REFS_PER_BLOCK
    ensures rest == index % Span(levels - 1) == Rem(index, Span(levels - 1)) < Span(levels - 1)
  {
    QuotBelowTimes(index, REFS_PER_BLOCK, Span(levels - 1));
    QuotIsDiv(index, Span(levels - 1));
    digit, rest := Quot(index, Span(levels - 1)), Rem(index, Span(levels - 1));
  }

  /** The contents of a file at an offset; holes are blocks of zeros. */
  function FileBlock(d: Disk, ino: nat, offset: nat): Block
    requires Formatted(d) && ino < InodeCount(d) && offset < Capacity()
  {
    PathValid(d, ino, offset);
    var b := NodeAt(d, PathOf(ino, offset));
    if 0 < b < |d| then d[b] else NullBlock()
  }

  /** The offset is backed by a block. */
  predicate Mapped(d: Disk, ino: nat, offset: nat)
    requires Formatted(d) && ino < InodeCount(d) && offset < Capacity()
  {
    PathValid(d, ino, offset);
    NodeAt(d, PathOf(ino, offset)) != 0
  }

  // ---------------------------------------------------------------- consistency

  /** Every mapped offset is below the size of its file. */
  ghost predicate Sized(d: Disk) {
    Formatted(d) && forall ino: nat, offset: nat | ino < InodeCount(d) && offset < Capacity() ::
      Mapped(d, ino, offset) ==> offset < NBlocks(d, ino)
  }

  /** File `i` is empty or its last block is mapped. */
  ghost predicate EndsInBlock(d: Disk, i: nat)
    requires Formatted(d) && i < InodeCount(d)
  {
    NBlocks(d, i) > 0 ==> NBlocks(d, i) <= Capacity() && Mapped(d, i, NBlocks(d, i) - 1)
  }

  /** A file that is not empty has a last block. */
  ghost predicate Ended(d: Disk) {
    Formatted(d) && forall ino: nat | ino < InodeCount(d) :: EndsInBlock(d, ino)
  }

  /** Every indirect block leads to some block of data. */
  ghost predicate Fruitful(d: Disk) {
    Formatted(d) && forall p | Owned(d, p) && !IsLeaf(p) :: LeadsToData(d, p)
  }

  ghost predicate Consistent(d: Disk) {
    Sound(d) && Sized(d) && Ended(d) && Fruitful(d)
  }

  ghost predicate LeadsToData(d: Disk, p: Path)
    requires Formatted(d)
  {
    exists offset: nat :: offset < Capacity() && p.Inode() < InodeCount(d)
                          && PathOf(p.Inode(), offset).Through(p) && Mapped(d, p.Inode(), offset)
  }

  // ---------------------------------------------------------------- reading

  datatype Result = Ok(block: Block) | Error

  /** What ufsdisk_get_snapshot loads for an inode: its inode block, and where that is. */
  datatype Snapshot = Snapshot(inodeBlockNo: nat, inodeBlock: Block) | BadInode

  method GetSnapshot(below: Store, ino: nat) returns (s: Snapshot)
    requires Formatted(below.blocks)
    ensures s.BadInode? <==> ino >= InodeCount(below.blocks)
    ensures s.Snapshot? ==> s.inodeBlockNo == InodeBlock(ino) < |below.blocks|
                            && s.inodeBlock == below.blocks[InodeBlock(ino)]
  {
    var superblock := below.Read(0);
    TimesIsProduct(WordAt(superblock, 1), INODES_PER_BLOCK);
    if ino >= WordAt(superblock, 1) * INODES_PER_BLOCK {
      return BadInode;
    }
    InodeOnDisk(below.blocks, ino);
    QuotIsDiv(ino, INODES_PER_BLOCK);
    var b := 1 + ino / INODES_PER_BLOCK;
    var inodeBlock := below.Read(b);
    s := Snapshot(b, inodeBlock);
  }

  /** REFS_PER_BLOCK to the power `levels`, by repeated multiplication. */
  method Divider(levels: nat) returns (divider: nat)
    ensures divider == Span(levels)
  {
    divider := 1;
    var j := levels;
    while j > 0
      invariant 0 <= j <= levels && divider == Span(levels - j)
    {
      SpanStep(levels - j);
      divider := divider * REFS_PER_BLOCK;
      j := j - 1;
    }
  }

  /** Read the block of file `ino` at `offset`: an error past the end of the file, zeros in a
      hole, the stored block otherwise. */
  method Read(below: Store, ino: nat, offset: nat) returns (r: Result)
    requires Formatted(below.blocks)
    requires ino < InodeCount(below.blocks) ==> Placed(below.blocks, ino)
    requires ino < InodeCount(below.blocks) && offset <= NBlocks(below.blocks, ino) ==> offset < Capacity()
    ensures r.Error? <==> ino >= InodeCount(below.blocks) || offset > NBlocks(below.blocks, ino)
    ensures r.Ok? ==> r.block == FileBlock(below.blocks, ino, offset)
  {
    hide Placed, FromBits, Span, Descend;
    ghost var d := below.blocks;
    var snapshot := GetSnapshot(below, ino);
    if snapshot.BadInode? || offset > WordAt(snapshot.inodeBlock, InodeWord(ino)) {
      return Error;
    }
    OnWayFromRoot(d, ino, offset);
    var place := PlaceOf(offset);
    var b := WordAt(snapshot.inodeBlock, InodeWord(ino) + 1 + place.slot);
    var levels, index := place.levels, place.index;
    ghost var at := Root(ino, place.slot);
    while true
      invariant OnWay(d, PathOf(ino, offset), at, levels, index) && b == NodeAt(d, at) && at.Inode() == ino
      decreases levels
    {
      if b == 0 {
        DescendFromNothing(d, at, levels, index);
        PathValid(d, ino, offset);
        return Ok(NullBlock());
      }
      PlacedBlock(d, at);
      var block := below.Read(b);
      if levels == 0 {
        OnWayEnd(d, PathOf(ino, offset), at, index);
        return Ok(block);
      }
      levels := levels - 1;
      var divider := Divider(levels);
      ghost var digit, rest := DigitStep(index, levels + 1);
      OnWayDown(d, PathOf(ino, offset), at, levels + 1, index, digit, rest);
      at := Child(at, digit);
      b := WordAt(block, index / divider);
      index := index % divider;
    }
  }
}
