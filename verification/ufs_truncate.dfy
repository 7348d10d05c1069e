/** What a truncation does to the truncated file, to the other files and to the bitmap. */
module UfsTruncate {
  import opened BlockStore
  import opened Division
  import opened UfsTree
  import opened UfsFile
  import opened UfsWalk
  import opened UfsCount
  import opened UfsInode
  import opened UfsCut
  import opened UfsWrite
  import opened UfsSetSize

  /** Every path leads to a data block of its own, marked as used or not. */
  ghost predicate Separate(d: Disk) {
    Formatted(d) && (forall p | Owned(d, p) :: IsData(d, NodeAt(d, p))) && Unshared(d)
  }

  /** Blocks outside the bitmap change only if they are released; inode blocks only in the size. */
  lemma TruncatedBlocks(d: Disk, ino: nat)
    requires Separate(d) && ino < InodeCount(d)
    ensures var f := Truncated(d, ino);
            && Formatted(f) && SameGeometry(d, f)
            && (forall p | Owned(d, p) && p !in Released(d, ino) ::
                  NodeAt(d, p) < |d| && f[NodeAt(d, p)] == d[NodeAt(d, p)])
            && (forall i: nat | i < InodeCount(d) :: NBlocks(f, i) == if i == ino then 0 else NBlocks(d, i))
  {
    var ps := Released(d, ino);
    InodeFreedOwned(d, ino, REFS_PER_INODE, NBlocks(d, ino));
    var e := EraseAll(d, ino, ps);
    var f := Truncated(d, ino);
    InodeOnDisk(d, ino);
    assert f[0] == e[0];
    forall p | Owned(d, p) && p !in ps
      ensures NodeAt(d, p) < |d| && f[NodeAt(d, p)] == d[NodeAt(d, p)]
    {
      StaysAsWas(d, ino, ps, p);
    }
    forall i: nat | i < InodeCount(d)
      ensures NBlocks(f, i) == if i == ino then 0 else NBlocks(d, i)
    {
      InodeOnDisk(d, i);
      EraseAllOutside(d, ino, ps, InodeBlock(i));
      WithSizeSizes(e, ino, 0, i);
    }
  }

  lemma StaysAsWas(d: Disk, ino: nat, ps: seq<Path>, p: Path)
    requires Separate(d) && OwnHeap(d, ino) && AllOwned(d, ino, ps) && Owned(d, p) && p !in ps
    ensures NodeAt(d, p) < |d| && EraseAll(d, ino, ps)[NodeAt(d, p)] == d[NodeAt(d, p)]
  {
    HitsSome(d, ino, ps, NodeAt(d, p));
    EraseAllBlock(d, ino, ps, NodeAt(d, p));
  }

  /** The references in the inodes stay, those of the truncated file included. */
  lemma TruncatedRoot(d: Disk, ino: nat, p: Path)
    requires Separate(d) && ino < InodeCount(d) && ValidPath(d, p) && p.Root?
    ensures var f := Truncated(d, ino); Formatted(f) && ValidPath(f, p) && NodeAt(f, p) == NodeAt(d, p)
  {
    TruncatedBlocks(d, ino);
    var f := Truncated(d, ino);
    GeometryValid(d, f, p);
    InodeOnDisk(d, p.ino);
    InodeOnDisk(d, ino);
    InodeFreedOwned(d, ino, REFS_PER_INODE, NBlocks(d, ino));
    EraseAllOutside(d, ino, Released(d, ino), InodeBlock(p.ino));
    var w := InodeWord(p.ino) + 1 + p.slot;
    if InodeBlock(ino) == InodeBlock(p.ino) && InodeWord(ino) == w {
      InodePlaceUnique(ino, 0, p.ino, p.slot + 1);
    }
    assert WordAt(f[InodeBlock(p.ino)], w) == WordAt(d[InodeBlock(p.ino)], w);
  }

  /** Paths of other files lead where they led. */
  lemma {:induction false} TruncatedNode(d: Disk, ino: nat, q: Path)
    requires Separate(d) && ino < InodeCount(d) && ValidPath(d, q) && q.Inode() != ino
    ensures var f := Truncated(d, ino); Formatted(f) && ValidPath(f, q) && NodeAt(f, q) == NodeAt(d, q)
  {
    var f := Truncated(d, ino);
    TruncatedBlocks(d, ino);
    GeometryValid(d, f, q);
    if q.Root? {
      TruncatedRoot(d, ino, q);
    } else {
      TruncatedNode(d, ino, q.up);
      if NodeAt(d, q.up) != 0 {
        assert Owned(d, q.up);
        OtherNotReleased(d, ino, q.up);
      }
    }
  }

  lemma OtherNotReleased(d: Disk, ino: nat, q: Path)
    requires Formatted(d) && ino < InodeCount(d) && q.Inode() != ino
    ensures q !in Released(d, ino)
  {
    if q in Released(d, ino) {
      FreedOfInode(d, ino, REFS_PER_INODE, NBlocks(d, ino), q);
    }
  }

  /** A path that leads to a block afterwards led to the same block before. */
  lemma {:induction false} TruncatedPath(d: Disk, ino: nat, q: Path)
    requires Separate(d) && ino < InodeCount(d)
    requires var f := Truncated(d, ino); Formatted(f) && SameGeometry(d, f) && Owned(f, q)
    ensures Owned(d, q) && NodeAt(d, q) == NodeAt(Truncated(d, ino), q)
  {
    var f := Truncated(d, ino);
    GeometryValid(f, d, q);
    if q.Root? {
      TruncatedRoot(d, ino, q);
    } else {
      TruncatedPath(d, ino, q.up);
      TruncatedBlocks(d, ino);
      if q.up in Released(d, ino) {
        ReleasedNull(d, ino, q.up);
        NullWords();
      }
    }
  }

  lemma ReleasedNull(d: Disk, ino: nat, p: Path)
    requires OwnHeap(d, ino) && p in Released(d, ino) && ValidPath(d, p)
    ensures NodeAt(d, p) < |Truncated(d, ino)| && Truncated(d, ino)[NodeAt(d, p)] == NullBlock()
  {
    var ps := Released(d, ino);
    InodeFreedOwned(d, ino, REFS_PER_INODE, NBlocks(d, ino));
    InodeOnDisk(d, ino);
    HitsSome(d, ino, ps, NodeAt(d, p));
    EraseAllBlock(d, ino, ps, NodeAt(d, p));
  }

  /** Though a truncation leaves the references of the file dangling, no two paths come to share a block by it: it
      can be followed by any others. */
  lemma TruncatedSeparate(d: Disk, ino: nat)
    requires Separate(d) && ino < InodeCount(d)
    ensures Separate(Truncated(d, ino))
  {
    TruncatedBlocks(d, ino);
    var f := Truncated(d, ino);
    forall p | Owned(f, p)
      ensures Owned(d, p) && NodeAt(d, p) == NodeAt(f, p)
    {
      TruncatedPath(d, ino, p);
    }
  }

  /** Every other file keeps its size and all its blocks. */
  lemma TruncatedOthers(d: Disk, ino: nat, i: nat, offset: nat)
    requires Separate(d) && ino < InodeCount(d) && i < InodeCount(d) && i != ino && offset < Capacity()
    ensures var f := Truncated(d, ino);
            && Formatted(f) && SameGeometry(d, f)
            && NBlocks(f, i) == NBlocks(d, i)
            && FileBlock(f, i, offset) == FileBlock(d, i, offset) && Mapped(f, i, offset) == Mapped(d, i, offset)
  {
    var p := PathOf(i, offset);
    PathValid(d, i, offset);
    TruncatedBlocks(d, ino);
    TruncatedNode(d, ino, p);
    if NodeAt(d, p) != 0 {
      assert Owned(d, p);
      OtherNotReleased(d, ino, p);
    }
  }

  /** The bit of a data block is inverted exactly if the walk released the block, whatever it was before. */
  lemma TruncatedFlips(d: Disk, ino: nat, b: nat)
    requires OwnHeap(d, ino) && IsData(d, b)
    ensures var f := Truncated(d, ino);
            && Formatted(f) && IsData(f, b)
            && (InUse(f, b) <==> (InUse(d, b) <==>
                                  forall p | p in Released(d, ino) && ValidPath(d, p) :: NodeAt(d, p) != b))
  {
    var ps := Released(d, ino);
    InodeFreedOwned(d, ino, REFS_PER_INODE, NBlocks(d, ino));
    InodeFreedOnce(d, ino, REFS_PER_INODE, NBlocks(d, ino));
    var e := EraseAll(d, ino, ps);
    EraseAllBits(d, ino, ps, b);
    HitsSome(d, ino, ps, b);
    InodeOnDisk(d, ino);
    assert Truncated(d, ino)[0] == e[0];
    BitmapFrame(e, Truncated(d, ino));
  }

  /** Released blocks are zeroed, and all other data blocks are as they were. */
  lemma TruncatedContents(d: Disk, ino: nat, b: nat)
    requires OwnHeap(d, ino) && IsData(d, b)
    ensures var f := Truncated(d, ino);
            && b < |d| == |f|
            && f[b] == if exists p :: p in Released(d, ino) && ValidPath(d, p) && NodeAt(d, p) == b then NullBlock()
                       else d[b]
  {
    var ps := Released(d, ino);
    InodeFreedOwned(d, ino, REFS_PER_INODE, NBlocks(d, ino));
    InodeOnDisk(d, ino);
    HitsSome(d, ino, ps, b);
    EraseAllBlock(d, ino, ps, b);
  }

  /** So on a disk in order it is cleared exactly if the walk released the block. */
  lemma TruncatedBits(d: Disk, ino: nat, b: nat)
    requires Marked(d) && Unshared(d) && ino < InodeCount(d) && IsData(d, b)
    ensures var f := Truncated(d, ino);
            && Formatted(f) && IsData(f, b)
            && (InUse(f, b) <==>
                InUse(d, b) && forall p | p in Released(d, ino) && ValidPath(d, p) :: NodeAt(d, p) != b)
  {
    TruncatedFlips(d, ino, b);
    OnlyOwn(d, ino);
  }

  /** Truncating a file gives back exactly its own blocks but the lost ones, which stay marked as used; so it gives
      back all of them exactly if the walk is not cut short. */
  lemma TruncatedFree(d: Disk, ino: nat)
    requires Consistent(d) && ino < InodeCount(d)
    ensures Formatted(Truncated(d, ino))
    ensures forall b: nat | IsData(d, b) :: InUse(Truncated(d, ino), b) <==>
              InUse(d, b) && forall p | Owned(d, p) && p.Inode() == ino && !Lost(d, ino, p) :: NodeAt(d, p) != b
    ensures (forall b: nat | IsData(d, b) :: InUse(Truncated(d, ino), b) <==>
               InUse(d, b) && forall p | Owned(d, p) && p.Inode() == ino :: NodeAt(d, p) != b)
            <==> !CutShort(d, ino)
  {
    BitsKept(d, ino);
    if CutShort(d, ino) {
      LastBitKept(d, ino);
    } else {
      NoneLost(d, ino);
    }
    hide Consistent, InUse, Lost, CutShort, Truncated;
  }

  lemma BitsKept(d: Disk, ino: nat)
    requires Consistent(d) && ino < InodeCount(d)
    ensures Formatted(Truncated(d, ino)) && SameGeometry(d, Truncated(d, ino))
    ensures forall b: nat | IsData(d, b) :: InUse(Truncated(d, ino), b) <==>
              InUse(d, b) && forall p | Owned(d, p) && p.Inode() == ino && !Lost(d, ino, p) :: NodeAt(d, p) != b
  {
    TruncatedBlocks(d, ino);
    hide Sized, Ended, Fruitful, InUse, Lost, Truncated, Released;
    forall b: nat | IsData(d, b)
      ensures InUse(Truncated(d, ino), b) <==>
                InUse(d, b) && forall p | Owned(d, p) && p.Inode() == ino && !Lost(d, ino, p) :: NodeAt(d, p) != b
    {
      BitKept(d, ino, b);
    }
  }

  lemma BitKept(d: Disk, ino: nat, b: nat)
    requires Consistent(d) && ino < InodeCount(d) && IsData(d, b)
    ensures var f := Truncated(d, ino);
            && Formatted(f) && IsData(f, b)
            && (InUse(f, b) <==>
                InUse(d, b) && forall p | Owned(d, p) && p.Inode() == ino && !Lost(d, ino, p) :: NodeAt(d, p) != b)
  {
    TruncatedBits(d, ino, b);
    OnlyOwn(d, ino);
    forall p | Owned(d, p) && p.Inode() == ino
      ensures p in Released(d, ino) <==> !Lost(d, ino, p)
    {
      ReleasedExactly(d, ino, p);
    }
  }

  lemma NoneLost(d: Disk, ino: nat)
    requires Formatted(d) && ino < InodeCount(d) && !CutShort(d, ino)
    ensures forall p :: !Lost(d, ino, p)
  {
  }

  /** The last block of a file cut short is in use and stays so, though the file led to it. */
  lemma LastBitKept(d: Disk, ino: nat)
    requires Consistent(d) && ino < InodeCount(d) && CutShort(d, ino)
    ensures var z := PathOf(ino, NBlocks(d, ino) - 1);
            && Owned(d, z) && z.Inode() == ino && IsData(d, NodeAt(d, z))
            && InUse(d, NodeAt(d, z)) && Formatted(Truncated(d, ino)) && InUse(Truncated(d, ino), NodeAt(d, z))
  {
    LastKept(d, ino);
    InodeFreedOwned(d, ino, REFS_PER_INODE, NBlocks(d, ino));
    TruncatedBits(d, ino, NodeAt(d, PathOf(ino, NBlocks(d, ino) - 1)));
  }

  lemma OnlyOwn(d: Disk, ino: nat)
    requires Formatted(d) && ino < InodeCount(d)
    ensures forall p | p in Released(d, ino) :: Owned(d, p) && p.Inode() == ino
  {
    forall p | p in Released(d, ino)
      ensures Owned(d, p) && p.Inode() == ino
    {
      FreedOfInode(d, ino, REFS_PER_INODE, NBlocks(d, ino), p);
    }
  }

  /** A truncation leaves the disk sound exactly if there was nothing to release: the inode's
      references are not cleared, so those of a file with data go on leading to freed blocks. */
  lemma TruncatedSound(d: Disk, ino: nat)
    requires Consistent(d) && ino < InodeCount(d)
    ensures Sound(Truncated(d, ino)) <==> NBlocks(d, ino) == 0
  {
    TruncatedBlocks(d, ino);
    if NBlocks(d, ino) == 0 {
      EmptyFileReleasesNothing(d, ino);
      WithSizeRefs(d, ino, 0);
      SameRefsSound(d, Truncated(d, ino));
    } else {
      var p := FirstReleased(d, ino);
      var f := Truncated(d, ino);
      TruncatedRoot(d, ino, p);
      TruncatedBits(d, ino, NodeAt(d, p));
      assert Owned(f, p) && !InUse(f, NodeAt(f, p));
    }
  }

  lemma EmptyFileReleasesNothing(d: Disk, ino: nat)
    requires Consistent(d) && ino < InodeCount(d) && NBlocks(d, ino) == 0
    ensures Released(d, ino) == []
  {
    var ps := Released(d, ino);
    if ps != [] {
      var q := ps[0];
      assert q in ps;
      FreedOfInode(d, ino, REFS_PER_INODE, 0, q);
      RootBears(d, ino, q.Slot());
      RootOf(d, q);
      var z :| LeafUnder(d, z, q);
      ThroughDeeper(z, q);
      DataGivesSize(d, z);
    }
  }

  lemma DataGivesSize(d: Disk, z: Path)
    requires Consistent(d) && Owned(d, z) && IsLeaf(z)
    ensures z.Inode() < InodeCount(d) && NBlocks(d, z.Inode()) > 0
  {
    var x, o := LeafOffset(d, z);
    assert Mapped(d, z.Inode(), o);
  }

  /** A file with data has a reference of its inode released. */
  lemma FirstReleased(d: Disk, ino: nat) returns (p: Path)
    requires Consistent(d) && ino < InodeCount(d) && NBlocks(d, ino) > 0
    ensures p.Root? && Owned(d, p) && p in Released(d, ino)
    ensures IsData(d, NodeAt(d, p))
  {
    assert EndsInBlock(d, ino);
    var n := NBlocks(d, ino);
    var z := PathOf(ino, n - 1);
    PathValid(d, ino, n - 1);
    p := Root(ino, z.Slot());
    RootOf(d, z);
    NothingBelow(d, z, p);
    if CutShort(d, ino) {
      TripleRootReleased(d, ino);
    } else {
      ReleasedAll(d, ino);
    }
  }

  /** Even a walk cut short releases the triple indirect block itself. */
  lemma TripleRootReleased(d: Disk, ino: nat)
    requires Consistent(d) && ino < InodeCount(d) && CutShort(d, ino)
    ensures Owned(d, Root(ino, TRIPLE)) && Root(ino, TRIPLE) in Released(d, ino)
  {
    var n := NBlocks(d, ino);
    var z := PathOf(ino, n - 1);
    var root := Root(ino, TRIPLE);
    CutArrival(d, ino);
    ArrivalPositive(d, ino);
    var w := ReleaseInode(d, ino, TRIPLE, n);
    var v := ReleaseTree(d, root, w.left);
    assert v.freed[|v.freed| - 1] == root;
    assert Released(d, ino) == w.freed + v.freed;
  }

  lemma ArrivalPositive(d: Disk, ino: nat)
    requires Consistent(d) && ino < InodeCount(d) && CutShort(d, ino)
    ensures var z := PathOf(ino, NBlocks(d, ino) - 1); var root := Root(ino, TRIPLE);
            ValidPath(d, z) && z.Through(root) && Before(d, z, root) > 0
  {
    var z := PathOf(ino, NBlocks(d, ino) - 1);
    var root := Root(ino, TRIPLE);
    CutArrival(d, ino);
    ThroughDeeper(z, root);
    var x, o := LeafOffset(d, z);
    VoidEmpty(d, ino);
    BeforeWeight(d, z, root);
    WeightBeforeIndex(root, x);
  }

  // ---------------------------------------------------------------- the shortest file it happens to

  /** The first offset of the triple indirect tree. */
  function FirstTriple(): nat {
    SINGLE + REFS_PER_BLOCK + REFS_PER_BLOCK * REFS_PER_BLOCK
  }

  /** One block written there into an empty file is not released when the file is truncated, and nor is the
      indirect block that refers to it; the other two indirect blocks are. */
  lemma LoneTripleBlock(d: Disk, f: Disk, ino: nat, block: Block)
    requires Consistent(d) && ino < InodeCount(d) && NBlocks(d, ino) == 0 && FirstTriple() < Capacity()
    requires Written(d, f, PathOf(ino, FirstTriple()), block) && Resized(d, f, ino, FirstTriple())
    ensures Formatted(f) && ino < InodeCount(f) && CutShort(f, ino)
    ensures var leaf := Child(Child(Root(ino, TRIPLE), 0), 1);
            forall q :: Lost(f, ino, q) <==> q == leaf || q == Child(leaf, 0)
  {
    LoneTripleCut(d, f, ino, block);
    hide *;
    forall q
      ensures Lost(f, ino, q) <==> q == Child(Child(Root(ino, TRIPLE), 0), 1)
                                   || q == Child(Child(Child(Root(ino, TRIPLE), 0), 1), 0)
    {
      LostWithLone(f, ino, q);
    }
  }

  lemma LostWithLone(f: Disk, ino: nat, q: Path)
    requires Formatted(f) && ino < InodeCount(f) && CutShort(f, ino) && NBlocks(f, ino) == FirstTriple() + 1
    ensures Lost(f, ino, q) <==> q == Child(Child(Root(ino, TRIPLE), 0), 1)
                                 || q == Child(Child(Child(Root(ino, TRIPLE), 0), 1), 0)
  {
    FirstTriplePath(ino);
    hide CutShort, FirstTriple, PathOf, Formatted;
    var leaf := Child(Child(Root(ino, TRIPLE), 0), 1);
    assert Lost(f, ino, q) <==> ByFirstReferences(Child(leaf, 0), q);
    assert !ByFirstReferences(leaf, q) || q == leaf;
  }

  lemma LoneTripleCut(d: Disk, f: Disk, ino: nat, block: Block)
    requires Consistent(d) && ino < InodeCount(d) && NBlocks(d, ino) == 0 && FirstTriple() < Capacity()
    requires Written(d, f, PathOf(ino, FirstTriple()), block) && Resized(d, f, ino, FirstTriple())
    ensures Formatted(f) && ino < InodeCount(f) && CutShort(f, ino) && NBlocks(f, ino) == FirstTriple() + 1
  {
    var z := PathOf(ino, FirstTriple());
    PathValid(d, ino, FirstTriple());
    EmptyFile(d, ino);
    FirstTriplePath(ino);
    assert NodeAt(f, Root(ino, DOUBLE)) == 0 by {
      assert ValidPath(d, Root(ino, DOUBLE));
      if z.Through(Root(ino, DOUBLE)) {
        ThroughDeeper(z, Root(ino, DOUBLE));
      }
    }
    hide Descend;
    WrittenFiles(d, f, ino, FirstTriple(), block);
    LoneDense(f, ino, z);
  }

  lemma LoneDense(f: Disk, ino: nat, z: Path)
    requires Formatted(f) && ino < InodeCount(f) && Owned(f, z) && NodeAt(f, Root(ino, DOUBLE)) == 0
    requires z == Child(Child(Child(Root(ino, TRIPLE), 0), 1), 0)
    ensures z.Inode() == ino && DenseBefore(f, z)
  {
    var root := Root(ino, TRIPLE);
    var c := Child(root, 0);
    var leaf := Child(c, 1);
    assert c.Depth() == 1 && c.Slot() == TRIPLE && c.Inode() == ino && c.Through(root);
    assert leaf.Depth() == 2 && leaf.Slot() == TRIPLE && leaf.Inode() == ino && leaf.Through(root);
    RootOf(f, z);
    assert IsVoid(Child(c, 0));
    assert FullTo(f, c, 0) && FullTo(f, c, 1);
    assert FullTo(f, root, 0) && FullTo(f, leaf, 0);
    assert FullBefore(f, c, root);
    assert FullBefore(f, leaf, root);
    assert FullBefore(f, z, root);
  }

  lemma FirstTriplePath(ino: nat)
    ensures PathOf(ino, FirstTriple()) == Child(Child(Child(Root(ino, TRIPLE), 0), 1), 0)
  {
    SpanProducts();
    var x := REFS_PER_BLOCK;
    assert PlaceOf(FirstTriple()) == Place(TRIPLE, 3, x);
    var root := Root(ino, TRIPLE);
    assert Quot(x, Span(2)) == 0 && Rem(x, Span(2)) == x;
    assert Quot(x, Span(1)) == 1 + Quot(0, Span(1)) == 1 && Rem(x, Span(1)) == Rem(0, Span(1)) == 0;
    assert Descend(root, 3, x) == Descend(Child(root, 0), 2, x) == Descend(Child(Child(root, 0), 1), 1, 0);
  }

  lemma EmptyFile(d: Disk, ino: nat)
    requires Consistent(d) && ino < InodeCount(d) && NBlocks(d, ino) == 0
    ensures forall slot: nat | slot < REFS_PER_INODE :: NodeAt(d, Root(ino, slot)) == 0
  {
    forall slot: nat | slot < REFS_PER_INODE
      ensures NodeAt(d, Root(ino, slot)) == 0
    {
      var p := Root(ino, slot);
      if NodeAt(d, p) != 0 {
        assert Owned(d, p);
        RootBears(d, ino, slot);
        ThroughDeeper(p, p);
        var z :| LeafUnder(d, z, p);
        ThroughDeeper(z, p);
        DataGivesSize(d, z);
      }
    }
  }
}
