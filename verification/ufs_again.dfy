/** Truncating once more: what the release walk does with a count of 0 and below, and so to a file of size 0 whose
    references an earlier truncation has left in its inode. */
module UfsAgain {
  import opened BlockStore
  import opened UfsTree
  import opened UfsFile
  import opened UfsWalk
  import opened UfsCount
  import opened UfsInode
  import opened UfsCut
  import opened UfsSetSize
  import opened UfsTruncate

  // ---------------------------------------------------------------- below zero

  /** The count is tested for 0 only: a walk entered with less releases its whole tree and stays below 0. */
  lemma {:induction false} BelowZero(d: Disk, p: Path, left: int)
    requires Formatted(d) && Owned(d, p) && left < 0
    ensures ReleaseTree(d, p, left).left < 0 && Covered(d, p, ReleaseTree(d, p, left).freed)
    decreases Height(p), REFS_PER_BLOCK + 1
  {
    if IsLeaf(p) {
      forall q | Owned(d, q) && q.Through(p)
        ensures q == p
      {
        LeafIsLast(d, q, p);
      }
    } else {
      BelowZeroRefs(d, p, REFS_PER_BLOCK, left);
      forall q | Owned(d, q) && q.Through(p)
        ensures q in ReleaseTree(d, p, left).freed
      {
        if q != p {
          var k := ChildTowards(d, q, p);
          assert Covered(d, Child(p, k), ReleaseRefs(d, p, REFS_PER_BLOCK, left).freed);
        }
      }
    }
  }

  lemma {:induction false} BelowZeroRefs(d: Disk, p: Path, j: nat, left: int)
    requires Formatted(d) && Owned(d, p) && !IsLeaf(p) && j <= REFS_PER_BLOCK && left < 0
    ensures ReleaseRefs(d, p, j, left).left < 0 && CoveredTo(d, p, j, ReleaseRefs(d, p, j, left).freed)
    decreases Height(p), j
  {
    hide Covered, CoveredTo;
    if j == 0 {
      CoveredNone(d, p, []);
    } else {
      ValidHeight(d, p);
      BelowZeroRefs(d, p, j - 1, left);
      var w := ReleaseRefs(d, p, j - 1, left);
      var c := Child(p, j - 1);
      if NodeAt(d, c) != 0 {
        BelowZero(d, c, w.left);
        CoveredNext(d, p, j - 1, w.freed, ReleaseTree(d, c, w.left).freed);
      } else {
        NothingCovered(d, c, w.freed);
        CoveredNext(d, p, j - 1, w.freed, []);
        assert w.freed + [] == w.freed;
      }
    }
  }

  // ---------------------------------------------------------------- a file of size 0

  /** Some reference of the inode before `s` is empty. */
  predicate HoleBefore(d: Disk, ino: nat, s: nat)
    requires Formatted(d) && ino < InodeCount(d)
  {
    exists slot: nat :: slot < s && slot < REFS_PER_INODE && NodeAt(d, Root(ino, slot)) == 0
  }

  lemma HoleNext(d: Disk, ino: nat, s: nat)
    requires Formatted(d) && ino < InodeCount(d) && 0 < s <= REFS_PER_INODE
    ensures HoleBefore(d, ino, s) <==> HoleBefore(d, ino, s - 1) || NodeAt(d, Root(ino, s - 1)) == 0
  {
    if NodeAt(d, Root(ino, s - 1)) == 0 {
    } else if HoleBefore(d, ino, s) {
      var slot: nat :| slot < s && slot < REFS_PER_INODE && NodeAt(d, Root(ino, slot)) == 0;
      assert slot < s - 1;
    }
  }

  /** With a count of 0 the walk passes over references that lead to blocks, until it has been charged for a hole. */
  lemma {:induction false} FromZero(d: Disk, ino: nat, s: nat)
    requires Formatted(d) && ino < InodeCount(d) && s <= TRIPLE
    ensures var left := ReleaseInode(d, ino, s, 0).left; if HoleBefore(d, ino, s) then left < 0 else left == 0
    decreases s
  {
    hide HoleBefore;
    if s == 0 {
      NoHoleBefore(d, ino);
    } else {
      FromZero(d, ino, s - 1);
      HoleNext(d, ino, s);
      var p := Root(ino, s - 1);
      var w := ReleaseInode(d, ino, s - 1, 0);
      if NodeAt(d, p) != 0 && w.left < 0 {
        BelowZero(d, p, w.left);
      }
    }
  }

  lemma NoHoleBefore(d: Disk, ino: nat)
    requires Formatted(d) && ino < InodeCount(d)
    ensures !HoleBefore(d, ino, 0)
  {
  }

  lemma {:induction false} ReleasedBehindHole(d: Disk, ino: nat, s: nat, p: Path)
    requires Formatted(d) && ino < InodeCount(d) && s <= REFS_PER_INODE && Owned(d, p) && p.Inode() == ino
    requires p.Slot() < REFS_PER_INODE
    ensures p in ReleaseInode(d, ino, s, 0).freed <==> p.Slot() < s && HoleBefore(d, ino, p.Slot())
    decreases s
  {
    if s > 0 {
      ReleasedBehindHole(d, ino, s - 1, p);
      FromZero(d, ino, s - 1);
      hide HoleBefore, ReleaseInode;
      OneSlotMore(d, ino, s, p);
    }
  }

  lemma OneSlotMore(d: Disk, ino: nat, s: nat, p: Path)
    requires Formatted(d) && ino < InodeCount(d) && 0 < s <= REFS_PER_INODE && Owned(d, p) && p.Inode() == ino
    requires ReleaseInode(d, ino, s - 1, 0).left <= 0
    ensures var w := ReleaseInode(d, ino, s - 1, 0);
            p in ReleaseInode(d, ino, s, 0).freed <==> p in w.freed || (p.Slot() == s - 1 && w.left < 0)
  {
    var q := Root(ino, s - 1);
    var w := ReleaseInode(d, ino, s - 1, 0);
    RootOf(d, p);
    hide ReleaseTree, Covered;
    if NodeAt(d, q) != 0 {
      SlotReleased(d, ino, s - 1, w.left, p);
    } else if p.Slot() == s - 1 {
      NothingBelow(d, p, q);
    }
  }

  lemma SlotReleased(d: Disk, ino: nat, slot: nat, left: int, p: Path)
    requires Formatted(d) && ino < InodeCount(d) && slot < REFS_PER_INODE && Owned(d, Root(ino, slot)) && left <= 0
    requires Owned(d, p) && p.Inode() == ino
    ensures p in ReleaseTree(d, Root(ino, slot), left).freed <==> p.Slot() == slot && left < 0
  {
    var q := Root(ino, slot);
    RootOf(d, p);
    FreedBelow(d, q, left, p);
    if p.Through(q) {
      ThroughDeeper(p, q);
    }
    if left < 0 {
      BelowZero(d, q, left);
    }
  }

  /** Of a file of size 0 that still has references, setting the size releases exactly the blocks behind the first
      empty reference of the inode. */
  lemma AgainReleased(d: Disk, ino: nat, p: Path)
    requires Formatted(d) && ino < InodeCount(d) && NBlocks(d, ino) == 0 && Owned(d, p) && p.Inode() == ino
    ensures p.Slot() < REFS_PER_INODE && (p in Released(d, ino) <==> HoleBefore(d, ino, p.Slot()))
  {
    RootOf(d, p);
    ReleasedBehindHole(d, ino, REFS_PER_INODE, p);
  }

  /** One of those blocks is `b`. */
  ghost predicate BehindHole(d: Disk, ino: nat, b: nat)
    requires Formatted(d) && ino < InodeCount(d)
  {
    exists p :: Owned(d, p) && p.Inode() == ino && HoleBefore(d, ino, p.Slot()) && NodeAt(d, p) == b
  }

  lemma HitBehindHole(d: Disk, ino: nat, b: nat)
    requires OwnHeap(d, ino) && NBlocks(d, ino) == 0
    ensures BehindHole(d, ino, b) <==> exists p :: p in Released(d, ino) && ValidPath(d, p) && NodeAt(d, p) == b
  {
    OnlyOwn(d, ino);
    hide HoleBefore, Released;
    if BehindHole(d, ino, b) {
      var p :| Owned(d, p) && p.Inode() == ino && HoleBefore(d, ino, p.Slot()) && NodeAt(d, p) == b;
      AgainReleased(d, ino, p);
    }
    if p :| p in Released(d, ino) && ValidPath(d, p) && NodeAt(d, p) == b {
      AgainReleased(d, ino, p);
    }
  }

  /** The bits of those blocks are inverted, so that the free ones among them come to be marked as used, and all other
      bits stay; those blocks are zeroed, and all other data blocks are as they were. */
  lemma AgainTruncated(d: Disk, ino: nat, b: nat)
    requires OwnHeap(d, ino) && NBlocks(d, ino) == 0 && IsData(d, b)
    ensures var f := Truncated(d, ino);
            && Formatted(f) && IsData(f, b) && b < |d| == |f|
            && (InUse(f, b) <==> InUse(d, b) != BehindHole(d, ino, b))
            && f[b] == if BehindHole(d, ino, b) then NullBlock() else d[b]
  {
    HitBehindHole(d, ino, b);
    hide OwnHeap, Truncated, Released, BehindHole, InUse;
    TruncatedFlips(d, ino, b);
    TruncatedContents(d, ino, b);
  }

  /** The references in the inode outlive the first truncation, and so do the holes among them. */
  lemma HolesStay(d: Disk, ino: nat, s: nat)
    requires Separate(d) && ino < InodeCount(d)
    ensures Formatted(Truncated(d, ino)) && ino < InodeCount(Truncated(d, ino))
    ensures HoleBefore(Truncated(d, ino), ino, s) <==> HoleBefore(d, ino, s)
  {
    TruncatedBlocks(d, ino);
    var f := Truncated(d, ino);
    forall slot: nat | slot < REFS_PER_INODE
      ensures NodeAt(f, Root(ino, slot)) == NodeAt(d, Root(ino, slot))
    {
      TruncatedRoot(d, ino, Root(ino, slot));
    }
    hide Truncated;
  }

  lemma OnlyPathBehindHole(f: Disk, ino: nat, p: Path)
    requires Separate(f) && ino < InodeCount(f) && Owned(f, p) && p.Inode() == ino
    ensures BehindHole(f, ino, NodeAt(f, p)) <==> HoleBefore(f, ino, p.Slot())
  {
    hide HoleBefore;
  }

  /** The first truncation marks the block at a reference of the inode as free; a second one marks it as used again,
      though the file is empty, exactly if the inode has an empty reference before it. */
  lemma TruncatedTwice(d: Disk, ino: nat, p: Path)
    requires Consistent(d) && ino < InodeCount(d) && Owned(d, p) && p.Root? && p.ino == ino && !Lost(d, ino, p)
    ensures var f := Truncated(d, ino); var b := NodeAt(d, p);
            && OwnHeap(f, ino) && NBlocks(f, ino) == 0 && IsData(f, b) && !InUse(f, b)
            && (var g := Truncated(f, ino);
                && Formatted(g) && IsData(g, b) && NBlocks(g, ino) == 0
                && (InUse(g, b) <==> HoleBefore(d, ino, p.slot)))
  {
    FirstTime(d, ino, p);
    hide Consistent, Lost, HoleBefore, Truncated, InUse, Separate;
    SecondTime(Truncated(d, ino), ino, p);
  }

  lemma FirstTime(d: Disk, ino: nat, p: Path)
    requires Consistent(d) && ino < InodeCount(d) && Owned(d, p) && p.Root? && p.ino == ino && !Lost(d, ino, p)
    ensures var f := Truncated(d, ino); var b := NodeAt(d, p);
            && Separate(f) && ino < InodeCount(f) && NBlocks(f, ino) == 0 && Owned(f, p) && NodeAt(f, p) == b
            && IsData(f, b) && !InUse(f, b) && (HoleBefore(f, ino, p.slot) <==> HoleBefore(d, ino, p.slot))
  {
    TruncatedBlocks(d, ino);
    TruncatedSeparate(d, ino);
    TruncatedRoot(d, ino, p);
    FreeAfter(d, ino, p);
    HolesStay(d, ino, p.slot);
    hide Consistent, Lost, HoleBefore, Truncated, InUse;
  }

  lemma SecondTime(f: Disk, ino: nat, p: Path)
    requires Separate(f) && ino < InodeCount(f) && NBlocks(f, ino) == 0 && Owned(f, p) && p.Root? && p.ino == ino
    requires IsData(f, NodeAt(f, p)) && !InUse(f, NodeAt(f, p))
    ensures OwnHeap(f, ino)
    ensures var g := Truncated(f, ino); var b := NodeAt(f, p);
            && Formatted(g) && ino < InodeCount(g) && IsData(g, b) && NBlocks(g, ino) == 0
            && (InUse(g, b) <==> HoleBefore(f, ino, p.slot))
  {
    OnlyPathBehindHole(f, ino, p);
    AgainTruncated(f, ino, NodeAt(f, p));
    TruncatedBlocks(f, ino);
    hide HoleBefore, Truncated, InUse, BehindHole;
  }

  lemma FreeAfter(d: Disk, ino: nat, p: Path)
    requires Consistent(d) && ino < InodeCount(d) && Owned(d, p) && p.Inode() == ino && !Lost(d, ino, p)
    ensures var f := Truncated(d, ino);
            Formatted(f) && IsData(d, NodeAt(d, p)) && IsData(f, NodeAt(d, p)) && !InUse(f, NodeAt(d, p))
  {
    BitKept(d, ino, NodeAt(d, p));
  }
}
