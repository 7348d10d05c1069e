/** Exactly which blocks a release walk misses when its count runs out. */
module UfsCut {
  import opened BlockStore
  import opened UfsTree
  import opened UfsFile
  import opened UfsWalk
  import opened UfsCount
  import opened UfsInode

  // ---------------------------------------------------------------- the order of the walk

  lemma {:induction false} ChargesToMonotone(d: Disk, p: Path, i: nat, j: nat)
    requires Formatted(d) && ValidPath(d, p) && !IsLeaf(p) && i <= j <= REFS_PER_BLOCK
    ensures ChargesTo(d, p, i) <= ChargesTo(d, p, j)
  {
    if i < j {
      ChargesToMonotone(d, p, i, j - 1);
    }
  }

  /** Some of what a tree is charged comes after the arrival at any block of it that leads to data. */
  lemma {:induction false} BeforeBelowCharges(d: Disk, z: Path, p: Path)
    requires Formatted(d) && LeafUnder(d, z, p) && Owned(d, p)
    ensures Before(d, z, p) < Charges(d, p)
    decreases Height(p)
  {
    if z == p {
    } else {
      var k := ChildTowards(d, z, p);
      var c := Child(p, k);
      ValidHeight(d, p);
      ValidHeight(d, c);
      BeforeBelowCharges(d, z, c);
      BeforeVia(d, z, c);
      ChargesToMonotone(d, p, k + 1, REFS_PER_BLOCK);
      assert ChargesTo(d, p, k + 1) == ChargesTo(d, p, k) + Charges(d, c);
    }
  }

  /** A block on the way to another is reached no later. */
  lemma {:induction false} BeforeOnWay(d: Disk, z: Path, q: Path, p: Path)
    requires Formatted(d) && ValidPath(d, z) && z.Through(q) && q.Through(p)
    ensures ValidPath(d, q) && z.Through(p) && Before(d, q, p) <= Before(d, z, p)
  {
    ThroughTransitive(z, q, p);
    if z != q {
      BeforeOnWay(d, z.up, q, p);
      ThroughDeeper(q, p);
      ThroughDeeper(z.up, q);
      ValidHeight(d, z);
    }
  }

  /** Blocks under a later reference are reached later. */
  lemma LaterReference(d: Disk, p: Path, i: nat, z: Path, k: nat, y: Path)
    requires Formatted(d) && Owned(d, p) && !IsLeaf(p) && i < k < REFS_PER_BLOCK
    requires LeafUnder(d, z, Child(p, i)) && Owned(d, Child(p, i)) && ValidPath(d, y) && y.Through(Child(p, k))
    ensures z.Through(p) && y.Through(p) && Before(d, z, p) < Before(d, y, p)
  {
    var c := Child(p, i);
    ValidHeight(d, p);
    BeforeVia(d, y, Child(p, k));
    BeforeVia(d, z, c);
    BeforeBelowCharges(d, z, c);
    ChargesToMonotone(d, p, i + 1, k);
    assert ChargesTo(d, p, i + 1) == ChargesTo(d, p, i) + Charges(d, c);
  }

  /** After the block at which the count runs out there is no other. */
  lemma NothingLater(d: Disk, p: Path, left: int, z: Path, i: nat, k: nat, q: Path)
    requires Formatted(d) && Bears(d, p) && RunsOutAt(d, p, left, z) && !IsLeaf(p) && i < k < REFS_PER_BLOCK
    requires Owned(d, Child(p, i)) && z.Through(Child(p, i))
    ensures !(Owned(d, q) && q.Through(Child(p, k)))
  {
    if Owned(d, q) && q.Through(Child(p, k)) {
      ThroughTransitive(q, Child(p, k), p);
      ThroughDeeper(p, p);
      var y :| LeafUnder(d, y, q);
      hide Bears, Before, ChargesTo, Charges, NodeAt, ValidPath;
      ThroughTransitive(y, q, Child(p, k));
      ThroughTransitive(y, Child(p, k), p);
      assert LeafUnder(d, y, p) && LeafUnder(d, z, Child(p, i));
      LaterReference(d, p, i, z, k, y);
    }
  }

  // ---------------------------------------------------------------- what a cut walk misses

  /** q is on the way to z and reached at the same count: nothing is charged between the two. */
  predicate Missed(d: Disk, q: Path, z: Path, p: Path)
    requires Formatted(d) && ValidPath(d, z) && z.Through(p) && ValidPath(d, q) && q.Through(p)
  {
    z.Through(q) && Before(d, q, p) == Before(d, z, p)
  }

  lemma MissedBelow(d: Disk, q: Path, z: Path, p: Path, k: nat)
    requires Formatted(d) && ValidPath(d, p) && !IsLeaf(p) && k < REFS_PER_BLOCK
    requires ValidPath(d, z) && z.Through(Child(p, k)) && ValidPath(d, q) && q.Through(Child(p, k))
    ensures z.Through(p) && q.Through(p) && (Missed(d, q, z, p) <==> Missed(d, q, z, Child(p, k)))
  {
    BeforeVia(d, q, Child(p, k));
    BeforeVia(d, z, Child(p, k));
  }

  /** A walk whose count is 0 on entry misses everything, and all of it is on the way to z. */
  lemma EmptyWalk(d: Disk, p: Path, z: Path, q: Path)
    requires Formatted(d) && Bears(d, p) && RunsOutAt(d, p, 0, z) && Owned(d, q) && q.Through(p)
    ensures Missed(d, q, z, p)
  {
    var y :| LeafUnder(d, y, q);
    ThroughTransitive(y, q, p);
    assert LeafUnder(d, y, p);
    BeforeOnWay(d, z, q, p);
  }

  /** A walk whose count runs out on arrival at z releases every block of the tree but z and those on the way to
      z that are reached at the same count. */
  lemma {:induction false} CutExactly(d: Disk, p: Path, left: int, z: Path, q: Path)
    requires Formatted(d) && Bears(d, p) && RunsOutAt(d, p, left, z) && Owned(d, q) && q.Through(p)
    ensures q in ReleaseTree(d, p, left).freed <==> !Missed(d, q, z, p)
    decreases Height(p), REFS_PER_BLOCK + 1
  {
    if left == 0 {
      EmptyWalk(d, p, z, q);
    } else if IsLeaf(p) {
      LeafIsLast(d, z, p);
    } else {
      var k := ChildTowards(d, z, p);
      if q == p {
      } else {
        CutRefsExactly(d, p, left, z, k, q);
      }
    }
  }

  /** What happens below one reference happens in the walk below that reference. */
  lemma {:induction false} FreedAt(d: Disk, p: Path, j: nat, left: int, i: nat, q: Path)
    requires Formatted(d) && Owned(d, p) && !IsLeaf(p) && i < j <= REFS_PER_BLOCK
    requires Owned(d, Child(p, i)) && q.Through(Child(p, i))
    ensures q in ReleaseRefs(d, p, j, left).freed
            <==> q in ReleaseTree(d, Child(p, i), ReleaseRefs(d, p, i, left).left).freed
    decreases j
  {
    var w := ReleaseRefs(d, p, j - 1, left);
    var c := Child(p, j - 1);
    if i == j - 1 {
      FreedBelowRefs(d, p, i, left, q);
      if q in w.freed {
        var k: nat :| k < i && q.Through(Child(p, k));
        SiblingsApart(q, p, k, i);
      }
    } else {
      FreedAt(d, p, j - 1, left, i, q);
      if NodeAt(d, c) != 0 {
        FreedBelow(d, c, w.left, q);
        if q.Through(c) {
          SiblingsApart(q, p, i, j - 1);
        }
      }
    }
  }

  lemma LastsFewer(d: Disk, p: Path, i: nat, j: nat, left: int)
    requires Formatted(d) && ValidPath(d, p) && !IsLeaf(p) && i <= j <= REFS_PER_BLOCK && LastsTo(d, p, j, left)
    ensures LastsTo(d, p, i, left)
  {
  }

  /** Below the references before the one that leads to z nothing is missed. */
  lemma EarlierFreed(d: Disk, p: Path, left: int, z: Path, k: nat, i: nat, q: Path)
    requires Formatted(d) && Bears(d, p) && RunsOutAt(d, p, left, z) && !IsLeaf(p) && i < k < REFS_PER_BLOCK
    requires z.Through(Child(p, k)) && Owned(d, Child(p, k))
    requires Owned(d, q) && Owned(d, Child(p, i)) && q.Through(Child(p, i))
    ensures q in ReleaseRefs(d, p, REFS_PER_BLOCK, left).freed && !z.Through(q)
  {
    CutChild(d, p, k, left, z);
    LastsFewer(d, p, i, k, left);
    LastsFewer(d, p, i + 1, k, left);
    RunsOutFacts(d, p, left, z);
    hide RunsOutAt, LastsTo, Before, ChargesTo;
    UncutRefs(d, p, i, left);
    LastsChild(d, p, i + 1, left);
    BearsChild(d, p, i);
    UncutTree(d, Child(p, i), ReleaseRefs(d, p, i, left).left);
    FreedAt(d, p, REFS_PER_BLOCK, left, i, q);
    if z.Through(q) {
      ThroughTransitive(z, q, Child(p, i));
      SiblingsApart(z, p, i, k);
    }
  }

  lemma ChildFacts(d: Disk, p: Path, left: int, z: Path, k: nat)
    requires Formatted(d) && Bears(d, p) && RunsOutAt(d, p, left, z) && !IsLeaf(p)
    requires k < REFS_PER_BLOCK && z.Through(Child(p, k)) && Owned(d, Child(p, k))
    ensures var c := Child(p, k);
            && Owned(d, p) && Owned(d, z) && Bears(d, c) && Height(c) < Height(p)
            && RunsOutAt(d, c, ReleaseRefs(d, p, k, left).left, z)
  {
    CutChild(d, p, k, left, z);
    BearsChild(d, p, k);
    ValidHeight(d, p);
    ValidHeight(d, Child(p, k));
    UncutRefs(d, p, k, left);
  }

  lemma {:induction false} CutRefsExactly(d: Disk, p: Path, left: int, z: Path, k: nat, q: Path)
    requires Formatted(d) && Bears(d, p) && RunsOutAt(d, p, left, z) && !IsLeaf(p)
    requires k < REFS_PER_BLOCK && z.Through(Child(p, k)) && Owned(d, Child(p, k))
    requires Owned(d, q) && q.Through(p) && q != p
    ensures q in ReleaseRefs(d, p, REFS_PER_BLOCK, left).freed <==> !Missed(d, q, z, p)
    decreases Height(p), REFS_PER_BLOCK
  {
    ChildFacts(d, p, left, z, k);
    hide RunsOutAt, Bears, Before, ReleaseRefs, ReleaseTree, Missed;
    var i := ChildTowards(d, q, p);
    if i < k {
      EarlierFreed(d, p, left, z, k, i, q);
      NotOnWay(d, q, z, p);
    } else if i > k {
      NothingLater(d, p, left, z, k, i, q);
    } else {
      CutExactly(d, Child(p, k), ReleaseRefs(d, p, k, left).left, z, q);
      FreedAt(d, p, REFS_PER_BLOCK, left, k, q);
      MissedBelow(d, q, z, p, k);
    }
  }

  lemma NotOnWay(d: Disk, q: Path, z: Path, p: Path)
    requires Formatted(d) && ValidPath(d, z) && z.Through(p) && ValidPath(d, q) && q.Through(p) && !z.Through(q)
    ensures !Missed(d, q, z, p)
  {
  }

  // ---------------------------------------------------------------- the way to a first block

  /** From `q` the walk comes to `z` by first references alone. */
  predicate ByFirstReferences(z: Path, q: Path) {
    z == q || (z.Child? && z.i == 0 && ByFirstReferences(z.up, q))
  }

  lemma {:induction false} FirstOnWay(z: Path, q: Path, p: Path)
    requires ByFirstReferences(z, q) && z.Through(p) && p.Root?
    ensures z.Through(q) && q.Through(p)
  {
    if z != q {
      FirstOnWay(z.up, q, p);
    }
  }

  /** Every reference but those after it is charged something, so the first reference alone is free to reach. */
  lemma {:induction false} ChargedBefore(d: Disk, p: Path, i: nat)
    requires Formatted(d) && ValidPath(d, p) && !IsLeaf(p) && i <= REFS_PER_BLOCK
    ensures ChargesTo(d, p, i) >= i
    decreases Height(p), i
  {
    if i > 0 {
      ChargedBefore(d, p, i - 1);
      var c := Child(p, i - 1);
      ValidHeight(d, p);
      ValidHeight(d, c);
      if !IsLeaf(c) && NodeAt(d, c) != 0 {
        ChargedBefore(d, c, REFS_PER_BLOCK);
      }
    }
  }

  lemma {:induction false} MissedByFirst(d: Disk, q: Path, z: Path, p: Path)
    requires Formatted(d) && ValidPath(d, z) && z.Through(p) && ValidPath(d, q) && q.Through(p)
    ensures Missed(d, q, z, p) <==> ByFirstReferences(z, q)
  {
    if z == q {
    } else if z.Through(q) {
      ThroughDeeper(z.up, q);
      ThroughDeeper(q, p);
      ValidHeight(d, z);
      ChargedBefore(d, z.up, z.i);
      BeforeOnWay(d, z.up, q, p);
      MissedByFirst(d, q, z.up, p);
      assert Before(d, z, p) == Before(d, z.up, p) + ChargesTo(d, z.up, z.i);
      assert z.i == 0 ==> ChargesTo(d, z.up, z.i) == 0;
      assert ByFirstReferences(z, q) <==> z.i == 0 && ByFirstReferences(z.up, q);
    } else {
      NeverFirst(z, q);
    }
  }

  lemma {:induction false} NeverFirst(z: Path, q: Path)
    requires !z.Through(q)
    ensures !ByFirstReferences(z, q)
  {
    if z.Child? {
      NeverFirst(z.up, q);
    }
  }

  // ---------------------------------------------------------------- over the whole inode

  /** What truncating file `ino` misses: nothing, unless the walk is cut short; then the last block, and the
      indirect blocks from which the walk comes to it by first references alone. */
  predicate Lost(d: Disk, ino: nat, q: Path)
    requires Formatted(d) && ino < InodeCount(d)
  {
    CutShort(d, ino) && ByFirstReferences(PathOf(ino, NBlocks(d, ino) - 1), q)
  }

  /** Truncation releases every block of a file but those. */
  lemma ReleasedExactly(d: Disk, ino: nat, q: Path)
    requires Consistent(d) && ino < InodeCount(d) && Owned(d, q) && q.Inode() == ino
    ensures q in Released(d, ino) <==> !Lost(d, ino, q)
  {
    hide CutShort, ByFirstReferences, Fruitful, Sound;
    if CutShort(d, ino) {
      SlotSmall(d, q);
      if q.Slot() == TRIPLE {
        TripleReleased(d, ino, q);
      } else {
        EarlierReleased(d, ino, q);
      }
    } else {
      NothingKept(d, ino);
    }
  }

  lemma SlotSmall(d: Disk, q: Path)
    requires Formatted(d) && Owned(d, q)
    ensures q.Slot() <= TRIPLE
  {
    RootOf(d, q);
  }

  lemma CutRunsOut(d: Disk, ino: nat)
    requires Consistent(d) && ino < InodeCount(d) && CutShort(d, ino)
    ensures Bears(d, Root(ino, TRIPLE))
    ensures RunsOutAt(d, Root(ino, TRIPLE), ReleaseInode(d, ino, TRIPLE, NBlocks(d, ino)).left,
                      PathOf(ino, NBlocks(d, ino) - 1))
  {
    var n := NBlocks(d, ino);
    var z, root := PathOf(ino, n - 1), Root(ino, TRIPLE);
    CutArrival(d, ino);
    forall y | LeafUnder(d, y, root) && y != z
      ensures Before(d, y, root) < Before(d, z, root)
    {
      ThroughDeeper(y, root);
      ArrivalBelow(d, ino, y);
    }
    RootBears(d, ino, TRIPLE);
  }

  lemma TripleReleased(d: Disk, ino: nat, q: Path)
    requires Consistent(d) && ino < InodeCount(d) && CutShort(d, ino) && Owned(d, q) && q.Inode() == ino
    requires q.Slot() == TRIPLE
    ensures q in Released(d, ino) <==> !Lost(d, ino, q)
  {
    var n := NBlocks(d, ino);
    var z, root := PathOf(ino, n - 1), Root(ino, TRIPLE);
    var w := ReleaseInode(d, ino, TRIPLE, n);
    CutArrival(d, ino);
    CutRunsOut(d, ino);
    RootOf(d, q);
    hide Consistent, RunsOutAt, Bears, Before, ByFirstReferences, CutShort, ReleaseTree, Missed;
    CutExactly(d, root, w.left, z, q);
    MissedByFirst(d, q, z, root);
    if q in w.freed {
      FreedOfInode(d, ino, TRIPLE, n, q);
    }
  }

  lemma EarlierReleased(d: Disk, ino: nat, q: Path)
    requires Consistent(d) && ino < InodeCount(d) && CutShort(d, ino) && Owned(d, q) && q.Inode() == ino
    requires q.Slot() < TRIPLE
    ensures q in Released(d, ino) && !Lost(d, ino, q)
  {
    var n := NBlocks(d, ino);
    var z, root := PathOf(ino, n - 1), Root(ino, TRIPLE);
    CutArrival(d, ino);
    forall y | Owned(d, y) && IsLeaf(y) && y.Inode() == ino && y.Slot() < TRIPLE
      ensures Arrival(d, y) < n
    {
      ArrivalBelow(d, ino, y);
      if Arrival(d, y) == n {
        ThroughDeeper(y, root);
      }
    }
    hide Consistent, CutShort, Before, ByFirstReferences;
    ReleasedBefore(d, ino, q);
    if ByFirstReferences(z, q) {
      FirstOnWay(z, q, root);
      ThroughDeeper(q, root);
    }
  }

  lemma ReleasedBefore(d: Disk, ino: nat, q: Path)
    requires Consistent(d) && ino < InodeCount(d) && Owned(d, q) && q.Inode() == ino && q.Slot() < TRIPLE
    requires InodeLasts(d, ino, TRIPLE, NBlocks(d, ino))
    ensures q in Released(d, ino)
  {
    var n := NBlocks(d, ino);
    UncutInode(d, ino, TRIPLE, n);
    RootOf(d, q);
    assert Covered(d, Root(ino, q.Slot()), ReleaseInode(d, ino, TRIPLE, n).freed);
  }
}
