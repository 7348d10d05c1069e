/** The release walk over a whole inode, and exactly when it releases the whole file. */
module UfsInode {
  import opened BlockStore
  import opened UfsTree
  import opened UfsFile
  import opened UfsWalk
  import opened UfsCount

  /** What an empty reference of an inode takes off the count.  The triple indirect one takes
      nothing: the code decrements another variable there. */
  function HoleCharge(slot: nat): nat {
    if slot < SINGLE then 1
    else if slot == SINGLE then REFS_PER_BLOCK
    else if slot == DOUBLE then REFS_PER_BLOCK * REFS_PER_BLOCK
    else 0
  }

  /** The walk over the first `s` references of an inode. */
  function ReleaseInode(d: Disk, ino: nat, s: nat, left: int): Walk
    requires Formatted(d) && ino < InodeCount(d) && s <= REFS_PER_INODE
    decreases s
  {
    if s == 0 then Walk([], left)
    else
      var w := ReleaseInode(d, ino, s - 1, left);
      var p := Root(ino, s - 1);
      if NodeAt(d, p) == 0 then Walk(w.freed, w.left - HoleCharge(s - 1))
      else
        var v := ReleaseTree(d, p, w.left);
        Walk(w.freed + v.freed, v.left)
  }

  /** Everything that shrinking file `ino` releases. */
  function Released(d: Disk, ino: nat): seq<Path>
    requires Formatted(d) && ino < InodeCount(d)
  {
    ReleaseInode(d, ino, REFS_PER_INODE, NBlocks(d, ino)).freed
  }

  lemma {:induction false} FreedOfInode(d: Disk, ino: nat, s: nat, left: int, q: Path)
    requires Formatted(d) && ino < InodeCount(d) && s <= REFS_PER_INODE
    requires q in ReleaseInode(d, ino, s, left).freed
    ensures Owned(d, q) && q.Inode() == ino && q.Slot() < s
    decreases s
  {
    if s > 0 {
      var w := ReleaseInode(d, ino, s - 1, left);
      if q in w.freed {
        FreedOfInode(d, ino, s - 1, left, q);
      } else {
        FreedBelow(d, Root(ino, s - 1), w.left, q);
        ThroughDeeper(q, Root(ino, s - 1));
      }
    }
  }

  /** Each block is released at most once. */
  lemma {:induction false} InodeFreedOnce(d: Disk, ino: nat, s: nat, left: int)
    requires Formatted(d) && ino < InodeCount(d) && s <= REFS_PER_INODE
    ensures NoRepeats(ReleaseInode(d, ino, s, left).freed)
    decreases s
  {
    if s > 0 {
      InodeFreedOnce(d, ino, s - 1, left);
      var w := ReleaseInode(d, ino, s - 1, left);
      var p := Root(ino, s - 1);
      if NodeAt(d, p) != 0 {
        FreedOnce(d, p, w.left);
        var v := ReleaseTree(d, p, w.left);
        forall q | q in w.freed
          ensures q !in v.freed
        {
          FreedOfInode(d, ino, s - 1, left, q);
          FreedBelow(d, p, w.left, q);
          if q in v.freed {
            ThroughDeeper(q, p);
          }
        }
        NoRepeatsJoin(w.freed, v.freed);
      }
    }
  }

  /** What the walk is charged for the first `s` references if it is not cut short. */
  function InodeCharges(d: Disk, ino: nat, s: nat): nat
    requires Formatted(d) && ino < InodeCount(d) && s <= REFS_PER_INODE
    decreases s
  {
    if s == 0 then 0
    else InodeCharges(d, ino, s - 1) + RefCharges(d, ino, s - 1)
  }

  function RefCharges(d: Disk, ino: nat, slot: nat): nat
    requires Formatted(d) && ino < InodeCount(d) && slot < REFS_PER_INODE
  {
    if NodeAt(d, Root(ino, slot)) == 0 then HoleCharge(slot) else Charges(d, Root(ino, slot))
  }

  /** The charges on arrival at a data block. */
  function Arrival(d: Disk, z: Path): nat
    requires Formatted(d) && Owned(d, z) && z.Inode() < InodeCount(d)
  {
    RootOf(d, z);
    InodeCharges(d, z.Inode(), z.Slot()) + Before(d, z, Root(z.Inode(), z.Slot()))
  }

  ghost predicate InodeLasts(d: Disk, ino: nat, s: nat, left: int)
    requires Formatted(d) && ino < InodeCount(d)
  {
    forall z | Owned(d, z) && IsLeaf(z) && z.Inode() == ino && z.Slot() < s :: Arrival(d, z) < left
  }

  ghost predicate InodeCovered(d: Disk, ino: nat, s: nat, freed: seq<Path>)
    requires Formatted(d)
  {
    forall slot: nat | slot < s :: Covered(d, Root(ino, slot), freed)
  }

  lemma RootBears(d: Disk, ino: nat, slot: nat)
    requires Fruitful(d)
    ensures Bears(d, Root(ino, slot))
  {
    forall q | Owned(d, q) && q.Through(Root(ino, slot))
      ensures exists z :: LeafUnder(d, z, q)
    {
      if IsLeaf(q) {
        assert LeafUnder(d, q, q);
      } else {
        var offset: nat :| offset < Capacity() && q.Inode() < InodeCount(d)
                           && PathOf(q.Inode(), offset).Through(q) && Mapped(d, q.Inode(), offset);
        PathValid(d, q.Inode(), offset);
        assert LeafUnder(d, PathOf(q.Inode(), offset), q);
      }
    }
  }

  lemma RootLasts(d: Disk, ino: nat, slot: nat, left: int)
    requires Formatted(d) && ino < InodeCount(d) && slot < REFS_PER_INODE
    requires InodeLasts(d, ino, slot + 1, left)
    ensures Lasts(d, Root(ino, slot), left - InodeCharges(d, ino, slot))
  {
    forall z | LeafUnder(d, z, Root(ino, slot))
      ensures Before(d, z, Root(ino, slot)) < left - InodeCharges(d, ino, slot)
    {
      ThroughDeeper(z, Root(ino, slot));
      assert Arrival(d, z) < left;
    }
  }

  lemma InodeCoveredNext(d: Disk, ino: nat, s: nat, freed: seq<Path>, more: seq<Path>)
    requires Formatted(d) && InodeCovered(d, ino, s, freed)
    requires Covered(d, Root(ino, s), freed) || Covered(d, Root(ino, s), more)
    ensures InodeCovered(d, ino, s + 1, freed + more)
  {
    forall slot: nat | slot < s + 1
      ensures Covered(d, Root(ino, slot), freed + more)
    {
      assert slot < s ==> Covered(d, Root(ino, slot), freed);
    }
  }

  lemma InodeCoveredNone(d: Disk, ino: nat, freed: seq<Path>)
    requires Formatted(d)
    ensures InodeCovered(d, ino, 0, freed)
  {
  }

  lemma InodeLastsLess(d: Disk, ino: nat, s: nat, left: int)
    requires Formatted(d) && ino < InodeCount(d) && s > 0 && InodeLasts(d, ino, s, left)
    ensures InodeLasts(d, ino, s - 1, left)
  {
  }

  lemma {:induction false} UncutInode(d: Disk, ino: nat, s: nat, left: int)
    requires Formatted(d) && Fruitful(d) && ino < InodeCount(d) && s <= REFS_PER_INODE && InodeLasts(d, ino, s, left)
    ensures ReleaseInode(d, ino, s, left).left == left - InodeCharges(d, ino, s)
    ensures InodeCovered(d, ino, s, ReleaseInode(d, ino, s, left).freed)
    decreases s
  {
    hide Fruitful, Lasts, Bears, Covered, Charges, InodeLasts, InodeCovered, ReleaseTree;
    if s == 0 {
      InodeCoveredNone(d, ino, []);
    } else {
      InodeLastsLess(d, ino, s, left);
      UncutInode(d, ino, s - 1, left);
      var w := ReleaseInode(d, ino, s - 1, left);
      var p := Root(ino, s - 1);
      if NodeAt(d, p) == 0 {
        NothingCovered(d, p, w.freed);
        InodeCoveredNext(d, ino, s - 1, w.freed, []);
        assert w.freed + [] == w.freed;
      } else {
        RootBears(d, ino, s - 1);
        RootLasts(d, ino, s - 1, left);
        UncutTree(d, p, w.left);
        InodeCoveredNext(d, ino, s - 1, w.freed, ReleaseTree(d, p, w.left).freed);
      }
    }
  }

  // ---------------------------------------------------------------- when the walk is cut short

  /** What the first `s` references serve, counted as the walk does. */
  function Nominal(s: nat): nat {
    if s <= SINGLE then s
    else if s == DOUBLE then SINGLE + REFS_PER_BLOCK
    else SINGLE + REFS_PER_BLOCK + REFS_PER_BLOCK * REFS_PER_BLOCK
  }

  /** The double indirect tree, if there is one, has no empty reference to an indirect block. */
  predicate DoubleFull(d: Disk, ino: nat)
    requires Formatted(d) && ino < InodeCount(d)
  {
    NodeAt(d, Root(ino, DOUBLE)) == 0 || Full(d, Root(ino, DOUBLE))
  }

  lemma RefChargesNominal(d: Disk, ino: nat, slot: nat)
    requires Fruitful(d) && ino < InodeCount(d) && slot < TRIPLE
    ensures Nominal(slot) + RefCharges(d, ino, slot) <= Nominal(slot + 1)
    ensures Nominal(slot) + RefCharges(d, ino, slot) == Nominal(slot + 1) <==> slot < DOUBLE || DoubleFull(d, ino)
  {
    var p := Root(ino, slot);
    VoidEmpty(d, ino);
    if NodeAt(d, p) != 0 {
      ChargesWeight(d, p);
      WeightSpan(p);
      SpanProducts();
      if slot == SINGLE {
        SingleFull(d, p, REFS_PER_BLOCK);
      }
    }
  }

  /** References to data blocks are not references to indirect blocks. */
  lemma {:induction false} SingleFull(d: Disk, p: Path, j: nat)
    requires Formatted(d) && ValidPath(d, p) && p.Root? && p.slot == SINGLE && j <= REFS_PER_BLOCK
    ensures FullTo(d, p, j)
    decreases j
  {
    if j > 0 {
      SingleFull(d, p, j - 1);
      assert IsLeaf(Child(p, j - 1));
    }
  }

  lemma {:induction false} InodeChargesNominal(d: Disk, ino: nat, s: nat)
    requires Fruitful(d) && ino < InodeCount(d) && s <= TRIPLE
    ensures InodeCharges(d, ino, s) <= Nominal(s)
    ensures InodeCharges(d, ino, s) == Nominal(s) <==> s < TRIPLE || DoubleFull(d, ino)
    decreases s
  {
    if s > 0 {
      InodeChargesNominal(d, ino, s - 1);
      RefChargesNominal(d, ino, s - 1);
    }
  }

  /** The triple indirect tree is in use, and the walk passes no empty reference to an indirect
      block on its way to `z`, not counting whole trees that are absent and the void block. */
  predicate DenseBefore(d: Disk, z: Path)
    requires Formatted(d) && Owned(d, z) && z.Inode() < InodeCount(d)
  {
    RootOf(d, z);
    z.Slot() == TRIPLE && DoubleFull(d, z.Inode()) && FullBefore(d, z, Root(z.Inode(), TRIPLE))
  }

  /** The walk is charged at most the offset of a block on arrival, or, in a dense triple indirect
      tree and only there, one more. */
  lemma ArrivalOffset(d: Disk, z: Path, offset: nat)
    requires Formatted(d) && Fruitful(d) && Owned(d, z) && IsLeaf(z) && z.Inode() < InodeCount(d)
    requires offset < Capacity() && z == PathOf(z.Inode(), offset)
    ensures Arrival(d, z) <= offset + 1
    ensures Arrival(d, z) == offset + 1 <==> DenseBefore(d, z)
  {
    hide Fruitful, FullBefore, Before, Full, WeightBefore, InodeCharges, Descend, Nominal, SlotBase, NodeAt, PlaceOf;
    var ino, slot := z.Inode(), z.Slot();
    var x, o := LeafOffset(d, z);
    PathUnique(d, ino, offset, ino, o);
    var root := Root(ino, slot);
    RootOf(d, z);
    VoidEmpty(d, ino);
    InodeChargesNominal(d, ino, slot);
    BeforeWeight(d, z, root);
    WeightBeforeIndex(root, x);
    NominalOffset(slot, x, WeightBefore(z, root));
  }

  lemma NominalOffset(slot: nat, x: nat, w: nat)
    requires slot < REFS_PER_INODE && x < Span(Levels(slot))
    requires w + (if slot == TRIPLE then REFS_PER_BLOCK - 1 else 0) == x
    ensures Nominal(slot) + w == SlotBase(slot) + x + if slot == TRIPLE then 1 else 0
  {
  }

  /** The walk over a file stops short of its last block. */
  predicate CutShort(d: Disk, ino: nat)
    requires Formatted(d) && ino < InodeCount(d)
  {
    var n := NBlocks(d, ino);
    0 < n <= Capacity() && Mapped(d, ino, n - 1) &&
    (PathValid(d, ino, n - 1);
     DenseBefore(d, PathOf(ino, n - 1)))
  }

  /** Shrinking a file releases all of it, exactly when the walk is not cut short. */
  lemma ReleasedAll(d: Disk, ino: nat)
    requires Consistent(d) && ino < InodeCount(d)
    ensures (forall q | Owned(d, q) && q.Inode() == ino :: q in Released(d, ino)) <==> !CutShort(d, ino)
  {
    if CutShort(d, ino) {
      LastKept(d, ino);
    } else {
      NothingKept(d, ino);
    }
  }

  lemma NothingKept(d: Disk, ino: nat)
    requires Consistent(d) && ino < InodeCount(d) && !CutShort(d, ino)
    ensures forall q | Owned(d, q) && q.Inode() == ino :: q in Released(d, ino)
  {
    var n := NBlocks(d, ino);
    forall z | Owned(d, z) && IsLeaf(z) && z.Inode() == ino && z.Slot() < REFS_PER_INODE
      ensures Arrival(d, z) < n
    {
      ArrivalBelow(d, ino, z);
    }
    UncutInode(d, ino, REFS_PER_INODE, n);
    forall q | Owned(d, q) && q.Inode() == ino
      ensures q in Released(d, ino)
    {
      RootOf(d, q);
      assert Covered(d, Root(ino, q.Slot()), Released(d, ino));
    }
  }

  lemma ArrivalBelow(d: Disk, ino: nat, z: Path)
    requires Consistent(d) && ino < InodeCount(d) && Owned(d, z) && IsLeaf(z) && z.Inode() == ino
    ensures Arrival(d, z) <= NBlocks(d, ino)
    ensures Arrival(d, z) == NBlocks(d, ino) ==> CutShort(d, ino) && z == PathOf(ino, NBlocks(d, ino) - 1)
  {
    hide Sound, Fruitful, LeadsToData, DenseBefore, Arrival;
    var x, o := LeafOffset(d, z);
    ArrivalOffset(d, z, o);
    assert Mapped(d, ino, o);
    assert o < NBlocks(d, ino);
    assert EndsInBlock(d, ino);
  }

  /** The count on arrival at the triple indirect tree of a file whose walk is cut short. */
  lemma CutArrival(d: Disk, ino: nat)
    requires Consistent(d) && ino < InodeCount(d) && CutShort(d, ino)
    ensures var z := PathOf(ino, NBlocks(d, ino) - 1); var root := Root(ino, TRIPLE);
            && Owned(d, root) && Owned(d, z) && IsLeaf(z) && z.Inode() == ino && LeafUnder(d, z, root)
            && ReleaseInode(d, ino, TRIPLE, NBlocks(d, ino)).left == Before(d, z, root)
            && NBlocks(d, ino) == InodeCharges(d, ino, TRIPLE) + Before(d, z, root)
  {
    var n := NBlocks(d, ino);
    var z := PathOf(ino, n - 1);
    PathValid(d, ino, n - 1);
    ArrivalOffset(d, z, n - 1);
    RootOf(d, z);
    NothingBelow(d, z, Root(ino, TRIPLE));
    forall y | Owned(d, y) && IsLeaf(y) && y.Inode() == ino && y.Slot() < TRIPLE
      ensures Arrival(d, y) < n
    {
      ArrivalBelow(d, ino, y);
    }
    UncutInode(d, ino, TRIPLE, n);
  }

  /** The last block is among those it then keeps. */
  lemma LastKept(d: Disk, ino: nat)
    requires Consistent(d) && ino < InodeCount(d) && CutShort(d, ino)
    ensures var z := PathOf(ino, NBlocks(d, ino) - 1); Owned(d, z) && z.Inode() == ino && z !in Released(d, ino)
  {
    var n := NBlocks(d, ino);
    var z := PathOf(ino, n - 1);
    var root := Root(ino, TRIPLE);
    CutArrival(d, ino);
    var w := ReleaseInode(d, ino, TRIPLE, n);
    if z in w.freed {
      FreedOfInode(d, ino, TRIPLE, n, z);
      ThroughDeeper(z, root);
    }
    forall y | LeafUnder(d, y, root) && y != z
      ensures Before(d, y, root) < w.left
    {
      ThroughDeeper(y, root);
      ArrivalBelow(d, ino, y);
    }
    RootBears(d, ino, TRIPLE);
    CutTree(d, root, w.left, z);
  }
}
