/** How far the countdown of the release walk lasts.  Every reference, used or not, costs 1, but an
    empty reference to an indirect block stands for many offsets: the walk is charged at most the
    offset of each block on arrival, except below the triple indirect reference, where the offsets
    are counted from a base REFS_PER_BLOCK lower than the charges. */
module UfsCount {
  import opened BlockStore
  import opened Division
  import opened UfsTree
  import opened UfsFile
  import opened UfsWalk

  const SINGLE: nat := REFS_PER_INODE - 3
  const DOUBLE: nat := REFS_PER_INODE - 2
  const TRIPLE: nat := REFS_PER_INODE - 1

  /** The indirect block that would serve the first REFS_PER_BLOCK indices of the triple tree.  No
      offset is mapped to them. */
  predicate IsVoid(p: Path) {
    p.Child? && p.i == 0 && p.up.Child? && p.up.i == 0 && p.up.up.Root? && p.up.up.slot == TRIPLE
  }

  /** The charges for a tree with no empty reference to an indirect block, the void one apart. */
  function Weight(p: Path): nat
    decreases Height(p), REFS_PER_BLOCK + 1
  {
    if Height(p) == 0 || IsVoid(p) then 1 else WeightTo(p, REFS_PER_BLOCK)
  }

  function WeightTo(p: Path, j: nat): nat
    requires Height(p) > 0
    decreases Height(p), j
  {
    if j == 0 then 0 else WeightTo(p, j - 1) + Weight(Child(p, j - 1))
  }

  /** No reference to an indirect block is empty in the tree under `p`. */
  predicate Full(d: Disk, p: Path)
    requires Formatted(d) && ValidPath(d, p)
    decreases Height(p), REFS_PER_BLOCK + 1
  {
    ValidHeight(d, p);
    IsLeaf(p) || FullTo(d, p, REFS_PER_BLOCK)
  }

  predicate FullTo(d: Disk, p: Path, j: nat)
    requires Formatted(d) && ValidPath(d, p) && !IsLeaf(p) && j <= REFS_PER_BLOCK
    decreases Height(p), j
  {
    ValidHeight(d, p);
    j == 0 ||
    var c := Child(p, j - 1);
    FullTo(d, p, j - 1) && (IsLeaf(c) || IsVoid(c) || (NodeAt(d, c) != 0 && Full(d, c)))
  }

  /** No reference to an indirect block is empty in the tree under `p` before the path `z`. */
  predicate FullBefore(d: Disk, z: Path, p: Path)
    requires Formatted(d) && ValidPath(d, z) && z.Through(p)
    decreases z
  {
    z == p ||
    (ValidHeight(d, z);
     FullBefore(d, z.up, p) && FullTo(d, z.up, z.i))
  }

  /** The charges on arrival at `z` when no reference is empty. */
  function WeightBefore(z: Path, p: Path): nat
    requires z.Through(p)
  {
    if z == p || Height(z.up) == 0 then 0 else WeightBefore(z.up, p) + WeightTo(z.up, z.i)
  }

  ghost predicate VoidIsEmpty(d: Disk, ino: nat)
    requires Formatted(d)
  {
    forall p | ValidPath(d, p) && IsVoid(p) && p.Inode() == ino :: NodeAt(d, p) == 0
  }

  /** A tree costs at most its weight, and exactly that when no reference is empty. */
  lemma {:induction false} ChargesWeight(d: Disk, p: Path)
    requires Formatted(d) && ValidPath(d, p) && VoidIsEmpty(d, p.Inode()) && !IsVoid(p)
    ensures Charges(d, p) <= Weight(p) && (Charges(d, p) == Weight(p) <==> Full(d, p))
    decreases Height(p), REFS_PER_BLOCK + 1
  {
    ValidHeight(d, p);
    if !IsLeaf(p) {
      ChargesWeightTo(d, p, REFS_PER_BLOCK);
    }
  }

  lemma {:induction false} ChargesWeightTo(d: Disk, p: Path, j: nat)
    requires Formatted(d) && ValidPath(d, p) && !IsLeaf(p) && VoidIsEmpty(d, p.Inode()) && j <= REFS_PER_BLOCK
    ensures Height(p) > 0
    ensures ChargesTo(d, p, j) <= WeightTo(p, j) && (ChargesTo(d, p, j) == WeightTo(p, j) <==> FullTo(d, p, j))
    decreases Height(p), j
  {
    ValidHeight(d, p);
    if j > 0 {
      ChargesWeightTo(d, p, j - 1);
      var c := Child(p, j - 1);
      ValidHeight(d, c);
      if !IsVoid(c) {
        ChargesWeight(d, c);
        if !IsLeaf(c) {
          WeightAtLeastTwo(c);
        }
      }
    }
  }

  lemma WeightAtLeastTwo(p: Path)
    requires Height(p) > 0 && !IsVoid(p)
    ensures Weight(p) > 1
  {
    WeightToAtLeast(p, REFS_PER_BLOCK);
  }

  lemma {:induction false} WeightToAtLeast(p: Path, j: nat)
    requires Height(p) > 0
    ensures WeightTo(p, j) >= j
    decreases j
  {
    if j > 0 {
      WeightToAtLeast(p, j - 1);
      WeightPositive(Child(p, j - 1));
    }
  }

  lemma {:induction false} WeightPositive(p: Path)
    ensures Weight(p) >= 1
    decreases Height(p)
  {
    if Height(p) > 0 && !IsVoid(p) {
      WeightPositive(Child(p, REFS_PER_BLOCK - 1));
    }
  }

  /** So much for arrival at a block. */
  lemma {:induction false} BeforeWeight(d: Disk, z: Path, p: Path)
    requires Formatted(d) && ValidPath(d, z) && z.Through(p) && VoidIsEmpty(d, z.Inode())
    ensures Before(d, z, p) <= WeightBefore(z, p) && (Before(d, z, p) == WeightBefore(z, p) <==> FullBefore(d, z, p))
  {
    if z != p {
      ValidHeight(d, z);
      BeforeWeight(d, z.up, p);
      ChargesWeightTo(d, z.up, z.i);
    }
  }

  // ---------------------------------------------------------------- weights and offsets

  /** The path and the void one lie on one way down. */
  predicate OverVoid(p: Path) {
    p.Slot() == TRIPLE && (p.Root? || (p.i == 0 && p.up.Root?) || IsVoid(p))
  }

  /** Away from the void block, a tree weighs as much as the offsets it serves. */
  lemma {:induction false} WeightSpan(p: Path)
    requires !OverVoid(p)
    ensures Weight(p) == Span(Height(p))
    decreases Height(p), REFS_PER_BLOCK + 1
  {
    if IsVoid(p) {
      VoidSlot(p);
    }
    if Height(p) > 0 {
      WeightToSpan(p, REFS_PER_BLOCK);
    }
  }

  lemma VoidSlot(p: Path)
    requires IsVoid(p)
    ensures p.Slot() == TRIPLE
  {
    assert p.up.Slot() == p.up.up.Slot();
  }

  lemma {:induction false} WeightToSpan(p: Path, j: nat)
    requires !OverVoid(p) && Height(p) > 0
    ensures WeightTo(p, j) == Times(j, Span(Height(p) - 1))
    decreases Height(p), j
  {
    if j > 0 {
      WeightToSpan(p, j - 1);
      WeightSpan(Child(p, j - 1));
    }
  }

  /** The block above the void one weighs REFS_PER_BLOCK - 1 less. */
  lemma {:induction false} WeightToAboveVoid(p: Path, j: nat)
    requires OverVoid(p) && p.Child? && p.up.Root? && p.i == 0 && j > 0
    ensures Height(p) == 2 && WeightTo(p, j) + (REFS_PER_BLOCK - 1) == Times(j, Span(1))
    decreases j
  {
    assert p.Depth() == 1 by { assert p.up.Depth() == 0; }
    SpanOne();
    var c := Child(p, j - 1);
    assert c.Depth() == 2;
    if j > 1 {
      WeightToAboveVoid(p, j - 1);
      WeightSpan(c);
    } else {
      assert p.Slot() == p.up.Slot() == p.up.slot;
      assert IsVoid(c) && Weight(c) == 1;
      assert WeightTo(p, 1) == WeightTo(p, 0) + Weight(c) && WeightTo(p, 0) == 0;
      assert Times(1, Span(1)) == Times(0, Span(1)) + Span(1);
    }
  }

  /** So does the triple indirect block. */
  lemma {:induction false} WeightToRoot(p: Path, j: nat)
    requires p.Root? && p.slot == TRIPLE && j > 0
    ensures Height(p) == 3 && WeightTo(p, j) + (REFS_PER_BLOCK - 1) == Times(j, Span(2))
    decreases j
  {
    var c := Child(p, j - 1);
    assert c.Depth() == 1 && c.Slot() == TRIPLE by { assert p.Depth() == 0; }
    if j > 1 {
      WeightToRoot(p, j - 1);
      WeightSpan(c);
    } else {
      WeightToAboveVoid(c, REFS_PER_BLOCK);
      assert Span(2) == Times(REFS_PER_BLOCK, Span(1)) by { SpanStep(1); }
      assert WeightTo(p, 0) == 0 && Times(0, Span(2)) == 0;
    }
  }

  lemma WeightToVoid(p: Path, j: nat)
    requires OverVoid(p) && !IsVoid(p) && j > 0
    ensures Height(p) > 1 && WeightTo(p, j) + (REFS_PER_BLOCK - 1) == Times(j, Span(Height(p) - 1))
  {
    if p.Root? {
      WeightToRoot(p, j);
    } else {
      WeightToAboveVoid(p, j);
    }
  }

  lemma {:induction false} WeightBeforeVia(z: Path, p: Path, k: nat)
    requires z.Through(Child(p, k)) && Height(p) > 0 && z.Depth() <= Levels(z.Slot())
    ensures z.Through(p) && WeightBefore(z, p) == WeightTo(p, k) + WeightBefore(z, Child(p, k))
  {
    ThroughDeeper(z, Child(p, k));
    if z == Child(p, k) {
      assert p.Through(p);
    } else {
      ThroughDeeper(z.up, Child(p, k));
      WeightBeforeVia(z.up, p, k);
    }
  }

  /** The weight before the block with index `x` is `x`, less REFS_PER_BLOCK - 1 past the void. */
  lemma {:induction false} WeightBeforeIndex(p: Path, x: nat)
    requires p.Depth() <= Levels(p.Slot()) && x < Span(Height(p))
    requires OverVoid(p) ==> !IsVoid(p) && x >= REFS_PER_BLOCK
    ensures var z := Descend(p, Height(p), x);
            z.Through(p) && WeightBefore(z, p) + (if OverVoid(p) then REFS_PER_BLOCK - 1 else 0) == x
    decreases Height(p)
  {
    var h := Height(p);
    if h > 0 {
      var digit, rest := DigitStep(x, h);
      QuotRem(x, Span(h - 1));
      TimesIsProduct(digit, Span(h - 1));
      var c := Child(p, digit);
      SpanProducts();
      WeightBeforeIndex(c, rest);
      var z := Descend(p, h, x);
      DescendDepth(c, h - 1, rest);
      WeightBeforeVia(z, p, digit);
      if OverVoid(p) {
        if digit > 0 {
          WeightToVoid(p, digit);
        } else {
          assert WeightTo(p, 0) == 0 && Times(0, Span(h - 1)) == 0;
        }
      } else {
        WeightToSpan(p, digit);
      }
    }
  }

  lemma {:induction false} DescendDepth(p: Path, levels: nat, x: nat)
    ensures var z := Descend(p, levels, x); z.Depth() == p.Depth() + levels && z.Slot() == p.Slot()
    decreases levels
  {
    if levels > 0 {
      DescendDepth(Child(p, Quot(x, Span(levels - 1))), levels - 1, Rem(x, Span(levels - 1)));
    }
  }

  // ---------------------------------------------------------------- data blocks and offsets

  /** Every data block in a tree has an index there. */
  lemma {:induction false} LeafIndex(d: Disk, z: Path, p: Path) returns (x: nat)
    requires Formatted(d) && LeafUnder(d, z, p)
    ensures ValidPath(d, p) && x < Span(Height(p)) && z == Descend(p, Height(p), x)
    decreases Height(p)
  {
    ThroughValid(d, z, p);
    ValidHeight(d, p);
    if z == p {
      x := 0;
    } else {
      var k := ChildTowards(d, z, p);
      var r := LeafIndex(d, z, Child(p, k));
      x := Times(k, Span(Height(p) - 1)) + r;
      IndexVia(p, Height(p), k, r);
    }
  }

  lemma IndexVia(p: Path, h: nat, k: nat, r: nat)
    requires h > 0 && k < REFS_PER_BLOCK && r < Span(h - 1)
    ensures Times(k, Span(h - 1)) + r < Span(h)
    ensures Descend(p, h, Times(k, Span(h - 1)) + r) == Descend(Child(p, k), h - 1, r)
  {
    QuotOfTimes(k, r, Span(h - 1));
    TimesMonotone(k + 1, REFS_PER_BLOCK, Span(h - 1));
  }

  lemma {:induction false} ThroughValid(d: Disk, z: Path, p: Path)
    requires |d| > 0 && ValidPath(d, z) && z.Through(p)
    ensures ValidPath(d, p)
  {
    if z != p {
      ThroughValid(d, z.up, p);
    }
  }

  /** The void block serves no offset, so on a consistent disk it is never there. */
  lemma VoidNotMapped(d: Disk, ino: nat, offset: nat, p: Path)
    requires |d| > 0 && ino < InodeCount(d) && offset < Capacity()
    requires IsVoid(p)
    ensures !PathOf(ino, offset).Through(p)
  {
    var z := PathOf(ino, offset);
    if z.Through(p) {
      PlaceInRange(offset);
      PathValid(d, ino, offset);
      ThroughDeeper(z, p);
      VoidSlot(p);
      var x := PlaceOf(offset).index;
      TripleDigits(ino, x, p);
      SpanProducts();
    }
  }

  lemma TripleDigits(ino: nat, x: nat, p: Path)
    requires x < Span(3) && IsVoid(p) && Descend(Root(ino, TRIPLE), 3, x).Through(p)
    ensures x < Span(1)
  {
    var s2, s1 := Span(2), Span(1);
    var a, y := DigitStep(x, 3);
    var b, r := DigitStep(y, 2);
    var ra := Child(Root(ino, TRIPLE), a);
    var rb := Child(ra, b);
    var z := Child(rb, Quot(r, Span(0)));
    assert Descend(Root(ino, TRIPLE), 3, x) == Descend(ra, 2, y) == Descend(rb, 1, r) == z;
    assert p == rb by {
      assert p.Depth() == 2 by { assert p.up.up.Depth() == 0; assert p.up.Depth() == 1; }
      assert z.Depth() == 3 by { assert ra.Depth() == 1; assert rb.Depth() == 2; }
      if z.up != p {
        ThroughDeeper(z.up.up, p);
      }
    }
    QuotRem(x, s2);
    QuotRem(y, s1);
  }

  lemma VoidEmpty(d: Disk, ino: nat)
    requires Fruitful(d)
    ensures VoidIsEmpty(d, ino)
  {
    forall p | ValidPath(d, p) && IsVoid(p) && p.Inode() == ino
      ensures NodeAt(d, p) == 0
    {
      if NodeAt(d, p) != 0 {
        VoidSlot(p);
        assert p.Depth() == 2 by { assert p.up.up.Depth() == 0; assert p.up.Depth() == 1; }
        assert Owned(d, p) && !IsLeaf(p);
        var offset: nat :| offset < Capacity() && p.Inode() < InodeCount(d)
                           && PathOf(p.Inode(), offset).Through(p) && Mapped(d, p.Inode(), offset);
        VoidNotMapped(d, p.Inode(), offset, p);
      }
    }
  }

  /** The offset from which the blocks of a reference are counted, for direct ones the offset. */
  function SlotBase(slot: nat): nat {
    if slot <= SINGLE then slot
    else if slot == DOUBLE then SINGLE + REFS_PER_BLOCK
    else SINGLE + REFS_PER_BLOCK * REFS_PER_BLOCK
  }

  lemma BaseAndIndex(slot: nat, x: nat) returns (offset: nat)
    requires slot < REFS_PER_INODE && x < Span(Levels(slot)) && (slot == TRIPLE ==> x >= REFS_PER_BLOCK)
    ensures offset == SlotBase(slot) + x < Capacity()
    ensures PlaceOf(offset).slot == slot && (slot >= SINGLE ==> PlaceOf(offset).index == x)
  {
    offset := SlotBase(slot) + x;
    SpanProducts();
  }

  /** Every data block of a consistent disk serves one offset of its file. */
  lemma LeafOffset(d: Disk, z: Path) returns (x: nat, offset: nat)
    requires Fruitful(d) && Owned(d, z) && IsLeaf(z)
    ensures z.Inode() < InodeCount(d) && offset < Capacity() && z == PathOf(z.Inode(), offset)
    ensures z.Slot() < REFS_PER_INODE && offset == SlotBase(z.Slot()) + x
    ensures z.Slot() == TRIPLE ==> x >= REFS_PER_BLOCK
    ensures x < Span(Levels(z.Slot())) && z == Descend(Root(z.Inode(), z.Slot()), Levels(z.Slot()), x)
  {
    var r := Root(z.Inode(), z.Slot());
    RootOf(d, z);
    x := LeafIndex(d, z, r);
    if z.Slot() == TRIPLE {
      PastTheVoid(d, z, x);
    }
    offset := BaseAndIndex(z.Slot(), x);
    if z.Slot() < SINGLE {
      assert x == 0;
    }
  }

  lemma {:induction false} RootOf(d: Disk, z: Path)
    requires |d| > 0 && ValidPath(d, z)
    ensures z.Through(Root(z.Inode(), z.Slot())) && ValidPath(d, Root(z.Inode(), z.Slot()))
  {
    if z.Child? {
      RootOf(d, z.up);
    }
  }

  /** Below the void block there is no data. */
  lemma PastTheVoid(d: Disk, z: Path, x: nat)
    requires Fruitful(d) && Owned(d, z)
    requires z == Descend(Root(z.Inode(), TRIPLE), 3, x)
    ensures x >= REFS_PER_BLOCK
  {
    if x < REFS_PER_BLOCK {
      var root := Root(z.Inode(), TRIPLE);
      SpanProducts();
      assert Quot(x, Span(2)) == 0 && Rem(x, Span(2)) == x;
      assert Quot(x, Span(1)) == 0 && Rem(x, Span(1)) == x;
      var void := Child(Child(root, 0), 0);
      assert Descend(root, 3, x) == Descend(Child(root, 0), 2, x) == Descend(void, 1, x)
             == Child(void, Quot(x, Span(0)));
      assert z.up == void && Owned(d, void);
      assert void.Inode() == z.Inode() by { assert void.up.Inode() == root.Inode(); }
      VoidEmpty(d, z.Inode());
    }
  }
}
