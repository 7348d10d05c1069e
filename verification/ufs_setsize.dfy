/** ufsdisk_setsize: the code that releases a file's blocks, and the disk it leaves. */
module UfsSetSize {
  import opened BlockStore
  import opened UfsTree
  import opened UfsFile
  import opened UfsAlloc
  import opened UfsWalk
  import opened UfsInode
  import opened UfsWrite

  // ---------------------------------------------------------------- erasing blocks

  /** Zero a data block and invert its bit. */
  function Erase(d: Disk, b: nat): (e: Disk)
    requires Formatted(d) && IsData(d, b)
    ensures |e| == |d|
  {
    assert d[b := NullBlock()][0] == d[0];
    FlipBit(d[b := NullBlock()], b)
  }

  lemma EraseBlocks(d: Disk, b: nat)
    requires Formatted(d) && IsData(d, b)
    ensures var e := Erase(d, b);
            && Formatted(e) && SameGeometry(d, e)
            && (forall c: nat | c < |d| && (c < MapStart(d) || DataStart(d) <= c) ::
                  e[c] == if c == b then NullBlock() else d[c])
            && (forall c: nat | IsData(d, c) :: InUse(e, c) == if c == b then !InUse(d, c) else InUse(d, c))
  {
    var f := d[b := NullBlock()];
    assert f[0] == d[0];
    BitmapFrame(d, f);
    FlipBitFlips(f, b);
  }

  /** What is needed of a file to release it: its references lead to data blocks, each to a different one.  No matter
      whether the blocks are marked as used, and what other files refer to. */
  ghost predicate OwnHeap(d: Disk, ino: nat) {
    && Formatted(d) && ino < InodeCount(d) && Placed(d, ino)
    && (forall p, q | Owned(d, p) && Owned(d, q) && p.Inode() == ino && q.Inode() == ino
                      && NodeAt(d, p) == NodeAt(d, q) :: p == q)
  }

  lemma OwnFacts(d: Disk, ino: nat)
    requires OwnHeap(d, ino)
    ensures Formatted(d) && ino < InodeCount(d)
  {
  }

  /** All the paths are of this file and lead to blocks. */
  predicate AllOwned(d: Disk, ino: nat, ps: seq<Path>)
    requires Formatted(d)
  {
    forall p | p in ps :: Owned(d, p) && p.Inode() == ino
  }

  /** The disk with the blocks `ps` lead to erased, in that order. */
  function EraseAll(d: Disk, ino: nat, ps: seq<Path>): (e: Disk)
    requires OwnHeap(d, ino) && AllOwned(d, ino, ps)
    ensures Formatted(e) && SameGeometry(d, e)
  {
    if ps == [] then d
    else
      var n := |ps| - 1;
      var e := EraseAll(d, ino, ps[..n]);
      assert ps[n] in ps;
      EraseBlocks(e, NodeAt(d, ps[n]));
      Erase(e, NodeAt(d, ps[n]))
  }

  lemma EraseOneMore(d: Disk, ino: nat, ps: seq<Path>, p: Path)
    requires OwnHeap(d, ino) && AllOwned(d, ino, ps) && Owned(d, p) && p.Inode() == ino
    ensures AllOwned(d, ino, ps + [p]) && EraseAll(d, ino, ps + [p]) == Erase(EraseAll(d, ino, ps), NodeAt(d, p))
  {
    assert (ps + [p])[..|ps|] == ps;
  }

  /** One of the paths leads to block `c`. */
  predicate Hits(d: Disk, ino: nat, ps: seq<Path>, c: nat)
    requires Formatted(d) && AllOwned(d, ino, ps)
  {
    ps != [] &&
    var n := |ps| - 1;
    assert ps[n] in ps;
    NodeAt(d, ps[n]) == c || Hits(d, ino, ps[..n], c)
  }

  lemma {:induction false} HitsSome(d: Disk, ino: nat, ps: seq<Path>, c: nat)
    requires Formatted(d) && AllOwned(d, ino, ps)
    ensures Hits(d, ino, ps, c) <==> exists p :: p in ps && NodeAt(d, p) == c
  {
    if ps != [] {
      var n := |ps| - 1;
      assert ps[n] in ps;
      HitsSome(d, ino, ps[..n], c);
      if p :| p in ps && NodeAt(d, p) == c && NodeAt(d, ps[n]) != c {
        assert p in ps[..n];
      }
    }
  }

  /** Erasing touches the erased blocks and the bitmap only. */
  lemma {:induction false} EraseAllBlock(d: Disk, ino: nat, ps: seq<Path>, c: nat)
    requires OwnHeap(d, ino) && AllOwned(d, ino, ps) && c < |d| && (c < MapStart(d) || DataStart(d) <= c)
    ensures EraseAll(d, ino, ps)[c] == if Hits(d, ino, ps, c) then NullBlock() else d[c]
  {
    if ps != [] {
      var n := |ps| - 1;
      EraseAllBlock(d, ino, ps[..n], c);
      assert ps[n] in ps;
      EraseBlocks(EraseAll(d, ino, ps[..n]), NodeAt(d, ps[n]));
    }
  }

  /** Erasing each of some blocks once inverts the bits of exactly those blocks. */
  lemma {:induction false} EraseAllBits(d: Disk, ino: nat, ps: seq<Path>, c: nat)
    requires OwnHeap(d, ino) && AllOwned(d, ino, ps) && NoRepeats(ps) && IsData(d, c)
    ensures InUse(EraseAll(d, ino, ps), c) <==> (InUse(d, c) <==> !Hits(d, ino, ps, c))
  {
    if ps != [] {
      var n := |ps| - 1;
      EraseAllBits(d, ino, ps[..n], c);
      assert ps[n] in ps;
      LastHit(d, ino, ps, c);
      EraseBlocks(EraseAll(d, ino, ps[..n]), NodeAt(d, ps[n]));
    }
  }

  lemma LastHit(d: Disk, ino: nat, ps: seq<Path>, c: nat)
    requires OwnHeap(d, ino) && AllOwned(d, ino, ps) && NoRepeats(ps) && ps != []
    ensures var n := |ps| - 1;
            && ps[n] in ps
            && (NodeAt(d, ps[n]) == c ==> IsData(d, c) && !Hits(d, ino, ps[..n], c))
  {
    var n := |ps| - 1;
    assert ps[n] in ps;
    HitsSome(d, ino, ps[..n], c);
  }

  /** A block not yet erased is as it was. */
  lemma NotErased(d: Disk, ino: nat, ps: seq<Path>, p: Path)
    requires OwnHeap(d, ino) && AllOwned(d, ino, ps) && Owned(d, p) && p.Inode() == ino && p !in ps
    ensures NodeAt(d, p) < |d| && EraseAll(d, ino, ps)[NodeAt(d, p)] == d[NodeAt(d, p)]
  {
    HitsSome(d, ino, ps, NodeAt(d, p));
    EraseAllBlock(d, ino, ps, NodeAt(d, p));
  }

  // ---------------------------------------------------------------- recurse_helper and ufsdisk_setsize

  /** The disk was `d` and so far the blocks at `done` have been erased, none of them under `p`. */
  ghost predicate Erasing(d: Disk, ino: nat, now: Disk, done: seq<Path>, p: Path) {
    && OwnHeap(d, ino) && AllOwned(d, ino, done) && now == EraseAll(d, ino, done)
    && forall q | q in done :: !q.Through(p)
  }

  lemma ErasingFacts(d: Disk, ino: nat, now: Disk, done: seq<Path>, p: Path)
    requires Erasing(d, ino, now, done, p)
    ensures Formatted(d) && SameGeometry(d, now)
  {
  }

  lemma JoinOwned(d: Disk, ino: nat, ps: seq<Path>, qs: seq<Path>)
    requires Formatted(d) && AllOwned(d, ino, ps) && AllOwned(d, ino, qs)
    ensures AllOwned(d, ino, ps + qs)
  {
  }

  lemma RefsFreedOwned(d: Disk, ino: nat, p: Path, j: nat, left: int)
    requires Formatted(d) && Owned(d, p) && p.Inode() == ino && !IsLeaf(p) && j <= REFS_PER_BLOCK
    ensures var freed := ReleaseRefs(d, p, j, left).freed;
            AllOwned(d, ino, freed) && p !in freed
            && forall k: nat, q | j <= k && q in freed :: !q.Through(Child(p, k))
  {
    forall q | q in ReleaseRefs(d, p, j, left).freed
      ensures Owned(d, q) && q.Inode() == ino && q != p && forall k: nat | j <= k :: !q.Through(Child(p, k))
    {
      FreedBelowRefs(d, p, j, left, q);
      ThroughDeeper(q, p);
      var i: nat :| i < j && q.Through(Child(p, i));
      forall k: nat | j <= k
        ensures !q.Through(Child(p, k))
      {
        if q.Through(Child(p, k)) {
          SiblingsApart(q, p, i, k);
        }
      }
    }
  }

  /** Erasing goes on under one reference of `p` after the references before it. */
  lemma ErasingChild(d: Disk, ino: nat, now: Disk, done: seq<Path>, freed: seq<Path>, p: Path, k: nat)
    requires OwnHeap(d, ino) && Owned(d, p) && AllOwned(d, ino, done + freed) && now == EraseAll(d, ino, done + freed)
    requires forall q | q in done :: !q.Through(p)
    requires forall q | q in freed :: !q.Through(Child(p, k))
    ensures Erasing(d, ino, now, done + freed, Child(p, k))
  {
    ThroughDeeper(p, p);
    forall q | q in done + freed
      ensures !q.Through(Child(p, k))
    {
      if q in done && q.Through(Child(p, k)) {
        ThroughTransitive(q, Child(p, k), p);
      }
    }
  }

  /** Release the tree at block `b`, `levels` levels of indirect blocks above the data.  The blocks
      are read as the walk gets to them, from a disk it has already changed elsewhere. */
  method RecurseHelper(below: Store, ino: nat, b: nat, levels: nat, left: int,
                       ghost d: Disk, ghost p: Path, ghost done: seq<Path>) returns (left': int)
    requires Erasing(d, ino, below.blocks, done, p) && Owned(d, p) && p.Inode() == ino
    requires b == NodeAt(d, p) && levels == Height(p)
    modifies below
    ensures var w := ReleaseTree(d, p, left);
            && AllOwned(d, ino, done + w.freed) && below.blocks == EraseAll(d, ino, done + w.freed)
            && left' == w.left
    decreases levels, REFS_PER_BLOCK + 1
  {
    hide EraseAll, InUse, FromBits;
    ValidHeight(d, p);
    left' := left;
    if left' == 0 {
      assert done + [] == done;
      return;
    }
    if levels == 0 {
      EraseBlock(below, ino, b);
      EraseOneMore(d, ino, done, p);
      left' := left' - 1;
      return;
    }
    assert p !in done;
    NotErased(d, ino, done, p);
    var readBlock := below.Read(b);
    left' := RecurseRefs(below, ino, readBlock, levels, left, d, p, done);
    RefsFreedOwned(d, ino, p, REFS_PER_BLOCK, left);
    ghost var freed := ReleaseRefs(d, p, REFS_PER_BLOCK, left).freed;
    EraseBlock(below, ino, b);
    EraseOneMore(d, ino, done + freed, p);
    assert done + freed + [p] == done + (freed + [p]);
  }

  /** The loop over the references of an indirect block. */
  method RecurseRefs(below: Store, ino: nat, readBlock: Block, levels: nat, left: int,
                     ghost d: Disk, ghost p: Path, ghost done: seq<Path>) returns (left': int)
    requires Erasing(d, ino, below.blocks, done, p) && Owned(d, p) && !IsLeaf(p) && p.Inode() == ino
    requires NodeAt(d, p) < |d| && readBlock == d[NodeAt(d, p)] && levels == Height(p) && levels > 0
    modifies below
    ensures var w := ReleaseRefs(d, p, REFS_PER_BLOCK, left);
            && AllOwned(d, ino, done + w.freed) && below.blocks == EraseAll(d, ino, done + w.freed)
            && left' == w.left
    decreases levels, REFS_PER_BLOCK
  {
    hide OwnHeap, EraseAll, AllOwned, FromBits, ReleaseTree;
    ErasingFacts(d, ino, below.blocks, done, p);
    left' := left;
    var j := 0;
    assert done + [] == done;
    while j < REFS_PER_BLOCK
      invariant 0 <= j <= REFS_PER_BLOCK
      invariant left' == ReleaseRefs(d, p, j, left).left
      invariant AllOwned(d, ino, done + ReleaseRefs(d, p, j, left).freed)
      invariant below.blocks == EraseAll(d, ino, done + ReleaseRefs(d, p, j, left).freed)
    {
      ghost var w := ReleaseRefs(d, p, j, left);
      ValidHeight(d, p);
      var ref := WordAt(readBlock, j);
      if ref != 0 {
        RefsFreedOwned(d, ino, p, j, left);
        JoinOwned(d, ino, done, w.freed);
        ErasingChild(d, ino, below.blocks, done, w.freed, p, j);
        left' := RecurseHelper(below, ino, ref, levels - 1, left', d, Child(p, j), done + w.freed);
        ghost var v := ReleaseTree(d, Child(p, j), w.left);
        assert done + w.freed + v.freed == done + (w.freed + v.freed);
      } else {
        left' := left' - 1;
      }
      j := j + 1;
    }
  }

  method EraseBlock(below: Store, ino: nat, b: nat)
    requires Formatted(below.blocks) && ino < InodeCount(below.blocks) && IsData(below.blocks, b)
    modifies below
    ensures below.blocks == Erase(old(below.blocks), b)
  {
    assert below.blocks[b := NullBlock()][0] == below.blocks[0];
    below.Write(b, NullBlock());
    SetBlockFree(below, ino, b);
  }

  lemma InodeFreedOwned(d: Disk, ino: nat, s: nat, left: int)
    requires Formatted(d) && ino < InodeCount(d) && s <= REFS_PER_INODE
    ensures AllOwned(d, ino, ReleaseInode(d, ino, s, left).freed)
    ensures s < REFS_PER_INODE ==> forall q | q in ReleaseInode(d, ino, s, left).freed :: !q.Through(Root(ino, s))
  {
    forall q | q in ReleaseInode(d, ino, s, left).freed
      ensures Owned(d, q) && q.Inode() == ino && !q.Through(Root(ino, s))
    {
      FreedOfInode(d, ino, s, left, q);
      if q.Through(Root(ino, s)) {
        ThroughDeeper(q, Root(ino, s));
      }
    }
  }

  /** The disk a truncation leaves.  The references in the inode are not cleared. */
  function Truncated(d: Disk, ino: nat): Disk
    requires OwnHeap(d, ino)
  {
    InodeFreedOwned(d, ino, REFS_PER_INODE, NBlocks(d, ino));
    WithSize(EraseAll(d, ino, Released(d, ino)), ino, 0)
  }

  /** Whatever size is asked for, unless it is the size the file has, the file is cut to nothing. */
  method SetSize(below: Store, ino: nat, nblocks: nat) returns (r: int)
    requires Formatted(below.blocks) && (ino < InodeCount(below.blocks) ==> OwnHeap(below.blocks, ino))
    modifies below
    ensures var d := old(below.blocks);
            && (ino >= InodeCount(d) ==> r == -1 && below.blocks == d)
            && (ino < InodeCount(d) && nblocks == NBlocks(d, ino) ==> r == nblocks && below.blocks == d)
            && (ino < InodeCount(d) && nblocks != NBlocks(d, ino) ==> r == 0 && below.blocks == Truncated(d, ino))
  {
    ghost var d := below.blocks;
    var snapshot := GetSnapshot(below, ino);
    if snapshot.BadInode? {
      return -1;
    }
    var inodeBlock := snapshot.inodeBlock;
    var size := WordAt(inodeBlock, InodeWord(ino));
    if nblocks == size {
      return nblocks;
    }
    var left := ReleaseRefsOfInode(below, ino, inodeBlock);
    InodeFreedOwned(d, ino, REFS_PER_INODE, size);
    InodeOnDisk(d, ino);
    EraseAllOutside(d, ino, Released(d, ino), InodeBlock(ino));
    below.Write(snapshot.inodeBlockNo, SetWord(inodeBlock, InodeWord(ino), 0));
    r := 0;
  }

  lemma RootErasing(d: Disk, now: Disk, ino: nat, slot: nat, n: int)
    requires OwnHeap(d, ino) && slot < REFS_PER_INODE
    requires var freed := ReleaseInode(d, ino, slot, n).freed; AllOwned(d, ino, freed) && now == EraseAll(d, ino, freed)
    ensures Erasing(d, ino, now, ReleaseInode(d, ino, slot, n).freed, Root(ino, slot))
    ensures Height(Root(ino, slot)) == Levels(slot)
  {
    InodeFreedOwned(d, ino, slot, n);
  }

  lemma EraseAllOutside(d: Disk, ino: nat, ps: seq<Path>, c: nat)
    requires OwnHeap(d, ino) && AllOwned(d, ino, ps) && c < MapStart(d)
    ensures c < |d| && EraseAll(d, ino, ps)[c] == d[c]
  {
    HitsSome(d, ino, ps, c);
    EraseAllBlock(d, ino, ps, c);
  }

  /** The loop over the references of the inode, each with its levels and its charge if empty. */
  method ReleaseRefsOfInode(below: Store, ino: nat, inodeBlock: Block) returns (left: int)
    requires var d := below.blocks;
             OwnHeap(d, ino) && InodeBlock(ino) < |d|
             && inodeBlock == d[InodeBlock(ino)]
    modifies below
    ensures var d := old(below.blocks);
            && AllOwned(d, ino, Released(d, ino)) && below.blocks == EraseAll(d, ino, Released(d, ino))
  {
    hide OwnHeap, EraseAll, AllOwned, ReleaseTree, ReleaseInode, WordAt;
    ghost var d := below.blocks;
    OwnFacts(d, ino);
    left := WordAt(inodeBlock, InodeWord(ino));
    ghost var n := left;
    var index := 0;
    ReleaseNone(d, ino, n);
    while index < REFS_PER_INODE
      invariant 0 <= index <= REFS_PER_INODE
      invariant left == ReleaseInode(d, ino, index, n).left
      invariant AllOwned(d, ino, ReleaseInode(d, ino, index, n).freed)
      invariant below.blocks == EraseAll(d, ino, ReleaseInode(d, ino, index, n).freed)
    {
      left := ReleaseRef(below, ino, inodeBlock, index, left, d, n);
      index := index + 1;
    }
  }

  lemma ReleaseNone(d: Disk, ino: nat, n: int)
    requires OwnHeap(d, ino)
    ensures ReleaseInode(d, ino, 0, n) == Walk([], n) && AllOwned(d, ino, []) && EraseAll(d, ino, []) == d
  {
  }

  /** One reference of the inode. */
  method ReleaseRef(below: Store, ino: nat, inodeBlock: Block, index: nat, left: int, ghost d: Disk, ghost n: int)
    returns (left': int)
    requires OwnHeap(d, ino) && index < REFS_PER_INODE
    requires InodeBlock(ino) < |d| && inodeBlock == d[InodeBlock(ino)]
    requires var w := ReleaseInode(d, ino, index, n);
             left == w.left && AllOwned(d, ino, w.freed) && below.blocks == EraseAll(d, ino, w.freed)
    modifies below
    ensures var w := ReleaseInode(d, ino, index + 1, n);
            left' == w.left && AllOwned(d, ino, w.freed) && below.blocks == EraseAll(d, ino, w.freed)
  {
    hide OwnHeap, EraseAll, AllOwned, Erasing, FromBits, ReleaseTree;
    OwnFacts(d, ino);
    var ref := WordAt(inodeBlock, InodeWord(ino) + 1 + index);
    if ref == 0 {
      left' := left - HoleCharge(index);
    } else {
      RootErasing(d, below.blocks, ino, index, n);
      ghost var w := ReleaseInode(d, ino, index, n);
      left' := RecurseHelper(below, ino, ref, Levels(index), left, d, Root(ino, index), w.freed);
    }
  }
}
