/** ufsdisk_write: what one write does to the trees, the bitmap and every file. */
module UfsWrite {
  import opened BlockStore
  import opened UfsTree
  import opened UfsAttach
  import opened UfsFile
  import opened UfsAlloc

  // ---------------------------------------------------------------- growing a tree towards an offset

  /** References missing on the way to `p`, `p` itself included. */
  function Missing(d: Disk, p: Path): nat
    requires Formatted(d) && ValidPath(d, p)
  {
    (if NodeAt(d, p) == 0 then 1 else 0) + if p.Child? then Missing(d, p.up) else 0
  }

  /** From `d` to `e` only indirect blocks on the way to `target` were added. */
  ghost predicate Grown(d: Disk, e: Disk, target: Path) {
    && Formatted(d) && Formatted(e) && SameGeometry(d, e)
    && (forall q | ValidPath(d, q) ::
          ValidPath(e, q) && (NodeAt(e, q) == NodeAt(d, q) || (NodeAt(d, q) == 0 && q != target && target.Through(q))))
    && (forall ino: nat | ino < InodeCount(d) :: NBlocks(e, ino) == NBlocks(d, ino))
    && (forall q | Owned(d, q) && IsLeaf(q) :: NodeAt(d, q) < |d| && e[NodeAt(d, q)] == d[NodeAt(d, q)])
  }

  lemma GrownStart(d: Disk, target: Path)
    requires Marked(d)
    ensures Grown(d, d, target)
  {
  }

  lemma GrownGeometry(d: Disk, e: Disk, target: Path)
    requires Grown(d, e, target)
    ensures Formatted(d) && Formatted(e) && SameGeometry(d, e)
    ensures forall ino: nat | ino < InodeCount(d) :: NBlocks(e, ino) == NBlocks(d, ino)
  {
  }

  lemma GrownAttach(d: Disk, e: Disk, target: Path, p: Path, b: nat)
    requires Grown(d, e, target) && Attachable(e, p, b, NullBlock())
    requires p != target && target.Through(p)
    ensures Grown(d, Attach(e, p, b, NullBlock()), target)
  {
    var f := Attach(e, p, b, NullBlock());
    AttachFrame(e, p, b, NullBlock());
    forall q | ValidPath(d, q)
      ensures ValidPath(f, q)
      ensures NodeAt(f, q) == NodeAt(d, q) || (NodeAt(d, q) == 0 && q != target && target.Through(q))
    {
      AttachNode(e, p, b, NullBlock(), q);
    }
    forall q | Owned(d, q) && IsLeaf(q)
      ensures f[NodeAt(d, q)] == d[NodeAt(d, q)]
    {
      assert NodeAt(e, q) == NodeAt(d, q);
      assert Owned(e, q);
    }
  }

  lemma {:induction false} MissingAttach(e: Disk, p: Path, b: nat, content: Block, target: Path)
    requires Attachable(e, p, b, content) && ValidPath(e, target)
    ensures var f := Attach(e, p, b, content);
            && Formatted(f) && ValidPath(f, target)
            && Missing(f, target) == if target.Through(p) then Missing(e, target) - 1 else Missing(e, target)
  {
    AttachNode(e, p, b, content, target);
    if target == p {
      if p.Child? {
        MissingAbove(e, p, b, content, p.up);
      }
    } else if target.Child? {
      MissingAttach(e, p, b, content, target.up);
    }
  }

  lemma {:induction false} MissingAbove(e: Disk, p: Path, b: nat, content: Block, q: Path)
    requires Attachable(e, p, b, content) && ValidPath(e, q) && q.Depth() < p.Depth()
    ensures var f := Attach(e, p, b, content);
            Formatted(f) && ValidPath(f, q) && Missing(f, q) == Missing(e, q)
  {
    AttachNode(e, p, b, content, q);
    if q.Child? {
      MissingAbove(e, p, b, content, q.up);
    }
  }

  lemma {:induction false} ThroughMissing(e: Disk, p: Path, target: Path)
    requires Formatted(e) && ValidPath(e, target) && target.Through(p) && ValidPath(e, p) && NodeAt(e, p) == 0
    ensures Missing(e, target) >= 1
  {
    if target != p {
      ThroughMissing(e, p, target.up);
    }
  }

  /** There is a free block for each reference still missing. */
  ghost predicate Room(e: Disk, target: Path)
    requires Formatted(e)
  {
    ValidPath(e, target) && |FreeBlocks(e)| >= Missing(e, target)
  }

  lemma RoomAttach(e: Disk, p: Path, b: nat, content: Block, target: Path)
    requires Attachable(e, p, b, content) && Room(e, target) && target.Through(p)
    ensures Formatted(Attach(e, p, b, content)) && Room(Attach(e, p, b, content), target)
  {
    AttachFrame(e, p, b, content);
    MissingAttach(e, p, b, content, target);
  }

  // ---------------------------------------------------------------- changes that touch no reference

  /** `f` has the references and the bitmap of `e`; sizes and data may differ. */
  ghost predicate SameRefs(e: Disk, f: Disk) {
    && Marked(e) && Formatted(f) && SameGeometry(e, f)
    && (forall p | ValidPath(e, p) && p.Root? :: ValidPath(f, p) && NodeAt(f, p) == NodeAt(e, p))
    && (forall p | Owned(e, p) && !IsLeaf(p) :: NodeAt(e, p) < |e| && f[NodeAt(e, p)] == e[NodeAt(e, p)])
    && (forall c: nat | MapStart(e) <= c < DataStart(e) :: c < |e| && f[c] == e[c])
  }

  lemma {:induction false} SameRefsNode(e: Disk, f: Disk, q: Path)
    requires SameRefs(e, f) && ValidPath(e, q)
    ensures ValidPath(f, q) && NodeAt(f, q) == NodeAt(e, q)
  {
    GeometryValid(e, f, q);
    if q.Child? {
      SameRefsNode(e, f, q.up);
      if NodeAt(e, q.up) != 0 {
        assert Owned(e, q.up) && !IsLeaf(q.up);
      }
    }
  }

  lemma SameRefsOwned(e: Disk, f: Disk, q: Path)
    requires SameRefs(e, f)
    ensures Owned(f, q) <==> Owned(e, q)
    ensures Owned(e, q) ==> NodeAt(f, q) == NodeAt(e, q)
  {
    GeometryValid(e, f, q);
    if ValidPath(e, q) {
      SameRefsNode(e, f, q);
    }
  }

  lemma SameRefsSound(e: Disk, f: Disk)
    requires SameRefs(e, f) && Sound(e)
    ensures Sound(f) && FreeBlocks(f) == FreeBlocks(e)
  {
    BitmapFrame(e, f);
    forall p | Owned(f, p)
      ensures IsData(f, NodeAt(f, p)) && InUse(f, NodeAt(f, p))
    {
      SameRefsOwned(e, f, p);
    }
    forall p, q | Owned(f, p) && Owned(f, q) && NodeAt(f, p) == NodeAt(f, q)
      ensures p == q
    {
      SameRefsOwned(e, f, p);
      SameRefsOwned(e, f, q);
    }
    forall b: nat | IsData(f, b) && InUse(f, b)
      ensures exists p :: Owned(f, p) && NodeAt(f, p) == b
    {
      var p :| Owned(e, p) && NodeAt(e, p) == b;
      SameRefsOwned(e, f, p);
    }
  }

  /** The disk with the size field of an inode set. */
  function WithSize(e: Disk, ino: nat, size: nat): Disk
    requires Formatted(e) && ino < InodeCount(e) && size < WORD_LIMIT
  {
    InodeOnDisk(e, ino);
    e[InodeBlock(ino) := SetWord(e[InodeBlock(ino)], InodeWord(ino), size)]
  }

  lemma WithSizeRefs(e: Disk, ino: nat, size: nat)
    requires Marked(e) && ino < InodeCount(e) && size < WORD_LIMIT
    ensures SameRefs(e, WithSize(e, ino, size))
  {
    var f := WithSize(e, ino, size);
    InodeOnDisk(e, ino);
    assert f[0] == e[0];
    forall p | ValidPath(e, p) && p.Root?
      ensures ValidPath(f, p) && NodeAt(f, p) == NodeAt(e, p)
    {
      GeometryValid(e, f, p);
      InodeOnDisk(e, p.ino);
      var w := InodeWord(p.ino) + 1 + p.slot;
      if InodeBlock(ino) == InodeBlock(p.ino) && InodeWord(ino) == w {
        InodePlaceUnique(ino, 0, p.ino, p.slot + 1);
      }
      assert WordAt(f[InodeBlock(p.ino)], w) == WordAt(e[InodeBlock(p.ino)], w);
    }
  }

  lemma WithSizeSizes(e: Disk, ino: nat, size: nat, ino2: nat)
    requires Formatted(e) && ino < InodeCount(e) && size < WORD_LIMIT && ino2 < InodeCount(e)
    ensures var f := WithSize(e, ino, size);
            && Formatted(f) && SameGeometry(e, f)
            && NBlocks(f, ino2) == if ino2 == ino then size else NBlocks(e, ino2)
  {
    InodeOnDisk(e, ino);
    InodeOnDisk(e, ino2);
    assert WithSize(e, ino, size)[0] == e[0];
    if InodeBlock(ino) == InodeBlock(ino2) && InodeWord(ino) == InodeWord(ino2) {
      InodePlaceUnique(ino, 0, ino2, 0);
    }
  }

  /** Replacing a data block changes no reference and no size. */
  lemma OverwriteRefs(e: Disk, p: Path, block: Block)
    requires Sound(e) && Owned(e, p) && IsLeaf(p)
    ensures NodeAt(e, p) < |e| && SameRefs(e, e[NodeAt(e, p) := block])
    ensures forall ino: nat | ino < InodeCount(e) :: NBlocks(e[NodeAt(e, p) := block], ino) == NBlocks(e, ino)
  {
    var f := e[NodeAt(e, p) := block];
    assert f[0] == e[0];
    forall q | ValidPath(e, q) && q.Root?
      ensures ValidPath(f, q) && NodeAt(f, q) == NodeAt(e, q)
    {
      GeometryValid(e, f, q);
      InodeOnDisk(e, q.ino);
    }
    forall ino: nat | ino < InodeCount(e)
      ensures NBlocks(f, ino) == NBlocks(e, ino)
    {
      InodeOnDisk(e, ino);
    }
  }

  // ---------------------------------------------------------------- one write

  /** `f` is `d` with `block` stored at the end of the path `target` and nothing else changed,
      except that missing blocks on the way to it were added. */
  ghost predicate Written(d: Disk, f: Disk, target: Path, block: Block) {
    && Sound(d) && Sound(f) && SameGeometry(d, f)
    && IsLeaf(target) && Owned(f, target) && NodeAt(f, target) < |f| && f[NodeAt(f, target)] == block
    && (forall q | ValidPath(d, q) ::
          ValidPath(f, q) && (NodeAt(f, q) == NodeAt(d, q) || (NodeAt(d, q) == 0 && target.Through(q))))
    && (forall q | Owned(d, q) && IsLeaf(q) && q != target :: NodeAt(d, q) < |d| && f[NodeAt(d, q)] == d[NodeAt(d, q)])
  }

  lemma AttachWritten(d: Disk, e: Disk, target: Path, b: nat, block: Block)
    requires Sound(d) && Grown(d, e, target) && Sound(e) && IsLeaf(target) && Attachable(e, target, b, block)
    ensures SameGeometry(d, Attach(e, target, b, block)) && Written(d, Attach(e, target, b, block), target, block)
  {
    hide FromBits, Grown;
    GrownGeometry(d, e, target);
    AttachSound(e, target, b, block);
    AttachFrame(e, target, b, block);
    AttachedPart(d, e, target, b, block);
    hide Attach, Marked, Unshared, Tracked, InUse, NodeAt, ValidPath;
  }

  /** A changed size changes nothing of what is written. */
  lemma ResizedWritten(d: Disk, a: Disk, target: Path, block: Block, size: nat)
    requires Written(d, a, target, block) && size < WORD_LIMIT && target.Inode() < InodeCount(a)
    ensures Written(d, WithSize(a, target.Inode(), size), target, block)
  {
    hide FromBits, Unshared, Tracked, InUse, NodeAt;
    var f := WithSize(a, target.Inode(), size);
    WithSizeRefs(a, target.Inode(), size);
    SameRefsSound(a, f);
    InodeOnDisk(a, target.Inode());
    forall q | ValidPath(d, q)
      ensures ValidPath(f, q) && NodeAt(f, q) == NodeAt(a, q)
    {
      SameRefsNode(a, f, q);
    }
    SameRefsNode(a, f, target);
    forall q | Owned(d, q) && IsLeaf(q) && q != target
      ensures NodeAt(d, q) < |d| && f[NodeAt(d, q)] == d[NodeAt(d, q)]
    {
      assert IsData(d, NodeAt(d, q));
    }
  }

  lemma WrittenByAttach(d: Disk, e: Disk, target: Path, b: nat, block: Block, size: nat)
    requires Sound(d) && Grown(d, e, target) && Sound(e) && IsLeaf(target)
    requires Attachable(e, target, b, block) && size < WORD_LIMIT && target.Inode() < InodeCount(d)
    ensures var a := Attach(e, target, b, block);
            Sound(a) && SameGeometry(d, a) && Written(d, WithSize(a, target.Inode(), size), target, block)
  {
    AttachWritten(d, e, target, b, block);
    hide Sound, Grown, Attachable, Attach, NodeAt, ValidPath;
    ResizedWritten(d, Attach(e, target, b, block), target, block, size);
  }

  lemma SizesAfterAttach(d: Disk, e: Disk, target: Path, b: nat, block: Block, size: nat)
    requires Grown(d, e, target) && Attachable(e, target, b, block)
    requires size < WORD_LIMIT && target.Inode() < InodeCount(d)
    ensures var a := Attach(e, target, b, block);
            && Formatted(a) && SameGeometry(d, a)
            && var f := WithSize(a, target.Inode(), size);
            && Formatted(f) && SameGeometry(d, f)
            && forall ino: nat | ino < InodeCount(d) ::
                 NBlocks(f, ino) == if ino == target.Inode() then size else NBlocks(d, ino)
  {
    hide FromBits, Grown;
    GrownGeometry(d, e, target);
    AttachFrame(e, target, b, block);
    var a := Attach(e, target, b, block);
    WithSizeSizes(a, target.Inode(), size, target.Inode());
    forall ino: nat | ino < InodeCount(d)
      ensures NBlocks(WithSize(a, target.Inode(), size), ino) == if ino == target.Inode() then size else NBlocks(d, ino)
    {
      WithSizeSizes(a, target.Inode(), size, ino);
    }
  }

  lemma AttachedPart(d: Disk, e: Disk, target: Path, b: nat, block: Block)
    requires Marked(d) && Grown(d, e, target) && IsLeaf(target) && Attachable(e, target, b, block)
    ensures var a := Attach(e, target, b, block);
            && Formatted(a) && ValidPath(a, target) && NodeAt(a, target) == b && b < |a| && a[b] == block
            && (forall q | ValidPath(d, q) ::
                  ValidPath(a, q) && (NodeAt(a, q) == NodeAt(d, q) || (NodeAt(d, q) == 0 && target.Through(q))))
            && (forall q | Owned(d, q) && IsLeaf(q) && q != target ::
                  IsData(d, NodeAt(d, q)) && a[NodeAt(d, q)] == d[NodeAt(d, q)])
  {
    var a := Attach(e, target, b, block);
    AttachFrame(e, target, b, block);
    AttachNode(e, target, b, block, target);
    forall q | ValidPath(d, q)
      ensures ValidPath(a, q)
      ensures NodeAt(a, q) == NodeAt(d, q) || (NodeAt(d, q) == 0 && target.Through(q))
    {
      AttachNode(e, target, b, block, q);
    }
    forall q | Owned(d, q) && IsLeaf(q) && q != target
      ensures a[NodeAt(d, q)] == d[NodeAt(d, q)]
    {
      assert NodeAt(e, q) == NodeAt(d, q);
      assert Owned(e, q);
    }
  }

  lemma WrittenByOverwrite(d: Disk, e: Disk, target: Path, block: Block)
    requires Sound(d) && Grown(d, e, target) && Sound(e) && IsLeaf(target) && Owned(e, target)
    ensures NodeAt(e, target) < |e| && Written(d, e[NodeAt(e, target) := block], target, block)
    ensures var f := e[NodeAt(e, target) := block];
            forall ino: nat | ino < InodeCount(d) :: NBlocks(f, ino) == NBlocks(d, ino)
  {
    hide FromBits, InUse;
    OverwriteRefs(e, target, block);
    var f := e[NodeAt(e, target) := block];
    SameRefsSound(e, f);
    forall q | ValidPath(d, q)
      ensures ValidPath(f, q) && NodeAt(f, q) == NodeAt(e, q)
    {
      SameRefsNode(e, f, q);
    }
    SameRefsNode(e, f, target);
    forall q | Owned(d, q) && IsLeaf(q) && q != target
      ensures f[NodeAt(d, q)] == d[NodeAt(d, q)]
    {
      assert Owned(e, q) && NodeAt(e, q) == NodeAt(d, q);
    }
  }

  // ---------------------------------------------------------------- what it means for the files

  /** The size a file has after a write: a write into a hole extends the file past its offset, an
      overwrite leaves the size alone. */
  function SizeAfter(d: Disk, ino: nat, offset: nat): nat
    requires Formatted(d) && ino < InodeCount(d) && offset < Capacity()
  {
    if Mapped(d, ino, offset) || offset + 1 <= NBlocks(d, ino) then NBlocks(d, ino) else offset + 1
  }

  /** A write changes one block of one file and no other block of any file. */
  lemma WrittenFiles(d: Disk, f: Disk, ino: nat, offset: nat, block: Block)
    requires Formatted(d) && ino < InodeCount(d) && offset < Capacity()
    requires Written(d, f, PathOf(ino, offset), block)
    ensures FileBlock(f, ino, offset) == block && Mapped(f, ino, offset)
    ensures forall i: nat, o: nat | i < InodeCount(d) && o < Capacity() && (i != ino || o != offset) ::
              FileBlock(f, i, o) == FileBlock(d, i, o) && Mapped(f, i, o) == Mapped(d, i, o)
  {
    forall i: nat, o: nat | i < InodeCount(d) && o < Capacity() && (i != ino || o != offset)
      ensures FileBlock(f, i, o) == FileBlock(d, i, o) && Mapped(f, i, o) == Mapped(d, i, o)
    {
      WrittenElsewhere(d, f, ino, offset, block, i, o);
    }
  }

  lemma WrittenElsewhere(d: Disk, f: Disk, ino: nat, offset: nat, block: Block, i: nat, o: nat)
    requires Formatted(d) && ino < InodeCount(d) && offset < Capacity()
    requires Written(d, f, PathOf(ino, offset), block)
    requires i < InodeCount(d) && o < Capacity() && (i != ino || o != offset)
    ensures FileBlock(f, i, o) == FileBlock(d, i, o) && Mapped(f, i, o) == Mapped(d, i, o)
  {
    var p := PathOf(i, o);
    var target := PathOf(ino, offset);
    PathValid(d, i, o);
    PathValid(d, ino, offset);
    if p == target {
      PathUnique(d, i, o, ino, offset);
    }
    if target.Through(p) {
      LeafIsLast(d, target, p);
    }
    if NodeAt(d, p) != 0 {
      assert Owned(d, p);
    }
  }

  /** The sizes that go with a write. */
  ghost predicate Resized(d: Disk, f: Disk, ino: nat, offset: nat)
    requires Formatted(d) && ino < InodeCount(d) && offset < Capacity()
  {
    && Formatted(f) && SameGeometry(d, f)
    && forall i: nat | i < InodeCount(d) ::
         NBlocks(f, i) == if i == ino then SizeAfter(d, ino, offset) else NBlocks(d, i)
  }

  lemma WrittenSized(d: Disk, f: Disk, ino: nat, offset: nat, block: Block)
    requires Sized(d) && ino < InodeCount(d) && offset < Capacity()
    requires Written(d, f, PathOf(ino, offset), block) && Resized(d, f, ino, offset)
    ensures Sized(f)
  {
    WrittenFiles(d, f, ino, offset, block);
  }

  lemma WrittenEndsInBlock(d: Disk, f: Disk, ino: nat, offset: nat, block: Block, i: nat)
    requires Formatted(d) && ino < InodeCount(d) && offset < Capacity() && i < InodeCount(d)
    requires Written(d, f, PathOf(ino, offset), block) && Resized(d, f, ino, offset)
    requires EndsInBlock(d, i)
    ensures EndsInBlock(f, i)
  {
    hide Sound, FileBlock;
    if NBlocks(f, i) > 0 {
      var last := NBlocks(f, i) - 1;
      if i == ino && last == offset {
        PathValid(d, ino, offset);
      } else {
        assert NBlocks(f, i) == NBlocks(d, i);
        WrittenElsewhere(d, f, ino, offset, block, i, last);
      }
    }
  }

  lemma WrittenEnded(d: Disk, f: Disk, ino: nat, offset: nat, block: Block)
    requires Ended(d) && ino < InodeCount(d) && offset < Capacity()
    requires Written(d, f, PathOf(ino, offset), block) && Resized(d, f, ino, offset)
    ensures Ended(f)
  {
    forall i: nat | i < InodeCount(d)
      ensures EndsInBlock(f, i)
    {
      assert EndsInBlock(d, i);
      WrittenEndsInBlock(d, f, ino, offset, block, i);
    }
  }

  /** Consistency survives every write. */
  lemma WrittenConsistent(d: Disk, f: Disk, ino: nat, offset: nat, block: Block)
    requires Consistent(d) && ino < InodeCount(d) && offset < Capacity()
    requires Written(d, f, PathOf(ino, offset), block) && Resized(d, f, ino, offset)
    ensures Consistent(f)
  {
    WrittenSized(d, f, ino, offset, block);
    WrittenEnded(d, f, ino, offset, block);
    forall p | Owned(f, p) && !IsLeaf(p)
      ensures LeadsToData(f, p)
    {
      WrittenLeads(d, f, ino, offset, block, p);
    }
  }

  lemma WrittenLeads(d: Disk, f: Disk, ino: nat, offset: nat, block: Block, p: Path)
    requires Fruitful(d) && ino < InodeCount(d) && offset < Capacity()
    requires Written(d, f, PathOf(ino, offset), block)
    requires Owned(f, p) && !IsLeaf(p)
    ensures LeadsToData(f, p)
  {
    WrittenFiles(d, f, ino, offset, block);
    GeometryValid(d, f, p);
    if Owned(d, p) {
      var o: nat :| o < Capacity() && p.Inode() < InodeCount(d)
                    && PathOf(p.Inode(), o).Through(p) && Mapped(d, p.Inode(), o);
      assert Mapped(f, p.Inode(), o);
    } else {
      PathValid(d, ino, offset);
      ThroughDeeper(PathOf(ino, offset), p);
      assert PathOf(p.Inode(), offset).Through(p) && Mapped(f, p.Inode(), offset);
    }
  }

  /** After a write to a consistent disk the offset is inside the file and reads back as written. */
  lemma ReadBack(d: Disk, f: Disk, ino: nat, offset: nat, block: Block)
    requires Consistent(d) && ino < InodeCount(d) && offset < Capacity()
    requires Written(d, f, PathOf(ino, offset), block) && Resized(d, f, ino, offset)
    ensures offset < NBlocks(f, ino) && FileBlock(f, ino, offset) == block
  {
    WrittenFiles(d, f, ino, offset, block);
    WrittenSized(d, f, ino, offset, block);
    assert Mapped(f, ino, offset);
  }

  // ---------------------------------------------------------------- ufsdisk_write

  /** The write has walked down to `at`, which leads to block `b`.  Unless that is one of the
      inode's own references, the reference is word `at.i` of block `refBlock`, of which `indir`
      is a copy. */
  ghost predicate Walking(d: Disk, e: Disk, target: Path, at: Path, b: nat, levels: nat, index: nat,
                          refBlock: nat, indir: Block)
  {
    && Sound(e) && Grown(d, e, target) && Room(e, target)
    && OnWay(e, target, at, levels, index) && target.Through(at) && b == NodeAt(e, at)
    && (at.Child? ==> Owned(e, at.up) && refBlock == NodeAt(e, at.up) && refBlock < |e| && indir == e[refBlock])
  }

  /** Blocks are missing only if some are free. */
  lemma RoomForOne(e: Disk, target: Path, p: Path)
    requires Formatted(e) && Room(e, target) && ValidPath(e, p) && target.Through(p) && NodeAt(e, p) == 0
    ensures FreeBlocks(e) != {}
  {
    ThroughMissing(e, p, target);
  }

  lemma OnWayThrough(e: Disk, target: Path, at: Path, levels: nat, index: nat)
    requires |e| > 0 && OnWay(e, target, at, levels, index)
    ensures target.Through(at) && ValidPath(e, target) && IsLeaf(target)
    ensures levels > 0 ==> at != target && !IsLeaf(at)
    ensures levels == 0 ==> at == target
  {
    DescendValid(e, at, levels, index);
  }

  /** Hang an empty indirect block at `at`, whose reference is word `word` of `cell`. */
  method AddIndirect(below: Store, ino: nat, cell: nat, word: nat, contents: Block,
                     ghost d: Disk, ghost target: Path, ghost at: Path) returns (b: nat, contents': Block)
    requires var e := below.blocks;
             && Sound(e) && Grown(d, e, target) && Room(e, target) && ino < InodeCount(e)
             && Vacant(e, at) && at != target && target.Through(at) && !IsLeaf(at)
             && cell == CellBlock(e, at) && word == CellWord(at) && cell < |e| && contents == e[cell]
    modifies below
    ensures var e := old(below.blocks);
            && Attachable(e, at, b, NullBlock()) && below.blocks == Attach(e, at, b, NullBlock())
            && Sound(below.blocks) && Grown(d, below.blocks, target) && Room(below.blocks, target)
    ensures contents' == SetWord(contents, word, b)
  {
    ghost var e := below.blocks;
    RoomForOne(e, target, at);
    var ok;
    ok, b := WriteNextFreeBlock(below, ino, NullBlock());
    AttachFromCopy(e, at, b, NullBlock());
    contents' := SetWord(contents, word, b);
    below.Write(cell, contents');
    AttachSound(e, at, b, NullBlock());
    GrownAttach(d, e, target, at, b);
    RoomAttach(e, at, b, NullBlock(), target);
  }

  /** Fill in a missing block at `at`, if it is missing; then follow the index one level down. */
  method StepDown(below: Store, ino: nat, at: Path, b: nat, levels: nat, index: nat, refBlock: nat, indir: Block,
                  ghost d: Disk, ghost target: Path)
    returns (at': Path, b': nat, index': nat, refBlock': nat, indir': Block)
    requires var e := below.blocks;
             && Walking(d, e, target, at, b, levels, index, refBlock, indir)
             && levels > 0 && ino < InodeCount(e) && (at.Root? ==> b != 0)
    modifies below
    ensures var e := below.blocks;
            && Walking(d, e, target, at', b', levels - 1, index', refBlock', indir') && at'.Child?
            && SameGeometry(old(below.blocks), e)
            && InodeBlock(ino) < |e| && e[InodeBlock(ino)] == old(below.blocks)[InodeBlock(ino)]
  {
    hide Grown, Room, FromBits;
    ghost var e0 := below.blocks;
    InodeOnDisk(e0, ino);
    OnWayThrough(e0, target, at, levels, index);
    b' := b;
    if b == 0 {
      var cell;
      b', cell := AddIndirect(below, ino, refBlock, at.i, indir, d, target, at);
      AttachBlocks(e0, at, b', NullBlock());
      AttachNode(e0, at, b', NullBlock(), at);
      OnWayGeometry(e0, below.blocks, target, at, levels, index);
    }
    ghost var e := below.blocks;
    assert Owned(e, at) && NodeAt(e, at) == b';
    refBlock' := b';
    indir' := below.Read(b');
    var divider := Divider(levels - 1);
    ghost var digit, rest := DigitStep(index, levels);
    OnWayDown(e, target, at, levels, index, digit, rest);
    at' := Child(at, index / divider);
    index' := index % divider;
    b' := WordAt(indir', at'.i);
    OnWayThrough(e, target, at', levels - 1, index');
  }

  lemma OnWayGeometry(d: Disk, e: Disk, target: Path, at: Path, levels: nat, index: nat)
    requires |d| > 0 && SameGeometry(d, e) && OnWay(d, target, at, levels, index)
    ensures OnWay(e, target, at, levels, index)
  {
    GeometryValid(d, e, at);
  }

  /** The inode's own reference; if an indirect block is missing there it is added. */
  method EnterTree(below: Store, ino: nat, place: Place, inodeBlockNo: nat, inodeBlock: Block, ghost target: Path)
    returns (b: nat, inodeBlock': Block)
    requires var d := below.blocks;
             && Sound(d) && ino < InodeCount(d) && Room(d, target) && place.slot < REFS_PER_INODE
             && OnWay(d, target, Root(ino, place.slot), place.levels, place.index)
             && inodeBlockNo == InodeBlock(ino) < |d| && inodeBlock == d[inodeBlockNo]
    modifies below
    ensures var d := old(below.blocks); var e := below.blocks; var at := Root(ino, place.slot);
            && Walking(d, e, target, at, b, place.levels, place.index, 0, NullBlock())
            && InodeBlock(ino) < |e| && inodeBlock' == e[InodeBlock(ino)]
            && (place.levels > 0 ==> b != 0)
  {
    ghost var d := below.blocks;
    var at := Root(ino, place.slot);
    OnWayThrough(d, target, at, place.levels, place.index);
    GrownStart(d, target);
    inodeBlock' := inodeBlock;
    b := WordAt(inodeBlock, InodeWord(ino) + 1 + place.slot);
    if b == 0 && place.levels != 0 {
      CellPlace(d, at);
      b, inodeBlock' := AddIndirect(below, ino, inodeBlockNo, InodeWord(ino) + 1 + place.slot, inodeBlock,
                                    d, target, at);
      AttachBlocks(d, at, b, NullBlock());
      AttachNode(d, at, b, NullBlock(), at);
      OnWayGeometry(d, below.blocks, target, at, place.levels, place.index);
    }
  }

  /** Follow the index down to the data, adding the indirect blocks that are missing. */
  method WalkDown(below: Store, ino: nat, place: Place, b: nat, inodeBlock: Block, ghost d: Disk, ghost target: Path)
    returns (at: Path, b': nat, refBlock: nat, indir: Block)
    requires var e := below.blocks;
             && Walking(d, e, target, Root(ino, place.slot), b, place.levels, place.index, 0, NullBlock())
             && ino < InodeCount(e) && (place.levels > 0 ==> b != 0)
             && InodeBlock(ino) < |e| && inodeBlock == e[InodeBlock(ino)]
    modifies below
    ensures var e := below.blocks;
            && at == target && Walking(d, e, target, at, b', 0, 0, refBlock, indir)
            && InodeBlock(ino) < |e| && inodeBlock == e[InodeBlock(ino)]
  {
    hide Sound, Grown, Room, WordAt;
    at, b', refBlock, indir := Root(ino, place.slot), b, 0, NullBlock();
    var levels: nat, index: nat := place.levels, place.index;
    while levels > 0
      invariant at.Root? && levels > 0 ==> b' != 0
      invariant Walking(d, below.blocks, target, at, b', levels, index, refBlock, indir)
      invariant InodeBlock(ino) < |below.blocks| && inodeBlock == below.blocks[InodeBlock(ino)]
      invariant ino < InodeCount(below.blocks)
    {
      at, b', index, refBlock, indir := StepDown(below, ino, at, b', levels, index, refBlock, indir, d, target);
      levels := levels - 1;
    }
    OnWayThrough(below.blocks, target, at, levels, index);
  }

  /** Store a block in file `ino` at `offset`.  Missing indirect blocks are added on the way; a
      block that was there is overwritten in place, and only a new one can change the size. */
  method Write(below: Store, ino: nat, offset: nat, block: Block) returns (ok: bool)
    requires Sound(below.blocks)
    requires ino < InodeCount(below.blocks) ==> offset < Capacity()
    requires ino < InodeCount(below.blocks) ==> Room(below.blocks, PathOf(ino, offset))
    modifies below
    ensures var d := old(below.blocks); var f := below.blocks;
            && (ok <==> ino < InodeCount(d))
            && (!ok ==> f == d)
            && (ok ==> Written(d, f, PathOf(ino, offset), block) && Resized(d, f, ino, offset))
  {
    ghost var d := below.blocks;
    var snapshot := GetSnapshot(below, ino);
    if snapshot.BadInode? {
      return false;
    }
    var inodeBlock := snapshot.inodeBlock;
    var place := PlaceOf(offset);
    ghost var target := PathOf(ino, offset);
    OnWayFromRoot(d, ino, offset);
    PathValid(d, ino, offset);
    var at, b;
    b, inodeBlock := EnterTree(below, ino, place, snapshot.inodeBlockNo, inodeBlock, target);
    var refBlock, indir;
    at, b, refBlock, indir := WalkDown(below, ino, place, b, inodeBlock, d, target);
    StoreLeaf(below, ino, offset, block, at, b, refBlock, indir, snapshot.inodeBlockNo, inodeBlock, d);
    ok := true;
  }

  /** The end of the walk: put the data in a new block, or over the old one. */
  method StoreLeaf(below: Store, ino: nat, offset: nat, block: Block, at: Path, b: nat, refBlock: nat, indir: Block,
                   inodeBlockNo: nat, inodeBlock: Block, ghost d: Disk)
    requires Sound(d) && ino < InodeCount(d) && offset < Capacity() && at == PathOf(ino, offset)
    requires Walking(d, below.blocks, at, at, b, 0, 0, refBlock, indir)
    requires inodeBlockNo == InodeBlock(ino) < |below.blocks| && inodeBlock == below.blocks[inodeBlockNo]
    modifies below
    ensures Written(d, below.blocks, PathOf(ino, offset), block) && Resized(d, below.blocks, ino, offset)
  {
    hide Sound, Grown, Written, Room, Walking, Resized;
    ghost var e := below.blocks;
    WalkEnd(d, e, ino, offset, b, refBlock, indir);
    if b != 0 {
      WrittenByOverwrite(d, e, at, block);
      below.Write(b, block);
      ResizedTo(d, below.blocks, ino, offset, NBlocks(d, ino));
      return;
    }
    var size := WordAt(inodeBlock, InodeWord(ino));
    WordBelow(inodeBlock, InodeWord(ino));
    size := if offset + 1 > size then offset + 1 else size;
    CapacityInWord();
    RoomForOne(e, at, at);
    var newBlock := LinkLeaf(below, ino, block, at, refBlock, indir, inodeBlockNo, inodeBlock, size);
    WrittenByAttach(d, e, at, newBlock, block, size);
    SizesAfterAttach(d, e, at, newBlock, block, size);
    ResizedTo(d, below.blocks, ino, offset, size);
  }

  lemma ResizedTo(d: Disk, f: Disk, ino: nat, offset: nat, size: nat)
    requires Formatted(d) && Formatted(f) && SameGeometry(d, f) && ino < InodeCount(d) && offset < Capacity()
    requires forall i: nat | i < InodeCount(d) :: NBlocks(f, i) == if i == ino then size else NBlocks(d, i)
    requires size == SizeAfter(d, ino, offset)
    ensures Resized(d, f, ino, offset)
  {
  }

  lemma WalkEnd(d: Disk, e: Disk, ino: nat, offset: nat, b: nat, refBlock: nat, indir: Block)
    requires Sound(d) && ino < InodeCount(d) && offset < Capacity()
    requires Walking(d, e, PathOf(ino, offset), PathOf(ino, offset), b, 0, 0, refBlock, indir)
    ensures var at := PathOf(ino, offset);
            && Sound(e) && Grown(d, e, at) && Room(e, at) && SameGeometry(d, e) && Formatted(e)
            && ValidPath(e, at) && at.Inode() == ino && IsLeaf(at) && at.Through(at) && b == NodeAt(e, at)
            && Mapped(d, ino, offset) == (b != 0) && NBlocks(e, ino) == NBlocks(d, ino)
            && (b == 0 ==> Vacant(e, at))
            && (at.Child? ==> refBlock == CellBlock(e, at) && refBlock < |e| && indir == e[refBlock])
  {
    PathValid(d, ino, offset);
    GeometryValid(d, e, PathOf(ino, offset));
  }

  /** Put a block in a free place, link it at `at` and set the size of the file. */
  method LinkLeaf(below: Store, ino: nat, block: Block, at: Path, refBlock: nat, indir: Block,
                  inodeBlockNo: nat, inodeBlock: Block, size: nat) returns (newBlock: nat)
    requires var e := below.blocks;
             && Sound(e) && FreeBlocks(e) != {} && ino < InodeCount(e) && Vacant(e, at) && IsLeaf(at)
             && at.Inode() == ino && size < WORD_LIMIT
             && (at.Child? ==> refBlock == CellBlock(e, at) && refBlock < |e| && indir == e[refBlock])
             && inodeBlockNo == InodeBlock(ino) < |e| && inodeBlock == e[inodeBlockNo]
    modifies below
    ensures var e := old(below.blocks);
            && Attachable(e, at, newBlock, block)
            && Formatted(Attach(e, at, newBlock, block)) && SameGeometry(e, Attach(e, at, newBlock, block))
            && below.blocks == WithSize(Attach(e, at, newBlock, block), ino, size)
  {
    ghost var e := below.blocks;
    var ok;
    ok, newBlock := WriteNextFreeBlock(below, ino, block);
    NewLeafDisk(e, at, newBlock, block, size);
    if at.Root? {
      var linked := SetWord(inodeBlock, InodeWord(ino) + 1 + at.slot, newBlock);
      below.Write(inodeBlockNo, SetWord(linked, InodeWord(ino), size));
    } else {
      below.Write(refBlock, SetWord(indir, at.i, newBlock));
      below.Write(inodeBlockNo, SetWord(inodeBlock, InodeWord(ino), size));
    }
  }

  /** The disk after the writes that link a new data block and set the size. */
  lemma NewLeafDisk(e: Disk, at: Path, b: nat, block: Block, size: nat)
    requires Attachable(e, at, b, block) && size < WORD_LIMIT && at.Inode() < InodeCount(e)
    ensures var ino := at.Inode(); var cell := CellBlock(e, at); var inodeBlockNo := InodeBlock(ino);
            && SameGeometry(e, Attach(e, at, b, block)) && Formatted(Attach(e, at, b, block))
            && cell < |e| && inodeBlockNo < |e| && b < |e|
            && WithSize(Attach(e, at, b, block), ino, size)
               == FlipBit(e, b)[b := block]
                  [cell := SetWord(e[cell], CellWord(at), b)]
                  [inodeBlockNo := SetWord(if at.Root? then SetWord(e[cell], CellWord(at), b) else e[inodeBlockNo],
                                           InodeWord(ino), size)]
  {
    AttachFromCopy(e, at, b, block);
    AttachBlocks(e, at, b, block);
    CellPlace(e, at);
    InodeOnDisk(e, at.Inode());
  }
}
