/** Hanging one new block into an inode's tree. */
module UfsAttach {
  import opened BlockStore
  import opened UfsTree

  /** The block that holds the reference a path ends with: an inode block or an indirect block. */
  function CellBlock(d: Disk, p: Path): nat
    requires Formatted(d) && ValidPath(d, p)
  {
    if p.Root? then InodeBlock(p.ino) else NodeAt(d, p.up)
  }

  /** The word of that block. */
  function CellWord(p: Path): (w: nat)
    requires p.Root? ==> p.slot < REFS_PER_INODE
    requires p.Child? ==> p.i < REFS_PER_BLOCK
    ensures w < REFS_PER_BLOCK
  {
    if p.Root? then InodeWord(p.ino) + 1 + p.slot else p.i
  }

  /** The reference at `p` can be set: its inode or indirect block is there and it is still 0. */
  predicate Vacant(d: Disk, p: Path)
    requires Formatted(d)
  {
    ValidPath(d, p) && NodeAt(d, p) == 0 && (p.Child? ==> Owned(d, p.up))
  }

  lemma CellPlace(d: Disk, p: Path)
    requires Marked(d) && ValidPath(d, p) && (p.Child? ==> Owned(d, p.up))
    ensures CellBlock(d, p) < |d|
    ensures p.Root? ==> 0 < CellBlock(d, p) < MapStart(d)
    ensures p.Child? ==> IsData(d, CellBlock(d, p)) && InUse(d, CellBlock(d, p))
    ensures NodeAt(d, p) == WordAt(d[CellBlock(d, p)], CellWord(p))
  {
    if p.Root? {
      InodeOnDisk(d, p.ino);
    }
  }

  /** Mark `b` used, fill it, and let the reference at `p` lead to it. */
  function Attach(d: Disk, p: Path, b: nat, content: Block): (e: Disk)
    requires Marked(d) && Vacant(d, p) && IsData(d, b)
    ensures |e| == |d|
  {
    CellPlace(d, p);
    var marked := FlipBit(d, b)[b := content];
    marked[CellBlock(d, p) := SetWord(marked[CellBlock(d, p)], CellWord(p), b)]
  }

  /** What Attach leaves alone: every block but the bitmap, `b` and the one holding the cell,
      and of that one every other word. */
  lemma AttachBlocks(d: Disk, p: Path, b: nat, content: Block)
    requires Marked(d) && Vacant(d, p) && IsData(d, b) && !InUse(d, b)
    ensures var e := Attach(d, p, b, content); var cell := CellBlock(d, p);
            && cell != b && cell < |d|
            && Formatted(e) && SameGeometry(d, e)
            && e[b] == content
            && e[cell] == SetWord(d[cell], CellWord(p), b)
            && (forall c: nat | c < |d| && c != b && c != cell && (c < MapStart(d) || DataStart(d) <= c) ::
                  e[c] == d[c])
            && (forall c: nat | IsData(d, c) :: InUse(e, c) == (c == b || InUse(d, c)))
  {
    CellPlace(d, p);
    FlipBitFlips(d, b);
    var f := FlipBit(d, b);
    var e := Attach(d, p, b, content);
    assert e[0] == f[0];
    BitmapFrame(f, e);
  }

  /** The same, from the contents the cell's block had before. */
  lemma AttachFromCopy(d: Disk, p: Path, b: nat, content: Block)
    requires Marked(d) && Vacant(d, p) && IsData(d, b) && !InUse(d, b)
    ensures var cell := CellBlock(d, p);
            && cell < |d|
            && Attach(d, p, b, content) == FlipBit(d, b)[b := content][cell := SetWord(d[cell], CellWord(p), b)]
  {
    AttachBlocks(d, p, b, content);
  }

  /** Two references never share a cell. */
  lemma CellUnique(d: Disk, p: Path, q: Path)
    requires Marked(d) && Unshared(d) && ValidPath(d, p) && ValidPath(d, q)
    requires p.Child? ==> Owned(d, p.up)
    requires q.Child? ==> Owned(d, q.up)
    requires CellBlock(d, p) == CellBlock(d, q) && CellWord(p) == CellWord(q)
    ensures p == q
  {
    CellPlace(d, p);
    CellPlace(d, q);
    if p.Root? {
      InodePlaceUnique(p.ino, p.slot + 1, q.ino, q.slot + 1);
    }
  }

  /** The new block can be hung at `p`: an indirect block starts out with no references. */
  ghost predicate Attachable(d: Disk, p: Path, b: nat, content: Block) {
    && Marked(d) && Unshared(d) && Vacant(d, p)
    && IsData(d, b) && !InUse(d, b)
    && (!IsLeaf(p) ==> content == NullBlock())
  }

  /** Attaching adds the reference at `p` and changes no other one on the disk. */
  lemma {:induction false} AttachNode(d: Disk, p: Path, b: nat, content: Block, q: Path)
    requires Attachable(d, p, b, content) && ValidPath(d, q)
    ensures var e := Attach(d, p, b, content);
            Formatted(e) && ValidPath(e, q) && NodeAt(e, q) == if q == p then b else NodeAt(d, q)
  {
    var e := Attach(d, p, b, content);
    AttachBlocks(d, p, b, content);
    CellPlace(d, p);
    GeometryValid(d, e, q);
    match q {
      case Root(ino, slot) =>
        InodeOnDisk(d, ino);
        if q != p && InodeBlock(ino) == CellBlock(d, p) {
          CellUniqueAt(d, p, q);
        }
      case Child(up, i) =>
        AttachNode(d, p, b, content, up);
        AttachBelow(d, p, b, content, q);
    }
  }

  lemma CellUniqueAt(d: Disk, p: Path, q: Path)
    requires Marked(d) && Unshared(d) && ValidPath(d, p) && ValidPath(d, q) && p != q
    requires p.Child? ==> Owned(d, p.up)
    requires q.Child? ==> Owned(d, q.up)
    requires CellBlock(d, p) == CellBlock(d, q)
    ensures CellWord(p) != CellWord(q)
  {
    if CellWord(p) == CellWord(q) {
      CellUnique(d, p, q);
    }
  }

  /** One level down: from the block `q.up` leads to to the block `q` leads to. */
  lemma AttachBelow(d: Disk, p: Path, b: nat, content: Block, q: Path)
    requires Attachable(d, p, b, content) && ValidPath(d, q) && q.Child?
    requires var e := Attach(d, p, b, content);
             && Formatted(e) && ValidPath(e, q) && SameGeometry(d, e)
             && NodeAt(e, q.up) == if q.up == p then b else NodeAt(d, q.up)
    ensures NodeAt(Attach(d, p, b, content), q) == if q == p then b else NodeAt(d, q)
  {
    var e := Attach(d, p, b, content);
    AttachBlocks(d, p, b, content);
    CellPlace(d, p);
    if q.up == p {
      NullWords();
      assert content == NullBlock();
    } else if NodeAt(d, q.up) != 0 {
      assert Owned(d, q.up);
      CellPlace(d, q);
      if q != p && CellBlock(d, q) == CellBlock(d, p) {
        CellUniqueAt(d, p, q);
      }
    }
  }

  lemma AttachOwned(d: Disk, p: Path, b: nat, content: Block, q: Path)
    requires Attachable(d, p, b, content)
    ensures var e := Attach(d, p, b, content);
            Formatted(e) && (Owned(e, q) <==> q == p || Owned(d, q))
  {
    var e := Attach(d, p, b, content);
    AttachBlocks(d, p, b, content);
    GeometryValid(d, e, q);
    if ValidPath(d, q) {
      AttachNode(d, p, b, content, q);
    }
  }

  /** Attaching a free block keeps the disk sound. */
  lemma AttachSound(d: Disk, p: Path, b: nat, content: Block)
    requires Attachable(d, p, b, content) && Tracked(d)
    ensures Sound(Attach(d, p, b, content))
  {
    var e := Attach(d, p, b, content);
    AttachBlocks(d, p, b, content);
    AttachMarked(d, p, b, content);
    forall q, r | Owned(e, q) && Owned(e, r) && NodeAt(e, q) == NodeAt(e, r)
      ensures q == r
    {
      AttachOwned(d, p, b, content, q);
      AttachOwned(d, p, b, content, r);
      AttachNode(d, p, b, content, q);
      AttachNode(d, p, b, content, r);
    }
    AttachTracked(d, p, b, content);
  }

  lemma AttachMarked(d: Disk, p: Path, b: nat, content: Block)
    requires Attachable(d, p, b, content)
    ensures Marked(Attach(d, p, b, content))
  {
    var e := Attach(d, p, b, content);
    AttachBlocks(d, p, b, content);
    forall q | Owned(e, q)
      ensures IsData(e, NodeAt(e, q)) && InUse(e, NodeAt(e, q))
    {
      AttachOwned(d, p, b, content, q);
      AttachNode(d, p, b, content, q);
    }
  }

  lemma AttachTracked(d: Disk, p: Path, b: nat, content: Block)
    requires Attachable(d, p, b, content) && Tracked(d)
    ensures Tracked(Attach(d, p, b, content))
  {
    var e := Attach(d, p, b, content);
    AttachBlocks(d, p, b, content);
    forall c: nat | IsData(e, c) && InUse(e, c)
      ensures exists q :: Owned(e, q) && NodeAt(e, q) == c
    {
      var q := p;
      if c != b {
        q :| Owned(d, q) && NodeAt(d, q) == c;
      }
      AttachOwned(d, p, b, content, q);
      AttachNode(d, p, b, content, q);
      assert Owned(e, q) && NodeAt(e, q) == c;
    }
  }

  /** Attaching changes no file's size and no block of data already there. */
  lemma AttachFrame(d: Disk, p: Path, b: nat, content: Block)
    requires Attachable(d, p, b, content)
    ensures var e := Attach(d, p, b, content);
            && Formatted(e) && SameGeometry(d, e)
            && (forall ino: nat | ino < InodeCount(d) :: NBlocks(e, ino) == NBlocks(d, ino))
            && (forall q | Owned(d, q) && IsLeaf(q) :: e[NodeAt(d, q)] == d[NodeAt(d, q)])
            && e[b] == content
            && FreeBlocks(e) == FreeBlocks(d) - {b} && b in FreeBlocks(d)
  {
    hide FromBits, Unshared, InUse;
    var e := Attach(d, p, b, content);
    AttachBlocks(d, p, b, content);
    CellPlace(d, p);
    forall ino: nat | ino < InodeCount(d)
      ensures NBlocks(e, ino) == NBlocks(d, ino)
    {
      InodeOnDisk(d, ino);
      if InodeBlock(ino) == CellBlock(d, p) && InodeWord(ino) == CellWord(p) {
        InodePlaceUnique(ino, 0, p.ino, p.slot + 1);
      }
    }
    forall q | Owned(d, q) && IsLeaf(q)
      ensures e[NodeAt(d, q)] == d[NodeAt(d, q)]
    {
      LeafNotCell(d, p, q);
      CellPlace(d, q);
    }
  }

  /** The block that holds a cell is not a block of data, nor a free one. */
  lemma LeafNotCell(d: Disk, p: Path, q: Path)
    requires Marked(d) && Unshared(d) && Vacant(d, p) && Owned(d, q) && IsLeaf(q)
    ensures CellBlock(d, p) != NodeAt(d, q)
  {
    CellPlace(d, p);
  }
}
