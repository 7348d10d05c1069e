/** A file system over a whole run: a new disk and any writes to any files of it behave like plain arrays. */
module UfsRuns {
  import opened BlockStore
  import opened UfsTree
  import opened UfsFile
  import opened UfsWrite
  import opened UfsCreate

  datatype Op = Op(ino: nat, offset: nat, block: Block)

  /** Disk `after` is what Write promises to make of `before`. */
  ghost predicate Step(before: Disk, op: Op, after: Disk) {
    && Formatted(before) && op.ino < InodeCount(before) && op.offset < Capacity()
    && Written(before, after, PathOf(op.ino, op.offset), op.block)
    && Resized(before, after, op.ino, op.offset)
  }

  /** The first disk has just been created, on a store whose remaining blocks were zero; each further one
      comes from a write. */
  ghost predicate IsRun(raw: Disk, inodes: nat, magic: nat, disks: seq<Disk>, ops: seq<Op>) {
    && |disks| == |ops| + 1
    && Created(raw, disks[0], inodes, magic) && RestWasZero(raw, inodes)
    && forall k | 0 <= k < |ops| :: Step(disks[k], ops[k], disks[k + 1])
  }

  /** What file `ino` holds at an offset after the first `k` writes: the block last written there. */
  function Contents(ops: seq<Op>, k: nat, ino: nat, offset: nat): Block
    requires k <= |ops|
  {
    if k == 0 then NullBlock()
    else if ops[k - 1].ino == ino && ops[k - 1].offset == offset then ops[k - 1].block
    else Contents(ops, k - 1, ino, offset)
  }

  /** The size of file `ino` after the first `k` writes: one more than the greatest offset written. */
  function Size(ops: seq<Op>, k: nat, ino: nat): nat
    requires k <= |ops|
  {
    if k == 0 then 0
    else if ops[k - 1].ino == ino && ops[k - 1].offset + 1 > Size(ops, k - 1, ino) then ops[k - 1].offset + 1
    else Size(ops, k - 1, ino)
  }

  lemma FreshFile(d: Disk, f: Disk, inodes: nat, magic: nat, ino: nat, offset: nat)
    requires Created(d, f, inodes, magic) && RestWasZero(d, inodes) && ino < inodes && offset < Capacity()
    ensures Consistent(f) && ino < InodeCount(f) && NBlocks(f, ino) == 0 && FileBlock(f, ino, offset) == NullBlock()
  {
    CreatedConsistent(d, f, inodes, magic);
    CreatedFormatted(d, f, inodes, magic);
    CreatedSizes(d, f, inodes, magic, ino);
    PathValid(f, ino, offset);
    CreatedEmpty(d, f, inodes, magic, PathOf(ino, offset));
  }

  lemma StepFile(d: Disk, op: Op, f: Disk, ino: nat, offset: nat)
    requires Consistent(d) && Step(d, op, f) && ino < InodeCount(d) && offset < Capacity()
    ensures Consistent(f) && InodeCount(f) == InodeCount(d)
    ensures FileBlock(f, ino, offset)
            == if op.ino == ino && op.offset == offset then op.block else FileBlock(d, ino, offset)
    ensures NBlocks(f, ino)
            == if op.ino == ino && op.offset + 1 > NBlocks(d, ino) then op.offset + 1 else NBlocks(d, ino)
  {
    WrittenConsistent(d, f, op.ino, op.offset, op.block);
    WrittenFiles(d, f, op.ino, op.offset, op.block);
    hide Sound, Fruitful, Ended, Written, FileBlock;
  }

  /** After any writes at all the disk is consistent, and every file of it reads at every offset as the
      block last written to it there, or as zeros, and is as long as its last such offset requires. */
  lemma {:induction false} PlainFiles(raw: Disk, inodes: nat, magic: nat, disks: seq<Disk>, ops: seq<Op>,
                                      k: nat, ino: nat, offset: nat)
    requires IsRun(raw, inodes, magic, disks, ops) && k < |disks| && ino < inodes && offset < Capacity()
    ensures Consistent(disks[k]) && ino < InodeCount(disks[k])
    ensures FileBlock(disks[k], ino, offset) == Contents(ops, k, ino, offset)
    ensures NBlocks(disks[k], ino) == Size(ops, k, ino)
  {
    hide Step, Created, RestWasZero, Consistent, FileBlock, NBlocks, InodeCount;
    if k == 0 {
      FreshFile(raw, disks[0], inodes, magic, ino, offset);
    } else {
      PlainFiles(raw, inodes, magic, disks, ops, k - 1, ino, offset);
      StepFile(disks[k - 1], ops[k - 1], disks[k], ino, offset);
    }
  }
}
