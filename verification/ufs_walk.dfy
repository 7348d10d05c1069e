/** The release walk of recurse_helper: which blocks it gives back, and when its countdown, shared
    by the whole walk and charged once per reference, ends it early. */
module UfsWalk {
  import opened BlockStore
  import opened UfsTree
  import opened UfsFile

  /** The blocks a walk has released, as paths in order, and the count that is left. */
  datatype Walk = Walk(freed: seq<Path>, left: int)

  /** Levels of indirection below a path. */
  function Height(p: Path): nat {
    if p.Depth() <= Levels(p.Slot()) then Levels(p.Slot()) - p.Depth() else 0
  }

  lemma {:induction false} ValidHeight(d: Disk, p: Path)
    requires |d| > 0 && ValidPath(d, p)
    ensures p.Depth() <= Levels(p.Slot())
  {
    if p.Child? {
      ValidHeight(d, p.up);
    }
  }

  /** Release the tree under `p`: nothing when the count is 0 on entry, else everything the count
      lasts for, and in any case then the indirect block itself. */
  function ReleaseTree(d: Disk, p: Path, left: int): Walk
    requires Formatted(d) && ValidPath(d, p)
    decreases Height(p), REFS_PER_BLOCK + 1
  {
    ValidHeight(d, p);
    if left == 0 then Walk([], 0)
    else if IsLeaf(p) then Walk([p], left - 1)
    else
      var w := ReleaseRefs(d, p, REFS_PER_BLOCK, left);
      Walk(w.freed + [p], w.left)
  }

  /** The first `j` references of the indirect block at `p`; an empty one costs 1. */
  function ReleaseRefs(d: Disk, p: Path, j: nat, left: int): Walk
    requires Formatted(d) && ValidPath(d, p) && !IsLeaf(p) && j <= REFS_PER_BLOCK
    decreases Height(p), j
  {
    ValidHeight(d, p);
    if j == 0 then Walk([], left)
    else
      var w := ReleaseRefs(d, p, j - 1, left);
      var c := Child(p, j - 1);
      if NodeAt(d, c) == 0 then Walk(w.freed, w.left - 1)
      else
        var v := ReleaseTree(d, c, w.left);
        Walk(w.freed + v.freed, v.left)
  }

  // ---------------------------------------------------------------- what a walk releases

  lemma {:induction false} FreedBelow(d: Disk, p: Path, left: int, q: Path)
    requires Formatted(d) && Owned(d, p)
    ensures q in ReleaseTree(d, p, left).freed ==> q.Through(p) && Owned(d, q)
    decreases Height(p), REFS_PER_BLOCK + 1
  {
    if left != 0 && !IsLeaf(p) {
      FreedBelowRefs(d, p, REFS_PER_BLOCK, left, q);
    }
  }

  lemma {:induction false} FreedBelowRefs(d: Disk, p: Path, j: nat, left: int, q: Path)
    requires Formatted(d) && Owned(d, p) && !IsLeaf(p) && j <= REFS_PER_BLOCK
    ensures q in ReleaseRefs(d, p, j, left).freed ==>
              Owned(d, q) && q != p && exists k: nat :: k < j && q.Through(Child(p, k))
    ensures q in ReleaseRefs(d, p, j, left).freed ==> q.Through(p)
    decreases Height(p), j
  {
    if j > 0 && q in ReleaseRefs(d, p, j, left).freed {
      ValidHeight(d, p);
      var w := ReleaseRefs(d, p, j - 1, left);
      var c := Child(p, j - 1);
      FreedBelowRefs(d, p, j - 1, left, q);
      if q !in w.freed {
        FreedBelow(d, c, w.left, q);
        ThroughTransitive(q, c, p);
        ThroughDeeper(q, c);
      }
    }
  }

  /** Two references of one indirect block lead to disjoint trees. */
  lemma {:induction false} SiblingsApart(q: Path, p: Path, i: nat, j: nat)
    requires q.Through(Child(p, i)) && q.Through(Child(p, j))
    ensures i == j
  {
    if q == Child(p, i) || q == Child(p, j) {
      ThroughDeeper(q, Child(p, i));
      if q != Child(p, i) {
        ThroughDeeper(q.up, Child(p, i));
      }
      if q != Child(p, j) {
        ThroughDeeper(q.up, Child(p, j));
      }
    } else {
      SiblingsApart(q.up, p, i, j);
    }
  }

  ghost predicate NoRepeats(s: seq<Path>) {
    forall i, j | 0 <= i < j < |s| :: s[i] != s[j]
  }

  lemma NoRepeatsJoin(s: seq<Path>, t: seq<Path>)
    requires NoRepeats(s) && NoRepeats(t) && forall q | q in s :: q !in t
    ensures NoRepeats(s + t)
  {
    var u := s + t;
    forall i, j | 0 <= i < j < |u|
      ensures u[i] != u[j]
    {
      if i < |s| <= j {
        assert u[i] in s && u[j] in t;
      }
    }
  }

  /** No block is released twice: the bit of each is inverted once. */
  lemma {:induction false} FreedOnce(d: Disk, p: Path, left: int)
    requires Formatted(d) && Owned(d, p)
    ensures NoRepeats(ReleaseTree(d, p, left).freed)
    decreases Height(p), REFS_PER_BLOCK + 1
  {
    if left != 0 && !IsLeaf(p) {
      FreedOnceRefs(d, p, REFS_PER_BLOCK, left);
      var s := ReleaseRefs(d, p, REFS_PER_BLOCK, left).freed;
      forall q | q in s
        ensures q !in [p]
      {
        FreedBelowRefs(d, p, REFS_PER_BLOCK, left, q);
      }
      NoRepeatsJoin(s, [p]);
    }
  }

  lemma {:induction false} FreedOnceRefs(d: Disk, p: Path, j: nat, left: int)
    requires Formatted(d) && Owned(d, p) && !IsLeaf(p) && j <= REFS_PER_BLOCK
    ensures NoRepeats(ReleaseRefs(d, p, j, left).freed)
    decreases Height(p), j
  {
    if j > 0 {
      ValidHeight(d, p);
      FreedOnceRefs(d, p, j - 1, left);
      var w := ReleaseRefs(d, p, j - 1, left);
      var c := Child(p, j - 1);
      if NodeAt(d, c) != 0 {
        FreedOnce(d, c, w.left);
        var v := ReleaseTree(d, c, w.left);
        forall q | q in w.freed
          ensures q !in v.freed
        {
          FreedBelowRefs(d, p, j - 1, left, q);
          var k: nat :| k < j - 1 && q.Through(Child(p, k));
          FreedBelow(d, c, w.left, q);
          if q in v.freed {
            SiblingsApart(q, p, k, j - 1);
          }
        }
        NoRepeatsJoin(w.freed, v.freed);
      }
    }
  }

  // ---------------------------------------------------------------- what a walk is charged

  /** What a walk that is not cut short takes off the count. */
  function Charges(d: Disk, p: Path): nat
    requires Formatted(d) && ValidPath(d, p)
    decreases Height(p), REFS_PER_BLOCK + 1
  {
    ValidHeight(d, p);
    if IsLeaf(p) then 1 else ChargesTo(d, p, REFS_PER_BLOCK)
  }

  /** Its part for the first `j` references. */
  function ChargesTo(d: Disk, p: Path, j: nat): nat
    requires Formatted(d) && ValidPath(d, p) && !IsLeaf(p) && j <= REFS_PER_BLOCK
    decreases Height(p), j
  {
    ValidHeight(d, p);
    if j == 0 then 0
    else
      var c := Child(p, j - 1);
      ChargesTo(d, p, j - 1) + if NodeAt(d, c) == 0 then 1 else Charges(d, c)
  }

  /** What has been charged, walking the tree under `p`, on arrival at `q`. */
  function Before(d: Disk, q: Path, p: Path): nat
    requires Formatted(d) && ValidPath(d, q) && q.Through(p)
    decreases q
  {
    if q == p then 0 else
      ValidHeight(d, q);
      Before(d, q.up, p) + ChargesTo(d, q.up, q.i)
  }

  lemma {:induction false} BeforeVia(d: Disk, q: Path, c: Path)
    requires Formatted(d) && ValidPath(d, q) && c.Child? && q.Through(c)
    ensures ValidPath(d, c) && !IsLeaf(c.up) && q.Through(c.up)
    ensures Before(d, q, c.up) == ChargesTo(d, c.up, c.i) + Before(d, q, c)
  {
    if q == c {
      ValidHeight(d, q);
      assert Before(d, c.up, c.up) == 0;
      ThroughDeeper(c.up, c.up);
    } else {
      BeforeVia(d, q.up, c);
      if q == c.up {
        ThroughDeeper(q, c);
      }
    }
  }

  /** The data blocks under `p`. */
  predicate LeafUnder(d: Disk, z: Path, p: Path)
    requires Formatted(d)
  {
    Owned(d, z) && IsLeaf(z) && z.Through(p)
  }

  /** Every indirect block in the tree under `p` leads to data. */
  ghost predicate Bears(d: Disk, p: Path)
    requires Formatted(d)
  {
    forall q | Owned(d, q) && q.Through(p) :: exists z :: LeafUnder(d, z, q)
  }

  /** The count lasts for every data block under `p`. */
  ghost predicate Lasts(d: Disk, p: Path, left: int)
    requires Formatted(d)
  {
    forall z | LeafUnder(d, z, p) :: Before(d, z, p) < left
  }

  /** The same for the data blocks under the first `j` references of `p`. */
  ghost predicate LastsTo(d: Disk, p: Path, j: nat, left: int)
    requires Formatted(d) && ValidPath(d, p) && !IsLeaf(p) && j <= REFS_PER_BLOCK
  {
    forall k: nat, z | k < j && LeafUnder(d, z, Child(p, k)) :: ChargesTo(d, p, k) + Before(d, z, Child(p, k)) < left
  }

  lemma BearsChild(d: Disk, p: Path, k: nat)
    requires Formatted(d) && Bears(d, p)
    ensures Bears(d, Child(p, k))
  {
    ThroughDeeper(p, p);
    forall q | Owned(d, q) && q.Through(Child(p, k))
      ensures exists z :: LeafUnder(d, z, q)
    {
      ThroughTransitive(q, Child(p, k), p);
    }
  }

  lemma LastsAsRefs(d: Disk, p: Path, left: int)
    requires Formatted(d) && Owned(d, p) && !IsLeaf(p)
    ensures Lasts(d, p, left) ==> LastsTo(d, p, REFS_PER_BLOCK, left)
  {
    if Lasts(d, p, left) {
      forall k: nat, z | k < REFS_PER_BLOCK && LeafUnder(d, z, Child(p, k))
        ensures ChargesTo(d, p, k) + Before(d, z, Child(p, k)) < left
      {
        BeforeVia(d, z, Child(p, k));
        assert LeafUnder(d, z, p);
      }
    }
  }

  /** A walk whose count lasts releases the whole tree and is charged exactly its charges. */
  lemma {:induction false} UncutTree(d: Disk, p: Path, left: int)
    requires Formatted(d) && Owned(d, p) && Bears(d, p) && Lasts(d, p, left)
    ensures ReleaseTree(d, p, left).left == left - Charges(d, p)
    ensures Covered(d, p, ReleaseTree(d, p, left).freed)
    decreases Height(p), REFS_PER_BLOCK + 1
  {
    var z :| LeafUnder(d, z, p);
    assert Before(d, z, p) < left;
    if IsLeaf(p) {
      forall q | Owned(d, q) && q.Through(p)
        ensures q == p
      {
        LeafIsLast(d, q, p);
      }
    } else {
      LastsAsRefs(d, p, left);
      UncutRefs(d, p, REFS_PER_BLOCK, left);
      forall q | Owned(d, q) && q.Through(p)
        ensures q in ReleaseTree(d, p, left).freed
      {
        if q != p {
          var k := ChildTowards(d, q, p);
          assert Covered(d, Child(p, k), ReleaseRefs(d, p, REFS_PER_BLOCK, left).freed);
        }
      }
    }
  }

  /** All of the tree under `p` is among `freed`. */
  ghost predicate Covered(d: Disk, p: Path, freed: seq<Path>)
    requires Formatted(d)
  {
    forall q | Owned(d, q) && q.Through(p) :: q in freed
  }

  ghost predicate CoveredTo(d: Disk, p: Path, j: nat, freed: seq<Path>)
    requires Formatted(d)
  {
    forall k: nat | k < j :: Covered(d, Child(p, k), freed)
  }

  lemma CoveredNone(d: Disk, p: Path, freed: seq<Path>)
    requires Formatted(d)
    ensures CoveredTo(d, p, 0, freed)
  {
  }

  lemma CoveredNext(d: Disk, p: Path, j: nat, freed: seq<Path>, more: seq<Path>)
    requires Formatted(d) && CoveredTo(d, p, j, freed)
    requires Covered(d, Child(p, j), freed) || Covered(d, Child(p, j), more)
    ensures CoveredTo(d, p, j + 1, freed + more)
  {
    forall k: nat | k < j + 1
      ensures Covered(d, Child(p, k), freed + more)
    {
      assert k < j ==> Covered(d, Child(p, k), freed);
    }
  }

  lemma LastsLess(d: Disk, p: Path, j: nat, left: int)
    requires Formatted(d) && ValidPath(d, p) && !IsLeaf(p) && 0 < j <= REFS_PER_BLOCK && LastsTo(d, p, j, left)
    ensures LastsTo(d, p, j - 1, left)
  {
  }

  lemma {:induction false} UncutRefs(d: Disk, p: Path, j: nat, left: int)
    requires Formatted(d) && Owned(d, p) && !IsLeaf(p) && j <= REFS_PER_BLOCK
    requires Bears(d, p) && LastsTo(d, p, j, left)
    ensures ReleaseRefs(d, p, j, left).left == left - ChargesTo(d, p, j)
    ensures CoveredTo(d, p, j, ReleaseRefs(d, p, j, left).freed)
    decreases Height(p), j
  {
    hide Bears, Lasts, LastsTo, Covered, CoveredTo;
    if j == 0 {
      CoveredNone(d, p, []);
    } else {
      ValidHeight(d, p);
      LastsLess(d, p, j, left);
      UncutRefs(d, p, j - 1, left);
      var w := ReleaseRefs(d, p, j - 1, left);
      var c := Child(p, j - 1);
      if NodeAt(d, c) != 0 {
        BearsChild(d, p, j - 1);
        LastsChild(d, p, j, left);
        UncutTree(d, c, w.left);
        CoveredNext(d, p, j - 1, w.freed, ReleaseTree(d, c, w.left).freed);
      } else {
        NothingCovered(d, c, w.freed);
        CoveredNext(d, p, j - 1, w.freed, []);
        assert w.freed + [] == w.freed;
      }
    }
  }

  lemma LastsChild(d: Disk, p: Path, j: nat, left: int)
    requires Formatted(d) && ValidPath(d, p) && !IsLeaf(p) && 0 < j <= REFS_PER_BLOCK && LastsTo(d, p, j, left)
    ensures Lasts(d, Child(p, j - 1), left - ChargesTo(d, p, j - 1))
  {
  }

  lemma NothingCovered(d: Disk, c: Path, freed: seq<Path>)
    requires Formatted(d) && !Owned(d, c)
    ensures Covered(d, c, freed)
  {
    if !Covered(d, c, freed) {
      var q :| Owned(d, q) && q.Through(c) && q !in freed;
      NothingBelow(d, q, c);
    }
  }

  /** The reference of `p` that a longer path goes through. */
  lemma {:induction false} ChildTowards(d: Disk, q: Path, p: Path) returns (k: nat)
    requires Formatted(d) && Owned(d, q) && q.Through(p) && q != p
    ensures k < REFS_PER_BLOCK && q.Through(Child(p, k)) && Owned(d, Child(p, k)) && !IsLeaf(p)
  {
    if q.up == p {
      k := q.i;
      ValidHeight(d, q);
    } else {
      k := ChildTowards(d, q.up, p);
    }
  }

  lemma {:induction false} NothingBelow(d: Disk, q: Path, p: Path)
    requires Formatted(d) && Owned(d, q) && q.Through(p)
    ensures Owned(d, p)
  {
    if q != p {
      NothingBelow(d, q.up, p);
    }
  }

  /** The count runs out on arrival at `z`, and no other data block under `p` comes later. */
  ghost predicate RunsOutAt(d: Disk, p: Path, left: int, z: Path)
    requires Formatted(d)
  {
    && Owned(d, p) && LeafUnder(d, z, p) && Before(d, z, p) == left
    && forall y | LeafUnder(d, y, p) && y != z :: Before(d, y, p) < left
  }

  /** Then that block is not released. */
  lemma {:induction false} CutTree(d: Disk, p: Path, left: int, z: Path)
    requires Formatted(d) && Bears(d, p) && RunsOutAt(d, p, left, z)
    ensures z !in ReleaseTree(d, p, left).freed
    decreases Height(p), REFS_PER_BLOCK + 1
  {
    if left != 0 && !IsLeaf(p) {
      CutRefs(d, p, REFS_PER_BLOCK, left, z);
    }
  }

  lemma {:induction false} CutRefs(d: Disk, p: Path, j: nat, left: int, z: Path)
    requires Formatted(d) && Bears(d, p) && RunsOutAt(d, p, left, z) && !IsLeaf(p) && j <= REFS_PER_BLOCK
    ensures z !in ReleaseRefs(d, p, j, left).freed
    decreases Height(p), j
  {
    hide Bears, LastsTo, CoveredTo, RunsOutAt, Before, ChargesTo;
    if j > 0 {
      RunsOutFacts(d, p, left, z);
      ValidHeight(d, p);
      CutRefs(d, p, j - 1, left, z);
      var c := Child(p, j - 1);
      var w := ReleaseRefs(d, p, j - 1, left);
      if NodeAt(d, c) != 0 {
        if z.Through(c) {
          BearsChild(d, p, j - 1);
          CutChild(d, p, j - 1, left, z);
          UncutRefs(d, p, j - 1, left);
          CutTree(d, c, w.left, z);
        } else {
          FreedBelow(d, c, w.left, z);
        }
      }
    }
  }

  lemma RunsOutFacts(d: Disk, p: Path, left: int, z: Path)
    requires Formatted(d) && RunsOutAt(d, p, left, z)
    ensures Owned(d, p) && Owned(d, z)
  {
  }

  lemma CutChild(d: Disk, p: Path, k: nat, left: int, z: Path)
    requires Formatted(d) && RunsOutAt(d, p, left, z) && !IsLeaf(p) && k < REFS_PER_BLOCK
    requires Owned(d, Child(p, k)) && z.Through(Child(p, k))
    ensures RunsOutAt(d, Child(p, k), left - ChargesTo(d, p, k), z)
    ensures LastsTo(d, p, k, left)
  {
    BeforeVia(d, z, Child(p, k));
    forall y | LeafUnder(d, y, Child(p, k)) && y != z
      ensures Before(d, y, Child(p, k)) < left - ChargesTo(d, p, k)
    {
      BeforeVia(d, y, Child(p, k));
      assert LeafUnder(d, y, p);
    }
    forall i: nat, y | i < k && LeafUnder(d, y, Child(p, i))
      ensures ChargesTo(d, p, i) + Before(d, y, Child(p, i)) < left
    {
      BeforeVia(d, y, Child(p, i));
      if y == z {
        SiblingsApart(z, p, i, k);
      }
      assert LeafUnder(d, y, p);
    }
  }
}
