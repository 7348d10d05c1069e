/** The queues of queue.c: singly linked nodes with a front, a rear and a count. */
module LinkedQueue {

  datatype Entry<T> = Entry(data: T, priority: int)

  class Node<T> {
    const data: T
    const priority: int
    var next: Node?<T>

    constructor (data: T, priority: int)
      ensures this.data == data && this.priority == priority && next == null
    {
      this.data, this.priority, next := data, priority, null;
    }
  }

  // ---------------------------------------------------------------- what the operations mean

  predicate Ascending<T>(s: seq<Entry<T>>) {
    forall i, j | 0 <= i < j < |s| :: s[i].priority <= s[j].priority
  }

  /** Where an entry of priority `p` goes, from position `k` on: before the first one of higher priority value. */
  function Place<T>(s: seq<Entry<T>>, p: int, k: nat): (r: nat)
    requires k <= |s|
    ensures k <= r <= |s|
    ensures forall i | k <= i < r :: s[i].priority <= p
    ensures r < |s| ==> p < s[r].priority
    decreases |s| - k
  {
    if k == |s| || p < s[k].priority then k else Place(s, p, k + 1)
  }

  function Inserted<T>(s: seq<Entry<T>>, e: Entry<T>): seq<Entry<T>> {
    var k := Place(s, e.priority, 0);
    s[..k] + [e] + s[k..]
  }

  /** The new entry stands at `k`, with those that do not come after it before and the others behind. */
  ghost predicate StandsAt<T>(s: seq<Entry<T>>, e: Entry<T>, t: seq<Entry<T>>, k: nat) {
    && k <= |s| && |t| == |s| + 1 && t[..k] == s[..k] && t[k] == e && t[k + 1..] == s[k..]
    && (forall i | 0 <= i < k :: s[i].priority <= e.priority)
    && (forall i | k <= i < |s| :: e.priority < s[i].priority)
  }

  lemma InsertStands<T>(s: seq<Entry<T>>, e: Entry<T>)
    requires Ascending(s)
    ensures StandsAt(s, e, Inserted(s, e), Place(s, e.priority, 0))
  {
    var k := Place(s, e.priority, 0);
    var t := Inserted(s, e);
    assert t[..k] == s[..k] && t[k + 1..] == s[k..];
  }

  lemma StandsOrdered<T>(s: seq<Entry<T>>, e: Entry<T>, t: seq<Entry<T>>, k: nat, i: nat, j: nat)
    requires Ascending(s) && StandsAt(s, e, t, k) && i < j < |t|
    ensures t[i].priority <= t[j].priority
  {
    if i < k {
      assert t[i] == t[..k][i] == s[i];
    } else if i > k {
      assert t[i] == t[k + 1..][i - k - 1] == s[k..][i - k - 1] == s[i - 1];
    }
    if j < k {
      assert t[j] == t[..k][j] == s[j];
    } else if j > k {
      assert t[j] == t[k + 1..][j - k - 1] == s[k..][j - k - 1] == s[j - 1];
    }
  }

  /** Insertion keeps the order and is stable: the new entry comes after all those with the same priority. */
  lemma InsertKeepsOrder<T>(s: seq<Entry<T>>, e: Entry<T>)
    requires Ascending(s)
    ensures Ascending(Inserted(s, e)) && exists k: nat :: StandsAt(s, e, Inserted(s, e), k)
  {
    InsertStands(s, e);
    hide StandsAt, Place;
    forall i, j | 0 <= i < j < |Inserted(s, e)|
      ensures Inserted(s, e)[i].priority <= Inserted(s, e)[j].priority
    {
      StandsOrdered(s, e, Inserted(s, e), Place(s, e.priority, 0), i, j);
    }
  }

  /** The first entry with this item, from position `k` on; |s| if there is none. */
  function Position<T(==)>(s: seq<Entry<T>>, item: T, k: nat): (r: nat)
    requires k <= |s|
    ensures k <= r <= |s|
    ensures forall i | k <= i < r :: s[i].data != item
    ensures r < |s| ==> s[r].data == item
    decreases |s| - k
  {
    if k == |s| || s[k].data == item then k else Position(s, item, k + 1)
  }

  // ---------------------------------------------------------------- the linked list

  /** `spine` lists the nodes from `front` to the last one. */
  ghost predicate Spine<T>(front: Node?<T>, spine: seq<Node<T>>)
    reads set n | n in spine
  {
    && front == (if spine == [] then null else spine[0])
    && forall i | 0 <= i < |spine| :: Linked(spine, i)
  }

  ghost predicate Linked<T>(spine: seq<Node<T>>, i: nat)
    requires i < |spine|
    reads spine[i]
  {
    spine[i].next == if i + 1 < |spine| then spine[i + 1] else null
  }

  /** A front has only one list of nodes behind it. */
  lemma {:induction false} SpineUnique<T>(front: Node?<T>, s: seq<Node<T>>, t: seq<Node<T>>)
    requires Spine(front, s) && Spine(front, t)
    ensures s == t
  {
    if s != [] && t != [] {
      TailSpine(front, s);
      TailSpine(front, t);
      SpineUnique(s[0].next, s[1..], t[1..]);
      assert s == [s[0]] + s[1..] && t == [t[0]] + t[1..];
    }
  }

  lemma TailSpine<T>(front: Node?<T>, s: seq<Node<T>>)
    requires Spine(front, s) && s != []
    ensures Spine(s[0].next, s[1..])
  {
    assert Linked(s, 0);
    forall i | 0 <= i < |s| - 1
      ensures Linked(s[1..], i)
    {
      assert Linked(s, i + 1);
    }
  }

  /** No node comes twice. */
  lemma {:induction false} SpineDistinct<T>(front: Node?<T>, s: seq<Node<T>>, i: nat, j: nat)
    requires Spine(front, s) && i < j < |s|
    ensures s[i] != s[j]
    decreases |s| - j
  {
    assert Linked(s, i) && Linked(s, j);
    if j + 1 < |s| {
      SpineDistinct(front, s, i + 1, j + 1);
    }
  }

  class Queue<T(==)> {
    var front: Node?<T>
    var rear: Node?<T>
    var count: int
    ghost var spine: seq<Node<T>>

    ghost predicate Valid()
      reads this, set n | n in spine
    {
      Spine(front, spine) && count == |spine| && rear == if spine == [] then null else spine[|spine| - 1]
    }

    ghost function Contents(): seq<Entry<T>>
      reads this
    {
      seq(|spine|, i requires 0 <= i < |spine| reads this => Entry(spine[i].data, spine[i].priority))
    }

    constructor ()
      ensures Valid() && Contents() == [] && spine == []
    {
      front, rear, count, spine := null, null, 0, [];
    }

    method Prepend(item: T)
      requires Valid()
      modifies this
      ensures Valid() && Contents() == [Entry(item, 0)] + old(Contents())
      ensures exists n :: fresh(n) && spine == [n] + old(spine)
    {
      var n := new Node(item, 0);
      if front == null {
        front, rear := n, n;
      } else {
        n.next := front;
        front := n;
      }
      count := count + 1;
      spine := [n] + spine;
      forall i | 0 <= i < |spine|
        ensures Linked(spine, i)
      {
        if i > 0 {
          assert Linked(old(spine), i - 1);
        }
      }
    }

    method Append(item: T)
      requires Valid()
      modifies this, rear
      ensures Valid() && Contents() == old(Contents()) + [Entry(item, 0)]
      ensures exists n :: fresh(n) && spine == old(spine) + [n]
    {
      forall i | 0 <= i < |spine| - 1
        ensures spine[i] != rear
      {
        SpineDistinct(front, spine, i, |spine| - 1);
      }
      var n := new Node(item, 0);
      if front == null {
        front, rear := n, n;
      } else {
        rear.next := n;
        rear := n;
      }
      count := count + 1;
      spine := spine + [n];
      forall i | 0 <= i < |spine|
        ensures Linked(spine, i)
      {
        if i < |old(spine)| {
          assert old(Linked(spine, i));
        }
      }
    }

    method Dequeue() returns (item: seq<T>)
      requires Valid()
      modifies this
      ensures Valid()
      ensures if old(Contents()) == [] then item == [] && Contents() == []
              else item == [old(Contents())[0].data] && Contents() == old(Contents())[1..]
      ensures spine == if old(spine) == [] then [] else old(spine)[1..]
    {
      if front == null {
        return [];
      }
      var first := front;
      TailSpine(front, spine);
      front := first.next;
      item := [first.data];
      spine := spine[1..];
      if front == null {
        rear := null;
      }
      count := count - 1;
    }

    method Front() returns (item: seq<T>)
      requires Valid()
      ensures item == if Contents() == [] then [] else [Contents()[0].data]
    {
      if count == 0 {
        return [];
      }
      item := [front.data];
    }

    /** Put an entry before the first one with a higher priority value. */
    method InsertSorted(item: T, p: int)
      requires Valid()
      modifies this, set n | n in spine
      ensures Valid() && Contents() == Inserted(old(Contents()), Entry(item, p))
      ensures forall n | n in spine :: fresh(n) || n in old(spine)
    {
      var n := new Node(item, p);
      if count == 0 {
        front, rear, count := n, n, 1;
        spine := [n];
        assert Linked(spine, 0);
        return;
      }
      var curr := front;
      var prev: Node?<T> := null;
      ghost var k := 0;
      while curr != null
        invariant k <= |spine| && curr == (if k < |spine| then spine[k] else null)
        invariant prev == if k == 0 then null else spine[k - 1]
        invariant unchanged(this) && (forall m | m in spine :: unchanged(m))
        invariant n.next == null && n !in spine
        invariant Place(Contents(), p, 0) == Place(Contents(), p, k)
        decreases |spine| - k
      {
        if p < curr.priority {
          SpliceIn(n, k, prev);
          return;
        }
        assert Linked(spine, k);
        prev := curr;
        curr := curr.next;
        k := k + 1;
      }
      SpliceIn(n, k, prev);
    }

    /** Link a new node in after `prev`, at position `k`. */
    method SpliceIn(n: Node<T>, ghost k: nat, prev: Node?<T>)
      requires Valid() && spine != [] && k <= |spine| && n !in spine && n.next == null
      requires prev == if k == 0 then null else spine[k - 1]
      modifies this, n, set m | m in spine
      ensures Valid() && spine == old(spine)[..k] + [n] + old(spine)[k..]
      ensures Contents() == old(Contents())[..k] + [Entry(n.data, n.priority)] + old(Contents())[k..]
    {
      ghost var was := spine;
      forall i, j | 0 <= i < j < |spine|
        ensures spine[i] != spine[j]
      {
        SpineDistinct(front, spine, i, j);
      }
      assert forall i | 0 <= i < |was| :: Linked(was, i);
      spine := was[..k] + [n] + was[k..];
      if prev == null {
        n.next := front;
        front := n;
      } else {
        assert Linked(was, k - 1);
        n.next := prev.next;
        prev.next := n;
        if n.next == null {
          rear := n;
        }
      }
      count := count + 1;
      forall i | 0 <= i < |spine|
        ensures Linked(spine, i)
      {
        assert i < k ==> spine[i] == was[i] && old(Linked(was, i));
        assert i > k ==> spine[i] == was[i - 1] && old(Linked(was, i - 1));
      }
    }

    /** Unlink the first node with this item.  The node before it keeps its link: the queue stays in order
        only if the item is the first one or is not there at all. */
    method Delete(item: T) returns (ok: bool)
      requires Valid()
      modifies this
      ensures var k := Position(old(Contents()), item, 0);
              && ok == (k < |old(spine)|)
              && (!ok ==> spine == old(spine) && front == old(front) && count == old(count))
              && (ok && k == 0 ==> spine == old(spine)[1..])
              && (ok && k > 0 ==> Spine(front, old(spine)) && spine == old(spine) && count == |spine| - 1)
              && (Valid() <==> !ok || k == 0)
    {
      var curr := front;
      var prev: Node?<T> := null;
      ghost var k := 0;
      while curr != null
        invariant k <= |spine| && curr == (if k < |spine| then spine[k] else null)
        invariant prev == if k == 0 then null else spine[k - 1]
        invariant unchanged(this)
        invariant Position(Contents(), item, 0) == Position(Contents(), item, k)
        decreases |spine| - k
      {
        if curr.data == item {
          if k == 0 {
            if |spine| > 1 {
              SpineDistinct(front, spine, 0, |spine| - 1);
            }
            assert Linked(spine, 0);
            TailSpine(front, spine);
            spine := spine[1..];
          } else {
            SpineDistinct(front, spine, 0, k);
          }
          if curr == front {
            front := curr.next;
          }
          if curr == rear {
            rear := prev;
          }
          count := count - 1;
          return true;
        }
        assert Linked(spine, k);
        prev := curr;
        curr := curr.next;
        k := k + 1;
      }
      ok := false;
    }
  }

  /** After deleting further back no list of nodes fits the front and the count. */
  lemma NothingFits<T>(q: Queue<T>, t: seq<Node<T>>)
    requires Spine(q.front, q.spine) && q.count == |q.spine| - 1 && Spine(q.front, t)
    ensures q.count != |t|
  {
    SpineUnique(q.front, q.spine, t);
  }
}
