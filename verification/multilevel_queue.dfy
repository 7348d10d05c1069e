/** Four queues of runnable threads, searched in a circle. */
module MultilevelQueue {

  type Thread = nat

  const LEVELS: nat := 4

  /** The level `j` places further round from `from`. */
  function Ahead(from: nat, j: nat): (l: nat)
    requires from < LEVELS && j <= LEVELS
    ensures l < LEVELS && l == (from + j) % LEVELS
  {
    if from + j < LEVELS then from + j else from + j - LEVELS
  }

  predicate Shaped(queues: seq<seq<Thread>>) {
    |queues| == LEVELS
  }

  /** How far round from `from`, counting from `j` on, the next level with a thread is; LEVELS if none. */
  function Search(queues: seq<seq<Thread>>, from: nat, j: nat): (r: nat)
    requires Shaped(queues) && from < LEVELS && j <= LEVELS
    ensures j <= r <= LEVELS
    ensures r < LEVELS ==> queues[Ahead(from, r)] != []
    ensures forall i | j <= i < r :: queues[Ahead(from, i)] == []
    decreases LEVELS - j
  {
    if j == LEVELS || queues[Ahead(from, j)] != [] then j else Search(queues, from, j + 1)
  }

  /** No thread is overlooked: nothing is found only if every level is empty. */
  lemma SearchFinds(queues: seq<seq<Thread>>, from: nat, l: nat)
    requires Shaped(queues) && from < LEVELS && l < LEVELS && queues[l] != []
    ensures Search(queues, from, 0) < LEVELS
    ensures Search(queues, from, 0) <= if l >= from then l - from else l + LEVELS - from
  {
    var i := if l >= from then l - from else l + LEVELS - from;
    assert Ahead(from, i) == l;
  }

  function Enqueued(queues: seq<seq<Thread>>, level: nat, t: Thread): seq<seq<Thread>>
    requires Shaped(queues) && level < LEVELS
  {
    queues[level := queues[level] + [t]]
  }

  function Dequeued(queues: seq<seq<Thread>>, level: nat): seq<seq<Thread>>
    requires Shaped(queues) && level < LEVELS && queues[level] != []
  {
    queues[level := queues[level][1..]]
  }

  /** All queued threads, with repetitions. */
  function AllQueued(queues: seq<seq<Thread>>): multiset<Thread>
    requires Shaped(queues)
  {
    multiset(queues[0]) + multiset(queues[1]) + multiset(queues[2]) + multiset(queues[3])
  }

  lemma EnqueueAdds(queues: seq<seq<Thread>>, level: nat, t: Thread)
    requires Shaped(queues) && level < LEVELS
    ensures AllQueued(Enqueued(queues, level, t)) == AllQueued(queues) + multiset{t}
  {
  }

  lemma DequeueTakes(queues: seq<seq<Thread>>, level: nat)
    requires Shaped(queues) && level < LEVELS && queues[level] != []
    ensures AllQueued(queues) == AllQueued(Dequeued(queues, level)) + multiset{queues[level][0]}
  {
    assert queues[level] == [queues[level][0]] + queues[level][1..];
  }

  lemma QueuedIsIn(queues: seq<seq<Thread>>, level: nat, t: Thread)
    requires Shaped(queues) && level < LEVELS && t in queues[level]
    ensures t in AllQueued(queues)
  {
    assert t in multiset(queues[level]);
  }

  datatype Found = Found(t: Thread) | Empty

  class LevelQueues {
    var queues: seq<seq<Thread>>

    ghost predicate Valid()
      reads this
    {
      Shaped(queues)
    }

    constructor ()
      ensures Valid() && queues == [[], [], [], []]
    {
      queues := [[], [], [], []];
    }

    method Enqueue(level: nat, t: Thread)
      requires Valid() && level < LEVELS
      modifies this
      ensures Valid() && queues == Enqueued(old(queues), level, t)
    {
      queues := queues[level := queues[level] + [t]];
    }

    /** Take the first thread of the first level that has one, going round from `level`. */
    method Dequeue(level: nat) returns (item: Found)
      requires Valid() && level < LEVELS
      modifies this
      ensures Valid()
      ensures var j := Search(old(queues), level, 0);
              if j == LEVELS then item == Empty && queues == old(queues)
              else item == Found(old(queues)[Ahead(level, j)][0]) && queues == Dequeued(old(queues), Ahead(level, j))
    {
      for i := 0 to LEVELS
        invariant queues == old(queues) && Search(queues, level, 0) == Search(queues, level, i)
      {
        var l := (level + i) % LEVELS;
        assert l == Ahead(level, i);
        if queues[l] != [] {
          item := Found(queues[l][0]);
          queues := queues[l := queues[l][1..]];
          return;
        }
      }
      item := Empty;
    }

    method IsEmpty() returns (empty: bool)
      requires Valid()
      ensures empty <==> forall l | 0 <= l < LEVELS :: queues[l] == []
    {
      for i := 0 to LEVELS
        invariant forall l | 0 <= l < i :: queues[l] == []
      {
        if |queues[i]| > 0 {
          return false;
        }
      }
      empty := true;
    }
  }
}
