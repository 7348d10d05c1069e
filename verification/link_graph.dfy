/** Graphs as flattened matrices of 0s and 1s, walks in them, and what routing tables must say. */
module LinkGraph {
  import opened Division

  const INFINITY: int := 0x7fff_ffff
  const UNDEFINED: int := -1

  /** INDEX(x, y, nnodes) */
  function Index(x: nat, y: nat, n: nat): nat {
    x + Times(y, n)
  }

  lemma IndexInRange(x: nat, y: nat, n: nat)
    requires x < n && y < n
    ensures Index(x, y, n) < Times(n, n)
  {
    TimesMonotone(y + 1, n, n);
  }

  /** Different pairs of nodes have different entries. */
  lemma IndexUnique(x: nat, y: nat, x': nat, y': nat, n: nat)
    requires x < n && x' < n && Index(x, y, n) == Index(x', y', n)
    ensures x == x' && y == y'
  {
    QuotOfTimes(y, x, n);
    QuotOfTimes(y', x', n);
  }

  predicate Matrix(g: seq<int>, n: nat) {
    |g| == Times(n, n)
  }

  /** There is a link from x to y. */
  predicate Edge(g: seq<int>, n: nat, x: nat, y: nat)
    requires Matrix(g, n)
  {
    x < n && y < n && (IndexInRange(x, y, n); g[Index(x, y, n)] == 1)
  }

  /** A walk along links, as the nodes it visits. */
  predicate IsWalk(g: seq<int>, n: nat, w: seq<nat>)
    requires Matrix(g, n)
  {
    |w| > 0 && w[0] < n && forall i | 0 <= i < |w| - 1 :: Edge(g, n, w[i], w[i + 1])
  }

  predicate WalkFromTo(g: seq<int>, n: nat, w: seq<nat>, x: nat, y: nat)
    requires Matrix(g, n)
  {
    IsWalk(g, n, w) && w[0] == x && w[|w| - 1] == y
  }

  /** `k` is the least number of links from x to y. */
  ghost predicate IsDistance(g: seq<int>, n: nat, x: nat, y: nat, k: nat)
    requires Matrix(g, n)
  {
    && (exists w :: WalkFromTo(g, n, w, x, y) && |w| == k + 1)
    && (forall w :: WalkFromTo(g, n, w, x, y) ==> |w| >= k + 1)
  }

  ghost predicate Reachable(g: seq<int>, n: nat, x: nat, y: nat)
    requires Matrix(g, n)
  {
    exists w :: WalkFromTo(g, n, w, x, y)
  }

  // ---------------------------------------------------------------- routing tables

  /** The entries of one node fit: a distance below the number of nodes with a previous hop one
      nearer to the source, or no distance and no previous hop. */
  predicate EntryFits(g: seq<int>, n: nat, src: nat, dist: seq<int>, prev: seq<int>, v: nat)
    requires Matrix(g, n) && |dist| == |prev| == n && v < n
  {
    if dist[v] == INFINITY then v != src && prev[v] == UNDEFINED
    else if v == src then dist[v] == 0 && prev[v] == UNDEFINED
    else 0 <= prev[v] < n && Edge(g, n, prev[v], v) && 0 < dist[v] < n && dist[v] == dist[prev[v]] + 1
  }

  /** A link never leads to a node more than one further away. */
  ghost predicate Relaxed(g: seq<int>, n: nat, dist: seq<int>)
    requires Matrix(g, n) && |dist| == n
  {
    forall u: nat, v: nat | Edge(g, n, u, v) && dist[u] < INFINITY :: dist[v] <= dist[u] + 1
  }

  /** Tables of distances and previous hops that fit together link by link. */
  ghost predicate Tables(g: seq<int>, n: nat, src: nat, dist: seq<int>, prev: seq<int>) {
    && Matrix(g, n) && |dist| == |prev| == n && src < n < INFINITY
    && (forall v: nat | v < n :: EntryFits(g, n, src, dist, prev, v))
    && Relaxed(g, n, dist)
  }

  lemma WalkPrefix(g: seq<int>, n: nat, w: seq<nat>)
    requires Matrix(g, n) && IsWalk(g, n, w) && |w| > 1
    ensures IsWalk(g, n, w[..|w| - 1]) && Edge(g, n, w[|w| - 2], w[|w| - 1])
  {
    assert Edge(g, n, w[|w| - 2], w[|w| - 2 + 1]);
    var v := w[..|w| - 1];
    forall i | 0 <= i < |v| - 1
      ensures Edge(g, n, v[i], v[i + 1])
    {
      assert Edge(g, n, w[i], w[i + 1]);
    }
  }

  /** No walk is shorter than the table says. */
  lemma {:induction false} TableBelowWalk(g: seq<int>, n: nat, src: nat, dist: seq<int>, prev: seq<int>, w: seq<nat>)
    requires Tables(g, n, src, dist, prev) && IsWalk(g, n, w) && w[0] == src
    ensures w[|w| - 1] < n && dist[w[|w| - 1]] <= |w| - 1 && dist[w[|w| - 1]] < INFINITY
  {
    assert EntryFits(g, n, src, dist, prev, w[|w| - 1]) by {
      if |w| > 1 {
        WalkPrefix(g, n, w);
      }
    }
    if |w| > 1 {
      WalkPrefix(g, n, w);
      TableBelowWalk(g, n, src, dist, prev, w[..|w| - 1]);
      assert EntryFits(g, n, src, dist, prev, w[|w| - 2]);
    } else {
      assert EntryFits(g, n, src, dist, prev, src);
    }
  }

  /** The walk that the table of previous hops describes. */
  ghost function TableWalk(g: seq<int>, n: nat, src: nat, dist: seq<int>, prev: seq<int>, v: nat): (w: seq<nat>)
    requires Tables(g, n, src, dist, prev) && v < n && dist[v] < INFINITY
    ensures WalkFromTo(g, n, w, src, v) && |w| == dist[v] + 1
    decreases dist[v]
  {
    assert EntryFits(g, n, src, dist, prev, v);
    if v == src then [src] else
      assert EntryFits(g, n, src, dist, prev, prev[v]);
      TableWalk(g, n, src, dist, prev, prev[v]) + [v]
  }

  /** The distances are the least numbers of links, and INFINITY marks the nodes out of reach. */
  lemma TablesAreShortest(g: seq<int>, n: nat, src: nat, dist: seq<int>, prev: seq<int>, v: nat)
    requires Tables(g, n, src, dist, prev) && v < n
    ensures dist[v] == INFINITY <==> !Reachable(g, n, src, v)
    ensures dist[v] < INFINITY ==> 0 <= dist[v] < n && IsDistance(g, n, src, v, dist[v])
  {
    forall w | WalkFromTo(g, n, w, src, v)
      ensures dist[v] <= |w| - 1 && dist[v] < INFINITY
    {
      TableBelowWalk(g, n, src, dist, prev, w);
    }
    assert EntryFits(g, n, src, dist, prev, v);
    if dist[v] < INFINITY {
      var w := TableWalk(g, n, src, dist, prev, v);
      assert WalkFromTo(g, n, w, src, v);
    }
  }
}
