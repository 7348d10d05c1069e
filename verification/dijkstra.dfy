/** Dijkstra's algorithm over a flattened matrix, as run on every change of the topology. */
module ShortestPaths {
  import opened Division
  import opened LinkGraph

  /** Nodes already taken out of the queue. */
  function Taken(q: seq<int>): nat {
    if q == [] then 0 else Taken(q[..|q| - 1]) + if q[|q| - 1] == UNDEFINED then 1 else 0
  }

  lemma {:induction false} TakenBound(q: seq<int>)
    ensures Taken(q) <= |q|
    ensures Taken(q) == |q| ==> forall i | 0 <= i < |q| :: q[i] == UNDEFINED
    ensures (forall i | 0 <= i < |q| :: q[i] != UNDEFINED) ==> Taken(q) == 0
  {
    if q != [] {
      var r := q[..|q| - 1];
      TakenBound(r);
      TakenBoundStep(q);
    }
  }

  lemma TakenBoundStep(q: seq<int>)
    requires q != []
    ensures var r := q[..|q| - 1]; forall i | 0 <= i < |r| :: r[i] == q[i]
  {
  }

  lemma {:induction false} TakenUpdate(q: seq<int>, k: nat)
    requires k < |q| && q[k] != UNDEFINED
    ensures Taken(q[k := UNDEFINED]) == Taken(q) + 1
  {
    var n := |q| - 1;
    if k == n {
      assert q[k := UNDEFINED][..n] == q[..n];
    } else {
      assert q[k := UNDEFINED][..n] == q[..n][k := UNDEFINED];
      TakenUpdate(q[..n], k);
    }
  }

  /** The entries of one node between rounds, when `t` nodes have been taken. */
  predicate NodeFits(g: seq<int>, n: nat, src: nat, dist: seq<int>, prev: seq<int>, q: seq<int>, t: nat, v: nat)
    requires Matrix(g, n) && |dist| == |prev| == |q| == n && v < n
  {
    && (q[v] == UNDEFINED ==> dist[v] < t)
    && (dist[v] != INFINITY ==> dist[v] <= t)
    && if dist[v] == INFINITY then v != src && prev[v] == UNDEFINED
       else if v == src then dist[v] == 0 && prev[v] == UNDEFINED
       else && 0 <= prev[v] < n && Edge(g, n, prev[v], v) && q[prev[v]] == UNDEFINED
            && 0 < dist[v] && dist[v] == dist[prev[v]] + 1
  }

  /** Nodes taken are no further than nodes not taken. */
  predicate NearestFirst(n: nat, dist: seq<int>, q: seq<int>)
    requires |dist| == |q| == n
  {
    forall u: nat, v: nat | u < n && v < n && q[u] == UNDEFINED && q[v] != UNDEFINED :: dist[u] <= dist[v]
  }

  /** Links from nodes taken have been followed. */
  ghost predicate Followed(g: seq<int>, n: nat, dist: seq<int>, q: seq<int>)
    requires Matrix(g, n) && |dist| == |q| == n
  {
    forall u: nat, v: nat | Edge(g, n, u, v) && q[u] == UNDEFINED :: dist[v] <= dist[u] + 1
  }

  /** The state between rounds: `t` nodes have been taken, nearest first. */
  ghost predicate Round(g: seq<int>, n: nat, src: nat, dist: seq<int>, prev: seq<int>, q: seq<int>, t: nat) {
    && Matrix(g, n) && |dist| == |prev| == |q| == n && src < n < INFINITY
    && Taken(q) == t
    && (forall v: nat | v < n :: NodeFits(g, n, src, dist, prev, q, t, v))
    && NearestFirst(n, dist, q) && Followed(g, n, dist, q)
  }

  /** A link to node `i` from `m` gives it a shorter way. */
  predicate Shorter(g: seq<int>, n: nat, dist: seq<int>, q: seq<int>, m: nat, i: nat)
    requires Matrix(g, n) && |dist| == |q| == n && m < n && i < n
  {
    Edge(g, n, m, i) && q[i] != UNDEFINED && dist[i] > dist[m] + 1
  }

  /** The tables after the links of `m` to the first `k` nodes have been followed. */
  ghost predicate FollowedTo(g: seq<int>, n: nat, m: nat, k: nat, q: seq<int>,
                             dist: seq<int>, prev: seq<int>, dist': seq<int>, prev': seq<int>)
  {
    && Matrix(g, n) && |dist| == |prev| == |dist'| == |prev'| == |q| == n && m < n && k <= n
    && forall i: nat | i < n ::
         if i < k && Shorter(g, n, dist, q, m, i) then dist'[i] == dist[m] + 1 && prev'[i] == m
         else dist'[i] == dist[i] && prev'[i] == prev[i]
  }

  lemma RoundStart(g: seq<int>, n: nat, src: nat, dist: seq<int>, prev: seq<int>, q: seq<int>)
    requires Matrix(g, n) && |dist| == |prev| == |q| == n && src < n < INFINITY
    requires forall i: nat | i < n :: dist[i] == (if i == src then 0 else INFINITY) && prev[i] == UNDEFINED && q[i] == 1
    ensures Round(g, n, src, dist, prev, q, 0)
  {
    TakenBound(q);
  }

  /** One round: the nearest node left is taken and its links are followed. */
  lemma RoundStep(g: seq<int>, n: nat, src: nat, dist: seq<int>, prev: seq<int>, q: seq<int>, t: nat, m: nat,
                  dist': seq<int>, prev': seq<int>)
    requires Round(g, n, src, dist, prev, q, t) && m < n && q[m] != UNDEFINED && dist[m] < INFINITY
    requires forall v: nat | v < n && q[v] != UNDEFINED :: dist[m] <= dist[v]
    requires FollowedTo(g, n, m, n, q[m := UNDEFINED], dist, prev, dist', prev')
    ensures Round(g, n, src, dist', prev', q[m := UNDEFINED], t + 1)
  {
    var r, t' := q[m := UNDEFINED], t + 1;
    TakenUpdate(q, m);
    assert NodeFits(g, n, src, dist, prev, q, t, m);
    forall v: nat | v < n
      ensures NodeFits(g, n, src, dist', prev', r, t', v)
    {
      StepFits(g, n, src, dist, prev, q, t, m, dist', prev', v);
    }
    forall u: nat, v: nat | u < n && v < n && r[u] == UNDEFINED && r[v] != UNDEFINED
      ensures dist'[u] <= dist'[v]
    {
      assert dist'[u] == dist[u];
      assert q[u] == UNDEFINED ==> dist[u] <= dist[m];
    }
    forall u: nat, v: nat | Edge(g, n, u, v) && r[u] == UNDEFINED
      ensures dist'[v] <= dist'[u] + 1
    {
      StepFollowed(g, n, src, dist, prev, q, t, m, dist', prev', u, v);
    }
  }

  lemma StepFits(g: seq<int>, n: nat, src: nat, dist: seq<int>, prev: seq<int>, q: seq<int>, t: nat, m: nat,
                 dist': seq<int>, prev': seq<int>, v: nat)
    requires Round(g, n, src, dist, prev, q, t) && m < n && q[m] != UNDEFINED && dist[m] < INFINITY && v < n
    requires FollowedTo(g, n, m, n, q[m := UNDEFINED], dist, prev, dist', prev')
    ensures NodeFits(g, n, src, dist', prev', q[m := UNDEFINED], t + 1, v)
  {
    assert NodeFits(g, n, src, dist, prev, q, t, v);
    assert NodeFits(g, n, src, dist, prev, q, t, m);
  }

  lemma StepFollowed(g: seq<int>, n: nat, src: nat, dist: seq<int>, prev: seq<int>, q: seq<int>, t: nat, m: nat,
                     dist': seq<int>, prev': seq<int>, u: nat, v: nat)
    requires Round(g, n, src, dist, prev, q, t) && m < n && q[m] != UNDEFINED && dist[m] < INFINITY
    requires FollowedTo(g, n, m, n, q[m := UNDEFINED], dist, prev, dist', prev')
    requires Edge(g, n, u, v) && q[m := UNDEFINED][u] == UNDEFINED
    ensures dist'[v] <= dist'[u] + 1
  {
    assert dist'[u] == dist[u] && dist'[v] <= dist[v];
    if u == m && q[v] == UNDEFINED {
      assert dist[v] <= dist[m];
    }
  }

  /** When no node within reach is left the tables are right. */
  lemma RoundEnd(g: seq<int>, n: nat, src: nat, dist: seq<int>, prev: seq<int>, q: seq<int>, t: nat)
    requires Round(g, n, src, dist, prev, q, t) && t <= n
    requires forall v: nat | v < n && q[v] != UNDEFINED :: dist[v] >= INFINITY
    ensures Tables(g, n, src, dist, prev)
  {
    forall v: nat | v < n
      ensures EntryFits(g, n, src, dist, prev, v)
    {
      assert NodeFits(g, n, src, dist, prev, q, t, v);
    }
    forall u: nat, v: nat | Edge(g, n, u, v) && dist[u] < INFINITY
      ensures dist[v] <= dist[u] + 1
    {
      assert q[u] == UNDEFINED;
    }
  }

  /** The nearest node still in the queue, the first if there are several; -1 if none of them is within reach. */
  method Nearest(dist: array<int>, q: array<int>) returns (min: int)
    requires dist.Length == q.Length
    ensures -1 <= min < q.Length
    ensures min == -1 ==> forall i | 0 <= i < q.Length && q[i] != UNDEFINED :: dist[i] >= INFINITY
    ensures min != -1 ==> q[min] != UNDEFINED && dist[min] < INFINITY
                          && (forall i | 0 <= i < q.Length && q[i] != UNDEFINED :: dist[min] <= dist[i])
                          && forall i | 0 <= i < min && q[i] != UNDEFINED :: dist[min] < dist[i]
  {
    min := -1;
    var minDist := INFINITY;
    for i := 0 to q.Length
      invariant -1 <= min < i
      invariant min == -1 ==> minDist == INFINITY
      invariant min != -1 ==> q[min] != UNDEFINED && minDist == dist[min] < INFINITY
      invariant forall k | 0 <= k < i && q[k] != UNDEFINED :: minDist <= dist[k]
      invariant forall k | 0 <= k < min && q[k] != UNDEFINED :: minDist < dist[k]
    {
      if dist[i] < minDist && q[i] != UNDEFINED {
        minDist := dist[i];
        min := i;
      }
    }
  }

  /** Follow the links of `min`. */
  method Follow(graph: array<int>, nnodes: nat, min: nat, dist: array<int>, prev: array<int>, q: array<int>)
    requires Matrix(graph[..], nnodes) && dist.Length == prev.Length == q.Length == nnodes && min < nnodes
    requires dist != prev && dist != q && prev != q && graph != dist && graph != prev
    requires 0 <= dist[min] < INFINITY && q[min] == UNDEFINED
    modifies dist, prev
    ensures FollowedTo(graph[..], nnodes, min, nnodes, q[..], old(dist[..]), old(prev[..]), dist[..], prev[..])
  {
    ghost var dist0, prev0 := dist[..], prev[..];
    for i := 0 to nnodes
      invariant FollowedTo(graph[..], nnodes, min, i, q[..], dist0, prev0, dist[..], prev[..])
    {
      IndexInRange(min, i, nnodes);
      TimesIsProduct(i, nnodes);
      var link := graph[min + nnodes * i];
      if link == 1 && q[i] != UNDEFINED {
        assert link + dist[min] <= INFINITY;
        if dist[i] > link + dist[min] {
          dist[i] := link + dist[min];
          prev[i] := min;
        }
      }
    }
  }

  /** Fill in the distances from `src` and, for each node, the last hop on the way from `src`. */
  method Dijkstra(graph: array<int>, nnodes: nat, src: nat, dist: array<int>, prev: array<int>)
    requires Matrix(graph[..], nnodes) && dist.Length == prev.Length == nnodes && src < nnodes < INFINITY
    requires dist != prev && graph != dist && graph != prev
    modifies dist, prev
    ensures Tables(graph[..], nnodes, src, dist[..], prev[..])
  {
    hide Tables, FollowedTo, Times;
    var q := new int[nnodes];
    var count := nnodes;
    for i := 0 to nnodes
      invariant forall k | 0 <= k < i :: dist[k] == INFINITY && prev[k] == UNDEFINED && q[k] == 1
    {
      dist[i] := INFINITY;
      prev[i] := UNDEFINED;
      q[i] := 1;
    }
    dist[src] := 0;
    prev[src] := -1;
    ghost var g := graph[..];
    RoundStart(g, nnodes, src, dist[..], prev[..], q[..]);
    while count > 0
      invariant 0 <= count <= nnodes
      invariant graph[..] == g
      invariant Round(g, nnodes, src, dist[..], prev[..], q[..], nnodes - count)
    {
      ghost var t := nnodes - count;
      ghost var dist0, prev0, q0 := dist[..], prev[..], q[..];
      var min := Nearest(dist, q);
      if min == -1 {
        break;
      }
      assert NodeFits(g, nnodes, src, dist0, prev0, q0, t, min);
      q[min] := UNDEFINED;
      assert q[..] == q0[min := UNDEFINED];
      Follow(graph, nnodes, min, dist, prev, q);
      RoundStep(g, nnodes, src, dist0, prev0, q0, t, min, dist[..], prev[..]);
      count := count - 1;
    }
    TakenBound(q[..]);
    RoundEnd(g, nnodes, src, dist[..], prev[..], q[..], nnodes - count);
  }
}
