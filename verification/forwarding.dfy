/** Forwarding a packet hop by hop along shortest paths, each node using its own tables. */
module Forwarding {
  import opened LinkGraph

  datatype Hop = Hop(node: nat) | NoHop

  /** The first hop on the table's way from `my` to `v`. */
  function FirstHop(g: seq<int>, n: nat, my: nat, dist: seq<int>, prev: seq<int>, v: nat): (h: Hop)
    requires Tables(g, n, my, dist, prev) && v < n && v != my
    ensures h.NoHop? <==> dist[v] == INFINITY
    ensures h.Hop? ==> h.node < n && Edge(g, n, my, h.node) && dist[h.node] == 1
    decreases if dist[v] == INFINITY then 0 else dist[v]
  {
    assert EntryFits(g, n, my, dist, prev, v);
    assert EntryFits(g, n, my, dist, prev, my);
    if dist[v] == INFINITY then NoHop
    else if prev[v] == my then Hop(v)
    else
      assert EntryFits(g, n, my, dist, prev, prev[v]);
      FirstHop(g, n, my, dist, prev, prev[v])
  }

  /** The rest of that way, from the first hop on. */
  ghost function WayOn(g: seq<int>, n: nat, my: nat, dist: seq<int>, prev: seq<int>, v: nat): (w: seq<nat>)
    requires Tables(g, n, my, dist, prev) && v < n && v != my && dist[v] != INFINITY
    ensures WalkFromTo(g, n, w, FirstHop(g, n, my, dist, prev, v).node, v) && |w| == dist[v]
    decreases dist[v]
  {
    assert EntryFits(g, n, my, dist, prev, v);
    assert EntryFits(g, n, my, dist, prev, my);
    if prev[v] == my then [v]
    else
      assert EntryFits(g, n, my, dist, prev, prev[v]);
      WayOn(g, n, my, dist, prev, prev[v]) + [v]
  }

  /** Walk back from the destination to the node whose previous hop is this node, as send_handler
      does; no hop if the walk ends at a node without one. */
  method NextHop(prev: array<int>, my: nat, dest: nat, ghost g: seq<int>, ghost n: nat, ghost dist: seq<int>)
    returns (h: Hop)
    requires Tables(g, n, my, dist, prev[..]) && dest < n && dest != my
    ensures h == FirstHop(g, n, my, dist, prev[..], dest)
  {
    var d: int := dest;
    assert EntryFits(g, n, my, dist, prev[..], dest);
    while prev[d] != my
      invariant 0 <= d < n && d != my
      invariant FirstHop(g, n, my, dist, prev[..], d) == FirstHop(g, n, my, dist, prev[..], dest)
      decreases if dist[d] == INFINITY then 0 else dist[d]
    {
      assert EntryFits(g, n, my, dist, prev[..], d);
      assert EntryFits(g, n, my, dist, prev[..], my);
      if prev[d] != -1 {
        assert EntryFits(g, n, my, dist, prev[..], prev[d]);
      }
      d := prev[d];
      if d == -1 {
        return NoHop;
      }
    }
    assert EntryFits(g, n, my, dist, prev[..], d);
    h := Hop(d);
  }

  // ---------------------------------------------------------------- one node, then the network

  /** What a node does with a packet. */
  datatype Verdict = Deliver | Drop | Forward(to: nat, ttl: int)

  /** The tables of one node, and the nodes it has a live connection to. */
  datatype Router = Router(dist: seq<int>, prev: seq<int>, live: set<nat>)

  /** What a node with these tables does with a packet for `dest`, -1 for an address not in its list. */
  function Decide(g: seq<int>, n: nat, my: nat, r: Router, dest: int, ttl: int): Verdict
    requires Tables(g, n, my, r.dist, r.prev) && -1 <= dest < n
  {
    if dest == my then Deliver
    else if ttl == 0 || dest == -1 then Drop
    else
      match FirstHop(g, n, my, r.dist, r.prev, dest)
      case NoHop => Drop
      case Hop(h) => if h in r.live then Forward(h, ttl - 1) else Drop
  }

  /** The next hop is known and there is a live connection to it. */
  predicate HopAlive(g: seq<int>, n: nat, my: nat, r: Router, dest: nat)
    requires Tables(g, n, my, r.dist, r.prev) && dest < n && dest != my
  {
    r.dist[dest] != INFINITY && FirstHop(g, n, my, r.dist, r.prev, dest).node in r.live
  }

  /** Which packets are delivered, dropped and sent on. */
  lemma Decides(g: seq<int>, n: nat, my: nat, r: Router, dest: int, ttl: int)
    requires Tables(g, n, my, r.dist, r.prev) && -1 <= dest < n
    ensures var v := Decide(g, n, my, r, dest, ttl);
            && (v.Deliver? <==> dest == my)
            && (v.Forward? <==> dest != my && dest != -1 && ttl != 0 && HopAlive(g, n, my, r, dest))
            && (v.Forward? ==> v.to < n && Edge(g, n, my, v.to) && v.to in r.live && v.ttl == ttl - 1)
  {
  }

  /** send_handler; `live` are the places in the list of the nodes it has a live connection to. */
  method SendHandler(prev: array<int>, my: nat, live: seq<nat>, dest: int, ttl: int,
                     ghost g: seq<int>, ghost n: nat, ghost dist: seq<int>)
    returns (v: Verdict)
    requires Tables(g, n, my, dist, prev[..]) && -1 <= dest < n
    ensures var r := Router(dist, prev[..], set h | h in live);
            && v == Decide(g, n, my, r, dest, ttl)
            && (v.Deliver? <==> dest == my)
            && (v.Forward? <==> dest != my && dest != -1 && ttl != 0 && HopAlive(g, n, my, r, dest))
            && (v.Forward? ==> v.to < n && Edge(g, n, my, v.to) && v.to in live && v.ttl == ttl - 1)
  {
    Decides(g, n, my, Router(dist, prev[..], set h | h in live), dest, ttl);
    if dest == my {
      return Deliver;
    }
    if ttl == 0 || dest == -1 {
      return Drop;
    }
    var h := NextHop(prev, my, dest, g, n, dist);
    if h.NoHop? {
      return Drop;
    }
    var f := 0;
    while f < |live|
      invariant f <= |live| && h.node !in live[..f]
    {
      if live[f] == h.node {
        return Forward(h.node, ttl - 1);
      }
      f := f + 1;
    }
    v := Drop;
  }

  /** Every node has tables for the same graph, whose links are live connections; ties may be broken differently
      everywhere. */
  ghost predicate Converged(g: seq<int>, n: nat, routers: seq<Router>) {
    && |routers| == n && Matrix(g, n)
    && (forall x: nat | x < n :: Tables(g, n, x, routers[x].dist, routers[x].prev))
    && forall x: nat, h: nat | x < n && h < n && Edge(g, n, x, h) :: h in routers[x].live
  }

  function Handle(g: seq<int>, n: nat, routers: seq<Router>, x: nat, dest: int, ttl: int): Verdict
    requires Converged(g, n, routers) && x < n && -1 <= dest < n
  {
    Decide(g, n, x, routers[x], dest, ttl)
  }

  /** The next hop is one link nearer to the destination by its own tables. */
  lemma HopCloser(g: seq<int>, n: nat, routers: seq<Router>, x: nat, dest: nat)
    requires Converged(g, n, routers) && x < n && dest < n && x != dest && routers[x].dist[dest] != INFINITY
    ensures var h := FirstHop(g, n, x, routers[x].dist, routers[x].prev, dest);
            && h.Hop? && Edge(g, n, x, h.node)
            && 0 <= routers[h.node].dist[dest] == routers[x].dist[dest] - 1
  {
    var rx := routers[x];
    var h := FirstHop(g, n, x, rx.dist, rx.prev, dest).node;
    var rh := routers[h];
    var w := WayOn(g, n, x, rx.dist, rx.prev, dest);
    TableBelowWalk(g, n, h, rh.dist, rh.prev, w);
    TablesAreShortest(g, n, h, rh.dist, rh.prev, dest);
    var u := TableWalk(g, n, h, rh.dist, rh.prev, dest);
    ExtendWalk(g, n, x, u);
    TableBelowWalk(g, n, x, rx.dist, rx.prev, [x] + u);
  }

  lemma ExtendWalk(g: seq<int>, n: nat, x: nat, u: seq<nat>)
    requires Matrix(g, n) && IsWalk(g, n, u) && Edge(g, n, x, u[0])
    ensures IsWalk(g, n, [x] + u)
  {
    var w := [x] + u;
    forall i | 0 <= i < |w| - 1
      ensures Edge(g, n, w[i], w[i + 1])
    {
      if i > 0 {
        assert Edge(g, n, u[i - 1], u[i]);
      }
    }
  }

  /** The nodes a packet visits. */
  ghost function Trip(g: seq<int>, n: nat, routers: seq<Router>, x: nat, dest: nat, ttl: int): (t: seq<nat>)
    requires Converged(g, n, routers) && x < n && dest < n
    ensures |t| > 0 && t[0] == x
    decreases if routers[x].dist[dest] == INFINITY then 0 else TableDistance(g, n, routers, x, dest)
  {
    match Handle(g, n, routers, x, dest, ttl)
    case Forward(h, left) =>
      HopCloser(g, n, routers, x, dest);
      [x] + Trip(g, n, routers, h, dest, left)
    case _ => [x]
  }

  ghost function TableDistance(g: seq<int>, n: nat, routers: seq<Router>, x: nat, dest: nat): nat
    requires Converged(g, n, routers) && x < n && dest < n && routers[x].dist[dest] != INFINITY
  {
    TablesAreShortest(g, n, x, routers[x].dist, routers[x].prev, dest);
    assert EntryFits(g, n, x, routers[x].dist, routers[x].prev, dest);
    routers[x].dist[dest]
  }

  /** A packet arrives exactly if the destination can be reached within its time to live; a negative
      one never runs out.  It then visits one node more than the distance. */
  lemma {:induction false} DeliveredIff(g: seq<int>, n: nat, routers: seq<Router>, x: nat, dest: nat, ttl: int)
    requires Converged(g, n, routers) && x < n && dest < n
    ensures var t := Trip(g, n, routers, x, dest, ttl); var d := routers[x].dist[dest];
            && (t[|t| - 1] == dest <==> d != INFINITY && (ttl < 0 || d <= ttl))
            && (t[|t| - 1] == dest ==> |t| == d + 1)
    decreases if routers[x].dist[dest] == INFINITY then 0 else TableDistance(g, n, routers, x, dest)
  {
    assert EntryFits(g, n, x, routers[x].dist, routers[x].prev, x);
    assert EntryFits(g, n, x, routers[x].dist, routers[x].prev, dest);
    var v := Handle(g, n, routers, x, dest, ttl);
    if v.Forward? {
      HopCloser(g, n, routers, x, dest);
      DeliveredIff(g, n, routers, v.to, dest, v.ttl);
    }
  }
}
