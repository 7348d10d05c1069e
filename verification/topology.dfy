/** From names and claimed neighbours to the matrix the shortest paths are computed on. */
module Topology {
  import opened Division
  import opened LinkGraph
  import opened NodeNames
  import ShortestPaths

  /** One stored gossip record: a node and the neighbours it claims. */
  datatype Claim = Claim(node: Name, neighbours: seq<Name>)

  type Link = (Name, Name)

  function ClaimLinks(claim: Claim): set<Link> {
    set b | b in claim.neighbours :: (claim.node, b)
  }

  /** The links claimed in the records and those of this node's own live connections, a connection to
      itself left out. */
  function LinksOf(claims: seq<Claim>, live: seq<Name>, me: Name): set<Link> {
    (set c, l | c in claims && l in ClaimLinks(c) :: l) + (set a | a in live && a != me :: (a, me))
  }

  predicate Linked(links: set<Link>, a: Name, b: Name) {
    (a, b) in links || (b, a) in links
  }

  /** Two names are linked if one claims the other in a record, or one is this node and the other, not this node too, a
      live connection of it. */
  lemma LinkedIff(claims: seq<Claim>, live: seq<Name>, me: Name, a: Name, b: Name)
    ensures Linked(LinksOf(claims, live, me), a, b)
            <==> || (exists c :: c in claims && c.node == a && b in c.neighbours)
                 || (exists c :: c in claims && c.node == b && a in c.neighbours)
                 || (a != b && a == me && b in live) || (a != b && b == me && a in live)
  {
    forall x: Name, y: Name
      ensures (x, y) in LinksOf(claims, live, me)
              <==> (exists c :: c in claims && c.node == x && y in c.neighbours) || (x in live && x != me && y == me)
    {
      if c :| c in claims && c.node == x && y in c.neighbours {
        assert (x, y) in ClaimLinks(c);
      }
    }
  }

  /** The entry for x and y says whether the two names are linked, in either direction. */
  predicate EntryDraws(g: seq<int>, names: seq<Name>, links: set<Link>, x: nat, y: nat)
    requires Matrix(g, |names|) && x < |names| && y < |names|
  {
    IndexInRange(x, y, |names|);
    g[Index(x, y, |names|)] == if Linked(links, names[x], names[y]) then 1 else 0
  }

  ghost predicate Draws(g: seq<int>, names: seq<Name>, links: set<Link>) {
    Matrix(g, |names|) && forall x: nat, y: nat | x < |names| && y < |names| :: EntryDraws(g, names, links, x, y)
  }

  /** Every entry is the entry of some pair of nodes. */
  lemma IndexOnto(k: nat, n: nat)
    requires k < Times(n, n)
    ensures n > 0 && Rem(k, n) < n && Quot(k, n) < n && Index(Rem(k, n), Quot(k, n), n) == k
  {
    if n > 0 {
      QuotBelowTimes(k, n, n);
      QuotRem(k, n);
      TimesIsProduct(Quot(k, n), n);
    }
  }

  /** The matrix depends on nothing but the set of names and the links: not on the order in which
      names, records and connections came. */
  lemma GraphDeterminate(g: seq<int>, h: seq<int>, names: seq<Name>, names': seq<Name>, links: set<Link>)
    requires Ascending(names) && Ascending(names') && Names(names) == Names(names')
    requires Draws(g, names, links) && Draws(h, names', links)
    ensures g == h
  {
    AscendingUnique(names, names');
    var n := |names|;
    forall k | 0 <= k < |g|
      ensures g[k] == h[k]
    {
      IndexOnto(k, n);
      assert EntryDraws(g, names, links, Rem(k, n), Quot(k, n));
      assert EntryDraws(h, names, links, Rem(k, n), Quot(k, n));
    }
  }

  /** Links go both ways, and there is a link exactly where one of the two nodes claims one. */
  lemma GraphSymmetric(g: seq<int>, names: seq<Name>, links: set<Link>, x: nat, y: nat)
    requires Draws(g, names, links) && x < |names| && y < |names|
    ensures Edge(g, |names|, x, y) <==> Edge(g, |names|, y, x)
    ensures Edge(g, |names|, x, y) <==> Linked(links, names[x], names[y])
  {
    assert EntryDraws(g, names, links, x, y) && EntryDraws(g, names, links, y, x);
  }

  // ---------------------------------------------------------------- filling the matrix in place

  lemma NothingDrawn(g: seq<int>, names: seq<Name>)
    requires Matrix(g, |names|) && forall k | 0 <= k < |g| :: g[k] == 0
    ensures Draws(g, names, {})
  {
    forall x: nat, y: nat | x < |names| && y < |names|
      ensures EntryDraws(g, names, {}, x, y)
    {
      IndexInRange(x, y, |names|);
    }
  }

  lemma EmptyStaysEmpty(g: seq<int>, names: seq<Name>, names': seq<Name>)
    requires Draws(g, names, {}) && |names| == |names'|
    ensures Draws(g, names', {})
  {
    forall x: nat, y: nat | x < |names'| && y < |names'|
      ensures EntryDraws(g, names', {}, x, y)
    {
      assert EntryDraws(g, names, {}, x, y);
    }
  }

  /** Writing 1 into the entries of a and b, in both orders, draws the link between them. */
  lemma LinkDrawn(g: seq<int>, names: seq<Name>, links: set<Link>, a: nat, b: nat, g': seq<int>)
    requires Draws(g, names, links) && Distinct(names) && a < |names| && b < |names| && |g'| == |g|
    requires forall k | 0 <= k < |g| ::
               g'[k] == if k == Index(a, b, |names|) || k == Index(b, a, |names|) then 1 else g[k]
    ensures Draws(g', names, links + {(names[a], names[b])})
  {
    var n := |names|;
    var links' := links + {(names[a], names[b])};
    forall x: nat, y: nat | x < n && y < n
      ensures EntryDraws(g', names, links', x, y)
    {
      IndexInRange(x, y, n);
      assert EntryDraws(g, names, links, x, y);
      if Index(x, y, n) == Index(a, b, n) {
        IndexUnique(x, y, a, b, n);
      } else if Index(x, y, n) == Index(b, a, n) {
        IndexUnique(x, y, b, a, n);
      }
    }
  }

  lemma StrangerIgnored(g: seq<int>, names: seq<Name>, links: set<Link>, src: Name, dst: Name)
    requires Draws(g, names, links) && (src !in Names(names) || dst !in Names(names))
    ensures Draws(g, names, links + {(src, dst)})
  {
    forall x: nat, y: nat | x < |names| && y < |names|
      ensures EntryDraws(g, names, links + {(src, dst)}, x, y)
    {
      assert EntryDraws(g, names, links, x, y);
      assert names[x] in Names(names) && names[y] in Names(names);
    }
  }

  /** The list is sorted as soon as anything has been drawn on it. */
  ghost predicate Drawn(list: NodeList, g: seq<int>, links: set<Link>, names: set<Name>, n: nat)
    reads list
  {
    && list.Valid() && Names(list.nodes) == names && |list.nodes| == n
    && Draws(g, list.nodes, links) && (list.unsorted ==> links == {})
  }

  /** Set the entries of src and dst in both orders, or nothing if one of them is not in the list. */
  method SetDist(list: NodeList, graph: array<int>, src: Name, dst: Name,
                 ghost links: set<Link>, ghost names: set<Name>)
    requires Drawn(list, graph[..], links, names, |list.nodes|)
    modifies list, graph
    ensures Drawn(list, graph[..], links + {(src, dst)}, names, |old(list.nodes)|) && !list.unsorted
    ensures !old(list.unsorted) ==> list.nodes == old(list.nodes)
  {
    hide Draws;
    ghost var nodes0 := list.nodes;
    var x := list.Index(src);
    ghost var nodes1 := list.nodes;
    if nodes1 != nodes0 {
      EmptyStaysEmpty(graph[..], nodes0, nodes1);
    }
    var y := list.Index(dst);
    if x < 0 || y < 0 {
      StrangerIgnored(graph[..], list.nodes, links, src, dst);
      return;
    }
    SetBoth(graph, list.nodes, x, y, links);
  }

  method SetBoth(graph: array<int>, names: seq<Name>, x: nat, y: nat, ghost links: set<Link>)
    requires Draws(graph[..], names, links) && Distinct(names) && x < |names| && y < |names|
    modifies graph
    ensures Draws(graph[..], names, links + {(names[x], names[y])})
  {
    hide EntryDraws;
    ghost var g := graph[..];
    var n := |names|;
    IndexInRange(x, y, n);
    IndexInRange(y, x, n);
    TimesIsProduct(x, n);
    TimesIsProduct(y, n);
    graph[x + n * y] := 1;
    graph[y + n * x] := 1;
    LinkDrawn(g, names, links, x, y, graph[..]);
  }

  method DrawClaim(list: NodeList, graph: array<int>, claim: Claim, ghost links: set<Link>, ghost names: set<Name>)
    requires Drawn(list, graph[..], links, names, |list.nodes|)
    modifies list, graph
    ensures Drawn(list, graph[..], links + ClaimLinks(claim), names, |old(list.nodes)|)
  {
    hide Draws;
    ghost var drawn: set<Link> := {};
    assert links + drawn == links;
    for j := 0 to |claim.neighbours|
      invariant drawn == set b | b in claim.neighbours[..j] :: (claim.node, b)
      invariant Drawn(list, graph[..], links + drawn, names, |old(list.nodes)|)
    {
      var token := claim.neighbours[j];
      SetDist(list, graph, claim.node, token, links + drawn, names);
      assert claim.neighbours[..j + 1] == claim.neighbours[..j] + [token];
      assert links + drawn + {(claim.node, token)} == links + (drawn + {(claim.node, token)});
      drawn := drawn + {(claim.node, token)};
    }
    assert claim.neighbours[..|claim.neighbours|] == claim.neighbours;
    assert drawn == ClaimLinks(claim);
  }

  method DrawRecords(list: NodeList, graph: array<int>, claims: seq<Claim>, ghost names: set<Name>)
    requires Drawn(list, graph[..], {}, names, |list.nodes|)
    modifies list, graph
    ensures Drawn(list, graph[..], LinksOf(claims, [], 0), names, |old(list.nodes)|)
  {
    hide Draws;
    ghost var drawn: set<Link> := {};
    for k := 0 to |claims|
      invariant drawn == set c, l | c in claims[..k] && l in ClaimLinks(c) :: l
      invariant Drawn(list, graph[..], drawn, names, |old(list.nodes)|)
    {
      DrawClaim(list, graph, claims[k], drawn, names);
      assert claims[..k + 1] == claims[..k] + [claims[k]];
      drawn := drawn + ClaimLinks(claims[k]);
    }
    assert claims[..|claims|] == claims;
    assert drawn == LinksOf(claims, [], 0);
  }

  method DrawLive(list: NodeList, graph: array<int>, live: seq<Name>, me: Name,
                  ghost links: set<Link>, ghost names: set<Name>)
    requires Drawn(list, graph[..], links, names, |list.nodes|) && !list.unsorted
    modifies list, graph
    ensures Drawn(list, graph[..], links + LinksOf([], live, me), names, |old(list.nodes)|)
    ensures !list.unsorted && list.nodes == old(list.nodes)
  {
    hide Draws;
    ghost var own: set<Link> := {};
    assert links + own == links;
    for k := 0 to |live|
      invariant own == set a | a in live[..k] && a != me :: (a, me)
      invariant Drawn(list, graph[..], links + own, names, |old(list.nodes)|)
      invariant !list.unsorted && list.nodes == old(list.nodes)
    {
      var addr := live[k];
      assert live[..k + 1] == live[..k] + [addr];
      if addr != me {
        SetDist(list, graph, addr, me, links + own, names);
        assert links + own + {(addr, me)} == links + (own + {(addr, me)});
        own := own + {(addr, me)};
      }
    }
    assert live[..|live|] == live;
    assert own == LinksOf([], live, me);
  }

  /** Throw the old graph away, draw it anew from the records and the live connections and compute the
      tables for this node on it. */
  method UpdateGraph(list: NodeList, claims: seq<Claim>, live: seq<Name>, me: Name)
    returns (graph: array<int>, dist: array<int>, prev: array<int>, my: nat)
    requires list.Valid() && me in list.nodes && |list.nodes| < INFINITY
    modifies list
    ensures list.Valid() && Names(list.nodes) == Names(old(list.nodes)) && Ascending(list.nodes)
    ensures my < |list.nodes| && list.nodes[my] == me
    ensures Draws(graph[..], list.nodes, LinksOf(claims, live, me))
    ensures Tables(graph[..], |list.nodes|, my, dist[..], prev[..])
  {
    hide Draws;
    ghost var names := Names(list.nodes);
    var n := |list.nodes|;
    dist, prev := new int[n], new int[n];
    graph := NewGraph(list.nodes);
    DrawRecords(list, graph, claims, names);
    ghost var links := LinksOf(claims, [], 0);
    ghost var nodes := list.nodes;
    assert me in names;
    my := list.Index(me);
    if nodes != list.nodes {
      EmptyStaysEmpty(graph[..], nodes, list.nodes);
    }
    DrawLive(list, graph, live, me, links, names);
    assert links + LinksOf([], live, me) == LinksOf(claims, live, me);
    DrawsMatrix(graph[..], list.nodes, LinksOf(claims, live, me));
    ShortestPaths.Dijkstra(graph, n, my, dist, prev);
  }

  lemma DrawsMatrix(g: seq<int>, names: seq<Name>, links: set<Link>)
    requires Draws(g, names, links)
    ensures Matrix(g, |names|)
  {
  }

  method NewGraph(names: seq<Name>) returns (graph: array<int>)
    ensures fresh(graph) && Draws(graph[..], names, {})
  {
    var n := |names|;
    TimesIsProduct(n, n);
    graph := new int[n * n];
    for k := 0 to n * n
      invariant forall i | 0 <= i < k :: graph[i] == 0
    {
      graph[k] := 0;
    }
    NothingDrawn(graph[..], names);
  }
}
