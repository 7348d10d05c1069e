/** Flooding, graph drawing, shortest paths and forwarding put together. */
module EndToEnd {
  import opened Flooding
  import opened FloodingProof
  import opened Convergence
  import opened NodeNames
  import opened LinkGraph
  import opened Topology
  import opened Forwarding

  /** `group` is all the nodes that `hub` is connected to. */
  ghost predicate Component(net: Net, group: set<nat>, hub: nat)
    requires Shape(net)
  {
    && hub in group && Closed(net, group)
    && forall x | x in group :: exists way :: Connected(net, way, hub, x)
  }

  /** A settled network: an honest run has come to a state with nothing in flight. */
  ghost predicate Settled(net: Net, group: set<nat>, hub: nat) {
    Inv(net) && Views(net) && Quiet(net) && Component(net, group, hub) && Inward(net, group)
  }

  lemma RunSettled(run: seq<Net>, steps: seq<Step>, i: nat, group: set<nat>, hub: nat)
    requires HonestRun(run, steps) && i < |run| && Quiet(run[i]) && Component(run[i], group, hub)
    ensures Settled(run[i], group, hub)
  {
    RunViews(run, steps, i);
    RunInward(run, steps, i, i, group);
  }

  // ---------------------------------------------------------------- what every node knows

  /** A node has met all its peers and spoken of them and of nothing else since, and its graph shows all it
      knows: no update is missing. */
  lemma SeenCurrent(net: Net, x: nat)
    requires Views(net) && Quiet(net) && x < net.n
    ensures net.met[x] == net.peers[x] == Latest(net, x)
    ensures net.seen[x] == Sight(net.names[x], net.known[x], net.peers[x])
  {
    assert Sockets(net, x) && UpToDate(net, x);
    forall y | y in net.peers[x]
      ensures y in net.met[x]
    {
      assert Greeted(net, x, y);
    }
    assert Listed(net, x) == net.met[x];
  }

  /** Each node has the last word of every other node of its component. */
  lemma KnowsLatest(net: Net, group: set<nat>, hub: nat, x: nat, s: nat)
    requires Settled(net, group, hub) && x in group && s in group && x != s && net.peers[s] != {}
    ensures s in net.known[x] && Members(net.known[x][s].payload) == net.peers[s]
  {
    hide LinksTold, HellosWait, SendersKnow, Inward;
    SeenCurrent(net, s);
    var wx :| Connected(net, wx, hub, x);
    var ws :| Connected(net, ws, hub, s);
    SameCounters(net, wx, hub, x, s);
    SameCounters(net, ws, hub, s, s);
    KnowsByCounter(net, x, s);
  }

  /** The nodes among what a node has stored of any source are connections of that source. */
  lemma KnowsTrue(net: Net, x: nat, s: nat)
    requires Inv(net) && Views(net) && x < net.n && s in net.known[x]
    ensures s < net.n && forall a | a in net.known[x][s].payload && a < net.n :: a in net.peers[s]
  {
    var rec := net.known[x][s];
    assert Truthful(net, rec);
    assert SaysTrue(net, s, rec.counter - 1);
  }

  /** Every node but a lone one is connected to another one. */
  lemma HasPeer(net: Net, group: set<nat>, hub: nat, x: nat, y: nat)
    requires Settled(net, group, hub) && x in group && y in group && x != y
    ensures exists w :: w in group && y in net.peers[w] && w in net.peers[y]
  {
    hide RecordsTrue, LinksTold, HellosWait, SendersKnow, Views, Inward;
    if y == hub {
      var way :| Connected(net, way, hub, x);
      assert way[1] in net.peers[way[0]];
      assert way[1] in group;
    } else {
      var way :| Connected(net, way, hub, y);
      var w := way[|way| - 2];
      assert way[|way| - 2 + 1] in net.peers[w];
      assert w in net.peers[y] && w in group;
    }
  }

  lemma HearsFrom(net: Net, group: set<nat>, hub: nat, x: nat, w: nat, y: nat)
    requires Settled(net, group, hub) && x in group && w in group && y in net.peers[w]
    ensures y in net.names[x]
  {
    hide RecordsTrue, LinksTold, HellosWait, SendersKnow, Inward;
    if w == x {
      SeenCurrent(net, x);
      assert UpToDate(net, x);
    } else {
      KnowsLatest(net, group, hub, x, w);
      assert HeardOf(net, x, w);
    }
  }

  /** The nodes on the list of every node of a component are exactly those of the component.  Socket
      addresses may be on it too. */
  lemma NamesComplete(net: Net, group: set<nat>, hub: nat, x: nat)
    requires Settled(net, group, hub) && x in group
    ensures x < net.n && (set a | a in net.names[x] && a < net.n) == group
  {
    assert Within(net, net.names[x], group) && UpToDate(net, x);
    forall y | y in group
      ensures y in net.names[x] && y < net.n
    {
      if y != x {
        HasPeer(net, group, hub, x, y);
        var w :| w in group && y in net.peers[w] && w in net.peers[y];
        HearsFrom(net, group, hub, x, w, y);
      }
    }
  }

  // ---------------------------------------------------------------- the graph every node draws

  /** The records and the connections that a node saw, listed in any order. */
  ghost predicate Lists(sight: Sight, claims: seq<Claim>, live: seq<Name>) {
    && (forall c | c in claims :: c.node in sight.known && c.neighbours == sight.known[c.node].payload)
    && (forall s | s in sight.known :: Claim(s, sight.known[s].payload) in claims)
    && (forall y :: y in live <==> y in sight.live)
  }

  lemma LinkIsThere(net: Net, group: set<nat>, hub: nat, x: nat, claims: seq<Claim>, live: seq<Name>, a: nat, b: nat)
    requires Settled(net, group, hub) && x in group && Lists(net.seen[x], claims, live) && a in group && b in group
    requires (a, b) in LinksOf(claims, live, x)
    ensures b in net.peers[a] && a in net.peers[b]
  {
    hide LinksTold, HellosWait, SendersKnow, Inward;
    SeenCurrent(net, x);
    if a in live && b == x {
      assert a in net.peers[x];
    } else {
      var c :| c in claims && (a, b) in ClaimLinks(c);
      KnowsTrue(net, x, a);
      assert b in Members(net.known[x][a].payload);
    }
  }

  lemma SeesLink(net: Net, group: set<nat>, hub: nat, x: nat, claims: seq<Claim>, live: seq<Name>, a: nat, b: nat)
    requires Settled(net, group, hub) && x in group && Lists(net.seen[x], claims, live) && a in group
    requires b in net.peers[a]
    ensures Linked(LinksOf(claims, live, x), a, b)
  {
    SeenCurrent(net, x);
    hide RecordsTrue, LinksTold, HellosWait, SendersKnow, Views, Inward;
    if a == x {
      assert b in live && b != x;
      assert (b, x) in LinksOf(claims, live, x);
    } else {
      KnowsLatest(net, group, hub, x, a);
      var c := Claim(a, net.known[x][a].payload);
      assert b in Members(c.neighbours);
      assert c in claims && (a, b) in ClaimLinks(c);
    }
  }

  /** By its own records and connections every node sees the links that there are between nodes. */
  lemma SeesLinks(net: Net, group: set<nat>, hub: nat, x: nat, claims: seq<Claim>, live: seq<Name>, a: nat, b: nat)
    requires Settled(net, group, hub) && x in group && Lists(net.seen[x], claims, live) && a in group && b in group
    ensures Linked(LinksOf(claims, live, x), a, b) <==> b in net.peers[a]
  {
    var links := LinksOf(claims, live, x);
    if b in net.peers[a] {
      SeesLink(net, group, hub, x, claims, live, a, b);
    }
    if (a, b) in links {
      LinkIsThere(net, group, hub, x, claims, live, a, b);
    }
    if (b, a) in links {
      LinkIsThere(net, group, hub, x, claims, live, b, a);
    }
  }

  /** A socket address is linked at most to the node itself, by an old record of its own that came back. */
  lemma SocketsHang(net: Net, group: set<nat>, hub: nat, x: nat, claims: seq<Claim>, live: seq<Name>, a: nat, b: nat)
    requires Settled(net, group, hub) && x in group && Lists(net.seen[x], claims, live) && a >= net.n
    requires Linked(LinksOf(claims, live, x), a, b)
    ensures b == x
  {
    SeenCurrent(net, x);
    hide RecordsTrue, LinksTold, HellosWait, SendersKnow, Views;
    assert net.known[x].Keys <= group && net.peers[x] <= group;
    var links := LinksOf(claims, live, x);
    assert (a, b) !in links;
    if b != x {
      var c :| c in claims && (b, a) in ClaimLinks(c);
      assert a in Members(c.neighbours);
      HasPeer(net, group, hub, x, b);
      KnowsLatest(net, group, hub, x, b);
    }
  }

  /** What node x has after its last update: its list of names, its own place in it, its matrix and tables, and the
      addresses of its live connections. */
  datatype View = View(names: seq<Name>, my: nat, graph: seq<int>, dist: seq<int>, prev: seq<int>, live: set<Name>)

  /** The view is what UpdateGraph made of the names, records and connections that x saw last. */
  ghost predicate Updated(net: Net, x: nat, v: View)
    requires Shape(net) && x < net.n
  {
    && Ascending(v.names) && Names(v.names) == net.seen[x].names && v.live == net.seen[x].live
    && v.my < |v.names| && v.names[v.my] == x
    && Tables(v.graph, |v.names|, v.my, v.dist, v.prev)
    && exists claims, live :: Lists(net.seen[x], claims, live) && Draws(v.graph, v.names, LinksOf(claims, live, x))
  }

  /** The view is ready for use. */
  ghost predicate Ready(net: Net, group: set<nat>, hub: nat, x: nat, v: View) {
    Settled(net, group, hub) && x in group && x < net.n && Updated(net, x, v)
  }

  /** On the places of nodes the graph is the network; a socket's place has no link but to the node itself. */
  lemma EdgesReal(net: Net, group: set<nat>, hub: nat, x: nat, v: View, i: nat, j: nat)
    requires Ready(net, group, hub, x, v) && i < |v.names| && j < |v.names|
    ensures v.names[i] in group || v.names[i] >= net.n
    ensures v.names[i] in group && v.names[j] in group ==>
              (Edge(v.graph, |v.names|, i, j) <==> v.names[j] in net.peers[v.names[i]])
    ensures v.names[i] !in group && Edge(v.graph, |v.names|, i, j) ==> j == v.my
  {
    SeenCurrent(net, x);
    NamesComplete(net, group, hub, x);
    var claims, live :| Lists(net.seen[x], claims, live) && Draws(v.graph, v.names, LinksOf(claims, live, x));
    GraphSymmetric(v.graph, v.names, LinksOf(claims, live, x), i, j);
    assert v.names[i] in Names(v.names) && v.names[j] in Names(v.names);
    hide Settled, Tables, Draws, LinksOf, Lists;
    var a, b := v.names[i], v.names[j];
    if a in group && b in group {
      SeesLinks(net, group, hub, x, claims, live, a, b);
    } else if a !in group && Edge(v.graph, |v.names|, i, j) {
      SocketsHang(net, group, hub, x, claims, live, a, b);
    }
  }

  // ---------------------------------------------------------------- distances

  /** `d` is the least number of connections from x to y. */
  ghost predicate Hops(net: Net, x: nat, y: nat, d: nat)
    requires Shape(net)
  {
    && (exists way :: Connected(net, way, x, y) && |way| == d + 1)
    && (forall way :: Connected(net, way, x, y) ==> |way| >= d + 1)
  }

  lemma WayOnwards(net: Net, way: seq<nat>, x: nat, y: nat, z: nat)
    requires Shape(net) && Connected(net, way, x, y) && y < net.n && z in net.peers[y]
    ensures Connected(net, way + [z], x, z)
  {
    var w := way + [z];
    forall i | 0 <= i < |w| - 1
      ensures w[i] < net.n && w[i + 1] in net.peers[w[i]]
    {
      if i < |way| - 1 {
        assert way[i + 1] in net.peers[way[i]];
      }
    }
  }

  lemma WayFrom(net: Net, way: seq<nat>, x: nat, y: nat, z: nat)
    requires Shape(net) && Connected(net, way, y, z) && x < net.n && y in net.peers[x]
    ensures Connected(net, [x] + way, x, z)
  {
    var w := [x] + way;
    forall i | 0 <= i < |w| - 1
      ensures w[i] < net.n && w[i + 1] in net.peers[w[i]]
    {
      if i > 0 {
        assert way[i - 1 + 1] in net.peers[way[i - 1]];
      }
    }
  }

  lemma WayBefore(net: Net, way: seq<nat>, x: nat, y: nat) returns (z: nat)
    requires Shape(net) && Connected(net, way, x, y) && |way| > 1
    ensures z < net.n && Connected(net, way[..|way| - 1], x, z) && y in net.peers[z]
  {
    z := way[|way| - 2];
    assert way[|way| - 2 + 1] in net.peers[z];
    var w := way[..|way| - 1];
    forall i | 0 <= i < |w| - 1
      ensures w[i] < net.n && w[i + 1] in net.peers[w[i]]
    {
      assert way[i + 1] in net.peers[way[i]];
    }
  }

  /** The place of an address in a list, -1 if it is not there: what nl_index returns. */
  function Rank(names: seq<Name>, u: Name): (r: int)
    ensures -1 <= r < |names|
    ensures r == -1 <==> u !in names
    ensures r >= 0 ==> names[r] == u
  {
    if names == [] then -1
    else if names[|names| - 1] == u then |names| - 1
    else Rank(names[..|names| - 1], u)
  }

  lemma NodePlace(net: Net, group: set<nat>, hub: nat, x: nat, v: View, y: nat)
    requires Ready(net, group, hub, x, v) && y in group
    ensures var k := Rank(v.names, y); 0 <= k < |v.names| && v.names[k] == y && (k == v.my <==> y == x)
  {
    SeenCurrent(net, x);
    NamesComplete(net, group, hub, x);
    assert y in Names(v.names);
  }

  /** No way over connections is shorter than the distance in the node's table. */
  lemma {:induction false} WayNotShorter(net: Net, group: set<nat>, hub: nat, x: nat, v: View, way: seq<nat>, j: nat)
    requires Ready(net, group, hub, x, v) && j < |v.names| && Connected(net, way, x, v.names[j])
    ensures v.names[j] in group && v.dist[j] <= |way| - 1 && v.dist[j] < INFINITY
    decreases |way|
  {
    var g, n := v.graph, |v.names|;
    assert EntryFits(g, n, v.my, v.dist, v.prev, j);
    if |way| == 1 {
      assert EntryFits(g, n, v.my, v.dist, v.prev, v.my) && j == v.my;
    } else {
      var z := WayBefore(net, way, x, v.names[j]);
      StaysIn(net, group, hub, x, way[..|way| - 1], z);
      NodePlace(net, group, hub, x, v, z);
      var k := Rank(v.names, z);
      WayNotShorter(net, group, hub, x, v, way[..|way| - 1], k);
      assert v.names[j] in group;
      EdgesReal(net, group, hub, x, v, k, j);
      assert EntryFits(g, n, v.my, v.dist, v.prev, k);
    }
  }

  lemma {:induction false} StaysIn(net: Net, group: set<nat>, hub: nat, x: nat, way: seq<nat>, y: nat)
    requires Settled(net, group, hub) && x in group && Connected(net, way, x, y)
    ensures y in group
    decreases |way|
  {
    if |way| > 1 {
      var z := WayBefore(net, way, x, y);
      StaysIn(net, group, hub, x, way[..|way| - 1], z);
    }
  }

  /** The previous hop on the way to a node is a node. */
  lemma PrevIsNode(net: Net, group: set<nat>, hub: nat, x: nat, v: View, j: nat)
    requires Ready(net, group, hub, x, v) && j < |v.names| && j != v.my && v.names[j] in group && v.dist[j] < INFINITY
    ensures 0 <= v.prev[j] < |v.names| && v.dist[j] == v.dist[v.prev[j]] + 1 && 0 < v.dist[j]
    ensures v.names[v.prev[j]] in group && v.names[v.prev[j]] < net.n && v.names[j] in net.peers[v.names[v.prev[j]]]
  {
    assert EntryFits(v.graph, |v.names|, v.my, v.dist, v.prev, j);
    EdgesReal(net, group, hub, x, v, v.prev[j], j);
  }

  lemma FirstHopFrom(net: Net, group: set<nat>, hub: nat, x: nat, v: View, j: nat)
    requires Ready(net, group, hub, x, v) && j < |v.names| && j != v.my && 0 <= v.prev[j] < |v.names|
    requires v.dist[j] < INFINITY
    ensures Tables(v.graph, |v.names|, v.my, v.dist, v.prev) && v.names[v.my] == x && x < net.n && Shape(net)
    ensures FirstHop(v.graph, |v.names|, v.my, v.dist, v.prev, j)
            == if v.prev[j] == v.my then Hop(j) else FirstHop(v.graph, |v.names|, v.my, v.dist, v.prev, v.prev[j])
  {
    assert EntryFits(v.graph, |v.names|, v.my, v.dist, v.prev, j);
  }

  /** The way that the table describes, from the first hop on. */
  ghost function TableWay(net: Net, group: set<nat>, hub: nat, x: nat, v: View, j: nat): (way: seq<nat>)
    requires Ready(net, group, hub, x, v) && j < |v.names| && j != v.my && v.names[j] in group && v.dist[j] < INFINITY
    ensures var h := FirstHop(v.graph, |v.names|, v.my, v.dist, v.prev, j);
            && h.Hop? && v.names[h.node] in group && v.names[h.node] in net.peers[x]
            && Connected(net, way, v.names[h.node], v.names[j]) && |way| == v.dist[j]
    decreases v.dist[j]
  {
    hide Settled, Updated, Tables;
    PrevIsNode(net, group, hub, x, v, j);
    FirstHopFrom(net, group, hub, x, v, j);
    if v.prev[j] == v.my then [v.names[j]]
    else
      var way := TableWay(net, group, hub, x, v, v.prev[j]);
      WayOnwards(net, way, way[0], v.names[v.prev[j]], v.names[j]);
      way + [v.names[j]]
  }

  lemma WayBetween(net: Net, group: set<nat>, hub: nat, x: nat, y: nat)
    requires Settled(net, group, hub) && x in group && y in group
    ensures exists way :: Connected(net, way, x, y)
  {
    var wx :| Connected(net, wx, hub, x);
    var wy :| Connected(net, wy, hub, y);
    hide Inv, Views, Inward, Component;
    ConnectedBack(net, wx, hub, x);
    var way := JoinWays(net, Reversed(wx), wy, x, hub, y);
  }

  function Reversed(way: seq<nat>): (r: seq<nat>)
    ensures |r| == |way| && forall i | 0 <= i < |r| :: r[i] == way[|way| - 1 - i]
  {
    if way == [] then [] else Reversed(way[1..]) + [way[0]]
  }

  lemma ConnectedBack(net: Net, way: seq<nat>, x: nat, y: nat)
    requires Shape(net) && Quiet(net) && Connected(net, way, x, y)
    ensures Connected(net, Reversed(way), y, x)
  {
    var back := Reversed(way);
    forall i | 0 <= i < |back| - 1
      ensures back[i] < net.n && back[i + 1] in net.peers[back[i]]
    {
      var j := |way| - 2 - i;
      assert way[j] < net.n && way[j + 1] in net.peers[way[j]];
    }
  }

  lemma {:induction false} JoinWays(net: Net, v: seq<nat>, w: seq<nat>, x: nat, y: nat, z: nat) returns (way: seq<nat>)
    requires Shape(net) && Connected(net, v, x, y) && Connected(net, w, y, z)
    ensures Connected(net, way, x, z)
    decreases |w|
  {
    if |w| == 1 {
      way := v;
    } else {
      var u := WayBefore(net, w, y, z);
      var up := JoinWays(net, v, w[..|w| - 1], x, y, u);
      WayOnwards(net, up, x, u, z);
      way := up + [z];
    }
  }

  /** The distance in a node's table is the least number of connections between the two nodes. */
  lemma TableIsHops(net: Net, group: set<nat>, hub: nat, x: nat, v: View, j: nat)
    requires Ready(net, group, hub, x, v) && j < |v.names| && v.names[j] in group
    ensures 0 <= v.dist[j] < INFINITY && Hops(net, x, v.names[j], v.dist[j])
  {
    WayBetween(net, group, hub, x, v.names[j]);
    var some :| Connected(net, some, x, v.names[j]);
    WayNotShorter(net, group, hub, x, v, some, j);
    assert EntryFits(v.graph, |v.names|, v.my, v.dist, v.prev, j);
    if j == v.my {
      assert Connected(net, [x], x, x);
    } else {
      var way := TableWay(net, group, hub, x, v, j);
      WayFrom(net, way, x, way[0], v.names[j]);
      assert Connected(net, [x] + way, x, v.names[j]);
    }
    hide Ready, Connected, EntryFits;
    forall way | Connected(net, way, x, v.names[j])
      ensures |way| >= v.dist[j] + 1
    {
      WayNotShorter(net, group, hub, x, v, way, j);
    }
  }

  /** The first hop is a peer, and one connection nearer to the destination. */
  lemma HopNearer(net: Net, group: set<nat>, hub: nat, x: nat, v: View, j: nat)
    requires Ready(net, group, hub, x, v) && j < |v.names| && v.names[j] in group && j != v.my
    ensures Tables(v.graph, |v.names|, v.my, v.dist, v.prev)
    ensures var h := FirstHop(v.graph, |v.names|, v.my, v.dist, v.prev, j);
            && h.Hop? && v.names[h.node] in group && v.names[h.node] in net.peers[x]
            && v.dist[j] > 0 && Hops(net, x, v.names[j], v.dist[j])
            && Hops(net, v.names[h.node], v.names[j], v.dist[j] - 1)
  {
    TableIsHops(net, group, hub, x, v, j);
    assert EntryFits(v.graph, |v.names|, v.my, v.dist, v.prev, j);
    var way := TableWay(net, group, hub, x, v, j);
    var h := way[0];
    assert Connected(net, way, h, v.names[j]);
    forall w | Connected(net, w, h, v.names[j])
      ensures |w| >= v.dist[j]
    {
      WayFrom(net, w, x, h, v.names[j]);
      assert Connected(net, [x] + w, x, v.names[j]);
    }
  }

  // ---------------------------------------------------------------- and so packets arrive

  /** Every node of the group has a view, each of its own. */
  ghost predicate Drawn(net: Net, group: set<nat>, hub: nat, views: map<nat, View>) {
    views.Keys == group && forall x | x in group :: Ready(net, group, hub, x, views[x])
  }

  datatype Fate = Arrived | Lost | Sent(to: Name, ttl: int)

  /** The tables of a view, and the places in its list of the addresses it has a live connection to. */
  ghost function AsRouter(v: View): Router {
    Router(v.dist, v.prev, set i: nat | i < |v.names| && v.names[i] in v.live)
  }

  /** What a node does with a packet, by names. */
  ghost function Fares(v: View, dest: Name, ttl: int): Fate
    requires Tables(v.graph, |v.names|, v.my, v.dist, v.prev)
  {
    match Decide(v.graph, |v.names|, v.my, AsRouter(v), Rank(v.names, dest), ttl)
    case Deliver => Arrived
    case Drop => Lost
    case Forward(h, left) => Sent(v.names[h], left)
  }

  /** A packet arrives at the node it is for and nowhere else; one for an address that a node does not have on its list
      is lost there, whatever its time to live. */
  lemma FaresUnknown(net: Net, x: nat, v: View, dest: Name, ttl: int)
    requires Shape(net) && x < net.n && Updated(net, x, v)
    ensures Fares(v, dest, ttl).Arrived? <==> dest == x
    ensures dest !in v.names ==> Fares(v, dest, ttl).Lost?
  {
    var j := Rank(v.names, dest);
    Decides(v.graph, |v.names|, v.my, AsRouter(v), j, ttl);
    if j >= 0 && dest == x {
      assert v.names[j] == v.names[v.my];
    }
    hide Lists, Draws;
  }

  /** In a settled network no packet for any other address than those of the component gets anywhere, socket addresses
      on the nodes' lists included. */
  lemma FaresNowhere(net: Net, group: set<nat>, hub: nat, x: nat, v: View, dest: Name, ttl: int)
    requires Ready(net, group, hub, x, v) && dest !in group
    ensures Tables(v.graph, |v.names|, v.my, v.dist, v.prev) && Fares(v, dest, ttl).Lost?
  {
    FaresUnknown(net, x, v, dest, ttl);
    if dest in v.names {
      SocketHop(net, group, hub, x, v, Rank(v.names, dest));
      Decides(v.graph, |v.names|, v.my, AsRouter(v), Rank(v.names, dest), ttl);
    }
  }

  /** The way to a socket's place is a single link, which is no live connection. */
  lemma SocketHop(net: Net, group: set<nat>, hub: nat, x: nat, v: View, j: nat)
    requires Ready(net, group, hub, x, v) && j < |v.names| && v.names[j] !in group && j != v.my
    ensures Tables(v.graph, |v.names|, v.my, v.dist, v.prev)
    ensures !HopAlive(v.graph, |v.names|, v.my, AsRouter(v), j)
  {
    SeenCurrent(net, x);
    assert EntryFits(v.graph, |v.names|, v.my, v.dist, v.prev, j);
    if v.dist[j] != INFINITY {
      EdgesReal(net, group, hub, x, v, j, v.prev[j]);
      EdgeBack(net, x, v, v.prev[j], j);
    }
    hide Settled, Updated, Tables;
  }

  lemma EdgeBack(net: Net, x: nat, v: View, i: nat, j: nat)
    requires Shape(net) && x < net.n && Updated(net, x, v) && i < |v.names| && j < |v.names|
    ensures Edge(v.graph, |v.names|, i, j) ==> Edge(v.graph, |v.names|, j, i)
  {
    var claims, live :| Lists(net.seen[x], claims, live) && Draws(v.graph, v.names, LinksOf(claims, live, x));
    GraphSymmetric(v.graph, v.names, LinksOf(claims, live, x), i, j);
  }

  /** The connections between two nodes. */
  ghost function Distance(net: Net, group: set<nat>, hub: nat, views: map<nat, View>, x: nat, dest: nat): (d: nat)
    requires Drawn(net, group, hub, views) && x in group && dest in group
    ensures Shape(net) && Hops(net, x, dest, d)
  {
    NodePlace(net, group, hub, x, views[x], dest);
    var j := Rank(views[x].names, dest);
    TableIsHops(net, group, hub, x, views[x], j);
    views[x].dist[j]
  }

  lemma HopsUnique(net: Net, x: nat, y: nat, d: nat, e: nat)
    requires Shape(net) && Hops(net, x, y, d) && Hops(net, x, y, e)
    ensures d == e
  {
  }

  lemma LiveArePeers(net: Net, group: set<nat>, hub: nat, x: nat, v: View)
    requires Ready(net, group, hub, x, v)
    ensures v.live == net.peers[x]
  {
    SeenCurrent(net, x);
  }

  /** The view's own account of a packet for another node: it is out of time, or it goes on. */
  lemma FaresOn(net: Net, group: set<nat>, hub: nat, x: nat, v: View, dest: nat, ttl: int)
    requires Ready(net, group, hub, x, v) && dest in group && x != dest && ttl != 0
    ensures Tables(v.graph, |v.names|, v.my, v.dist, v.prev)
    ensures var f := Fares(v, dest, ttl);
            && f.Sent? && f.ttl == ttl - 1 && f.to in group && f.to in net.peers[x]
            && exists d: nat :: Hops(net, x, dest, d + 1) && Hops(net, f.to, dest, d)
  {
    NodePlace(net, group, hub, x, v, dest);
    var j := Rank(v.names, dest);
    HopNearer(net, group, hub, x, v, j);
    LiveArePeers(net, group, hub, x, v);
    hide Hops, Settled, Updated;
    var y := v.names[FirstHop(v.graph, |v.names|, v.my, v.dist, v.prev, j).node];
    var d: nat := v.dist[j] - 1;
    assert Hops(net, x, dest, d + 1) && Hops(net, y, dest, d);
  }

  lemma FaresHere(net: Net, group: set<nat>, hub: nat, x: nat, v: View, dest: nat, ttl: int)
    requires Ready(net, group, hub, x, v) && dest in group && (x == dest || ttl == 0)
    ensures Tables(v.graph, |v.names|, v.my, v.dist, v.prev)
    ensures Fares(v, dest, ttl) == if x == dest then Arrived else Lost
  {
    NodePlace(net, group, hub, x, v, dest);
  }

  /** What happens to a packet at a node: it has arrived, or it is dropped when its time is up, or it goes to a
      peer one connection nearer. */
  lemma FaresWell(net: Net, group: set<nat>, hub: nat, views: map<nat, View>, x: nat, dest: nat, ttl: int)
    requires Drawn(net, group, hub, views) && x in group && dest in group
    ensures Shape(net) && x < net.n && x in views
    ensures Tables(views[x].graph, |views[x].names|, views[x].my, views[x].dist, views[x].prev)
    ensures match Fares(views[x], dest, ttl)
            case Arrived => x == dest
            case Lost => x != dest && ttl == 0
            case Sent(y, left) =>
              && x != dest && ttl != 0 && left == ttl - 1 && y in group && y in net.peers[x]
              && Distance(net, group, hub, views, x, dest) == Distance(net, group, hub, views, y, dest) + 1
  {
    assert Ready(net, group, hub, x, views[x]);
    hide Ready, Hops, Fares, Distance, Tables;
    if x == dest || ttl == 0 {
      FaresHere(net, group, hub, x, views[x], dest, ttl);
    } else {
      FaresOn(net, group, hub, x, views[x], dest, ttl);
      var y := Fares(views[x], dest, ttl).to;
      var d: nat :| Hops(net, x, dest, d + 1) && Hops(net, y, dest, d);
      HopsUnique(net, y, dest, d, Distance(net, group, hub, views, y, dest));
      HopsUnique(net, x, dest, d + 1, Distance(net, group, hub, views, x, dest));
    }
    ReadyInRange(net, group, hub, x, views[x]);
  }

  lemma ReadyInRange(net: Net, group: set<nat>, hub: nat, x: nat, v: View)
    requires Ready(net, group, hub, x, v)
    ensures Shape(net) && x < net.n
  {
  }

  /** The nodes a packet visits. */
  ghost function Route(net: Net, group: set<nat>, hub: nat, views: map<nat, View>, x: nat, dest: nat, ttl: int)
    : (t: seq<nat>)
    requires Drawn(net, group, hub, views) && x in group && dest in group
    ensures |t| > 0 && t[0] == x
    decreases Distance(net, group, hub, views, x, dest)
  {
    FaresWell(net, group, hub, views, x, dest, ttl);
    match Fares(views[x], dest, ttl)
    case Sent(y, left) => [x] + Route(net, group, hub, views, y, dest, left)
    case _ => [x]
  }

  lemma {:induction false} RouteEnds(net: Net, group: set<nat>, hub: nat, views: map<nat, View>,
                                     x: nat, dest: nat, ttl: int)
    requires Drawn(net, group, hub, views) && x in group && dest in group
    ensures var t := Route(net, group, hub, views, x, dest, ttl);
            var d := Distance(net, group, hub, views, x, dest);
            && (t[|t| - 1] == dest <==> ttl < 0 || d <= ttl)
            && (t[|t| - 1] == dest ==> |t| == d + 1)
    decreases Distance(net, group, hub, views, x, dest)
  {
    hide Ready, Distance, Fares, Hops;
    FaresWell(net, group, hub, views, x, dest, ttl);
    match Fares(views[x], dest, ttl)
    case Sent(y, left) => RouteEnds(net, group, hub, views, y, dest, left);
    case Arrived => DistanceToSelf(net, group, hub, views, x);
    case Lost => DistanceToOther(net, group, hub, views, x, dest);
  }

  lemma DistanceToSelf(net: Net, group: set<nat>, hub: nat, views: map<nat, View>, x: nat)
    requires Drawn(net, group, hub, views) && x in group
    ensures Distance(net, group, hub, views, x, x) == 0
  {
    assert Ready(net, group, hub, x, views[x]);
    assert Connected(net, [x], x, x);
  }

  lemma DistanceToOther(net: Net, group: set<nat>, hub: nat, views: map<nat, View>, x: nat, y: nat)
    requires Drawn(net, group, hub, views) && x in group && y in group && x != y
    ensures Distance(net, group, hub, views, x, y) > 0
  {
    var d := Distance(net, group, hub, views, x, y);
    var way :| Connected(net, way, x, y) && |way| == d + 1;
  }

  /** The whole protocol: after any honest run that has settled, each node of a component holding what its own
      last update made of what it then saw, a packet from any node of the component reaches any other one
      exactly if its time to live is negative or at least the least number of connections between the two,
      and then over just so many.  The nodes' lists and graphs may differ in socket addresses. */
  lemma PacketsArrive(run: seq<Net>, steps: seq<Step>, i: nat, group: set<nat>, hub: nat, views: map<nat, View>,
                      x: nat, dest: nat, ttl: int)
    requires HonestRun(run, steps) && i < |run| && Quiet(run[i]) && Component(run[i], group, hub)
    requires views.Keys == group && forall y | y in group :: y < run[i].n && Updated(run[i], y, views[y])
    requires x in group && dest in group
    ensures Drawn(run[i], group, hub, views)
    ensures exists d: nat ::
              && Hops(run[i], x, dest, d)
              && var t := Route(run[i], group, hub, views, x, dest, ttl);
                 && (t[|t| - 1] == dest <==> ttl < 0 || d <= ttl)
                 && (t[|t| - 1] == dest ==> |t| == d + 1)
  {
    hide Settled, Updated, Hops, Component, Quiet, HonestRun;
    RunSettled(run, steps, i, group, hub);
    RouteEnds(run[i], group, hub, views, x, dest, ttl);
    assert Hops(run[i], x, dest, Distance(run[i], group, hub, views, x, dest));
  }

  // ---------------------------------------------------------------- when all graphs are the same

  /** The entry of two nodes shows whether they are connected. */
  predicate EntryShows(net: Net, v: View, i: nat, j: nat)
    requires Shape(net) && Matrix(v.graph, |v.names|) && i < |v.names| && j < |v.names|
  {
    IndexInRange(i, j, |v.names|);
    v.names[i] < net.n && v.graph[Index(i, j, |v.names|)] == if v.names[j] in net.peers[v.names[i]] then 1 else 0
  }

  lemma EntriesShow(net: Net, group: set<nat>, hub: nat, x: nat, v: View)
    requires Ready(net, group, hub, x, v) && net.names[x] == group
    ensures Matrix(v.graph, |v.names|)
    ensures forall i: nat, j: nat | i < |v.names| && j < |v.names| :: EntryShows(net, v, i, j)
  {
    SeenCurrent(net, x);
    var claims, live :| Lists(net.seen[x], claims, live) && Draws(v.graph, v.names, LinksOf(claims, live, x));
    forall i: nat, j: nat | i < |v.names| && j < |v.names|
      ensures EntryShows(net, v, i, j)
    {
      assert EntryDraws(v.graph, v.names, LinksOf(claims, live, x), i, j);
      assert v.names[i] in Names(v.names) && v.names[j] in Names(v.names);
      SeesLinks(net, group, hub, x, claims, live, v.names[i], v.names[j]);
    }
  }

  lemma EntryDetermined(net: Net, v: View, w: View, i: nat, j: nat)
    requires Shape(net) && Matrix(v.graph, |v.names|) && Matrix(w.graph, |w.names|) && v.names == w.names
    requires i < |v.names| && j < |v.names| && EntryShows(net, v, i, j) && EntryShows(net, w, i, j)
    ensures Index(i, j, |v.names|) < |v.graph| && v.graph[Index(i, j, |v.names|)] == w.graph[Index(i, j, |v.names|)]
  {
    IndexInRange(i, j, |v.names|);
  }

  lemma SameMatrix(net: Net, group: set<nat>, hub: nat, x: nat, y: nat, v: View, w: View)
    requires Ready(net, group, hub, x, v) && Ready(net, group, hub, y, w) && v.names == w.names
    requires net.names[x] == group && net.names[y] == group
    ensures v.graph == w.graph
  {
    EntriesShow(net, group, hub, x, v);
    EntriesShow(net, group, hub, y, w);
    hide Settled, Updated, EntryShows;
    var n := |v.names|;
    forall k | 0 <= k < |v.graph|
      ensures v.graph[k] == w.graph[k]
    {
      IndexOnto(k, n);
      EntryDetermined(net, v, w, Division.Rem(k, n), Division.Quot(k, n));
    }
  }

  /** Two nodes of a component have the same list exactly if they have heard of the same addresses; and if
      those are nodes only they have the same matrix, in which two nodes are linked iff they are connected. */
  lemma SameGraph(net: Net, group: set<nat>, hub: nat, x: nat, y: nat, v: View, w: View)
    requires Ready(net, group, hub, x, v) && Ready(net, group, hub, y, w)
    ensures v.names == w.names <==> net.names[x] == net.names[y]
    ensures net.names[x] == group && net.names[y] == group ==> v.names == w.names && v.graph == w.graph
  {
    SeenCurrent(net, x);
    SeenCurrent(net, y);
    hide Settled, Tables;
    if net.names[x] == net.names[y] {
      AscendingUnique(v.names, w.names);
    }
    if net.names[x] == group && net.names[y] == group {
      SameMatrix(net, group, hub, x, y, v, w);
    }
  }
}
