/** A run after which two connected nodes have different lists.  Node 0 accepts connections from 1 and 2 and
    gossips as soon as 1 has said hello: it lists the socket of 2, node 1 keeps that for good, and node 0
    itself never has it. */
module StrangerRun {
  import opened GossipTable
  import opened Flooding
  import opened FloodingProof
  import opened Convergence
  import opened EndToEnd
  import opened Strangers
  import opened Settling

  const SOCKET_OF_1: Address := 3
  const SOCKET_OF_2: Address := 4

  function Opening(k: nat): Step
    requires k < 4
  {
    if k == 0 then OpenLink(0, 1, Incoming(SOCKET_OF_1))
    else if k == 1 then OpenLink(1, 0, Outgoing)
    else if k == 2 then OpenLink(0, 2, Incoming(SOCKET_OF_2))
    else OpenLink(2, 0, Outgoing)
  }

  function PeersAt(k: nat): (p: seq<set<nat>>)
    ensures |p| == 3
  {
    [if k < 1 then {} else if k < 3 then {1} else {1, 2}, if k < 2 then {} else {0}, if k < 4 then {} else {0}]
  }

  function SocketsAt(k: nat): (s: seq<map<nat, Address>>)
    ensures |s| == 3
  {
    [if k < 1 then map[] else if k < 3 then map[1 := SOCKET_OF_1] else map[1 := SOCKET_OF_1, 2 := SOCKET_OF_2],
     map[], map[]]
  }

  function HellosAt(k: nat): multiset<Message>
    requires k <= 4
  {
    if k == 0 then multiset{} else HellosAt(k - 1) + multiset{Hello(Opening(k - 1).x, Opening(k - 1).y)}
  }

  /** Before anything, and after each of the four connection ends has been opened. */
  function Opened(k: nat): Net
    requires k <= 4
  {
    Net(3, PeersAt(k), [map[], map[], map[]], [[], [], []], HellosAt(k), [{0}, {1}, {2}], [{}, {}, {}],
        SocketsAt(k), [Sight({0}, map[], {}), Sight({1}, map[], {}), Sight({2}, map[], {})])
  }

  lemma {:induction false} NoRecords(x: nat, y: nat, k: nat)
    ensures AllRecords(x, y, map[], k) == multiset{}
  {
    if k > 0 {
      NoRecords(x, y, k - 1);
    }
  }

  /** A node without records opens a connection: it says hello and no more. */
  lemma OpensPlainly(net: Net, x: nat, y: nat, how: How)
    requires Shape(net) && Enabled(net, OpenLink(x, y, how)) && net.known[x] == map[]
    ensures var sockets: map<nat, Address> := if how.Incoming? then net.socket[x][y := how.socket] else net.socket[x];
            Next(net, OpenLink(x, y, how))
            == net.(peers := net.peers[x := net.peers[x] + {y}], flight := net.flight + multiset{Hello(x, y)},
                    socket := net.socket[x := sockets])
  {
    NoRecords(x, y, net.n);
    hide AllRecords;
    assert net.flight + multiset{Hello(x, y)} + multiset{} == net.flight + multiset{Hello(x, y)};
    if how.Outgoing? {
      assert net.socket[x := net.socket[x]] == net.socket;
    }
  }

  lemma OpeningPeers(k: nat)
    requires k < 4
    ensures var o := Opening(k);
            && o.x < 3 && o.y < 3 && o.x != o.y && o.y !in PeersAt(k)[o.x]
            && PeersAt(k + 1) == PeersAt(k)[o.x := PeersAt(k)[o.x] + {o.y}]
  {
    assert {1} + {2} == {1, 2};
    var o := Opening(k);
    var peers := PeersAt(k)[o.x := PeersAt(k)[o.x] + {o.y}];
    assert PeersAt(k + 1)[0] == peers[0] && PeersAt(k + 1)[1] == peers[1] && PeersAt(k + 1)[2] == peers[2];
  }

  lemma OpeningSockets(k: nat)
    requires k < 4
    ensures var o := Opening(k); var was := SocketsAt(k);
            && (o.how.Incoming? ==> o.how.socket >= 3)
            && (o.how.Outgoing? ==> SocketsAt(k + 1) == was)
            && (o.how.Incoming? ==> SocketsAt(k + 1)[0] == was[0][o.y := o.how.socket] && o.x == 0)
            && SocketsAt(k + 1)[1] == was[1] && SocketsAt(k + 1)[2] == was[2]
  {
  }

  lemma OpeningEnabled(k: nat)
    requires k < 4
    ensures Shape(Opened(k)) && Enabled(Opened(k), Opening(k)) && Honest(Opened(k), Opening(k))
  {
    OpeningPeers(k);
    OpeningSockets(k);
    OpenedShape(k);
    hide PeersAt, SocketsAt, HellosAt, Shape;
  }

  lemma OpenedShape(k: nat)
    requires k <= 4
    ensures Shape(Opened(k))
  {
    hide SocketsAt, HellosAt;
    var net := Opened(k);
    forall x: nat, y | x < 3 && y in net.peers[x]
      ensures y < 3 && y != x
    {
      assert x == 0 || x == 1 || x == 2;
    }
    forall x: nat | x < 3
      ensures net.known[x] == map[]
    {
      assert x == 0 || x == 1 || x == 2;
    }
  }

  lemma OpeningStep(k: nat)
    requires k < 4
    ensures Shape(Opened(k)) && Enabled(Opened(k), Opening(k)) && Honest(Opened(k), Opening(k))
    ensures Next(Opened(k), Opening(k)) == Opened(k + 1)
  {
    OpeningEnabled(k);
    OpeningPeers(k);
    OpeningSockets(k);
    var net, o := Opened(k), Opening(k);
    assert o == OpenLink(o.x, o.y, o.how);
    hide PeersAt, SocketsAt, Opening, Next, Enabled, Honest, Shape;
    OpensPlainly(net, o.x, o.y, o.how);
    var sockets: map<nat, Address> := if o.how.Incoming? then net.socket[o.x][o.y := o.how.socket] else net.socket[o.x];
    assert SocketsAt(k + 1) == net.socket[o.x := sockets];
  }

  /** All connections are open, and hellos alone are in flight. */
  ghost predicate Waiting(net: Net) {
    && Shape(net) && net.n == 3 && net.peers == [{1, 2}, {0}, {0}] && net.known == [map[], map[], map[]]
    && net.said == [[], [], []] && net.names == [{0}, {1}, {2}] && net.met == [{}, {}, {}]
    && net.socket == [map[1 := SOCKET_OF_1, 2 := SOCKET_OF_2], map[], map[]]
    && Hello(1, 0) in net.flight && forall m | m in net.flight :: m.Hello?
  }

  lemma OpenedWaits()
    ensures Waiting(Opened(4))
  {
    OpenedShape(4);
    assert HellosAt(1) == multiset{Hello(0, 1)};
    assert HellosAt(2) == HellosAt(1) + multiset{Hello(1, 0)};
    assert HellosAt(3) == HellosAt(2) + multiset{Hello(0, 2)};
    hide Shape;
  }

  /** Node 1's hello reaches node 0, and then what node 0 says of it reaches node 1. */
  function Greeting(): Step {
    DeliverHello(Hello(1, 0), [1, SOCKET_OF_2])
  }

  function Telling(): Step {
    DeliverGossip(Gossip(0, 1, Record(0, 1, [1, SOCKET_OF_2])))
  }

  lemma GreetingStep(net: Net)
    requires Waiting(net)
    ensures Enabled(net, Greeting()) && Honest(net, Greeting())
  {
    var heard := Hear(net, 0, 1);
    assert heard.met[0] == {1} && heard.socket[0] == map[1 := SOCKET_OF_1, 2 := SOCKET_OF_2];
    assert (set y | y in heard.socket[0] && y !in heard.met[0] :: heard.socket[0][y]) == {heard.socket[0][2]};
    assert Listed(heard, 0) == {1, SOCKET_OF_2};
    assert Members([1, SOCKET_OF_2]) == {1, SOCKET_OF_2};
  }

  lemma GreetingFacts(net: Net)
    requires Waiting(net) && Enabled(net, Greeting())
    ensures var net' := Next(net, Greeting()); var rec := Record(0, 1, [1, SOCKET_OF_2]);
            && Shape(net') && net'.n == 3 && net'.peers == net.peers && net'.known == net.known
            && net'.socket == net.socket
            && net'.names[0] == {0, 1} && net'.said[1] == [] && net'.said[2] == []
            && Gossip(0, 1, rec) in net'.flight && forall m | m in net'.flight && m.Gossip? :: m.from == 0
  {
    hide Listed;
    var rec := Record(0, 1, [1, SOCKET_OF_2]);
    var out := Broadcast(0, rec, {1, 2}, 3);
    assert Gossip(0, 1, rec) in out && forall m | m in out :: m.from == 0;
    hide Broadcast;
    assert net.said[0] + [[1, SOCKET_OF_2]] == [[1, SOCKET_OF_2]];
    assert Next(net, Greeting()).flight == Take(net, Hello(1, 0)).flight + out;
  }

  /** What node 0 says reaches node 1, as news that lists a socket. */
  lemma TellingStep(net: Net)
    requires Waiting(net) && Enabled(net, Greeting())
    ensures var net' := Next(net, Greeting());
            Shape(net') && Enabled(net', Telling()) && HearsStranger(net', Telling(), 1)
  {
    GreetingFacts(net);
    hide Next;
    assert SOCKET_OF_2 in Members([1, SOCKET_OF_2]);
  }

  // ---------------------------------------------------------------- node 0 never hears of it

  /** Nodes 1 and 2 are connected to node 0 only, know nothing of sockets themselves, and node 0 is not told
      its own words. */
  ghost predicate Star(net: Net) {
    && Shape(net) && net.n == 3 && net.peers == [{1, 2}, {0}, {0}] && net.socket[1] == map[] && net.socket[2] == map[]
    && !Strange(net, net.names[0]) && Plain(net, {1, 2})
    && forall m | m in net.flight && m.Gossip? && m.to == 0 :: m.rec.src != 0
  }

  lemma StarIntroduced(net: Net, step: Step)
    requires Star(net) && Enabled(net, step)
    ensures Introduced(net, step, {1, 2})
  {
  }

  lemma StarNotTold(net: Net, step: Step)
    requires Inv(net) && Star(net) && Enabled(net, step)
    ensures !HearsStranger(net, step, 0)
  {
    if step.DeliverGossip? && step.m.to == 0 {
      hide LinksTold, HellosWait, SendersKnow;
      var rec := step.m.rec;
      assert Truthful(net, rec);
      assert SaysPlain(net, rec.src, rec.counter - 1);
    }
  }

  lemma StarFlight(net: Net, step: Step)
    requires Inv(net) && Star(net) && Enabled(net, step) && Delivers(step)
    ensures forall m | m in Next(net, step).flight && m.Gossip? && m.to == 0 :: m.rec.src != 0
  {
    if step.DeliverGossip? {
      StarRelay(net, step.m);
    } else {
      hide RecordsTrue, LinksTold, HellosWait, Listed, Strange, Plain;
    }
  }

  /** Neither 1 nor 2 has anyone but 0 to pass gossip on to, and 0 does not pass it on to itself. */
  lemma StarRelay(net: Net, m: Message)
    requires Inv(net) && Star(net) && Enabled(net, DeliverGossip(m))
    ensures forall k | k in Next(net, DeliverGossip(m)).flight && k.Gossip? && k.to == 0 :: k.rec.src != 0
  {
    hide RecordsTrue, LinksTold, HellosWait, SendersKnow, Listed, Strange, Plain;
    var out := Broadcast(m.to, m.rec, net.peers[m.to] - {m.from}, net.n);
    assert m.from in net.peers[m.to];
    assert forall k | k in out :: k.to != 0;
    hide Broadcast;
  }

  lemma StarStep(net: Net, step: Step)
    requires Inv(net) && Views(net) && Star(net) && Enabled(net, step) && Honest(net, step) && Delivers(step)
    ensures Star(Next(net, step))
  {
    StarIntroduced(net, step);
    StepPlain(net, step, {1, 2});
    StarNotTold(net, step);
    StepStrange(net, step, 0);
    DeliveryKeeps(net, step);
    StarFlight(net, step);
    StarSockets(net, step);
    hide Next, Enabled, Inv, Views, Strange, Plain, HearsStranger, Introduced, Honest;
  }

  lemma StarSockets(net: Net, step: Step)
    requires Shape(net) && Enabled(net, step) && Delivers(step)
    ensures Next(net, step).socket == net.socket
  {
    hide Broadcast, Listed;
  }

  // ---------------------------------------------------------------- the run

  lemma OneStepOn(run: seq<Net>, steps: seq<Step>, step: Step)
    requires HonestRun(run, steps) && Enabled(run[|steps|], step) && Honest(run[|steps|], step)
    requires Shape(Next(run[|steps|], step))
    ensures HonestRun(run + [Next(run[|steps|], step)], steps + [step])
  {
    hide Next, Enabled, Honest, Start, Shape;
    var net := run[|steps|];
    var r, s := run + [Next(net, step)], steps + [step];
    forall i | 0 <= i < |s|
      ensures Enabled(r[i], s[i]) && r[i + 1] == Next(r[i], s[i]) && Honest(r[i], s[i])
    {
      if i < |steps| {
        assert r[i] == run[i] && r[i + 1] == run[i + 1];
      }
    }
  }

  lemma OpenedStart()
    ensures Start(Opened(0))
  {
    OpenedShape(0);
    forall x: nat | x < 3
      ensures Blank(Opened(0), x)
    {
      assert x == 0 || x == 1 || x == 2;
    }
  }

  lemma {:induction false} OpeningRun(k: nat) returns (run: seq<Net>, steps: seq<Step>)
    requires k <= 4
    ensures HonestRun(run, steps) && |steps| == k && run[k] == Opened(k)
  {
    if k == 0 {
      OpenedStart();
      run, steps := [Opened(0)], [];
    } else {
      run, steps := OpeningRun(k - 1);
      OpeningStep(k - 1);
      OpenedShape(k);
      OneStepOn(run, steps, Opening(k - 1));
      run, steps := run + [Opened(k)], steps + [Opening(k - 1)];
    }
  }

  /** Once node 0 has spoken the network is a star. */
  lemma SpokenStar(net: Net)
    requires Waiting(net) && Enabled(net, Greeting())
    ensures Shape(Next(net, Greeting())) && Star(Next(net, Greeting()))
  {
    GreetingFacts(net);
    hide Next, Greeting, Enabled;
  }

  /** A run to where node 0 has spoken. */
  lemma SpokenRun() returns (run: seq<Net>, steps: seq<Step>)
    ensures HonestRun(run, steps) && |steps| == 5 && Star(run[5])
    ensures Enabled(run[5], Telling()) && HearsStranger(run[5], Telling(), 1)
  {
    run, steps := OpeningRun(4);
    OpenedWaits();
    hide Opened, Waiting, Star, Next, Enabled, Honest, HearsStranger, HonestRun;
    var net := run[4];
    GreetingStep(net);
    SpokenStar(net);
    TellingStep(net);
    OneStepOn(run, steps, Greeting());
    run, steps := run + [Next(net, Greeting())], steps + [Greeting()];
  }

  /** A run to where node 1 has heard it. */
  lemma FirstRun() returns (run: seq<Net>, steps: seq<Step>)
    ensures HonestRun(run, steps) && |steps| == 6 && Star(run[6]) && HeardAt(run, steps, 5, 1)
  {
    var spoken, toSpeak := SpokenRun();
    var net := spoken[5];
    RunViews(spoken, toSpeak, 5);
    TellingHonest(net);
    StarStep(net, Telling());
    hide Star, Next, Enabled, Honest, HearsStranger, Inv, Views, Telling, Start;
    StarShape(Next(net, Telling()));
    OneStepOn(spoken, toSpeak, Telling());
    run, steps := spoken + [Next(net, Telling())], toSpeak + [Telling()];
  }

  lemma TellingHonest(net: Net)
    requires Shape(net)
    ensures Honest(net, Telling()) && Delivers(Telling())
  {
  }

  lemma StarShape(net: Net)
    requires Star(net)
    ensures Shape(net) && Symmetric(net)
  {
  }

  /** A star stays one while what is in flight is delivered. */
  lemma {:induction false} StarRun(run: seq<Net>, steps: seq<Step>, j: nat, i: nat)
    requires HonestRun(run, steps) && j <= i < |run| && Star(run[j])
    requires forall k | j <= k < i :: Delivers(steps[k])
    ensures Star(run[i])
  {
    hide Star, Next, Enabled, Honest, Inv, Views, Start;
    if j < i {
      StarRun(run, steps, j, i - 1);
      RunViews(run, steps, i - 1);
      StarStep(run[i - 1], steps[i - 1]);
    }
  }

  lemma StarWay(net: Net, x: nat)
    requires Star(net) && x < 3
    ensures exists way :: Connected(net, way, 0, x)
  {
    var way := if x == 0 then [0] else [0, x];
    assert Connected(net, way, 0, x);
  }

  lemma StarComponent(net: Net)
    requires Star(net)
    ensures Component(net, {0, 1, 2}, 0)
  {
    StarWay(net, 0);
    StarWay(net, 1);
    StarWay(net, 2);
    hide Connected;
    forall x | x in net.peers[0] + {0}
      ensures exists way :: Connected(net, way, 0, x)
    {
    }
  }

  /** A settled run after which nodes 0 and 1, though connected, have different lists: that of node 0 is exactly
      the component, that of node 1 holds a socket address too. */
  lemma ListsDiffer() returns (run: seq<Net>, steps: seq<Step>)
    ensures HonestRun(run, steps) && Quiet(run[|steps|]) && run[|steps|].n == 3
    ensures Component(run[|steps|], {0, 1, 2}, 0)
    ensures run[|steps|].names[0] == {0, 1, 2} != run[|steps|].names[1]
  {
    var first, firstSteps := FirstRun();
    StarShape(first[6]);
    run, steps := RunSettles(first, firstSteps);
    hide Star, Next, Enabled, Honest, Start, Inv, Views, Symmetric;
    var last := run[|steps|];
    assert run[6..][0] == first[6] && run[..6][5] == first[..6][5] && steps[..6][5] == firstSteps[5];
    assert run[6..][|steps| - 6] == last;
    forall k | 6 <= k < |steps|
      ensures Delivers(steps[k])
    {
      assert steps[6..][k - 6] == steps[k];
    }
    StarRun(run, steps, 6, |steps|);
    StarNames(run, steps);
  }

  lemma StarNames(run: seq<Net>, steps: seq<Step>)
    requires HonestRun(run, steps) && Quiet(run[|steps|]) && Star(run[|steps|]) && HeardAt(run, steps, 5, 1)
    ensures Component(run[|steps|], {0, 1, 2}, 0)
    ensures run[|steps|].names[0] == {0, 1, 2} != run[|steps|].names[1]
  {
    var last := run[|steps|];
    StarComponent(last);
    RunSettled(run, steps, |steps|, {0, 1, 2}, 0);
    NamesComplete(last, {0, 1, 2}, 0, 0);
    NodesKept(run, steps, |steps|);
    RunStrange(run, steps, |steps|, 1);
    hide Settled, Component, HeardAt, HonestRun, Plain;
    assert last.names[0] == set a | a in last.names[0] && a < last.n;
  }
}
