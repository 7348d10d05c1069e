/** From flooding to routing: what the nodes say, hear of and draw, and what they agree on in the end. */
module Convergence {
  import opened GossipTable
  import opened Flooding
  import opened FloodingProof

  function Members(payload: seq<Address>): set<Address> {
    set a | a in payload
  }

  /** A node that speaks lists its connections as send_gossip does, on a hello with the sender met. */
  predicate Honest(net: Net, step: Step)
    requires Shape(net)
  {
    match step
    case Speak(x, payload) => x < net.n && Members(payload) == Listed(net, x)
    case DeliverHello(m, payload) =>
      m.to < net.n && m.from < net.n && Members(payload) == Listed(Hear(net, m.to, m.from), m.to)
    case _ => true
  }

  ghost predicate HonestRun(run: seq<Net>, steps: seq<Step>) {
    && IsRun(run, steps) && Start(run[0])
    && forall i | 0 <= i < |steps| :: Honest(run[i], steps[i])
  }

  /** What node x said last. */
  function Latest(net: Net, x: nat): set<Address>
    requires Shape(net) && x < net.n
  {
    if net.said[x] == [] then {} else Members(net.said[x][|net.said[x]| - 1])
  }

  // ---------------------------------------------------------------- what nodes say, hear of and draw

  /** What x has said of nodes, rather than of sockets, is true. */
  predicate SaysTrue(net: Net, x: nat, k: nat)
    requires Shape(net) && x < net.n && k < |net.said[x]|
  {
    forall a | a in net.said[x][k] && a < net.n :: a in net.peers[x]
  }

  /** y's hello is still to come, or x has met y. */
  predicate Greeted(net: Net, x: nat, y: nat)
    requires Shape(net) && x < net.n && y < net.n
  {
    Hello(y, x) in net.flight || y in net.met[x]
  }

  predicate HeardOf(net: Net, x: nat, s: nat)
    requires Shape(net) && x < net.n && s in net.known[x]
  {
    Members(net.known[x][s].payload) <= net.names[x]
  }

  predicate Sockets(net: Net, x: nat)
    requires Shape(net) && x < net.n
  {
    && net.met[x] <= net.peers[x] && net.socket[x].Keys <= net.peers[x]
    && forall y | y in net.socket[x] :: net.socket[x][y] >= net.n
  }

  /** These addresses are listed for connections of x, and no node met since is missing. */
  predicate Recent(net: Net, x: nat, addresses: set<Address>)
    requires Shape(net) && x < net.n
  {
    net.met[x] <= addresses <= Listed(net, x)
  }

  /** What x said last is recent, and its graph shows its names, its records and recent connections. */
  predicate UpToDate(net: Net, x: nat)
    requires Shape(net) && x < net.n
  {
    && Recent(net, x, Latest(net, x)) && Recent(net, x, net.seen[x].live)
    && net.seen[x].names == net.names[x] && net.seen[x].known == net.known[x]
    && net.met[x] + {x} <= net.names[x]
  }

  ghost predicate Views(net: Net) {
    && Shape(net)
    && (forall x: nat | x < net.n :: Sockets(net, x) && UpToDate(net, x))
    && (forall x: nat, k: nat | x < net.n && k < |net.said[x]| :: SaysTrue(net, x, k))
    && (forall x: nat, y: nat | x < net.n && y in net.peers[x] && x in net.peers[y] :: Greeted(net, x, y))
    && (forall x: nat, s | x < net.n && s in net.known[x] :: HeardOf(net, x, s))
  }

  lemma OpenNode(net: Net, x: nat, y: nat, how: How, a: nat)
    requires Views(net) && Enabled(net, OpenLink(x, y, how)) && a < net.n
    ensures var net' := Next(net, OpenLink(x, y, how));
            && Shape(net') && net'.n == net.n && Sockets(net', a) && UpToDate(net', a)
  {
    hide AllRecords, Greeted, SaysTrue, HeardOf;
    assert Sockets(net, a) && UpToDate(net, a);
  }

  lemma OpenViews(net: Net, x: nat, y: nat, how: How)
    requires Inv(net) && Views(net) && Enabled(net, OpenLink(x, y, how))
    ensures Views(Next(net, OpenLink(x, y, how)))
  {
    OpenGreeted(net, x, y, how);
    hide Inv, AllRecords, Greeted, Listed, UpToDate, Sockets;
    var net' := Next(net, OpenLink(x, y, how));
    forall a: nat | a < net.n
      ensures Sockets(net', a) && UpToDate(net', a)
    {
      OpenNode(net, x, y, how, a);
    }
    forall a: nat, k: nat | a < net.n && k < |net'.said[a]|
      ensures SaysTrue(net', a, k)
    {
      assert SaysTrue(net, a, k);
    }
    forall a: nat, s | a < net.n && s in net'.known[a]
      ensures HeardOf(net', a, s)
    {
      assert HeardOf(net, a, s);
    }
  }

  lemma OpenGreeted(net: Net, x: nat, y: nat, how: How)
    requires Inv(net) && Views(net) && Enabled(net, OpenLink(x, y, how))
    ensures var net' := Next(net, OpenLink(x, y, how));
            forall a: nat, b: nat | a < net.n && b in net'.peers[a] && a in net'.peers[b] ::
              b < net.n && Greeted(net', a, b)
  {
    hide RecordsTrue, SendersKnow, LinksTold, AllRecords, Listed, UpToDate, Sockets;
    var net' := Next(net, OpenLink(x, y, how));
    forall a: nat, b: nat | a < net.n && b in net'.peers[a] && a in net'.peers[b]
      ensures b < net.n && Greeted(net', a, b)
    {
      if b in net.peers[a] && a in net.peers[b] {
        assert Greeted(net, a, b);
      }
    }
  }

  /** Of the addresses listed only sockets are no peers met. */
  lemma ListedMet(net: Net, x: nat, a: Address)
    requires Shape(net) && x < net.n && Sockets(net, x) && a in Listed(net, x) && a < net.n
    ensures a in net.met[x] && a in net.peers[x]
  {
  }

  lemma SpeakViews(net: Net, x: nat, payload: seq<Address>)
    requires Views(net) && x < net.n && Members(payload) == Listed(net, x)
    ensures Views(Originate(net, x, payload))
  {
    var net' := Originate(net, x, payload);
    hide Broadcast;
    SpeakTruth(net, x, payload);
    forall a: nat | a < net.n
      ensures Sockets(net', a) && UpToDate(net', a)
    {
      assert Sockets(net, a) && UpToDate(net, a);
    }
    forall a: nat, b: nat | a < net.n && b in net'.peers[a] && a in net'.peers[b]
      ensures Greeted(net', a, b)
    {
      assert Greeted(net, a, b);
    }
    forall a: nat, s | a < net.n && s in net'.known[a]
      ensures HeardOf(net', a, s)
    {
      assert HeardOf(net, a, s);
    }
  }

  lemma SpeakTruth(net: Net, x: nat, payload: seq<Address>)
    requires Views(net) && x < net.n && Members(payload) == Listed(net, x)
    ensures var net' := Originate(net, x, payload);
            Shape(net') && forall a: nat, k: nat | a < net.n && k < |net'.said[a]| :: SaysTrue(net', a, k)
  {
    var net' := Originate(net, x, payload);
    hide Broadcast, Listed, UpToDate;
    forall a: nat, k: nat | a < net.n && k < |net'.said[a]|
      ensures SaysTrue(net', a, k)
    {
      if k < |net.said[a]| {
        assert SaysTrue(net, a, k);
      } else {
        forall b | b in payload && b < net.n
          ensures b in net.peers[x]
        {
          assert b in Members(payload) && Sockets(net, x);
          ListedMet(net, x, b);
        }
      }
    }
  }

  lemma HearSockets(net: Net, m: Message, payload: seq<Address>, a: nat)
    requires Views(net) && Enabled(net, DeliverHello(m, payload)) && Honest(net, DeliverHello(m, payload)) && a < net.n
    ensures var net' := Next(net, DeliverHello(m, payload));
            && Shape(net') && Sockets(net', a) && UpToDate(net', a)
            && Listed(net', m.to) == Members(payload)
  {
    hide Broadcast, SaysTrue, Greeted, HeardOf;
    assert Sockets(net, a) && UpToDate(net, a);
    var net' := Next(net, DeliverHello(m, payload));
    assert Listed(net', m.to) == Listed(Hear(net, m.to, m.from), m.to);
  }

  lemma HelloTruth(net: Net, m: Message, payload: seq<Address>, a: nat, k: nat)
    requires Views(net) && Enabled(net, DeliverHello(m, payload)) && Honest(net, DeliverHello(m, payload)) && a < net.n
    ensures var net' := Next(net, DeliverHello(m, payload));
            Shape(net') && a < |net'.said| && (k < |net'.said[a]| ==> SaysTrue(net', a, k))
  {
    hide Broadcast, UpToDate, Greeted, HeardOf;
    var net' := Next(net, DeliverHello(m, payload));
    if k < |net.said[a]| {
      assert SaysTrue(net, a, k);
    } else if k < |net'.said[a]| {
      HearSockets(net, m, payload, a);
      forall b | b in payload && b < net.n
        ensures b in net'.peers[a]
      {
        assert b in Members(payload);
        ListedMet(net', a, b);
      }
    }
  }

  lemma HelloGreeted(net: Net, m: Message, payload: seq<Address>, a: nat, b: nat)
    requires Views(net) && Enabled(net, DeliverHello(m, payload)) && m.from < net.n
    requires a < net.n && b in net.peers[a] && a in net.peers[b]
    ensures var net' := Next(net, DeliverHello(m, payload)); Shape(net') && net'.n == net.n && Greeted(net', a, b)
  {
    hide Broadcast, UpToDate, HeardOf, Listed, SaysTrue;
    assert Greeted(net, a, b);
    var net' := Next(net, DeliverHello(m, payload));
    if Hello(b, a) in net.flight && m != Hello(b, a) {
      assert Hello(b, a) in net'.flight;
    }
  }

  lemma HelloViews(net: Net, m: Message, payload: seq<Address>)
    requires Views(net) && Enabled(net, DeliverHello(m, payload)) && Honest(net, DeliverHello(m, payload))
    ensures Views(Next(net, DeliverHello(m, payload)))
  {
    var net' := Next(net, DeliverHello(m, payload));
    hide Broadcast, UpToDate, Sockets, SaysTrue, Greeted, Listed, Honest;
    forall a: nat | a < net.n
      ensures Sockets(net', a) && UpToDate(net', a)
    {
      HearSockets(net, m, payload, a);
    }
    forall a: nat, k: nat | a < net.n && k < |net'.said[a]|
      ensures SaysTrue(net', a, k)
    {
      HelloTruth(net, m, payload, a, k);
    }
    forall a: nat, b: nat | a < net.n && b in net'.peers[a] && a in net'.peers[b]
      ensures Greeted(net', a, b)
    {
      HelloGreeted(net, m, payload, a, b);
    }
    forall a: nat, s | a < net.n && s in net'.known[a]
      ensures HeardOf(net', a, s)
    {
      assert HeardOf(net, a, s);
    }
  }

  /** What the handling of gossip changes in names and graphs: nothing, unless it is news. */
  lemma HandledNames(net: Net, m: Message)
    requires Shape(net) && Enabled(net, DeliverGossip(m))
    ensures var net' := Handled(net, m);
            && Shape(net') && net'.n == net.n && net'.met == net.met && net'.socket == net.socket
            && (!News(net, m) ==> net'.names == net.names && net'.seen == net.seen)
            && (News(net, m) ==>
                  && net'.names == net.names[m.to := net.names[m.to] + Members(m.rec.payload)]
                  && net'.seen == net.seen[m.to := Sight(net'.names[m.to], net'.known[m.to], Listed(net', m.to))])
  {
  }

  lemma SameNode(net: Net, net': Net, a: nat)
    requires Shape(net) && Shape(net') && net'.n == net.n && a < net.n && net'.peers[a] == net.peers[a]
    requires net'.met[a] == net.met[a] && net'.socket[a] == net.socket[a] && net'.said[a] == net.said[a]
    ensures Listed(net', a) == Listed(net, a) && Latest(net', a) == Latest(net, a)
    ensures Sockets(net', a) <==> Sockets(net, a)
  {
  }

  lemma GossipNode(net: Net, m: Message, a: nat)
    requires Views(net) && Enabled(net, DeliverGossip(m)) && a < net.n
    ensures var net' := Handled(net, m); Shape(net') && net'.n == net.n && Sockets(net', a) && UpToDate(net', a)
  {
    HandledParts(net, m);
    HandledNames(net, m);
    assert Sockets(net, a) && UpToDate(net, a);
    SameNode(net, Handled(net, m), a);
    hide Handled, News, Views, Sockets, Listed, Latest;
  }

  lemma GossipSaid(net: Net, m: Message)
    requires Views(net) && Enabled(net, DeliverGossip(m))
    ensures var net' := Handled(net, m);
            && Shape(net') && net'.n == net.n
            && (forall a: nat, k: nat | a < net.n && k < |net'.said[a]| :: SaysTrue(net', a, k))
            && (forall a: nat, b: nat | a < net.n && b in net'.peers[a] && a in net'.peers[b] ::
                  b < net.n && Greeted(net', a, b))
  {
    HandledParts(net, m);
    HandledNames(net, m);
    hide Handled, News, UpToDate, Sockets, HeardOf;
    var net' := Handled(net, m);
    forall a: nat, k: nat | a < net.n && k < |net'.said[a]|
      ensures SaysTrue(net', a, k)
    {
      assert SaysTrue(net, a, k);
    }
    forall a: nat, b: nat | a < net.n && b in net'.peers[a] && a in net'.peers[b]
      ensures b < net.n && Greeted(net', a, b)
    {
      assert Greeted(net, a, b);
    }
  }

  lemma GossipHeard(net: Net, m: Message, a: nat, s: nat)
    requires Views(net) && Enabled(net, DeliverGossip(m)) && Shape(Handled(net, m))
    requires a < net.n && s in Handled(net, m).known[a]
    ensures HeardOf(Handled(net, m), a, s)
  {
    HandledParts(net, m);
    HandledNames(net, m);
    hide Handled, News, UpToDate, Sockets, SaysTrue, Greeted, Listed;
    assert s in net.known[a] ==> HeardOf(net, a, s);
  }

  lemma GossipViews(net: Net, m: Message)
    requires Views(net) && Enabled(net, DeliverGossip(m))
    ensures Views(Next(net, DeliverGossip(m)))
  {
    GossipSaid(net, m);
    hide Sockets, UpToDate, SaysTrue, Greeted, HeardOf, HandleGossip;
    var net' := Handled(net, m);
    forall a: nat | a < net.n
      ensures Sockets(net', a) && UpToDate(net', a)
    {
      GossipNode(net, m, a);
    }
    forall a: nat, s | a < net.n && s in net'.known[a]
      ensures HeardOf(net', a, s)
    {
      GossipHeard(net, m, a, s);
    }
  }

  lemma StepViews(net: Net, step: Step)
    requires Inv(net) && Views(net) && Enabled(net, step) && Honest(net, step)
    ensures Views(Next(net, step))
  {
    hide Inv, Views;
    match step
    case OpenLink(x, y, how) => OpenViews(net, x, y, how);
    case Speak(x, payload) => SpeakViews(net, x, payload);
    case DeliverGossip(m) => GossipViews(net, m);
    case DeliverHello(m, payload) => HelloViews(net, m, payload);
  }

  lemma {:induction false} RunViews(run: seq<Net>, steps: seq<Step>, i: nat)
    requires HonestRun(run, steps) && i < |run|
    ensures Inv(run[i]) && Views(run[i])
  {
    hide Inv, Views, Next, Enabled, Honest, Start;
    RunInv(run, steps, i);
    if i == 0 {
      StartViews(run[0]);
    } else {
      RunViews(run, steps, i - 1);
      StepViews(run[i - 1], steps[i - 1]);
    }
  }

  lemma StartViews(net: Net)
    requires Start(net)
    ensures Views(net)
  {
    forall x: nat | x < net.n
      ensures net.known[x] == map[] && net.said[x] == [] && net.peers[x] == {} && Sockets(net, x) && UpToDate(net, x)
    {
      assert Blank(net, x);
    }
  }

  // ---------------------------------------------------------------- nothing comes in from elsewhere

  /** No connection leads out of `group`. */
  ghost predicate Closed(net: Net, group: set<nat>)
    requires Shape(net)
  {
    forall x | x in group :: x < net.n && net.peers[x] <= group
  }

  /** Among these addresses there are no nodes but those of the group. */
  predicate Within(net: Net, addresses: set<Address>, group: set<nat>) {
    forall a | a in addresses && a < net.n :: a in group
  }

  /** The nodes of a closed group know of no other nodes. */
  ghost predicate Inward(net: Net, group: set<nat>) {
    && Shape(net)
    && (forall x | x in group && x < net.n :: net.known[x].Keys <= group && Within(net, net.names[x], group))
    && (forall m | m in net.flight && m.Gossip? && m.from in group :: m.rec.src in group)
  }

  lemma SaidWithin(net: Net, group: set<nat>, rec: Record)
    requires Views(net) && Closed(net, group) && Truthful(net, rec) && rec.src in group
    ensures Within(net, Members(rec.payload), group)
  {
    assert SaysTrue(net, rec.src, rec.counter - 1);
  }

  lemma OpenSource(net: Net, x: nat, y: nat, m: Message, group: set<nat>)
    requires Inv(net) && Inward(net, group) && x < net.n && y < net.n && x != y
    requires m in Open(net, x, y).flight && m.Gossip? && m.from in group
    ensures m.rec.src in group
  {
    OpenMessage(net, x, y, m);
    hide LinksTold, HellosWait, SendersKnow, RecordsTrue, Open;
  }

  lemma OpenInward(net: Net, x: nat, y: nat, how: How, group: set<nat>)
    requires Inv(net) && Inward(net, group) && Enabled(net, OpenLink(x, y, how))
    ensures Inward(Next(net, OpenLink(x, y, how)), group)
  {
    hide LinksTold, HellosWait, SendersKnow, RecordsTrue, AllRecords;
    var net' := Next(net, OpenLink(x, y, how));
    forall m | m in net'.flight && m.Gossip? && m.from in group
      ensures m.rec.src in group
    {
      OpenSource(net, x, y, m, group);
    }
    forall a | a in group && a < net.n
      ensures Within(net', net'.names[a], group)
    {
      assert Within(net, net.names[a], group);
    }
  }

  lemma SpeakInward(net: Net, x: nat, payload: seq<Address>, group: set<nat>)
    requires Inward(net, group) && x < net.n
    ensures Inward(Originate(net, x, payload), group)
  {
    forall a | a in group && a < net.n
      ensures Within(Originate(net, x, payload), net.names[a], group)
    {
      assert Within(net, net.names[a], group);
    }
  }

  lemma HelloInward(net: Net, m: Message, payload: seq<Address>, group: set<nat>)
    requires Inward(net, group) && Closed(net, group) && Enabled(net, DeliverHello(m, payload))
    ensures Inward(Next(net, DeliverHello(m, payload)), group)
  {
    hide Broadcast, Listed;
    var net' := Next(net, DeliverHello(m, payload));
    forall a | a in group && a < net.n
      ensures Within(net', net'.names[a], group)
    {
      assert Within(net, net.names[a], group);
    }
  }

  lemma GossipFromWithin(net: Net, m: Message, group: set<nat>)
    requires Inv(net) && Views(net) && Closed(net, group) && Inward(net, group) && Enabled(net, DeliverGossip(m))
    requires m.to in group
    ensures m.rec.src in group && Within(net, Members(m.rec.payload), group)
  {
    hide LinksTold, HellosWait, SendersKnow, UpToDate, Sockets, HeardOf, SaysTrue;
    assert Truthful(net, m.rec);
    assert m.from in net.peers[m.to];
    SaidWithin(net, group, m.rec);
  }

  lemma HandledInward(net: Net, m: Message, group: set<nat>)
    requires Inward(net, group) && Enabled(net, DeliverGossip(m))
    requires m.to in group ==> m.rec.src in group && Within(net, Members(m.rec.payload), group)
    ensures Inward(Handled(net, m), group)
  {
    HandledParts(net, m);
    HandledNames(net, m);
    hide Handled, News, Shape;
    var net' := Handled(net, m);
    forall k | k in net'.flight && k.Gossip? && k.from in group
      ensures k.rec.src in group
    {
      assert k in net.flight || Relay(net, m, k);
    }
    forall x | x in group && x < net.n
      ensures net'.known[x].Keys <= group && Within(net', net'.names[x], group)
    {
      assert net.known[x].Keys <= group && Within(net, net.names[x], group);
    }
  }

  lemma GossipInward(net: Net, m: Message, group: set<nat>)
    requires Inv(net) && Views(net) && Closed(net, group) && Inward(net, group) && Enabled(net, DeliverGossip(m))
    ensures Inward(Next(net, DeliverGossip(m)), group)
  {
    hide Inv, Views, Closed, Inward, HandleGossip;
    if m.to in group {
      GossipFromWithin(net, m, group);
    }
    HandledInward(net, m, group);
  }

  lemma StepInward(net: Net, step: Step, group: set<nat>)
    requires Inv(net) && Views(net) && Closed(net, group) && Inward(net, group) && Enabled(net, step)
    ensures Inward(Next(net, step), group)
  {
    hide Inv, Views, Inward, Closed;
    match step
    case OpenLink(x, y, how) => OpenInward(net, x, y, how, group);
    case Speak(x, payload) => SpeakInward(net, x, payload, group);
    case DeliverGossip(m) => GossipInward(net, m, group);
    case DeliverHello(m, payload) => HelloInward(net, m, payload, group);
  }

  /** Connections are never given up, so a group closed at the end was closed all along. */
  lemma StepClosed(net: Net, step: Step, group: set<nat>)
    requires Shape(net) && Enabled(net, step) && Shape(Next(net, step)) && Closed(Next(net, step), group)
    ensures Closed(net, group)
  {
    forall x | x in group
      ensures x < net.n && net.peers[x] <= group
    {
      assert net.peers[x] <= Next(net, step).peers[x];
    }
  }

  lemma {:induction false} ClosedBefore(run: seq<Net>, steps: seq<Step>, i: nat, j: nat, group: set<nat>)
    requires IsRun(run, steps) && i <= j < |run| && Closed(run[j], group)
    ensures Closed(run[i], group)
  {
    hide Next, Enabled, Closed;
    if i < j {
      StepClosed(run[j - 1], steps[j - 1], group);
      ClosedBefore(run, steps, i, j - 1, group);
    }
  }

  lemma {:induction false} RunInward(run: seq<Net>, steps: seq<Step>, i: nat, j: nat, group: set<nat>)
    requires HonestRun(run, steps) && i <= j < |run| && Closed(run[j], group)
    ensures Inward(run[i], group)
  {
    hide Next, Enabled, Closed, Inward, Honest, Views;
    if i == 0 {
      StartInward(run[0], group);
    } else {
      RunInward(run, steps, i - 1, j, group);
      RunViews(run, steps, i - 1);
      ClosedBefore(run, steps, i - 1, j, group);
      StepInward(run[i - 1], steps[i - 1], group);
    }
  }

  lemma StartInward(net: Net, group: set<nat>)
    requires Start(net)
    ensures Inward(net, group)
  {
    forall x | x in group && x < net.n
      ensures net.known[x] == map[] && net.names[x] == {x}
    {
      assert Blank(net, x);
    }
  }
}
