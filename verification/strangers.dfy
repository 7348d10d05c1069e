/** Socket addresses on the node lists: which nodes get them, and when none does. */
module Strangers {
  import opened GossipTable
  import opened Flooding
  import opened FloodingProof
  import opened Convergence
  import opened EndToEnd

  /** Some of these addresses are not nodes but sockets. */
  predicate Strange(net: Net, addresses: set<Address>) {
    exists a :: a in addresses && a >= net.n
  }

  /** In this step x takes in news that lists a socket. */
  predicate HearsStranger(net: Net, step: Step, x: nat)
    requires Shape(net) && Enabled(net, step)
  {
    step.DeliverGossip? && step.m.to == x && News(net, step.m) && Strange(net, Members(step.m.rec.payload))
  }

  lemma GossipStrange(net: Net, m: Message, x: nat)
    requires Shape(net) && Enabled(net, DeliverGossip(m)) && x < net.n
    ensures var net' := Next(net, DeliverGossip(m));
            && Shape(net') && net'.n == net.n
            && (Strange(net', net'.names[x]) <==> Strange(net, net.names[x]) || HearsStranger(net, DeliverGossip(m), x))
  {
    HandledNames(net, m);
    hide HandleGossip, News;
  }

  lemma HelloStrange(net: Net, m: Message, payload: seq<Address>, x: nat)
    requires Inv(net) && Enabled(net, DeliverHello(m, payload)) && x < net.n
    ensures var net' := Next(net, DeliverHello(m, payload));
            && Shape(net') && net'.n == net.n
            && (Strange(net', net'.names[x]) <==> Strange(net, net.names[x]))
  {
    hide RecordsTrue, LinksTold, HellosWait, Broadcast, Listed;
    assert m.from < net.n;
  }

  lemma StepStrange(net: Net, step: Step, x: nat)
    requires Inv(net) && Enabled(net, step) && x < net.n
    ensures var net' := Next(net, step);
            && Shape(net') && net'.n == net.n
            && (Strange(net', net'.names[x]) <==> Strange(net, net.names[x]) || HearsStranger(net, step, x))
  {
    match step
    case DeliverGossip(m) => GossipStrange(net, m, x);
    case DeliverHello(m, payload) => HelloStrange(net, m, payload, x);
    case _ =>
  }

  ghost predicate HeardAt(run: seq<Net>, steps: seq<Step>, k: nat, x: nat)
    requires IsRun(run, steps)
  {
    k < |steps| && HearsStranger(run[k], steps[k], x)
  }

  /** A node's list holds a socket address exactly if the node has taken in news that listed one. */
  lemma {:induction false} RunStrange(run: seq<Net>, steps: seq<Step>, i: nat, x: nat)
    requires IsRun(run, steps) && Start(run[0]) && i < |run| && x < run[0].n
    ensures run[i].n == run[0].n
    ensures Strange(run[i], run[i].names[x]) <==> exists k: nat :: k < i && HeardAt(run, steps, k, x)
  {
    hide Next, Enabled, HearsStranger, Inv, News, Strange;
    if i == 0 {
      StartPlain(run[0], x);
    } else {
      RunStrange(run, steps, i - 1, x);
      RunInv(run, steps, i - 1);
      StepStrange(run[i - 1], steps[i - 1], x);
      assert HeardAt(run, steps, i - 1, x) <==> HearsStranger(run[i - 1], steps[i - 1], x);
    }
  }

  lemma StartPlain(net: Net, x: nat)
    requires Start(net) && x < net.n
    ensures !Strange(net, net.names[x])
  {
    assert Blank(net, x);
  }

  /** In a settled network a node's list is exactly its component if and only if the node has never taken in
      news that listed a socket. */
  lemma NamesExactly(run: seq<Net>, steps: seq<Step>, i: nat, group: set<nat>, hub: nat, x: nat)
    requires HonestRun(run, steps) && i < |run| && Quiet(run[i]) && Component(run[i], group, hub) && x in group
    ensures x < run[i].n
    ensures run[i].names[x] == group <==> !exists k: nat :: k < i && HeardAt(run, steps, k, x)
  {
    var net := run[i];
    RunSettled(run, steps, i, group, hub);
    hide Settled, Inv, Views, Inward, Enabled, Next, HeardAt;
    NodesKept(run, steps, i);
    NamesComplete(net, group, hub, x);
    RunStrange(run, steps, i, x);
    if !Strange(net, net.names[x]) {
      assert net.names[x] == set a | a in net.names[x] && a < net.n;
    } else {
      var a :| a in net.names[x] && a >= net.n;
    }
  }

  lemma {:induction false} NodesKept(run: seq<Net>, steps: seq<Step>, i: nat)
    requires IsRun(run, steps) && i < |run|
    ensures run[i].n == run[0].n
  {
    hide Broadcast, AllRecords, Listed;
    if i > 0 {
      NodesKept(run, steps, i - 1);
    }
  }

  // ---------------------------------------------------------------- when nobody hears of a socket

  /** If a node of the group speaks in this step, all connections it has accepted have said hello. */
  predicate Introduced(net: Net, step: Step, group: set<nat>)
    requires Shape(net) && Enabled(net, step)
  {
    match step
    case Speak(x, _) => x in group ==> net.socket[x].Keys <= net.met[x]
    case DeliverHello(m, _) => m.to in group ==> net.socket[m.to].Keys <= net.met[m.to] + {m.from}
    case _ => true
  }

  predicate SaysPlain(net: Net, x: nat, k: nat)
    requires Shape(net) && x < net.n && k < |net.said[x]|
  {
    !Strange(net, Members(net.said[x][k]))
  }

  ghost predicate Plain(net: Net, group: set<nat>)
    requires Shape(net)
  {
    forall x, k: nat | x in group && x < net.n && k < |net.said[x]| :: SaysPlain(net, x, k)
  }

  /** Where every accepted connection has said hello, nodes only are listed. */
  lemma PlainListed(net: Net, x: nat)
    requires Shape(net) && x < net.n && Sockets(net, x) && net.socket[x].Keys <= net.met[x]
    ensures !Strange(net, Listed(net, x))
  {
    assert Listed(net, x) == net.met[x];
  }

  lemma HearPlain(net: Net, m: Message)
    requires Inv(net) && Views(net) && Enabled(net, DeliverHello(m, []))
    requires net.socket[m.to].Keys <= net.met[m.to] + {m.from}
    ensures m.from < net.n && !Strange(net, Listed(Hear(net, m.to, m.from), m.to))
  {
    hide RecordsTrue, LinksTold, HellosWait, SaysTrue, Greeted, HeardOf, UpToDate;
    assert Sockets(net, m.to);
    var heard := Hear(net, m.to, m.from);
    assert Listed(heard, m.to) == net.met[m.to] + {m.from};
  }

  lemma SpokenPlain(net: Net, x: nat, payload: seq<Address>, group: set<nat>)
    requires Shape(net) && Plain(net, group) && x < net.n && (x in group ==> !Strange(net, Members(payload)))
    ensures Plain(Originate(net, x, payload), group)
  {
    var net' := Originate(net, x, payload);
    hide Broadcast, Strange;
    forall a, k: nat | a in group && a < net'.n && k < |net'.said[a]|
      ensures SaysPlain(net', a, k)
    {
      assert k < |net.said[a]| ==> SaysPlain(net, a, k);
      StrangeSame(net, net', Members(net'.said[a][k]));
    }
  }

  lemma StrangeSame(net: Net, net': Net, addresses: set<Address>)
    requires net'.n == net.n
    ensures Strange(net', addresses) <==> Strange(net, addresses)
  {
  }

  lemma SaidPlain(net: Net, net': Net, group: set<nat>)
    requires Shape(net) && Shape(net') && net'.n == net.n && net'.said == net.said && Plain(net, group)
    ensures Plain(net', group)
  {
    forall a, k: nat | a in group && a < net'.n && k < |net'.said[a]|
      ensures SaysPlain(net', a, k)
    {
      assert SaysPlain(net, a, k);
    }
  }

  lemma GossipPlain(net: Net, m: Message, group: set<nat>)
    requires Shape(net) && Plain(net, group) && Enabled(net, DeliverGossip(m))
    ensures Shape(Handled(net, m)) && Plain(Handled(net, m), group)
  {
    HandledParts(net, m);
    hide Handled, News, Plain;
    SaidPlain(net, Handled(net, m), group);
  }

  lemma OpenPlain(net: Net, x: nat, y: nat, how: How, group: set<nat>)
    requires Shape(net) && Plain(net, group) && Enabled(net, OpenLink(x, y, how))
    ensures Shape(Next(net, OpenLink(x, y, how))) && Plain(Next(net, OpenLink(x, y, how)), group)
  {
    hide Plain, AllRecords;
    SaidPlain(net, Next(net, OpenLink(x, y, how)), group);
  }

  lemma HelloPlain(net: Net, m: Message, payload: seq<Address>, group: set<nat>)
    requires Shape(net) && Plain(net, group) && Enabled(net, DeliverHello(m, payload)) && m.from < net.n
    requires m.to in group ==> !Strange(net, Members(payload))
    ensures var net' := Next(net, DeliverHello(m, payload)); Shape(net') && Plain(net', group)
  {
    hide Plain, Broadcast, Listed, Strange;
    var mid := Take(net, m);
    SaidPlain(net, mid, group);
    StrangeSame(net, mid, Members(payload));
    SpokenPlain(mid, m.to, payload, group);
    SaidPlain(Originate(mid, m.to, payload), Next(net, DeliverHello(m, payload)), group);
  }

  lemma HelloSpeech(net: Net, m: Message, payload: seq<Address>, group: set<nat>)
    requires Inv(net) && Views(net)
    requires var step := DeliverHello(m, payload);
             Enabled(net, step) && Honest(net, step) && Introduced(net, step, group)
    ensures m.from < net.n && (m.to in group ==> !Strange(net, Members(payload)))
  {
    if m.to in group {
      HearPlain(net, m);
    }
    hide RecordsTrue, LinksTold, HellosWait, Views;
  }

  lemma StepPlain(net: Net, step: Step, group: set<nat>)
    requires Inv(net) && Views(net) && Enabled(net, step) && Honest(net, step) && Introduced(net, step, group)
    requires Plain(net, group)
    ensures Shape(Next(net, step)) && Plain(Next(net, step), group)
  {
    hide Inv, Plain, Broadcast, HandleGossip, Open, Listed, UpToDate, Greeted, HeardOf, SaysTrue, Strange;
    match step
    case OpenLink(x, y, how) => OpenPlain(net, x, y, how, group);
    case Speak(x, payload) =>
      if x in group {
        PlainListed(net, x);
      }
      SpokenPlain(net, x, payload, group);
    case DeliverGossip(m) => GossipPlain(net, m, group);
    case DeliverHello(m, payload) =>
      HelloSpeech(net, m, payload, group);
      HelloPlain(net, m, payload, group);
  }

  /** No node of the group has spoken in the first `i` steps while a connection it had accepted had not said hello. */
  ghost predicate AllIntroduced(run: seq<Net>, steps: seq<Step>, i: nat, group: set<nat>)
    requires IsRun(run, steps)
  {
    forall k | 0 <= k < i && k < |steps| :: Introduced(run[k], steps[k], group)
  }

  lemma {:induction false} RunPlain(run: seq<Net>, steps: seq<Step>, i: nat, group: set<nat>)
    requires HonestRun(run, steps) && i < |run| && AllIntroduced(run, steps, i, group)
    ensures Plain(run[i], group)
  {
    hide Next, Enabled, Honest, Introduced, Inv, Views;
    if i == 0 {
      StartSilent(run[0], group);
    } else {
      RunPlain(run, steps, i - 1, group);
      RunViews(run, steps, i - 1);
      StepPlain(run[i - 1], steps[i - 1], group);
    }
  }

  lemma StartSilent(net: Net, group: set<nat>)
    requires Start(net)
    ensures Plain(net, group)
  {
    forall x | x in group && 0 <= x < net.n
      ensures net.said[x] == []
    {
      assert Blank(net, x);
    }
  }

  lemma NothingStrange(net: Net, step: Step, group: set<nat>, x: nat)
    requires Inv(net) && Views(net) && Closed(net, group) && Inward(net, group) && Plain(net, group)
    requires Enabled(net, step) && x in group && x < net.n
    ensures !HearsStranger(net, step, x)
  {
    if step.DeliverGossip? && step.m.to == x {
      GossipFromWithin(net, step.m, group);
      hide LinksTold, HellosWait, SendersKnow, Views, Inward;
      assert Truthful(net, step.m.rec);
      assert SaysPlain(net, step.m.rec.src, step.m.rec.counter - 1);
    }
  }

  /** If no node of a component ever speaks while a connection it has accepted has not said hello, all its nodes
      have exactly the component on their lists once the network has settled. */
  lemma IntroducedNames(run: seq<Net>, steps: seq<Step>, i: nat, group: set<nat>, hub: nat, x: nat)
    requires HonestRun(run, steps) && i < |run| && Quiet(run[i]) && Component(run[i], group, hub) && x in group
    requires AllIntroduced(run, steps, i, group)
    ensures x < run[i].n && run[i].names[x] == group
  {
    hide Next, Enabled, Honest, Introduced, HearsStranger, Inv, Views, Plain, Inward, Closed;
    forall k: nat | k < i
      ensures !HeardAt(run, steps, k, x)
    {
      RunViews(run, steps, k);
      RunPlain(run, steps, k, group);
      ComponentClosed(run[i], group, hub);
      ClosedBefore(run, steps, k, i, group);
      RunInward(run, steps, k, i, group);
      NodesKept(run, steps, k);
      NodesKept(run, steps, i);
      ClosedInRange(run[i], group, x);
      NothingStrange(run[k], steps[k], group, x);
    }
    NamesExactly(run, steps, i, group, hub, x);
  }

  lemma ComponentClosed(net: Net, group: set<nat>, hub: nat)
    requires Shape(net) && Component(net, group, hub)
    ensures Closed(net, group)
  {
  }

  lemma ClosedInRange(net: Net, group: set<nat>, x: nat)
    requires Shape(net) && Closed(net, group) && x in group
    ensures x < net.n
  {
  }
}
